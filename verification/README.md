# Verified model of the private AI workspace's decision logic

This project models the parts of the control plane that decide things, and proves what they
promise over all inputs, all runs and all interleavings:

* **Install protocol.** Concurrent create handlers, one reconciler, the request store and the
  served model as a step system. Every client call may return, raise without effect, or take
  effect and raise.
* **Agent loop.** The scanner that picks a JSON object out of untrusted prose, shown equal to a
  search over all substrings, and the bounded loop around it with its accounts.
* **Retrieval.** Greedy chunking, signed-hash embeddings with dot-product ranking, and the merge
  of corpus and web passages of a research run.
* **Notifications, end to end.** The bounded buffer, the polling push stream, its frames, the
  browser's incremental parser and its list.
* **Two stacked caches.** Resolved secrets and the tokens minted from them.
* **Rate limiter and job runner.** A sliding-interval bound, and a polling loop with a bound on
  its polls and a cleanup guarantee.

Code that updates state is a class or a method with loops, tied by its contract to a
specification function or predicate; the properties are lemmas about that specification.
Everything outside (models, clusters, clocks, stores of secrets, tools, hashes, the JSON
library) is an arbitrary function, so each statement holds whatever it answers.

## Files

| file | models |
|---|---|
| `Common.dfy`, `Text.dfy`, `Json.dfy` | counting, the stable sort; Python white space; JSON texts as RFC 8259 and as Python reads them, their parsing and `json.dumps` |
| `ActionParser.dfy`, `StrictSearch.dfy`, `AgentLoop.dfy`, `AgentRuns.dfy` | `agent_loop.py` |
| `RateLimiter.dfy` | `RateLimiter` of `agent_tools.py` |
| `ModelRequests.dfy`, `RequestBody.dfy`, `CreateRequest.dfy`, `InstallProtocol.dfy`, `InstallRuns.dfy`, `InstallLifecycle.dfy`, `InstallCap.dfy`, `InstallRace.dfy`, `InstallOrder.dfy`, `Reconciler.dfy`, `InstallStuck.dfy`, `InstallVerdict.dfy` | `model_requests.py`, `reconciler.py` |
| `Chunking.dfy`, `Embeddings.dfy`, `Retrieval.dfy`, `DeepResearch.dfy`, `ResearchRuns.dfy` | `retrieval.py`, `embeddings.py`, `deep_research.py` |
| `Notifications.dfy`, `NotificationStream.dfy`, `EventStream.dfy`, `NotificationClient.dfy` | `notifications.py`, two functions of `app.js` |
| `Secrets.dfy`, `Integrations.dfy` | `integration_secrets.py`, `integrations.py` |
| `JobRunner.dfy` | `jobrunner.py` |

`dafny verify dfyconfig.toml` checks all of it.

## What the proofs found

* `run_agent_loop` promises one terminal event, but two things go through it: a reply whose token
  count is infinite makes `int()` raise `OverflowError`, which `_tokens` does not catch, and a
  tool executor may raise (`job_executor.py` builds its request before its `try`, so a base URL
  without a scheme does). A run ends without a terminal event exactly if it gets, within all three
  budgets, to a call whose reply does one of these (`AgentLoops.Setup.RaisesExactly`; a first reply
  that does is in `AgentLoops.Setup.InfiniteCountRaises` and `AgentLoops.Setup.ToolRunRaises`).
* The scanner reads Python's dialect, in which `NaN` and `Infinity` are numbers. It agrees with
  a search for RFC 8259 objects exactly if it finds nothing or what it finds holds none of these
  constants (`StrictSearch.ScanAgreesExactly`); on `{"a":NaN} {"b":1}` it answers the first
  object and the strict search the second (`StrictSearch.NotANumberFirst`).
* A pattern ending in `$` also accepts one final newline, although the comments say the listed
  characters only. The create handler strips the repo first, so there it never shows
  (`CreateRequests.AcceptedIsClean`). It does not strip the revision: a recorded revision is none
  or a plain reference exactly if it does not end in a newline, and a good revision with a newline
  after it is recorded (`CreateRequests.AcceptedRevisionExactly`,
  `CreateRequests.NewlineRevisionRecorded`). A secret id has only the listed characters and
  slashes exactly if no component ends in a newline, and a tenant may end in one
  (`Secrets.IdCharsExactly`, `Secrets.NewlineTenantHasId`); ids stay injective all the same
  (`Secrets.SecretIdInjective`).
* The cap on open requests can be exceeded. Over all interleavings the most a tenant can have
  open is cap + max(1, max_concurrency) - 1 if the control plane takes anything in (its switch is
  on, cap and rate are positive and some repo is allowed), and none otherwise
  (`InstallRace.OpenBoundExact`).
* A request can get stuck: recorded as installing with no pass at work on it. One pass leaves it
  so exactly if it picks it for installation and the first status call raises having taken effect,
  or that call returns and the closing one has no effect (`InstallStuck.PassLeavesStuckExactly`,
  `InstallStuck.StuckRun`). No run takes it up again (`InstallStuck.StuckForEver`), and a tenant
  with as many of them as the cap is refused for good (`InstallStuck.StuckTenantIsShutOut`).
* Push order is publication order in every run, `mark_read` included, exactly if a poll shows
  the whole buffer (limit 0 or at least 200); the default limit of 50 does not
  (`NotificationStreams.OrderExactly`). Without `mark_read` the order always holds.
* A pass that starts with the last ready model served ends otherwise exactly when it gets to
  `set_model` for another repo and either the first of the two patches took effect before the call
  raised, or the load failed and there was no known model to go back to or the rollback failed
  (`Reconcilers.PassKeepsServedModel`; such a pass is `Reconcilers.HalfSetModel`). A later pass
  repairs that exactly if its own repo becomes ready, or if it is the last ready model and the
  pass leaves it set (`Reconcilers.PassRestoresExactly`).
* Requests are not always taken in the order of insertion, even by a perfect clock: a handler reads
  its time before it inserts, and one that read it earlier and inserts later overtakes
  (`InstallOrder.Overtaking`). The exact turn counts these (`InstallOrder.PickedInTurn`), and of two
  requests in line together the one inserted first is taken first exactly if its time is not the
  larger one (`InstallOrder.PairInOrderExactly`). Times
  that do not decrease from one insertion to the next are enough for first-in-first-out, equal
  ones included, because the sort is stable.
* The refusal of documents with more than 400 chunks never fires; 389 is the exact maximum.
* The limit per minute holds, whatever the rate and the number of slots, exactly if the clock never
  shows the tenant a minute again that it had left (`RateLimits.LimitKeptExactly`); steps back
  inside a minute do no harm. An interval of L seconds meets at most ceil((L-1)/60)+1 clock
  minutes, so that factor, not ceil(L/60)+1, bounds the accepted calls.
* A tool job is left in the cluster exactly if its creation took effect and raised, or its
  creation returned and its deletion had no effect (`JobRunners.JobLeftExactly`).
* A deleted credential serves until a cache lifetime after its deletion and no longer: every call
  after that ends without credentials (`Integrations.DeletedMeansNoCredentials`), and at any
  instant before it some run still sends the old ones (`Integrations.DeletionBoundAttained`).

## Model

| member | source | states |
|---|---|---|
| ActionParser.ObjectStopsPass | app/control_plane/agent_loop.py:103-132 | if `text[s..e]` is an object as `json.loads` reads it (RFC 8259, sections 4 and 7, with NaN, Infinity and -Infinity as further numbers) or as RFC 8259 has it, the depth/string/escape pass from `s` stops at `e` and nowhere earlier |
| ActionParser.ObjectEndUnique | app/control_plane/agent_loop.py:103-132 | at most one end makes `text[s..e]` an object, in either dialect |
| ActionParser.FirstObjectUnique | app/control_plane/agent_loop.py:96-132 | the search over all substrings has at most one answer, in either dialect |
| StrictSearch.SearchAnswers | app/control_plane/agent_loop.py:96-132 | and it has one |
| ActionParser.ExtractJsonObject | app/control_plane/agent_loop.py:96-132 | the scanner returns exactly what the search over all substrings returns: the object that starts first, or nothing if no substring is an object as `json.loads` reads it |
| StrictSearch.ScanAgreesExactly | app/control_plane/agent_loop.py:96-132 | the scanner's answer is that of the search over RFC 8259 objects if and only if nothing is found or the object found is one of RFC 8259; that is so exactly if its value holds none of Python's three constants |
| StrictSearch.NotANumberFirst | app/control_plane/agent_loop.py:124-132 | a text on which the two searches find different objects |
| ActionParser.ProseObjectSuffix | app/control_plane/agent_loop.py:96-132 | prose without braces, then a printed object, then any text whatever, yields that object |
| AgentLoops.ParseAction | app/control_plane/agent_loop.py:135-140 | the first object of the text if it has an "action" member, and nothing otherwise |
| AgentLoops.RunAgentLoop | app/control_plane/agent_loop.py:231-350 | for every model, tool and clock: every call is within the step, wall-clock and token budgets and carries the prompt, the user's request and one assistant and one feedback turn per earlier reply (each feedback the one its reply called for); each reply is followed by exactly the tool run or denial it asked for; tools run only if allow-listed and registered; the outcome is the one the replies and the budgets call for; one progress event, and exactly one terminal event unless the run raises |
| AgentLoops.Setup.ResultExactly | app/control_plane/agent_loop.py:269-350 | a result is the run's if and only if, by the replies, the tools and the clock alone, the run gets to some call and ends so after it |
| AgentLoops.Setup.RunIsDetermined | app/control_plane/agent_loop.py:269-350 | two runs on the same inputs have the same result and the same number of calls |
| AgentLoops.Setup.RaisesExactly | app/control_plane/agent_loop.py:219-350 | a run raises, and has no terminal event, if and only if it gets to a call whose reply has an infinite token count or asks for a tool run that raises |
| AgentLoops.Setup.InfiniteCountRaises | app/control_plane/agent_loop.py:219-225 | a first reply with an infinite count makes the run raise, if the budgets allow one call |
| AgentLoops.Setup.ToolRunRaises | app/control_plane/agent_loop.py:323-331 | so does a first reply that calls an allowed tool whose executor raises |
| AgentRuns.TokensFitBudget | app/control_plane/agent_loop.py:63-75 | if every reply before the last call reports at least u tokens, (calls - 1) * u is at most max_steps * max_tokens |
| AgentRuns.SomeReplyIsCostly | app/control_plane/agent_loop.py:269-282 | a run that ends for its tokens has a reply that reports more than max_tokens |
| AgentRuns.FrugalRunsAffordTokens | app/control_plane/agent_loop.py:269-282 | so if none does, no run ends for its tokens |
| AgentRuns.StepsAndClockFit | app/control_plane/agent_loop.py:265-270 | no more calls than max_steps, each within the wall clock; a run that ends for either has used it up |
| AgentRuns.OnlyAllowedToolsRun | app/control_plane/agent_loop.py:300-330 | whatever the replies say, a tool runs only if the tenant's own list and the registry have it, and by the executor the registry names |
| AgentRuns.FinalReplyCompletes | app/control_plane/agent_loop.py:294-296 | a run that gets to a reply with a printed final action completes with its answer |
| AgentRuns.CalledToolAnswers | app/control_plane/agent_loop.py:298-343 | what the next call carries after a reply that calls a tool: the denial, the missing executor or what the tool reported |
| AgentRuns.ArgumentsAnswer | app/control_plane/agent_loop.py:298-343 | the same with arguments, which are refused unless they are an object |
| AgentRuns.OtherActionIsUnknown | app/control_plane/agent_loop.py:345-347 | any other action is called unknown |
| AgentRuns.ProseIsNudged | app/control_plane/agent_loop.py:284-290 | a reply without a brace gets the nudge |
| AgentRuns.ObjectWithoutActionIsNudged | app/control_plane/agent_loop.py:135-140 | and so does one whose first object has no action |
| AgentLoops.Decide | app/control_plane/agent_loop.py:291-347 | a reply ends the run with its answer, gets the feedback turn and event its action calls for, or asks for a tool run that raises |
| AgentLoops.CallTool | app/control_plane/agent_loop.py:302-344 | a tool call is denied, refused for malformed arguments, refused for want of its executor, or run once and its observation fed back, or the run raises |
| AgentLoops.RunWithSlot | app/control_plane/agent_loop.py:410-429 | a run happens exactly if the limiter admits it, and the slot is given back once whether it returns or raises |
| Json.TreeUnique | app/control_plane/agent_loop.py:125-129 | the JSON grammar is unambiguous: a text followed by a delimiter has at most one tree, so parsing is a function |
| Json.LoadsIsDenotation | app/control_plane/agent_loop.py:125-129 | the parser returns what any tree of the text denotes |
| Json.EscapesMean | app/control_plane/agent_loop.py:125-129 | what each escape stands for (RFC 8259, section 7) |
| Json.DigitsMean | app/control_plane/agent_loop.py:125-129 | the hexadecimal digits of either case |
| Json.HexMeans | app/control_plane/agent_loop.py:125-129 | four of them are the unit they write |
| Json.ScalarsMean | app/control_plane/agent_loop.py:125-129 | the constants and numerals |
| Json.PlainMeans | app/control_plane/agent_loop.py:125-129 | other characters stand for themselves, in two surrogates beyond sixteen bits |
| Json.PrintThenParse | app/control_plane/notifications.py:378-380 | parsing a printed value, with white space around it, in the standard or Python's dialect, gives the value back |
| RateLimits.RateLimiter.TryAcquire | app/control_plane/agent_tools.py:203-212 | a call is refused when its tenant's minute is full, and counted even if then no slot is free |
| RateLimits.RateLimiter.Release | app/control_plane/agent_tools.py:214-218 | one slot comes back, never more than there are |
| RateLimits.MinuteBound | app/control_plane/agent_tools.py:203-212 | if the tenant never re-enters a minute it left, its accepted calls in a clock minute never exceed what its window leaves, whatever other tenants do |
| RateLimits.LimitKeptExactly | app/control_plane/agent_tools.py:203-212 | every minute holds at most per_minute accepted calls, for every per_minute and capacity, if and only if the tenant never re-enters a minute it left |
| RateLimits.OrderedNeverReturns | app/control_plane/agent_tools.py:203-212 | a clock that never steps back meets that condition |
| RateLimits.SlidingBound | app/control_plane/agent_tools.py:203-212 | under that condition an interval of L seconds holds at most (ceil((L-1)/60)+1) times per_minute accepted calls, hence any 60 seconds at most twice per_minute |
| RateLimits.SlidingBoundAttained | app/control_plane/agent_tools.py:203-212 | two bursts around a minute's end do reach twice per_minute within two seconds |
| RateLimits.ClockStepsBack | app/control_plane/agent_tools.py:203-212 | a clock that steps back into an earlier minute lets through more than the limit |
| RateLimits.LetThroughExactly | app/control_plane/agent_tools.py:203-212 | on such a clock a call is let through if and only if fewer than per_minute calls of its tenant were in this minute, and then succeeds if and only if a slot is free |
| ModelRequests.ModelRequestStore.Create | app/control_plane/model_requests.py:154-156 | a request is stored under its id, a new one last |
| ModelRequests.ModelRequestStore.UpdateStatus | app/control_plane/model_requests.py:186-195 | exactly the request with the id changes status and error; none if the id is unknown |
| ModelRequests.ModelRequestStore.CountOpenForTenant | app/control_plane/model_requests.py:197-202 | the number of the tenant's requested or installing requests |
| ModelRequests.ModelRequestStore.ListPending | app/control_plane/model_requests.py:176-180 | the oldest requested ones up to the limit, oldest first |
| ModelRequests.ListedAreOldest | app/control_plane/model_requests.py:176-180 | the listed ones are the oldest of those that wait, as many as the limit lets in, oldest first |
| ModelRequests.CountOpenExactly | app/control_plane/model_requests.py:197-202 | the count is the number of places that hold a requested or installing request of the tenant |
| ModelRequests.SetStatusExactly | app/control_plane/model_requests.py:186-195 | status and error of the request with the id change, no other field and no other request |
| ModelRequests.AllowedExactly | app/control_plane/model_requests.py:103-112 | a list admits a repo if and only if it has "*", the repo, or an organisation o without a slash such that the repo starts with o and a slash |
| CreateRequests.CreateModelRequest | app/control_plane/model_requests.py:325-409 | the response, the limiter and the store after every path of the handler; a successful acquire is released once, a refused call changes no request |
| CreateRequests.CheckAndCreate | app/control_plane/model_requests.py:356-405 | the checks in their order and the insertion |
| CreateRequests.HandlerIsRun | app/control_plane/model_requests.py:349-409 | taken alone, the handler does exactly what its steps do in the protocol below |
| CreateRequests.AnswersExactly | app/control_plane/model_requests.py:325-409 | for each answer of the handler, exactly when it is given; an accepted request is stored with the caller's tenant and user, the stripped repo and the revision, and nothing else is stored |
| CreateRequests.PermitsComeBack | app/control_plane/model_requests.py:344-409 | the handler leaves the number of free slots as it was |
| CreateRequests.AcceptedIsClean | app/control_plane/model_requests.py:366-403 | an accepted request is the caller's own, its repo is exactly org/name, at most 200 characters and allowed, and the tenant was under the cap when counted |
| CreateRequests.AcceptedRevisionExactly | app/control_plane/model_requests.py:372-379 | an accepted revision is empty or a plain reference if and only if it does not end in a newline |
| CreateRequests.NewlineRevisionRecorded | app/control_plane/model_requests.py:372-402 | every good revision with a newline after it is accepted and recorded so |
| RequestBodies.SomeBodyPasses | app/control_plane/model_requests.py:359-383 | some body passes the checks if and only if the allow-list admits some repo name within the length limit |
| RequestBodies.GoodRepoExactly | app/control_plane/model_requests.py:366-369 | a repo is let through if and only if it has at most 200 characters and is a repo name with white space around it, and it is read as that name |
| RequestBodies.RepoNameExactly | app/control_plane/model_requests.py:52-60 | a repo name is two slugs with a slash between |
| RequestBodies.MatchesRepoExactly | app/control_plane/model_requests.py:52-60 | the pattern matches repo names, and each with a newline after it |
| RequestBodies.GoodRevisionExactly | app/control_plane/model_requests.py:371-379 | a revision is let through if and only if it is none, or a plain reference of at most 100 characters without two dots in a row, perhaps with a newline after it |
| InstallLifecycle.EveryRunFollowsLifecycle | app/model_installer/reconciler.py:76-140 | in every run each request's recorded history is a prefix of requested, installing, applied-or-failed or of requested, failed; its forward set_model happens at most once, only while it is recorded as installing |
| InstallLifecycle.RunKeepsInv | app/model_installer/reconciler.py:76-140 | the invariant behind it is kept by every step of every run |
| InstallCap.StepKeepsSlots | app/control_plane/model_requests.py:349-409 | permits and the handlers holding slots always add up to the capacity |
| InstallCap.OpenRequestsBounded | app/control_plane/model_requests.py:349-409 | in every interleaving a tenant's open requests never exceed cap + K - 1 with K = max(1, max_concurrency); K = 1 gives the cap |
| InstallStuck.PassLeavesStuckExactly | app/model_installer/reconciler.py:76-140 | for one pass with arbitrary replies, exactly which requests are recorded as installing with no pass at work on them after it |
| InstallStuck.StuckForEver | app/model_installer/reconciler.py:76-140 | no run changes such a request or takes it up again |
| InstallStuck.StuckTenantIsShutOut | app/control_plane/model_requests.py:388-393 | a tenant with as many of them as its cap never has a request accepted again |
| InstallStuck.StuckRun | app/model_installer/reconciler.py:100-104 | a run that leaves one: the first status call takes effect and raises |
| InstallVerdicts.PassRecordsExactly | app/model_installer/reconciler.py:76-140 | what one pass records for every answer to every call: denied with its reason, failed with the error of the first call that fails, applied otherwise; nothing where a status call has no effect; no other request changes |
| InstallVerdicts.AppliedExactly | app/model_installer/reconciler.py:100-140 | a request ends as applied if and only if its model became ready and the call that says so took effect |
| InstallVerdicts.ReportsExactly | app/model_installer/reconciler.py:76-140 | a pass reports work if and only if it took a request and no status call raised, and raises if and only if the listing or one of them did |
| InstallVerdicts.StoredAreAdmitted | app/control_plane/model_requests.py:366-385 | in every run, every stored repo is a repo name that the control plane's list admits |
| InstallVerdicts.InstalledAreAdmitted | app/model_installer/reconciler.py:88-100 | in every run, every repo recorded as installing or applied is one that the installer's list admits |
| InstallVerdicts.ServedIsAdmitted | app/model_installer/reconciler.py:107-153 | in every run, the release names the initial model or a repo that both lists admit |
| InstallRace.OpenBoundAttained | app/control_plane/model_requests.py:325-405 | for every intake the control plane takes in, some interleaving of whole handlers and handlers cut in two reaches cap + K - 1 |
| InstallRace.OpenBoundExact | app/control_plane/model_requests.py:325-405 | for every configuration, the exact maximum of a tenant's open requests over all runs: cap + K - 1 if anything can be taken in, otherwise none |
| InstallOrder.HeadIsOldest | app/control_plane/model_requests.py:176-180 | the first pending request is the oldest one waiting, the earlier inserted among equals |
| InstallOrder.PickedInTurn | app/model_installer/reconciler.py:76-101 | with status calls that take effect, a waiting request with k others before it is taken by exactly the (k+1+j)-th pick from then on, where j counts the later insertions with a strictly smaller time before its turn |
| InstallOrder.PairInOrderExactly | app/model_installer/reconciler.py:80-101 | of two requests in line together, the one inserted first is taken first if and only if its time is not the larger one, in every run that takes either |
| InstallOrder.Overtaking | app/control_plane/model_requests.py:396-402 | two racing handlers: the request inserted second carries the earlier time and is taken first |
| InstallOrder.TakenInOrderOfCreation | app/model_installer/reconciler.py:80-84 | if times do not decrease from one insertion to the next and status calls take effect, requests are taken in the order of insertion |
| Reconcilers.LastReadyIsServed | app/model_installer/reconciler.py:107-153 | if set_model is all-or-nothing and get_model and rollback succeed, then between passes the ConfigMap names the last model that became ready, or the initial one |
| Reconcilers.PassKeepsServedModel | app/model_installer/reconciler.py:107-153 | for one pass with arbitrary replies that starts so, exactly when it still holds after it |
| Reconcilers.PassRestoresExactly | app/model_installer/reconciler.py:107-153 | for one pass that starts with another model served, exactly when it ends with the last ready one served |
| Reconcilers.PassEnds | app/model_installer/reconciler.py:76-153 | from any state and for arbitrary replies: the model served after a pass and the last one that became ready |
| Reconcilers.HalfSetModel | app/model_installer/reconciler.py:112-125 | a run in which set_model raises half-way and a model stays served that never became ready |
| Reconcilers.Reconciler.RunOnce | app/model_installer/reconciler.py:76-140 | the code's pass is the protocol's; what it reports, exceptions included; a pass without work changes nothing |
| Reconcilers.Reconciler.Install | app/model_installer/reconciler.py:100-140 | scaling, reading, setting and waiting are the protocol's steps in that order |
| Reconcilers.Reconciler.Rollback | app/model_installer/reconciler.py:142-153 | the previous model comes back unless it is unknown, the attempted one, or the call failed |
| Chunking.ChunkText | app/control_plane/retrieval.py:127-148 | the loop computes the greedy packing of the words |
| Chunking.ChunksAreOptimal | app/control_plane/retrieval.py:127-148 | the chunks keep all words in order, only a single word can exceed the limit, and no other such division into chunks is shorter |
| Text.WordsAtBlank | app/control_plane/retrieval.py:133-133 | around any blank, the words of a text are those before it and those after it |
| Text.WordsOfWord | app/control_plane/retrieval.py:133-133 | a text without blanks is one word |
| Text.BlanksListed | app/control_plane/retrieval.py:133-133 | the white space of Python's split and strip |
| Chunking.ChunksKeepLetters | app/control_plane/retrieval.py:127-148 | the chunks have the characters of the content that are not blank, in order, and no others |
| Chunking.ChunksAreSpaced | app/control_plane/retrieval.py:127-148 | a chunk is its words with one space between |
| Chunking.PackIsShortest | app/control_plane/retrieval.py:137-147 | the packing from any state of the loop is at most as long as any partition of the same words |
| Chunking.ChunkCount | app/control_plane/retrieval.py:127-148 | the number of chunks is bounded by the length of the text: neighbours together exceed the limit |
| Chunking.DocumentChunkBound | app/control_plane/retrieval.py:60-64 | at most 100,000 characters give at most 389 chunks of 512 |
| Chunking.DocumentChunkBoundAttained | app/control_plane/retrieval.py:60-64 | some such document gives 389 |
| Chunking.CheckDocument | app/control_plane/retrieval.py:335-364 | the checks of the index call; the refusal for too many chunks never happens |
| Embeddings.EmbedOne | app/control_plane/embeddings.py:95-105 | the array loop computes the normalised vector of signed token counts |
| Embeddings.EmbeddingOfMultiset | app/control_plane/embeddings.py:95-105 | texts with the same tokens in any order have the same embedding |
| Embeddings.NormaliseIsUnitOrZero | app/control_plane/embeddings.py:102-105 | every embedding has norm one or is zero |
| Embeddings.OneTokenEmbedding | app/control_plane/embeddings.py:95-105 | the embedding of a text with one token is its sign in the bucket of its hash and zero elsewhere |
| Embeddings.LoadConcat | app/control_plane/embeddings.py:97-101 | the counts of two lists of tokens add up |
| Embeddings.EmbeddingDirection | app/control_plane/embeddings.py:102-105 | an embedding points where the signed token counts do |
| Embeddings.OwnScoreIsBest | app/control_plane/retrieval.py:151-153 | between embeddings a score lies in [-1, 1] and none exceeds the score with itself |
| Retrieval.RetrievalStore.Query | app/control_plane/retrieval.py:196-213 | the answer is the ranking of the tenant's own bucket |
| Retrieval.RetrievalStore.IndexDocument | app/control_plane/retrieval.py:191-194 | chunks are appended to that tenant's bucket and no other changes |
| Retrieval.RankingIsTopK | app/control_plane/retrieval.py:202-213 | the ranking is best first, and nothing left out scores above anything in it |
| Retrieval.RankingScores | app/control_plane/retrieval.py:151-213 | every listed passage is a chunk of the bucket, scored by its scalar product with the query |
| Retrieval.TiesKeepOrder | app/control_plane/retrieval.py:212-212 | passages with equal scores are listed in the order in which they were indexed |
| Common.StableSortStable | app/control_plane/retrieval.py:212-212 | chunks with equal scores keep their order |
| Common.StableSortSorts | app/control_plane/retrieval.py:212-212 | the sort is a sorted permutation |
| Retrieval.OwnTextRanksFirst | app/control_plane/retrieval.py:196-213 | asking with the tokens of an indexed chunk gives that chunk's own score, one or zero, as the best |
| DeepResearches.MergeIsExact | app/control_plane/deep_research.py:219-224 | although each side is cut to twelve first, the merge is the first twelve distinct passages of all corpus hits followed by all web hits |
| DeepResearches.Retrieve | app/control_plane/deep_research.py:96-115 | the first twelve distinct corpus passages; it raises exactly if a query fails before twelve are found |
| DeepResearches.RetrieveWeb | app/control_plane/deep_research.py:129-143 | the first twelve distinct web passages, adapted |
| DeepResearches.Merge | app/control_plane/deep_research.py:219-224 | corpus passages, then web passages with new ids, twelve at most |
| DeepResearches.CitedSources | app/control_plane/deep_research.py:232-235 | the document ids in the order of their first passage |
| DeepResearches.CitedOnce | app/control_plane/deep_research.py:232-235 | each cited document once, and exactly the documents of the passages |
| DeepResearches.FirstsAreDistinct | app/control_plane/deep_research.py:104-115 | deduplication leaves distinct ids and loses none |
| DeepResearches.RunDeepResearch | app/control_plane/deep_research.py:181-246 | the outcome on every path, and one progress event followed by one terminal event |
| ResearchRuns.CompletedMeans | app/control_plane/deep_research.py:200-246 | a completed run was never late; the model was given at most twelve passages with different ids, each found by a planned query, in the order found, and all that was found if fewer; the sources are their documents, each once, in order |
| ResearchRuns.FailedMeans | app/control_plane/deep_research.py:200-230 | a failed run was late, or a planning, corpus or synthesis call raised |
| ResearchRuns.CalmRunsComplete | app/control_plane/deep_research.py:200-246 | a run that is never late and in which nothing raises completes |
| ResearchRuns.RaisingQueryFails | app/control_plane/deep_research.py:96-115 | a raising query fails the run if and only if the queries before it found fewer than twelve distinct passages |
| ResearchRuns.AdaptedHit | app/control_plane/deep_research.py:118-143 | a web hit is cited and told apart by its address and reads as title, dash, snippet |
| ResearchRuns.HitsByQuery | app/control_plane/deep_research.py:96-143 | hits come query by query, in the order of the plan |
| Notifications.InMemoryNotificationStore.ListForUser | app/control_plane/notifications.py:167-179 | the owner's latest events, unread only unless asked, newest first |
| Notifications.InMemoryNotificationStore.Publish | app/control_plane/notifications.py:181-187 | the owner's bucket gains the event and keeps its last 200; no other bucket changes |
| Notifications.InMemoryNotificationStore.MarkRead | app/control_plane/notifications.py:189-212 | the owner's first unread event with the id becomes read; nothing changes if there is none |
| Notifications.BucketIsTail | app/control_plane/notifications.py:181-212 | after any operations a bucket is the last 200 events the owner was sent, in order, some read since |
| Notifications.StreamNotificationFrames | app/control_plane/notifications.py:383-411 | the frames of all ticks, with anything happening to the store between ticks |
| NotificationStreams.NeverTwice | app/control_plane/notifications.py:403-411 | no event is sent twice, and none the client had seen, over any interleaving |
| NotificationStreams.StreamIsExact | app/control_plane/notifications.py:403-411 | without mark_read the stream sends exactly the first window and then each gap's latest arrivals |
| NotificationStreams.NothingMissed | app/control_plane/notifications.py:403-411 | if no gap brings more than a poll can show, every event is sent once, in order |
| NotificationStreams.OrderExactly | app/control_plane/notifications.py:375-411 | publication order survives mark_read in every run if and only if the limit shows the whole buffer |
| NotificationStreams.SentIsEmission | app/control_plane/notifications.py:403-411 | the frames carry those events and heartbeats only |
| NotificationStreams.PingEachTick | app/control_plane/notifications.py:403-411 | one heartbeat a tick |
| EventStreams.SplitResumes | app/ui/static/app.js:1041-1043 | splitting x+y is splitting x, then splitting its last part followed by y |
| EventStreams.BodyPlain | app/control_plane/notifications.py:378-380 | a frame's text is printable ASCII on one line |
| EventStreams.PrefixParts | app/ui/static/app.js:1041-1043 | the complete parts of any prefix of the stream are the frames wholly inside it |
| NotificationClients.StreamNotificationsOnce | app/ui/static/app.js:1032-1053 | the buffer, split and pop loop leaves the list the whole text would leave, however it is cut into chunks |
| NotificationClients.MergeNotification | app/ui/static/app.js:1020-1029 | an event replaces the notice with its id or goes first |
| NotificationClients.ChunksDoNotMatter | app/ui/static/app.js:1032-1053 | the values read from any part of a stream are the events of its complete frames, in order, each field under its name |
| NotificationClients.PushReachesClient | app/ui/static/app.js:1032-1053 | end to end: the client reads exactly the events the server's ticks sent, each with its own class, resource, times and read mark |
| NotificationClients.DeliveredAreShown | app/ui/static/app.js:1020-1029 | the list then holds each event as sent and, besides, exactly the old notices under other ids, ids distinct |
| NotificationClients.DictShows | app/control_plane/notifications.py:80-92 | a printed event has its own id, class, resource, creation time and read time under their names, and is marked read exactly if it was |
| NotificationClients.ShownIsOne | app/control_plane/notifications.py:80-92 | a printed event determines the event, up to its owner |
| NotificationClients.SentIsTold | app/ui/static/app.js:1020-1053 | each event sent has a notice, and a notice under its id tells all of it |
| NotificationClients.MergeExactly | app/ui/static/app.js:1020-1029 | a known id keeps its place and gets the new event; an unknown one goes first |
| NotificationClients.NewestOnTop | app/ui/static/app.js:1020-1029 | new events end up on top of the list, the latest first |
| Secrets.SecretIdInjective | app/control_plane/integration_secrets.py:69-93 | equal ids have equal project, environment, tenant, integration and user, with and without a user |
| Secrets.SecretIdIs | app/control_plane/integration_secrets.py:69-93 | an id there is if and only if every component is safe, and it is the components in their order |
| Secrets.JoinPuts | app/control_plane/integration_secrets.py:93-93 | one slash between components |
| Secrets.SafeExactly | app/control_plane/integration_secrets.py:55-66 | a component is a slug, or a slug with a newline after it |
| Secrets.IdCharsExactly | app/control_plane/integration_secrets.py:55-93 | an id has only the listed characters and slashes if and only if no component ends in a newline |
| Secrets.NewlineTenantHasId | app/control_plane/integration_secrets.py:55-93 | a tenant that is a slug with a newline after it is accepted, and its id has the newline |
| Secrets.SecretResolver.Ask | app/control_plane/integration_secrets.py:128-136 | the answer and the cache after it, errors included |
| Secrets.AnswersAreRecent | app/control_plane/integration_secrets.py:126-138 | in every run from the empty cache, an answer was stored under this very tenant and integration less than a cache lifetime ago |
| Secrets.ResolveKeeps | app/control_plane/integration_secrets.py:126-138 | every cached entry was current within a cache lifetime of its expiry |
| Secrets.AnswerIsKept | app/control_plane/integration_secrets.py:128-136 | an answer, be it a credential or nothing, is given again until a lifetime after the query that fetched it |
| Secrets.AnswerIsFetchedAgain | app/control_plane/integration_secrets.py:128-136 | from then on the store is asked again |
| Secrets.FailuresCacheNothing | app/control_plane/integration_secrets.py:128-136 | a query that fails caches nothing, and fails only for an unsafe component or the store's exception |
| Secrets.DeletedStaysDeleted | app/control_plane/integration_secrets.py:126-138 | in every run from the empty cache, a cache lifetime after a deletion the resolver answers nothing, or passes on the store's exception |
| Integrations.DeletionBoundAttained | app/control_plane/integration_secrets.py:126-138 | at any instant from a deletion until a cache lifetime after it, some run from empty caches still sends the deleted credentials |
| Integrations.IntegrationExecutor.InvokeIntegration | app/control_plane/integrations.py:293-331 | the outcome and both caches after every path |
| Integrations.IntegrationExecutor.EnsureAccessToken | app/control_plane/integrations.py:265-291 | a cached token is used before its expiry, else one is minted, cached with the margin, and put in |
| Integrations.PerformedCall | app/control_plane/integrations.py:315-331 | what is sent is made of this integration, this operation and these credentials |
| Integrations.CredentialsAreOwn | app/control_plane/integrations.py:300-313 | in every run, the credentials sent are the pair's own secret as it was within a cache lifetime, with nothing changed but the token |
| Integrations.UnsentCall | app/control_plane/integrations.py:293-313 | why a call ends without being sent |
| Integrations.TokenIsReused | app/control_plane/integrations.py:277-281 | a cached token is used until its expiry, and none is minted |
| Integrations.TokenIsMinted | app/control_plane/integrations.py:282-291 | a minted token is sent, and cached until 60 seconds before the end of its life |
| Integrations.InjectedTokenIsFresh | app/control_plane/integrations.py:265-313 | in any run an injected token has more than 60 s left or was minted in this call, and comes from this pair's secret as it was later than ttl + max(0, lifetime - 60) + the minting call's duration ago |
| Integrations.DeletedMeansNoCredentials | app/control_plane/integrations.py:300-313 | a cache lifetime after a deletion every call ends without credentials, whatever token is cached |
| Integrations.OtherPairsUntouched | app/control_plane/integrations.py:277-290 | a call leaves every other tenant's and integration's cached secret and token alone |
| JobRunners.RunToolJob | app/dispatcher/jobrunner.py:59-112 | every run that does not go round for ever is one of the allowed sequences of effects with its outcome; with a positive interval that each sleep lasts, it polls at most max(1, floor(timeout/interval) + 2) times |
| JobRunners.MovingClockStops | app/dispatcher/jobrunner.py:90-107 | with such an interval and clock the loop never goes round for ever |
| JobRunners.CreatedJobsAreDeleted | app/dispatcher/jobrunner.py:84-112 | a creation that returned is followed by exactly one deletion, as the last effect, on every outcome and error; one that raised by none |
| JobRunners.JobLeftExactly | app/dispatcher/jobrunner.py:84-112 | a job stays in the cluster if and only if its creation took effect and raised, or returned and the deletion had no effect |
| JobRunners.SuccessExactly | app/dispatcher/jobrunner.py:84-124 | a run succeeds with a result if and only if the job succeeded, its first pod's log says so, and the deletion raised nothing but a cluster error |
| JobRunners.ResultIsReported | app/dispatcher/jobrunner.py:40-49 | a printed report of a result succeeds with that result |
| JobRunners.ErrorIsReported | app/dispatcher/jobrunner.py:40-49 | a printed report of an error fails, as an unknown tool exactly for that error |
| JobRunners.OtherLogsFail | app/dispatcher/jobrunner.py:40-49 | a log that is no JSON, or no object, is a tool error |
| JobRunners.FailureIsReported | app/dispatcher/jobrunner.py:97-101 | a failed job is reported with the first pod's exit code, as a timeout exactly for an exceeded deadline |
| JobRunners.BreaksExactly | app/dispatcher/jobrunner.py:84-112 | the loop raises if and only if its last call did with something else than a cluster error |
| JobRunners.TimeoutHasCause | app/dispatcher/jobrunner.py:52-107 | a timeout is reported only for a job past its own deadline or after a reading past the run's |
| JobRunners.RunTimeoutHasCause | app/dispatcher/jobrunner.py:90-107 | for a whole run: more than the overall timeout after the first reading, or the job's own deadline |
| JobRunners.PollsAndSleepsAre | app/dispatcher/jobrunner.py:90-107 | every poll asks for this job, and every sleep lasts the poll interval |
| JobRunners.JobFailedReason | app/dispatcher/jobrunner.py:52-56 | a failed job counts as a timeout exactly if some condition says its deadline was exceeded |
| JobRunners.ReadPodResult | app/dispatcher/jobrunner.py:115-124 | the first pod's log is read and classified; every error has its outcome |

## Left out

- Real floating point: embeddings, scores, clocks and time-outs are real numbers; rounding is not modelled.
- SHA-256, `uuid4`, lower-casing and the token pattern: given functions; fresh ids are distinct, and requests are numbered in the order of creation.
- `json.loads` beyond the grammar: Python's recursion limit and its limit on the digits of an integer, which make it raise on some valid texts.
- `str()` of an answer or a secret's value, and the parsing of a secret string into a mapping: part of what the outside answers.
- ModelRequests.ModelRequestStore.UpdateStatus: does not set updated_at, which nothing here reads; likewise for a new request.
- CreateRequests.CreateModelRequest: a store that raises is a step of the protocol (Break in InstallProtocol) and not a path of this method.
- InstallOrder.PickedInTurn: status calls that fail put the request back at its place and are outside this statement; the lifecycle and the bounds cover them.
- InstallOrder.TakenInOrderOfCreation: runs in which a request overtakes are outside it and in InstallOrder.PickedInTurn.
- AgentLoops.Setup.RaisesExactly: a reply nested beyond Python's recursion limit makes the decoder raise through the loop as well; that limit is not modelled.
- AgentLoops.RunAgentLoop: the text of the system prompt and of observations is a given text, and audit records are left out.
- DeepResearches.RunDeepResearch: planning the queries is a given result, and neither the index nor the web search changes its answers within one run.
- NotificationClients.MergeNotification: only events whose id is a non-empty string are merged, which is all the server sends; badge and rendering are left out.
- EventStreams: bytes and characters are identified, which the ASCII lemma justifies for these frames.
- Integrations.InjectedTokenIsFresh: calls are atomic and one after another; concurrent calls of one executor are not interleaved.
- JobRunners.RunToolJob: runs whose loop goes round for ever are excluded, as they have no result; rendering the manifest is left out.
- InstallProtocol: more than one reconciler or replica, status calls delivered late, and a process that dies in the middle of a pass.
- Reconcilers.LastReadyIsServed: the two patches of the real set_model (app/model_installer/clients.py:125-137) are not all-or-nothing; the exact consequence is in Reconcilers.PassKeepsServedModel.
- Retrieval: the Postgres store with its vector index.
- Postgres stores, migrations, S3, OIDC and token checks, outbound address checks, sandbox and manifest hardening, metrics, audit shape, HTTP plumbing and configuration.
- Conversations, notes, memory, compare, documents, media, mcp and sessions: bounded lists and owner filters that would only add easy members.
