/** The plan-act-observe loop over an untrusted model (agent_loop.py).

    The model, the tools and the clock are arbitrary functions of the step, so every
    statement holds for every behaviour of theirs, however it was chosen. */
module AgentLoops {
  import opened Common
  import opened Json
  import opened ActionParser
  import opened RateLimits

  datatype Role = System | User | Assistant | Tool

  datatype Message = Message(role: Role, content: string)

  datatype Budgets = Budgets(maxSteps: int, wallClock: real, maxTokens: int)
  {
    function MaxTotalTokens(): int { maxSteps * maxTokens }
  }

  /** `total_tokens` as the response reports it: absent and non-numeric counts read as
      zero, and an infinite one makes `int()` raise OverflowError, which nothing catches. */
  datatype Usage = Tokens(n: int) | Infinite

  datatype Response = Unavailable | Reply(content: string, usage: Usage)

  /** What running a tool comes to: a text to observe, or an exception, which nothing catches. */
  datatype ToolRun = Observed(text: string) | RunRaises

  datatype Environment = Environment(
    clock: nat -> real,              // reading before step s; reading 0 is taken at the start
    model: nat -> Response,          // answer to the inference call of step s
    tool: nat -> ToolRun,            // what a tool run in step s comes to
    hasJobExecutor: bool)
  {
    function Clock(s: nat): real { clock(s) }
    function Model(s: nat): Response { model(s) }
    function Observe(s: nat): ToolRun { tool(s) }
  }

  datatype Status = Completed | BudgetExhausted | Failed

  datatype Outcome = Outcome(status: Status, answer: Option<Value>, steps: int, detail: string)

  /** A call returns an outcome or raises. */
  datatype Result = Returned(outcome: Outcome) | Raised

  datatype Event =
    | Progress
    | Terminal(completed: bool)
    | Asked(transcript: seq<Message>, tokens: int)
    | Ran(tool: Str, job: bool)
    | Denied

  /** What a reply leads to: the end, a feedback turn, or a tool run that raises. */
  datatype Decision =
    | Finish(answer: Option<Value>) | GoOn(feedback: Message, event: Option<Event>) | RunRaised(run: Event)

  datatype Registry = Registry(allowlist: map<Tenant, set<Str>>, tools: map<Str, bool>)   // tool -> runs as a job

  predicate IsAllowed(r: Registry, tenant: Tenant, tool: Str)
  {
    tenant in r.allowlist && tool in r.allowlist[tenant]
  }

  /** The first object of the text, if it has an "action" member. */
  ghost predicate IsAction(content: string, v: Value)
  {
    v.Object? && FirstObject(content, Some(v), Python) && Lookup(v.members, Name("action")).Some?
  }

  lemma ActionUnique(content: string, v: Value, w: Option<Value>)
    requires FirstObject(content, Some(v), Python) && FirstObject(content, w, Python)
    ensures w == Some(v)
  {
    FirstObjectUnique(content, Some(v), w, Python);
  }

  method ParseAction(content: string, loads: string -> Option<Value>) returns (r: Option<Value>)
    requires IsLoads(loads)
    ensures r.Some? ==> IsAction(content, r.value)
    ensures r.None? ==> forall v :: !IsAction(content, v)
  {
    var obj := ExtractJsonObject(content, loads);
    forall v | FirstObject(content, Some(v), Python) ensures obj == Some(v) {
      ActionUnique(content, v, obj);
    }
    if obj.None? {
      return None;
    }
    FirstObjectIsObject(content, obj.value);
    if Lookup(obj.value.members, Name("action")).None? {
      return None;
    }
    return obj;
  }

  lemma FirstObjectIsObject(text: string, v: Value)
    requires FirstObject(text, Some(v), Python)
    ensures v.Object?
  {
    var s, e :| ObjectAt(text, s, e, Python) && Loads(text[s..e], Python) == Some(v);
    ObjectTextParses(text[s..e]);
  }

  // ---------- the record of a run ----------

  /** The action that calls a tool without arguments. */
  function Calling(tool: Str): Value
  {
    Object([Member(Name("action"), String(Name("call_tool"))), Member(Name("tool"), String(tool))])
  }

  lemma NamesDiffer()
    ensures Name("action") != Name("tool") && Name("arguments") != Name("tool") && Name("arguments") != Name("action")
  {
    assert |Name("action")| == 6 && |Name("tool")| == 4 && |Name("arguments")| == 9;
  }

  lemma LookupPair(a: Member, b: Member, key: Str)
    ensures Lookup([a, b], key)
         == if b.name == key then Some(b.value) else if a.name == key then Some(a.value) else None
  {
    assert [a][..0] == [] && Lookup([a], key) == if a.name == key then Some(a.value) else None;
    assert [a, b][..1] == [a];
  }

  lemma CallingReads(tool: Str)
    ensures var ms := Calling(tool).members;
      && Lookup(ms, Name("action")) == Some(String(Name("call_tool"))) && Lookup(ms, Name("tool")) == Some(String(tool))
      && Lookup(ms, Name("arguments")) == None && Printable(Calling(tool))
  {
    var action, called := Member(Name("action"), String(Name("call_tool"))), Member(Name("tool"), String(tool));
    NamesDiffer();
    LookupPair(action, called, Name("action"));
    LookupPair(action, called, Name("tool"));
    LookupPair(action, called, Name("arguments"));
    forall m | m in [action, called] ensures Printable(m.value) {
      assert m == action || m == called;
    }
  }

  /** The inference calls of a run, in order. */
  function Asks(log: seq<Event>): seq<Event> { Filter(log, (e: Event) => e.Asked?) }

  function TokensBefore(env: Environment, n: nat): int
  {
    if n == 0 then 0
    else TokensBefore(env, n - 1) + (var m := env.Model(n); if m.Reply? && m.usage.Tokens? then m.usage.n else 0)
  }

  /** The number of the call that carries this transcript. */
  function CallNo(e: Event): nat
    requires e.Asked?
  {
    |e.transcript| / 2
  }

  predicate IsToolEvent(e: Event) { e.Ran? || e.Denied? }

  /** What the log shows right after position `i`: a tool run, a denial, or neither. */
  function EventAfter(log: seq<Event>, i: nat): Option<Event>
  {
    if i + 1 < |log| && IsToolEvent(log[i + 1]) then Some(log[i + 1]) else None
  }

  const NUDGE := Message(User, "Reply with exactly one JSON object: {\"action\": \"call_tool\"|\"final\", ...}.")
  const NOT_ALLOWED :=
    Message(Tool, "{\"error\": \"tool_not_allowed\", \"detail\": \"This tool is not permitted.\"}")
  const BAD_ARGUMENTS :=
    Message(Tool, "{\"error\": \"bad_arguments\", \"detail\": \"arguments must be an object.\"}")
  const NO_EXECUTOR := Message(Tool, "{\"error\": \"tool_error\"}")
  const UNKNOWN_ACTION := Message(User, "Unknown action. Use \"call_tool\" or \"final\".")

  /** What a run is given. */
  datatype Setup = Setup(task: string, prompt: string, tenant: Tenant, registry: Registry,
                         budgets: Budgets, env: Environment)
  {
    // ---------- how the loop answers a reply ----------

    predicate MayCall(tool: Option<Value>)
    {
      tool.Some? && tool.value.String? && IsAllowed(registry, tenant, tool.value.s) && tool.value.s in registry.tools
    }

    /** A tool call that gets as far as its executor. */
    predicate RunsTool(members: seq<Member>)
    {
      var tool, arguments := Lookup(members, Name("tool")), Lookup(members, Name("arguments"));
      && MayCall(tool) && (arguments.Some? ==> arguments.value.Object?)
      && (registry.tools[tool.value.s] ==> env.hasJobExecutor)
    }

    function RunOf(members: seq<Member>): Event
      requires RunsTool(members)
    {
      var tool := Lookup(members, Name("tool")).value.s;
      Ran(tool, registry.tools[tool])
    }

    /** A tool call: denied, malformed, without its executor, or run and observed. */
    predicate CallsTool(members: seq<Member>, step: nat, m: Message, event: Option<Event>)
    {
      var tool, arguments := Lookup(members, Name("tool")), Lookup(members, Name("arguments"));
      if !MayCall(tool) then m == NOT_ALLOWED && event == Some(Denied)
      else if arguments.Some? && !arguments.value.Object? then m == BAD_ARGUMENTS && event == None
      else if registry.tools[tool.value.s] && !env.hasJobExecutor then m == NO_EXECUTOR && event == None
      else env.Observe(step).Observed? && m == Message(Tool, env.Observe(step).text) && event == Some(RunOf(members))
    }

    predicate ReactsTo(v: Value, step: nat, m: Message, event: Option<Event>)
      requires v.Object?
    {
      var kind := Lookup(v.members, Name("action"));
      if kind == Some(String(Name("call_tool"))) then CallsTool(v.members, step, m, event)
      else kind != Some(String(Name("final"))) && m == UNKNOWN_ACTION && event == None
    }

    /** The feedback turn and the event that answer the reply of a step which is not final. */
    ghost predicate Reacts(step: nat, m: Message, event: Option<Event>)
    {
      && env.Model(step).Reply?
      && var content := env.Model(step).content;
      || ((forall v :: !IsAction(content, v)) && m == NUDGE && event == None)
      || (exists v :: IsAction(content, v) && ReactsTo(v, step, m, event))
    }

    /** The reply of a step asks for a tool run, and that raises. */
    ghost predicate RunFails(step: nat, event: Event)
    {
      && env.Model(step).Reply? && env.Observe(step).RunRaises?
      && exists v :: CallAction(env.Model(step).content, v) && RunsTool(v.members) && event == RunOf(v.members)
    }

    ghost predicate Decided(step: nat, d: Decision)
    {
      match d
      case Finish(answer) => Final(step, answer)
      case GoOn(feedback, event) =>
        && Reacts(step, feedback, event) && (event.Some? ==> IsToolEvent(event.value) && SoundEvent(event.value))
        && (forall a :: !Final(step, a)) && (forall e :: !RunFails(step, e))
      case RunRaised(event) => RunFails(step, event) && event.Ran? && SoundEvent(event)
    }

    ghost predicate IsFeedback(step: nat, m: Message) { exists event :: Reacts(step, m, event) }

    // ---------- transcripts and logs ----------

    /** The transcript sent with call `n + 1`: the prompt, the request, and one assistant turn
        followed by one feedback turn for each of the first `n` replies. */
    ghost predicate IsTranscript(t: seq<Message>, n: nat)
    {
      && |t| == 2 + 2 * n
      && t[0] == Message(System, prompt) && t[1] == Message(User, task)
      && forall s {:trigger env.Model(s)} :: 1 <= s <= n ==>
           && env.Model(s).Reply?
           && t[2 * s] == Message(Assistant, env.Model(s).content)
           && IsFeedback(s, t[2 * s + 1])
    }

    ghost predicate SoundEvent(e: Event)
    {
      e.Ran? ==> IsAllowed(registry, tenant, e.tool) && e.tool in registry.tools && e.job == registry.tools[e.tool]
    }

    /** Call `i + 1` carries the transcript of `i` replies and is within all three budgets. */
    ghost predicate SoundAsk(e: Event, i: nat)
    {
      e.Asked? && IsTranscript(e.transcript, i) && e.tokens == TokensBefore(env, i) && Affordable(i + 1)
    }

    /** The call at position `i` is followed by exactly what its reply asked for. */
    ghost predicate Follows(log: seq<Event>, i: nat)
      requires i < |log| && log[i].Asked?
    {
      exists m :: Reacts(CallNo(log[i]), m, EventAfter(log, i))
    }

    /** Tool events stand right after a call, and the first `k` calls have their consequences. */
    ghost predicate Settled(log: seq<Event>, k: int)
    {
      && (forall i :: 0 <= i < |log| && IsToolEvent(log[i]) ==> i > 0 && log[i - 1].Asked?)
      && (forall i :: 0 <= i < |log| && log[i].Asked? && CallNo(log[i]) <= k ==> Follows(log, i))
    }

    /** One progress event, no terminal one, sound events, and no call after the n-th. */
    ghost predicate SoundLog(log: seq<Event>, n: nat)
    {
      && |log| > 0 && log[0] == Progress
      && (forall i :: 0 < i < |log| ==> log[i] != Progress && !log[i].Terminal?)
      && (forall i :: 0 <= i < |log| ==> SoundEvent(log[i]))
      && (forall i :: 0 <= i < |log| && log[i].Asked? ==> CallNo(log[i]) <= n)
    }

    ghost predicate SoundAsks(asks: seq<Event>, n: nat)
    {
      |asks| == n && forall i :: 0 <= i < n ==> SoundAsk(asks[i], i)
    }

    /** An unfinished log after `n` calls. */
    ghost predicate Going(log: seq<Event>, n: nat) { SoundLog(log, n) && SoundAsks(Asks(log), n) }

    ghost predicate Late(step: nat) { env.Clock(step) - env.Clock(0) > budgets.wallClock }

    /** The budgets allow the call of a step: steps, wall clock and tokens. */
    ghost predicate Affordable(step: nat)
    {
      1 <= step <= budgets.maxSteps && !Late(step) && TokensBefore(env, step - 1) <= budgets.MaxTotalTokens()
    }

    /** The reply of a step ends the run with this answer. */
    ghost predicate Final(step: nat, answer: Option<Value>)
    {
      env.Model(step).Reply? && FinalAnswer(env.Model(step).content, answer)
    }

    /** The step raises: its token count is infinite, or the tool it runs raises. */
    ghost predicate Crashes(step: nat)
    {
      env.Model(step).Reply? && (env.Model(step).usage.Infinite? || exists event :: RunFails(step, event))
    }

    /** The step neither ends the run nor raises. */
    ghost predicate GoesOn(step: nat)
    {
      env.Model(step).Reply? && !Crashes(step) && forall answer :: !Final(step, answer)
    }

    ghost predicate Passed(n: int)
    {
      forall s: nat :: 1 <= s <= n ==> GoesOn(s)
    }

    /** A run gets as far as call `n`, whatever that brings. */
    ghost predicate Reaches(n: nat)
    {
      Passed(n - 1) && forall s: nat :: 1 <= s <= n ==> Affordable(s)
    }

    /** Why a run stopped after `n` answered calls without an answer. */
    ghost predicate Exhausted(n: nat, detail: string)
    {
      || (detail == "max_steps" && n == Max(0, budgets.maxSteps))
      || (detail == "wall_clock" && n < budgets.maxSteps && Late(n + 1))
      || (detail == "token_budget" && n < budgets.maxSteps && !Late(n + 1) &&
          TokensBefore(env, n) > budgets.MaxTotalTokens())
    }

    /** How a run ends that makes `n` calls. */
    ghost predicate EndsAfter(n: nat, result: Result)
    {
      match result
      case Raised => n >= 1 && Passed(n - 1) && Crashes(n)
      case Returned(o) => Deserved(n, o)
    }

    /** The outcome is the one the replies and the budgets call for. */
    ghost predicate Deserved(n: nat, o: Outcome)
    {
      match o.status
      case Completed =>
        && n >= 1 && o.steps == n && o.detail == "" && Passed(n - 1)
        && Final(n, o.answer) && env.Model(n).usage.Tokens?
      case BudgetExhausted => o.steps == n && o.answer == None && Passed(n) && Exhausted(n, o.detail)
      case Failed =>
        && n >= 1 && o.steps == n - 1 && o.answer == None && o.detail == "inference_unavailable"
        && Passed(n - 1) && env.Model(n).Unavailable?
    }

    /** The log ends with the call whose count raised, or with the tool run that raised. */
    ghost predicate CrashLogged(log: seq<Event>, n: nat)
    {
      && log != [] && Crashes(n)
      && var last := log[|log| - 1];
      if env.Model(n).usage.Infinite? then last.Asked? else RunFails(n, last)
    }

    /** The accounts of a finished run: a progress event, sound calls with their consequences, and
        then, unless it raised, exactly one terminal event. */
    ghost predicate Accounted(result: Result, log: seq<Event>)
    {
      var n := |Asks(log)|;
      && EndsAfter(n, result)
      && if result.Raised? then Going(log, n) && Settled(log, n - 1) && CrashLogged(log, n)
         else
           && |log| > 1 && Going(log[..|log| - 1], n)
           && Settled(log[..|log| - 1], if result.outcome.status.BudgetExhausted? then n else n - 1)
           && log[|log| - 1] == Terminal(result.outcome.status.Completed?)
    }

    // ---------- how they grow ----------

    lemma TranscriptExtends(t: seq<Message>, n: nat, feedback: Message)
      requires IsTranscript(t, n)
      requires env.Model(n + 1).Reply? && IsFeedback(n + 1, feedback)
      ensures IsTranscript(t + [Message(Assistant, env.Model(n + 1).content), feedback], n + 1)
    {
    }

    lemma GoOnGoes(n: nat, feedback: Message, event: Option<Event>)
      requires env.Model(n).Reply? && env.Model(n).usage.Tokens? && Decided(n, GoOn(feedback, event))
      ensures GoesOn(n) && IsFeedback(n, feedback) && Reacts(n, feedback, event)
      ensures event.Some? ==> IsToolEvent(event.value) && SoundEvent(event.value)
    {
    }

    lemma PassedExtends(n: nat)
      requires n >= 1 && Passed(n - 1) && GoesOn(n)
      ensures Passed(n)
    {
    }

    lemma SoundLogExtends(log: seq<Event>, n: nat, e: Event, next: nat)
      requires SoundLog(log, n) && SoundEvent(e) && e != Progress && !e.Terminal? && n <= next
      requires e.Asked? ==> CallNo(e) <= next
      ensures SoundLog(log + [e], next)
    {
    }

    lemma GoingExtends(log: seq<Event>, n: nat, e: Event)
      requires Going(log, n) && SoundEvent(e) && e != Progress && !e.Terminal?
      requires e.Asked? ==> SoundAsk(e, n)
      ensures Going(log + [e], if e.Asked? then n + 1 else n)
    {
      AsksExtend(log, e);
      SoundLogExtends(log, n, e, if e.Asked? then n + 1 else n);
    }

    /** What follows a call stays so when the log grows, unless it is last and a tool event comes. */
    lemma FollowsKept(log: seq<Event>, e: Event, i: nat)
      requires i < |log| && log[i].Asked? && Follows(log, i) && (i < |log| - 1 || !IsToolEvent(e))
      ensures (log + [e])[i] == log[i] && Follows(log + [e], i)
    {
      assert EventAfter(log + [e], i) == EventAfter(log, i);
    }

    /** A tool run right after a call leaves the consequences of the earlier calls in place. */
    lemma SettledLonger(log: seq<Event>, n: nat, e: Event)
      requires log != [] && log[|log| - 1].Asked? && CallNo(log[|log| - 1]) == n
      requires Settled(log, n - 1) && IsToolEvent(e)
      ensures Settled(log + [e], n - 1)
    {
      var next := log + [e];
      forall i | 0 <= i < |next| && next[i].Asked? && CallNo(next[i]) <= n - 1 ensures Follows(next, i) {
        FollowsKept(log, e, i);
      }
    }

    /** A new call leaves the consequences of the earlier ones in place. */
    lemma SettledAsk(log: seq<Event>, n: nat, e: Event)
      requires Settled(log, n) && SoundAsk(e, n)
      ensures Settled(log + [e], n)
    {
      var next := log + [e];
      forall i | 0 <= i < |next| && next[i].Asked? && CallNo(next[i]) <= n ensures Follows(next, i) {
        FollowsKept(log, e, i);
      }
    }

    /** The last call gets its consequence: no event, ... */
    lemma SettledQuietly(log: seq<Event>, n: nat, m: Message)
      requires log != [] && log[|log| - 1].Asked? && CallNo(log[|log| - 1]) == n
      requires Settled(log, n - 1) && Reacts(n, m, None)
      requires forall i :: 0 <= i < |log| - 1 && log[i].Asked? ==> CallNo(log[i]) < n
      ensures Settled(log, n)
    {
      assert EventAfter(log, |log| - 1) == None;
      assert Follows(log, |log| - 1);
    }

    lemma FollowsNow(log: seq<Event>, m: Message, e: Event)
      requires log != [] && log[|log| - 1].Asked? && Reacts(CallNo(log[|log| - 1]), m, Some(e)) && IsToolEvent(e)
      ensures Follows(log + [e], |log| - 1)
    {
      var next := log + [e];
      assert next[|log| - 1] == log[|log| - 1] && EventAfter(next, |log| - 1) == Some(e);
    }

    /** ... or one. */
    lemma SettledEvent(log: seq<Event>, n: nat, m: Message, e: Event)
      requires log != [] && log[|log| - 1].Asked? && CallNo(log[|log| - 1]) == n
      requires Settled(log, n - 1) && Reacts(n, m, Some(e)) && IsToolEvent(e)
      requires forall i :: 0 <= i < |log| - 1 && log[i].Asked? ==> CallNo(log[i]) < n
      ensures Settled(log + [e], n)
    {
      var next := log + [e];
      FollowsNow(log, m, e);
      forall i | 0 <= i < |log| - 1 && log[i].Asked? ensures Follows(next, i) {
        FollowsKept(log, e, i);
      }
    }

    lemma Starts()
      ensures Going([Progress], 0) && Settled([Progress], 0)
      ensures IsTranscript([Message(System, prompt), Message(User, task)], 0)
    {
      assert [Progress][1..] == [];
    }

    lemma CountRaises(log: seq<Event>, n: nat)
      requires Going(log, n) && Settled(log, n - 1) && n >= 1 && Passed(n - 1) && log[|log| - 1].Asked?
      requires env.Model(n).Reply? && env.Model(n).usage.Infinite?
      ensures Accounted(Raised, log)
    {
    }

    lemma RunRaisesOut(log: seq<Event>, n: nat, e: Event)
      requires Going(log, n) && Settled(log, n - 1) && n >= 1 && Passed(n - 1) && log[|log| - 1].Asked?
      requires CallNo(log[|log| - 1]) == n
      requires env.Model(n).Reply? && env.Model(n).usage.Tokens? && RunFails(n, e) && e.Ran? && SoundEvent(e)
      ensures Accounted(Raised, log + [e])
    {
      GoingExtends(log, n, e);
      SettledLonger(log, n, e);
    }

    lemma FinishAccounted(log: seq<Event>, n: nat, o: Outcome)
      requires Going(log, n) && Settled(log, if o.status.BudgetExhausted? then n else n - 1) && Deserved(n, o)
      ensures Accounted(Returned(o), log + [Terminal(o.status.Completed?)])
    {
      var e := Terminal(o.status.Completed?);
      AsksExtend(log, e);
      assert (log + [e])[..|log|] == log;
    }

    // ---------- the accounts determine the result ----------

    /** Every call was affordable, and everything before the last went on. */
    lemma AccountsReach(result: Result, log: seq<Event>)
      requires Accounted(result, log)
      ensures Reaches(|Asks(log)|)
    {
      var n := |Asks(log)|;
      var going := if result.Raised? then log else log[..|log| - 1];
      assert Going(going, n);
      forall s: nat | 1 <= s <= n ensures Affordable(s) {
        assert SoundAsks(Asks(going), n) && SoundAsk(Asks(going)[s - 1], s - 1);
      }
    }

    /** A run that gets to a later call has not ended before. */
    lemma NoEarlierEnd(n: nat, result: Result, later: nat)
      requires Reaches(later) && EndsAfter(n, result)
      ensures later <= n
    {
      assert n < later ==> Affordable(n + 1);
      assert 1 <= n < later ==> GoesOn(n);
    }

    lemma FinalUnique(step: nat, a: Option<Value>, b: Option<Value>)
      requires Final(step, a) && Final(step, b)
      ensures a == b
    {
      var content := env.Model(step).content;
      var v :| FinalAction(content, v) && a == Lookup(v.members, Name("answer"));
      var w :| FinalAction(content, w) && b == Lookup(w.members, Name("answer"));
      ActionUnique(content, v, Some(w));
    }

    lemma NoFinalRun(step: nat, answer: Option<Value>, event: Event)
      requires Final(step, answer)
      ensures !RunFails(step, event)
    {
      var content := env.Model(step).content;
      var v :| FinalAction(content, v) && answer == Lookup(v.members, Name("answer"));
      forall w | CallAction(content, w) ensures w == v {
        ActionUnique(content, v, Some(w));
      }
    }

    lemma SameEnd(n: nat, a: Result, b: Result)
      requires EndsAfter(n, a) && EndsAfter(n, b)
      ensures a == b
    {
      if a.Returned? && a.outcome.status.Completed? {
        CompletedEnd(n, a.outcome, b);
      } else if b.Returned? && b.outcome.status.Completed? {
        CompletedEnd(n, b.outcome, a);
      } else {
        assert n >= 1 && Passed(n) ==> GoesOn(n);
      }
    }

    lemma CompletedEnd(n: nat, o: Outcome, b: Result)
      requires Deserved(n, o) && o.status.Completed? && EndsAfter(n, b)
      ensures b == Returned(o)
    {
      forall event ensures !RunFails(n, event) {
        NoFinalRun(n, o.answer, event);
      }
      assert Passed(n) ==> GoesOn(n);
      if b.Returned? && b.outcome.status.Completed? {
        FinalUnique(n, o.answer, b.outcome.answer);
      }
    }

    /** What the inputs say about the result, without the run: it is this one exactly if the run
        gets to some call and ends so after it. */
    lemma ResultExactly(result: Result, log: seq<Event>, r: Result)
      requires Accounted(result, log)
      ensures result == r <==> exists n: nat :: Reaches(n) && EndsAfter(n, r)
    {
      var n := |Asks(log)|;
      AccountsReach(result, log);
      forall m: nat | Reaches(m) && EndsAfter(m, r) ensures m == n && r == result {
        NoEarlierEnd(m, r, n);
        NoEarlierEnd(n, result, m);
        SameEnd(n, result, r);
      }
    }

    /** The replies, the tools and the clock determine the result and the number of calls. */
    lemma RunIsDetermined(a: Result, log: seq<Event>, b: Result, log': seq<Event>)
      requires Accounted(a, log) && Accounted(b, log')
      ensures a == b && |Asks(log)| == |Asks(log')|
    {
      var n, m := |Asks(log)|, |Asks(log')|;
      AccountsReach(a, log);
      AccountsReach(b, log');
      NoEarlierEnd(m, b, n);
      NoEarlierEnd(n, a, m);
      SameEnd(n, a, b);
    }

    /** A run raises, and so ends without a terminal event, exactly if it gets to a call whose
        reply has an infinite token count or asks for a tool run that raises. */
    lemma RaisesExactly(result: Result, log: seq<Event>)
      requires Accounted(result, log)
      ensures result.Raised? <==> exists n: nat :: n >= 1 && Reaches(n) && Crashes(n)
      ensures result.Raised? <==> forall e :: e in log ==> !e.Terminal?
    {
      ResultExactly(result, log, Raised);
      if n: nat :| n >= 1 && Reaches(n) && Crashes(n) {
        assert EndsAfter(n, Raised);
      }
      if result.Returned? {
        assert log[|log| - 1] in log;
      }
    }

    /** A run raises whose first call is allowed by the clock and raises. */
    lemma FirstStepRaises(result: Result, log: seq<Event>)
      requires Accounted(result, log)
      requires budgets.maxSteps >= 1 && budgets.maxTokens >= 0 && !Late(1) && Crashes(1)
      ensures result == Raised
    {
      assert budgets.MaxTotalTokens() >= 0;
      assert Reaches(1);
      RaisesExactly(result, log);
    }

    /** It does if the first reply counts its tokens as infinite, ... */
    lemma InfiniteCountRaises(result: Result, log: seq<Event>)
      requires Accounted(result, log) && budgets.maxSteps >= 1 && budgets.maxTokens >= 0 && !Late(1)
      requires env.Model(1).Reply? && env.Model(1).usage.Infinite?
      ensures result == Raised
    {
      FirstStepRaises(result, log);
    }

    /** ... or if it calls an allowed tool whose executor raises, with any text after it. */
    lemma ToolRunRaises(result: Result, log: seq<Event>, tool: Str, suffix: string)
      requires Accounted(result, log) && budgets.maxSteps >= 1 && budgets.maxTokens >= 0 && !Late(1)
      requires env.Model(1).Reply? && env.Model(1).content == Dumps(Calling(tool)) + suffix
      requires MayCall(Some(String(tool))) && (registry.tools[tool] ==> env.hasJobExecutor) && env.Observe(1).RunRaises?
      ensures result == Raised
    {
      var v := Calling(tool);
      CallingReads(tool);
      ProseObjectSuffix("", v, suffix);
      assert "" + Dumps(v) == Dumps(v);
      assert CallAction(env.Model(1).content, v) && RunsTool(v.members);
      assert RunFails(1, RunOf(v.members));
      FirstStepRaises(result, log);
    }
  }

  lemma AsksExtend(log: seq<Event>, e: Event)
    ensures Asks(log + [e]) == if e.Asked? then Asks(log) + [e] else Asks(log)
  {
    FilterConcat(log, [e], (e: Event) => e.Asked?);
    assert [e][1..] == [];
  }

  // ---------- the loop ----------

  /** The state of a run between two steps, after `n` replies. */
  ghost predicate Between(run: Setup, log: seq<Event>, messages: seq<Message>, n: nat)
  {
    run.Going(log, n) && run.Settled(log, n) && run.IsTranscript(messages, n) && run.Passed(n)
  }

  /** The state after call `n` was sent and before its answer. */
  ghost predicate Waiting(run: Setup, log: seq<Event>, messages: seq<Message>, n: nat)
  {
    && n >= 1 && run.Going(log, n) && run.Settled(log, n - 1)
    && log[|log| - 1].Asked? && CallNo(log[|log| - 1]) == n
    && (forall i :: 0 <= i < |log| - 1 && log[i].Asked? ==> CallNo(log[i]) < n)
    && run.IsTranscript(messages, n - 1) && run.Passed(n - 1)
  }

  lemma AskWaits(run: Setup, log: seq<Event>, messages: seq<Message>, n: nat, tokens: int)
    requires Between(run, log, messages, n) && tokens == TokensBefore(run.env, n) && run.Affordable(n + 1)
    ensures Waiting(run, log + [Asked(messages, tokens)], messages, n + 1)
  {
    run.GoingExtends(log, n, Asked(messages, tokens));
    run.SettledAsk(log, n, Asked(messages, tokens));
  }

  lemma StartIsBetween(run: Setup)
    ensures Between(run, [Progress], [Message(System, run.prompt), Message(User, run.task)], 0)
  {
    run.Starts();
  }

  /** Stopping between two steps because a budget is exhausted. */
  lemma StopAccounted(run: Setup, log: seq<Event>, messages: seq<Message>, n: nat, o: Outcome)
    requires Between(run, log, messages, n) && o.status.BudgetExhausted?
    requires o.answer == None && o.steps == n && run.Exhausted(n, o.detail)
    ensures run.Accounted(Returned(o), log + [Terminal(false)])
  {
    run.FinishAccounted(log, n, o);
  }

  function Extended(log: seq<Event>, event: Option<Event>): seq<Event>
  {
    if event.Some? then log + [event.value] else log
  }

  /** The log after the reaction to a reply that is not final. */
  lemma ReactionLogged(run: Setup, log: seq<Event>, messages: seq<Message>, n: nat, feedback: Message, event: Option<Event>)
    requires Waiting(run, log, messages, n) && run.Reacts(n, feedback, event)
    requires event.Some? ==> IsToolEvent(event.value) && run.SoundEvent(event.value)
    ensures run.Going(Extended(log, event), n)
    ensures run.Settled(Extended(log, event), n)
  {
    if event.Some? {
      run.SettledEvent(log, n, feedback, event.value);
      run.GoingExtends(log, n, event.value);
    } else {
      run.SettledQuietly(log, n, feedback);
    }
  }

  /** The reaction to a reply that is not final ends the step. */
  lemma ReactionEndsStep(
    run: Setup, log: seq<Event>, messages: seq<Message>, n: nat, feedback: Message, event: Option<Event>)
    requires run.env.Model(n).Reply? && run.env.Model(n).usage.Tokens?
    requires Waiting(run, log, messages, n) && run.Decided(n, GoOn(feedback, event))
    ensures Between(run, Extended(log, event),
              messages + [Message(Assistant, run.env.Model(n).content), feedback], n)
  {
    run.GoOnGoes(n, feedback, event);
    ReactionLogged(run, log, messages, n, feedback, event);
    StepEnds(run, Extended(log, event), messages, n, feedback);
  }

  lemma StepEnds(run: Setup, log: seq<Event>, messages: seq<Message>, n: nat, feedback: Message)
    requires n >= 1 && run.Going(log, n) && run.Settled(log, n) && run.IsTranscript(messages, n - 1)
    requires run.Passed(n - 1) && run.GoesOn(n) && run.IsFeedback(n, feedback)
    ensures Between(run, log, messages + [Message(Assistant, run.env.Model(n).content), feedback], n)
  {
    run.TranscriptExtends(messages, n - 1, feedback);
    run.PassedExtends(n);
  }

  lemma OutOfSteps(run: Setup, log: seq<Event>, messages: seq<Message>, n: nat)
    requires Between(run, log, messages, n) && n == Max(0, run.budgets.maxSteps)
    ensures run.Accounted(Returned(Outcome(BudgetExhausted, None, n, "max_steps")), log + [Terminal(false)])
  {
    StopAccounted(run, log, messages, n, Outcome(BudgetExhausted, None, n, "max_steps"));
  }

  method RunAgentLoop(run: Setup, loads: string -> Option<Value>) returns (result: Result, log: seq<Event>)
    requires IsLoads(loads)
    ensures run.Accounted(result, log)
  {
    log := [Progress];
    var messages := [Message(System, run.prompt), Message(User, run.task)];
    var started := run.env.Clock(0);
    var totalTokens := 0;
    var steps := 0;
    StartIsBetween(run);
    while steps < run.budgets.maxSteps
      invariant 0 <= steps <= Max(0, run.budgets.maxSteps)
      invariant Between(run, log, messages, steps)
      invariant totalTokens == TokensBefore(run.env, steps)
    {
      var stop := OverBudget(run, steps, started, totalTokens, messages, log);
      if stop.Some? {
        return Returned(stop.value), log + [Terminal(false)];
      }
      steps := steps + 1;
      var done;
      done, messages, log := Step(run, steps, totalTokens, loads, messages, log);
      if done.Some? {
        return done.value, log;
      }
      totalTokens := totalTokens + run.env.Model(steps).usage.n;
    }
    OutOfSteps(run, log, messages, steps);
    return Returned(Outcome(BudgetExhausted, None, steps, "max_steps")), log + [Terminal(false)];
  }

  /** The looks at the clock and at the tokens, before the call that would follow `n` answers. */
  method OverBudget(
    run: Setup, n: nat, started: real, totalTokens: int, ghost messages: seq<Message>, ghost log: seq<Event>)
    returns (stop: Option<Outcome>)
    requires Between(run, log, messages, n) && n < run.budgets.maxSteps
    requires started == run.env.Clock(0) && totalTokens == TokensBefore(run.env, n)
    ensures stop.Some? ==> run.Accounted(Returned(stop.value), log + [Terminal(false)])
    ensures stop.None? ==> run.Affordable(n + 1)
  {
    var late := run.env.Clock(n + 1) - started > run.budgets.wallClock;
    if !late && totalTokens <= run.budgets.MaxTotalTokens() {
      return None;
    }
    var o := Outcome(BudgetExhausted, None, n, if late then "wall_clock" else "token_budget");
    StopAccounted(run, log, messages, n, o);
    return Some(o);
  }

  /** The inference call of a step, its answer, and what follows from it. */
  method Step(
    run: Setup, step: nat, totalTokens: int, loads: string -> Option<Value>, messages: seq<Message>, log: seq<Event>)
    returns (done: Option<Result>, messages': seq<Message>, log': seq<Event>)
    requires IsLoads(loads) && run.Affordable(step) && Between(run, log, messages, step - 1)
    requires totalTokens == TokensBefore(run.env, step - 1)
    ensures done.Some? ==> run.Accounted(done.value, log')
    ensures done.None? ==> Between(run, log', messages', step)
    ensures done.None? ==> run.env.Model(step).Reply? && run.env.Model(step).usage.Tokens?
  {
    AskWaits(run, log, messages, step - 1, totalTokens);
    done, messages', log' := Answer(run, step, loads, messages, log + [Asked(messages, totalTokens)]);
  }

  method Answer(run: Setup, step: nat, loads: string -> Option<Value>, messages: seq<Message>, log: seq<Event>)
    returns (done: Option<Result>, messages': seq<Message>, log': seq<Event>)
    requires IsLoads(loads) && Waiting(run, log, messages, step)
    ensures done.Some? ==> run.Accounted(done.value, log')
    ensures done.None? ==> Between(run, log', messages', step)
    ensures done.None? ==> run.env.Model(step).Reply? && run.env.Model(step).usage.Tokens?
  {
    messages', log' := messages, log;
    var response := run.env.Model(step);
    if response.Unavailable? {
      var o := Outcome(Failed, None, step - 1, "inference_unavailable");
      run.FinishAccounted(log', step, o);
      return Some(Returned(o)), messages', log' + [Terminal(false)];
    }
    if response.usage.Infinite? {
      run.CountRaises(log', step);
      return Some(Raised), messages', log';
    }
    var decision := Decide(run, step, loads);
    done, messages', log' := React(run, step, decision, messages, log);
  }

  /** The part of a step after the decision: the final answer, a tool run that raises, or the
      assistant turn, one feedback turn and at most one event. */
  method React(run: Setup, step: nat, decision: Decision, messages: seq<Message>, log: seq<Event>)
    returns (done: Option<Result>, messages': seq<Message>, log': seq<Event>)
    requires Waiting(run, log, messages, step) && run.Decided(step, decision)
    requires run.env.Model(step).Reply? && run.env.Model(step).usage.Tokens?
    ensures done.Some? ==> run.Accounted(done.value, log')
    ensures done.None? ==> Between(run, log', messages', step)
  {
    match decision
    case Finish(answer) =>
      var o := Outcome(Completed, answer, step, "");
      run.FinishAccounted(log, step, o);
      return Some(Returned(o)), messages, log + [Terminal(true)];
    case RunRaised(event) =>
      run.RunRaisesOut(log, step, event);
      return Some(Raised), messages, log + [event];
    case GoOn(feedback, event) =>
      ReactionEndsStep(run, log, messages, step, feedback, event);
      messages' := messages + [Message(Assistant, run.env.Model(step).content), feedback];
      return None, messages', Extended(log, event);
  }

  method Decide(run: Setup, step: nat, loads: string -> Option<Value>) returns (decision: Decision)
    requires IsLoads(loads) && run.env.Model(step).Reply?
    ensures run.Decided(step, decision)
  {
    var content := run.env.Model(step).content;
    var action := ParseAction(content, loads);
    if action.None? {
      return GoOn(NUDGE, None);
    }
    var v := action.value;
    forall w | IsAction(content, w) ensures w == v {
      ActionUnique(content, w, Some(v));
    }
    var kind := Lookup(v.members, Name("action"));
    if kind == Some(String(Name("final"))) {
      assert FinalAction(content, v);
      return Finish(Lookup(v.members, Name("answer")));
    }
    if kind == Some(String(Name("call_tool"))) {
      assert CallAction(content, v);
      decision := CallTool(v.members, run, step);
    } else {
      decision := GoOn(UNKNOWN_ACTION, None);
    }
    assert decision.GoOn? ==> run.ReactsTo(v, step, decision.feedback, decision.event);
  }

  ghost predicate CallAction(content: string, v: Value)
  {
    IsAction(content, v) && Lookup(v.members, Name("action")) == Some(String(Name("call_tool")))
  }

  ghost predicate FinalAction(content: string, v: Value)
  {
    IsAction(content, v) && Lookup(v.members, Name("action")) == Some(String(Name("final")))
  }

  /** The reply is a final action with this answer; none and null both read as the empty text. */
  ghost predicate FinalAnswer(content: string, answer: Option<Value>)
  {
    exists v :: FinalAction(content, v) && answer == Lookup(v.members, Name("answer"))
  }

  /** Deny by default: nothing runs unless the tenant's list and the registry both have it. */
  method CallTool(members: seq<Member>, run: Setup, step: nat) returns (decision: Decision)
    ensures match decision
      case Finish(_) => false
      case GoOn(feedback, event) =>
        && run.CallsTool(members, step, feedback, event) && !(run.RunsTool(members) && run.env.Observe(step).RunRaises?)
        && (event.Some? ==> IsToolEvent(event.value) && run.SoundEvent(event.value))
      case RunRaised(event) =>
        && run.RunsTool(members) && event == run.RunOf(members) && run.env.Observe(step).RunRaises?
        && run.SoundEvent(event)
  {
    var r := run.registry;
    var tool := Lookup(members, Name("tool"));
    if tool.None? || !tool.value.String? || !IsAllowed(r, run.tenant, tool.value.s) || tool.value.s !in r.tools {
      return GoOn(NOT_ALLOWED, Some(Denied));
    }
    var arguments := Lookup(members, Name("arguments"));
    if arguments.Some? && !arguments.value.Object? {
      return GoOn(BAD_ARGUMENTS, None);
    }
    var job := r.tools[tool.value.s];
    if job && !run.env.hasJobExecutor {
      return GoOn(NO_EXECUTOR, None);
    }
    var ran := Ran(tool.value.s, job);
    match run.env.Observe(step)
    case Observed(text) => return GoOn(Message(Tool, text), Some(ran));
    case RunRaises => return RunRaised(ran);
  }

  // ---------- the slot held by a run ----------

  /** The handler's use of the limiter: a run that starts holds one slot and gives it
      back exactly once, whether it returns or raises. */
  method RunWithSlot(limiter: RateLimiter, now: int, run: Setup, loads: string -> Option<Value>)
    returns (result: Option<Result>, log: seq<Event>)
    requires limiter.Valid() && IsLoads(loads)
    modifies limiter
    ensures limiter.Valid() && limiter.permits == old(limiter.permits)
    ensures limiter.windows == Acquire(old(limiter.State()), run.tenant, now).0.windows
    ensures result.Some? <==> Acquire(old(limiter.State()), run.tenant, now).1
    ensures if result.Some? then run.Accounted(result.value, log) else log == []
  {
    var ok := limiter.TryAcquire(run.tenant, now);
    if !ok {
      return None, [];
    }
    var outcome;
    outcome, log := RunAgentLoop(run, loads);
    limiter.Release();
    return Some(outcome), log;
  }
}
