/** What the accounts of a run mean for its budgets, its tools and its transcripts
    (agent_loop.py 231-350). */
module AgentRuns {
  import opened Common
  import opened Json
  import opened ActionParser
  import opened AgentLoops

  // ---------- the budgets ----------

  lemma {:induction false} TokensAtLeast(env: Environment, n: nat, u: int)
    requires forall s: nat :: 1 <= s <= n ==> env.Model(s).Reply? && env.Model(s).usage.Tokens? && env.Model(s).usage.n >= u
    ensures TokensBefore(env, n) >= n * u
  {
    if n > 0 {
      TokensAtLeast(env, n - 1, u);
      assert env.Model(n).usage.n >= u;
      assert n * u == (n - 1) * u + u;
    }
  }

  lemma {:induction false} TokensAtMost(env: Environment, n: nat, u: int)
    requires forall s: nat :: 1 <= s <= n ==> env.Model(s).Reply? && env.Model(s).usage.Tokens? && env.Model(s).usage.n <= u
    ensures TokensBefore(env, n) <= n * u
  {
    if n > 0 {
      TokensAtMost(env, n - 1, u);
      assert env.Model(n).usage.n <= u;
      assert n * u == (n - 1) * u + u;
    }
  }

  lemma PassedReply(run: Setup, n: int, s: nat)
    requires run.Passed(n) && 1 <= s <= n
    ensures run.env.Model(s).Reply? && run.env.Model(s).usage.Tokens?
  {
    assert run.GoesOn(s);
  }

  /** However many calls a run makes, the tokens of the replies before the last one fit in the
      budget: if each is at least `u`, so many times `u` does. */
  lemma TokensFitBudget(run: Setup, result: Result, log: seq<Event>, u: int)
    requires run.Accounted(result, log) && Asks(log) != []
    requires forall s: nat :: 1 <= s < |Asks(log)| && run.env.Model(s).Reply? && run.env.Model(s).usage.Tokens?
                              ==> run.env.Model(s).usage.n >= u
    ensures (|Asks(log)| - 1) * u <= run.budgets.maxSteps * run.budgets.maxTokens
  {
    var n := |Asks(log)|;
    run.AccountsReach(result, log);
    forall s: nat | 1 <= s <= n - 1
      ensures run.env.Model(s).Reply? && run.env.Model(s).usage.Tokens? && run.env.Model(s).usage.n >= u
    {
      PassedReply(run, n - 1, s);
    }
    TokensAtLeast(run.env, n - 1, u);
    assert run.Affordable(n);
  }

  lemma Times(n: int, m: int, u: int)
    requires n <= m && u >= 0
    ensures n * u <= m * u
  {
    assert m * u == n * u + (m - n) * u;
  }

  /** A run that ends for its tokens has replies that report more than the budget in all, and so
      one that reports more than a call may use. */
  lemma SomeReplyIsCostly(run: Setup, result: Result, log: seq<Event>)
    requires run.Accounted(result, log) && run.budgets.maxTokens >= 0
    requires result.Returned? && result.outcome.status.BudgetExhausted? && result.outcome.detail == "token_budget"
    ensures exists s: nat :: 1 <= s <= result.outcome.steps && run.env.Model(s).Reply? &&
              run.env.Model(s).usage.Tokens? && run.env.Model(s).usage.n > run.budgets.maxTokens
  {
    var n, u := result.outcome.steps, run.budgets.maxTokens;
    if forall s: nat :: 1 <= s <= n && run.env.Model(s).Reply? && run.env.Model(s).usage.Tokens? ==>
                          run.env.Model(s).usage.n <= u {
      forall s: nat | 1 <= s <= n
        ensures run.env.Model(s).Reply? && run.env.Model(s).usage.Tokens? && run.env.Model(s).usage.n <= u
      {
        PassedReply(run, n, s);
      }
      TokensAtMost(run.env, n, u);
      Times(n, run.budgets.maxSteps, u);
    }
  }

  /** So if no reply reports more than a call may use, no run ends for its tokens. */
  lemma FrugalRunsAffordTokens(run: Setup, result: Result, log: seq<Event>)
    requires run.Accounted(result, log) && run.budgets.maxTokens >= 0
    requires forall s: nat :: run.env.Model(s).Reply? && run.env.Model(s).usage.Tokens?
                              ==> run.env.Model(s).usage.n <= run.budgets.maxTokens
    ensures result.Returned? && result.outcome.status.BudgetExhausted? ==> result.outcome.detail != "token_budget"
  {
    if result.Returned? && result.outcome.status.BudgetExhausted? && result.outcome.detail == "token_budget" {
      SomeReplyIsCostly(run, result, log);
    }
  }

  /** Calls and wall clock: no more calls than steps, each within the time; and a run that ends for
      one of these has used it up. */
  lemma StepsAndClockFit(run: Setup, result: Result, log: seq<Event>)
    requires run.Accounted(result, log)
    ensures |Asks(log)| <= Max(0, run.budgets.maxSteps)
    ensures forall s: nat :: 1 <= s <= |Asks(log)| ==> run.env.Clock(s) - run.env.Clock(0) <= run.budgets.wallClock
    ensures result.Returned? && result.outcome.status.BudgetExhausted? ==>
      var o := result.outcome;
      && o.steps == |Asks(log)| && o.detail in {"max_steps", "wall_clock", "token_budget"}
      && (o.detail == "max_steps" ==> o.steps == Max(0, run.budgets.maxSteps))
      && (o.detail == "wall_clock" ==> run.env.Clock(o.steps + 1) - run.env.Clock(0) > run.budgets.wallClock)
  {
    var n := |Asks(log)|;
    run.AccountsReach(result, log);
    assert n >= 1 ==> run.Affordable(n);
    forall s: nat | 1 <= s <= n ensures run.env.Clock(s) - run.env.Clock(0) <= run.budgets.wallClock {
      assert run.Affordable(s);
    }
  }

  // ---------- the tools ----------

  /** Whatever the replies say, a tool runs only if the tenant's own list and the registry have it. */
  lemma OnlyAllowedToolsRun(run: Setup, result: Result, log: seq<Event>, i: nat)
    requires run.Accounted(result, log) && i < |log| && log[i].Ran?
    ensures var tool := log[i].tool;
      && run.tenant in run.registry.allowlist && tool in run.registry.allowlist[run.tenant]
      && tool in run.registry.tools && log[i].job == run.registry.tools[tool]
  {
    var going := if result.Raised? then log else log[..|log| - 1];
    assert run.Going(going, |Asks(log)|) && i < |going| && going[i] == log[i];
    assert run.SoundLog(going, |Asks(log)|) && run.SoundEvent(going[i]);
  }

  // ---------- what replies lead to ----------

  /** The final action with an answer. */
  function Finishing(answer: Value): Value
  {
    Object([Member(Name("action"), String(Name("final"))), Member(Name("answer"), answer)])
  }

  lemma FinishingReads(answer: Value)
    requires Printable(answer)
    ensures var ms := Finishing(answer).members;
      && Lookup(ms, Name("action")) == Some(String(Name("final"))) && Lookup(ms, Name("answer")) == Some(answer)
      && Printable(Finishing(answer))
  {
    var action, a := Member(Name("action"), String(Name("final"))), Member(Name("answer"), answer);
    assert Name("action")[1] == 'c' as int && Name("answer")[1] == 'n' as int;
    LookupPair(action, a, Name("action"));
    LookupPair(action, a, Name("answer"));
    forall m | m in [action, a] ensures Printable(m.value) {
      assert m == action || m == a;
    }
  }

  /** The action of a reply that starts with a printed object and goes on in any way. */
  lemma PrintedAction(v: Value, suffix: string)
    requires v.Object? && Printable(v) && Lookup(v.members, Name("action")).Some?
    ensures IsAction(Dumps(v) + suffix, v)
    ensures forall w :: IsAction(Dumps(v) + suffix, w) ==> w == v
  {
    ProseObjectSuffix("", v, suffix);
    assert "" + Dumps(v) == Dumps(v);
    forall w | IsAction(Dumps(v) + suffix, w) ensures w == v {
      ActionUnique(Dumps(v) + suffix, v, Some(w));
    }
  }

  /** A run that gets to a reply with a final action completes with its answer. */
  lemma FinalReplyCompletes(
    run: Setup, result: Result, log: seq<Event>, s: nat, answer: Value, suffix: string, tokens: int)
    requires run.Accounted(result, log) && 1 <= s <= |Asks(log)| && Printable(answer)
    requires run.env.Model(s) == Reply(Dumps(Finishing(answer)) + suffix, Tokens(tokens))
    ensures result == Returned(Outcome(Completed, Some(answer), s, ""))
  {
    var v := Finishing(answer);
    FinishingReads(answer);
    PrintedAction(v, suffix);
    run.AccountsReach(result, log);
    assert FinalAction(run.env.Model(s).content, v);
    assert run.Final(s, Some(answer));
    var r := Returned(Outcome(Completed, Some(answer), s, ""));
    assert run.Reaches(s) && run.EndsAfter(s, r);
    run.ResultExactly(result, log, r);
  }

  /** The feedback that call `s + 1` carries for reply `s`. */
  lemma CarriedFeedback(run: Setup, result: Result, log: seq<Event>, s: nat)
    requires run.Accounted(result, log) && 1 <= s < |Asks(log)|
    ensures Asks(log)[s].Asked? && |Asks(log)[s].transcript| == 2 + 2 * s && run.env.Model(s).Reply?
    ensures Asks(log)[s].transcript[0] == Message(System, run.prompt)
    ensures Asks(log)[s].transcript[1] == Message(User, run.task)
    ensures Asks(log)[s].transcript[2 * s] == Message(Assistant, run.env.Model(s).content)
    ensures run.IsFeedback(s, Asks(log)[s].transcript[2 * s + 1])
  {
    var n := |Asks(log)|;
    var going := if result.Raised? then log else log[..|log| - 1];
    assert run.Going(going, n);
    if result.Returned? {
      AsksExtend(going, log[|log| - 1]);
      assert going + [log[|log| - 1]] == log;
    }
    assert run.SoundAsks(Asks(going), n) && run.SoundAsk(Asks(going)[s], s);
    assert run.IsTranscript(Asks(log)[s].transcript, s);
    assert run.env.Model(s).Reply?;
  }

  /** A reply that calls a tool, and is followed by another call: denied unless the tenant's list
      and the registry have the tool; refused where its executor is missing; else run, and what it
      reports is the feedback. */
  lemma CalledToolAnswers(run: Setup, result: Result, log: seq<Event>, s: nat, tool: Str, suffix: string)
    requires run.Accounted(result, log) && 1 <= s < |Asks(log)|
    requires run.env.Model(s).Reply? && run.env.Model(s).content == Dumps(Calling(tool)) + suffix
    ensures Asks(log)[s].Asked? && |Asks(log)[s].transcript| == 2 + 2 * s
    ensures var feedback, r := Asks(log)[s].transcript[2 * s + 1], run.registry;
      if !(run.tenant in r.allowlist && tool in r.allowlist[run.tenant] && tool in r.tools) then feedback == NOT_ALLOWED
      else if r.tools[tool] && !run.env.hasJobExecutor then feedback == NO_EXECUTOR
      else run.env.Observe(s).Observed? && feedback == Message(Tool, run.env.Observe(s).text)
  {
    var v := Calling(tool);
    CallingReads(tool);
    PrintedAction(v, suffix);
    NamesOfActions();
    CarriedFeedback(run, result, log, s);
    var m := Asks(log)[s].transcript[2 * s + 1];
    var event :| run.Reacts(s, m, event);
    assert run.ReactsTo(v, s, m, event);
  }

  /** A reply whose first object has no action, followed by another call, gets the nudge. */
  lemma ObjectWithoutActionIsNudged(run: Setup, result: Result, log: seq<Event>, s: nat, v: Value, suffix: string)
    requires run.Accounted(result, log) && 1 <= s < |Asks(log)|
    requires v.Object? && Printable(v) && Lookup(v.members, Name("action")).None?
    requires run.env.Model(s).Reply? && run.env.Model(s).content == Dumps(v) + suffix
    ensures Asks(log)[s].Asked? && |Asks(log)[s].transcript| == 2 + 2 * s
    ensures Asks(log)[s].transcript[2 * s + 1] == NUDGE
  {
    var content := run.env.Model(s).content;
    ProseObjectSuffix("", v, suffix);
    assert "" + Dumps(v) == Dumps(v);
    forall w ensures !IsAction(content, w) {
      if FirstObject(content, Some(w), Python) {
        ActionUnique(content, v, Some(w));
      }
    }
    CarriedFeedback(run, result, log, s);
  }

  /** The action that calls a tool with arguments of some kind. */
  function CallingWith(tool: Str, arguments: Value): Value
  {
    Object(Calling(tool).members + [Member(Name("arguments"), arguments)])
  }

  lemma LookupLast(ms: seq<Member>, m: Member, key: Str)
    ensures Lookup(ms + [m], key) == if m.name == key then Some(m.value) else Lookup(ms, key)
  {
    assert (ms + [m])[..|ms|] == ms;
  }

  lemma CallingWithReads(tool: Str, arguments: Value)
    requires Printable(arguments)
    ensures var ms := CallingWith(tool, arguments).members;
      && Lookup(ms, Name("action")) == Some(String(Name("call_tool"))) && Lookup(ms, Name("tool")) == Some(String(tool))
      && Lookup(ms, Name("arguments")) == Some(arguments) && Printable(CallingWith(tool, arguments))
  {
    var ms, m := Calling(tool).members, Member(Name("arguments"), arguments);
    CallingReads(tool);
    NamesDiffer();
    LookupLast(ms, m, Name("action"));
    LookupLast(ms, m, Name("tool"));
    LookupLast(ms, m, Name("arguments"));
    forall x | x in ms + [m] ensures Printable(x.value) {
      assert x in ms || x == m;
    }
  }

  /** The same with arguments: refused unless they are an object. */
  lemma ArgumentsAnswer(
    run: Setup, result: Result, log: seq<Event>, s: nat, tool: Str, arguments: Value, suffix: string)
    requires run.Accounted(result, log) && 1 <= s < |Asks(log)| && Printable(arguments)
    requires run.env.Model(s).Reply? && run.env.Model(s).content == Dumps(CallingWith(tool, arguments)) + suffix
    ensures Asks(log)[s].Asked? && |Asks(log)[s].transcript| == 2 + 2 * s
    ensures var feedback, r := Asks(log)[s].transcript[2 * s + 1], run.registry;
      if !(run.tenant in r.allowlist && tool in r.allowlist[run.tenant] && tool in r.tools) then feedback == NOT_ALLOWED
      else if !arguments.Object? then feedback == BAD_ARGUMENTS
      else if r.tools[tool] && !run.env.hasJobExecutor then feedback == NO_EXECUTOR
      else run.env.Observe(s).Observed? && feedback == Message(Tool, run.env.Observe(s).text)
  {
    var v := CallingWith(tool, arguments);
    CallingWithReads(tool, arguments);
    PrintedAction(v, suffix);
    NamesOfActions();
    CarriedFeedback(run, result, log, s);
    var m := Asks(log)[s].transcript[2 * s + 1];
    var event :| run.Reacts(s, m, event);
    assert run.ReactsTo(v, s, m, event);
  }

  /** An action of any other kind, followed by another call, is called unknown. */
  lemma OtherActionIsUnknown(run: Setup, result: Result, log: seq<Event>, s: nat, kind: Value, suffix: string)
    requires run.Accounted(result, log) && 1 <= s < |Asks(log)| && Printable(kind)
    requires kind != String(Name("call_tool")) && kind != String(Name("final"))
    requires run.env.Model(s).Reply?
    requires var v := Object([Member(Name("action"), kind)]); Printable(v) && run.env.Model(s).content == Dumps(v) + suffix
    ensures Asks(log)[s].Asked? && |Asks(log)[s].transcript| == 2 + 2 * s
    ensures Asks(log)[s].transcript[2 * s + 1] == UNKNOWN_ACTION
  {
    var v := Object([Member(Name("action"), kind)]);
    LookupLast([], Member(Name("action"), kind), Name("action"));
    assert [] + v.members == v.members;
    PrintedAction(v, suffix);
    CarriedFeedback(run, result, log, s);
    var m := Asks(log)[s].transcript[2 * s + 1];
    var event :| run.Reacts(s, m, event);
    assert run.ReactsTo(v, s, m, event);
  }

  lemma NamesOfActions()
    ensures Name("call_tool") != Name("final")
  {
    assert |Name("call_tool")| == 9 && |Name("final")| == 5;
  }

  lemma NoBraceNoObject(text: string)
    requires '{' !in text
    ensures forall v :: !IsAction(text, v)
  {
    ObjectsStartAtBraces(text);
    assert forall i :: 0 <= i < |text| ==> text[i] in text;
  }

  /** A reply without a brace, followed by another call, gets the nudge. */
  lemma ProseIsNudged(run: Setup, result: Result, log: seq<Event>, s: nat)
    requires run.Accounted(result, log) && 1 <= s < |Asks(log)|
    requires run.env.Model(s).Reply? && '{' !in run.env.Model(s).content
    ensures Asks(log)[s].Asked? && |Asks(log)[s].transcript| == 2 + 2 * s
    ensures Asks(log)[s].transcript[2 * s + 1] == NUDGE
  {
    var content := run.env.Model(s).content;
    NoBraceNoObject(content);
    CarriedFeedback(run, result, log, s);
  }
}
