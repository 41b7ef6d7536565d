/** Running one tool as a cluster job (jobrunner.py). A run is modelled with the list of its
    effects, each with what the outside answered; the outside may answer anything. */
module JobRunners {
  import opened Common
  import Json

  /** A value, a `K8sError`, or any other exception (a reply of the wrong shape included). */
  datatype Reply<T> = Ok(value: T) | K8sError | OtherError

  /** How a call that changes the cluster ends: it takes effect and returns, or it raises, with or
      without effect. */
  datatype Change = Done | K8sFailure(took: bool) | OtherFailure(took: bool)
  {
    predicate TookEffect() { Done? || took }
  }

  datatype Condition = Condition(kind: string, reason: string)

  datatype Job = Job(succeeded: bool, failed: bool, conditions: seq<Condition>)

  datatype Pod = Pod(name: Option<string>, exitCode: Option<int>)

  datatype ResultClass = Success | UnknownTool | ToolError | ToolTimeout

  datatype JobOutcome = JobOutcome(class_: ResultClass, result: Option<Json.Value>, exitCode: Option<int>)

  datatype Ending = Returned(outcome: JobOutcome) | Raised

  datatype Event =
    | Create(name: string, done: Change)
    | Clock(t: real)
    | Poll(name: string, job: Reply<Job>)
    | Sleep(seconds: real, slept: Reply<bool>)
    | ListPods(selector: string, pods: Reply<seq<Pod>>)
    | ReadLog(pod: Option<string>, log: Reply<string>)
    | Delete(name: string, done: Change)

  datatype Config = Config(pollInterval: real, overallTimeout: real)

  /** The cluster, the clock and the JSON decoder; an answer may depend on everything so far. */
  datatype World = World(
    create: seq<Event> -> Change, job: seq<Event> -> Reply<Job>, pods: seq<Event> -> Reply<seq<Pod>>,
    log: seq<Event> -> Reply<string>, delete: seq<Event> -> Change, sleep: seq<Event> -> Reply<bool>,
    time: seq<Event> -> real, loads: string -> Option<Json.Value>, truthy: Json.Value -> bool)
  {
    function Time(events: seq<Event>): real { time(events) }
    function Truthy(v: Json.Value): bool { truthy(v) }
    function Loads(s: string): Option<Json.Value> { loads(s) }
  }

  function Plain(c: ResultClass): JobOutcome { JobOutcome(c, None, None) }

  // ---------- reading what a tool left ----------

  predicate IsOk(w: World, v: Json.Value)
  {
    v.Object? && var ok := Json.Lookup(v.members, Json.Name("ok")); ok.Some? && w.Truthy(ok.value)
  }

  /** `_classify_log`; an empty log reads as an empty object. */
  function ClassifyLog(w: World, log: string): JobOutcome
  {
    match w.Loads(if log == "" then "{}" else log)
    case None => JobOutcome(ToolError, None, Some(0))
    case Some(data) =>
      if IsOk(w, data) then
        var result := Json.Lookup(data.members, Json.Name("result"));
        JobOutcome(Success, if result == Some(Json.Null) then None else result, Some(0))
      else
        var error := if data.Object? then Json.Lookup(data.members, Json.Name("error")) else None;
        var unknown := error == Some(Json.String(Json.Name("unknown_tool")));
        JobOutcome(if unknown then UnknownTool else ToolError, None, Some(0))
  }

  predicate IsDeadline(c: Condition) { c.kind == "Failed" && c.reason == "DeadlineExceeded" }

  method JobFailedReason(job: Job) returns (reason: ResultClass)
    ensures reason == if exists c :: c in job.conditions && IsDeadline(c) then ToolTimeout else ToolError
  {
    for i := 0 to |job.conditions|
      invariant forall j :: 0 <= j < i ==> !IsDeadline(job.conditions[j])
    {
      if IsDeadline(job.conditions[i]) {
        return ToolTimeout;
      }
    }
    return ToolError;
  }

  // ---------- what a run may look like ----------

  /** `_read_pod_result`: the first pod's log, classified. */
  ghost predicate ReadsResult(w: World, selector: string, events: seq<Event>, e: Ending)
  {
    events != [] && events[0].ListPods? && events[0].selector == selector &&
    match events[0].pods
    case K8sError => |events| == 1 && e == Returned(Plain(ToolError))
    case OtherError => |events| == 1 && e == Raised
    case Ok(pods) =>
      if pods == [] then |events| == 1 && e == Returned(Plain(ToolError))
      else
        && |events| == 2 && events[1].ReadLog? && events[1].pod == pods[0].name
        && match events[1].log
           case K8sError => e == Returned(Plain(ToolError))
           case OtherError => e == Raised
           case Ok(log) => e == Returned(ClassifyLog(w, log))
  }

  /** `_pod_exit_code` for a job that failed. */
  ghost predicate ReadsExit(selector: string, job: Job, events: seq<Event>, e: Ending)
  {
    |events| == 1 && events[0].ListPods? && events[0].selector == selector &&
    match events[0].pods
    case OtherError => e == Raised
    case K8sError => FailedWith(job, None, e)
    case Ok(pods) => FailedWith(job, if pods == [] then None else pods[0].exitCode, e)
  }

  ghost predicate FailedWith(job: Job, exitCode: Option<int>, e: Ending)
  {
    e == Returned(JobOutcome(
      if exists c :: c in job.conditions && IsDeadline(c) then ToolTimeout else ToolError, None, exitCode))
  }

  ghost predicate PollOf(event: Event, name: string) { event.Poll? && event.name == name }

  predicate IsPending(r: Reply<Job>) { r.Ok? && !r.value.succeeded && !r.value.failed }

  /** The polling loop from one poll to its end. */
  ghost predicate Polling(
    w: World, cfg: Config, name: string, selector: string, deadline: real, events: seq<Event>, e: Ending)
    decreases |events|
  {
    events != [] && PollOf(events[0], name) &&
    if !IsPending(events[0].job) then Settles(w, selector, events[0].job, events[1..], e)
    else
      && |events| >= 2 && events[1].Clock?
      && if events[1].t > deadline then |events| == 2 && e == Returned(Plain(ToolTimeout))
         else
           && |events| >= 3 && events[2].Sleep? && events[2].seconds == cfg.pollInterval
           && if events[2].slept.Ok? then Polling(w, cfg, name, selector, deadline, events[3..], e)
              else |events| == 3 && e == Raised
  }

  /** A poll that is not pending ends the loop. */
  ghost predicate Settles(w: World, selector: string, job: Reply<Job>, events: seq<Event>, e: Ending)
  {
    match job
    case K8sError => events == [] && e == Returned(Plain(ToolError))
    case OtherError => events == [] && e == Raised
    case Ok(j) =>
      if j.succeeded then ReadsResult(w, selector, events, e)
      else j.failed && ReadsExit(selector, j, events, e)
  }

  /** A whole run: create, and once that has succeeded poll to an end and delete. */
  ghost predicate IsRun(w: World, cfg: Config, name: string, selector: string, events: seq<Event>, e: Ending)
  {
    events != [] && events[0].Create? && events[0].name == name &&
    match events[0].done
    case K8sFailure(_) => |events| == 1 && e == Returned(Plain(ToolError))
    case OtherFailure(_) => |events| == 1 && e == Raised
    case Done =>
      && |events| >= 3 && events[1].Clock?
      && var end := events[|events| - 1];
      && end.Delete? && end.name == name
      && EndsAfter(w, cfg, name, selector, events[1].t + cfg.overallTimeout, events[2..|events| - 1], end.done, e)
  }

  /** The deletion keeps the loop's ending, whatever it was, unless it raises something else. */
  ghost predicate EndsAfter(
    w: World, cfg: Config, name: string, selector: string, deadline: real, events: seq<Event>, done: Change,
    e: Ending)
  {
    exists inner: Ending ::
      Polling(w, cfg, name, selector, deadline, events, inner) && e == if done.OtherFailure? then Raised else inner
  }

  // ---------- when the loop ends ----------

  /** The turn that starts after these events goes round. */
  predicate GoesRound(w: World, cfg: Config, name: string, deadline: real, log: seq<Event>)
  {
    var r := RoundOf(w, cfg, name, log);
    IsPending(r[0].job) && r[1].t <= deadline && r[2].slept.Ok?
  }

  /** A poll, a reading and a sleep. */
  function RoundOf(w: World, cfg: Config, name: string, log: seq<Event>): (r: seq<Event>)
    ensures |r| == 3 && r[0].Poll? && r[1].Clock? && r[2].Sleep?
  {
    var poll := Poll(name, w.job(log));
    var reading := Clock(w.Time(log + [poll]));
    [poll, reading, Sleep(cfg.pollInterval, w.sleep(log + [poll, reading]))]
  }

  function AfterRounds(w: World, cfg: Config, name: string, log: seq<Event>, k: nat): seq<Event>
  {
    if k == 0 then log
    else
      var before := AfterRounds(w, cfg, name, log, k - 1);
      before + RoundOf(w, cfg, name, before)
  }

  ghost predicate StopsBy(w: World, cfg: Config, name: string, events0: seq<Event>, k: nat)
  {
    var start := Clock(w.Time(events0));
    !GoesRound(w, cfg, name, start.t + cfg.overallTimeout, AfterRounds(w, cfg, name, events0 + [start], k))
  }

  /** After the creation the loop does not go round for ever. */
  ghost predicate Stops(w: World, cfg: Config, name: string)
  {
    exists k: nat :: StopsBy(w, cfg, name, [Create(name, w.create([]))], k)
  }

  // ---------- the clock ----------

  function Sleeps(events: seq<Event>): nat
  {
    if events == [] then 0 else Sleeps(events[..|events| - 1]) + if events[|events| - 1].Sleep? then 1 else 0
  }

  function Polls(events: seq<Event>): nat
  {
    if events == [] then 0 else Polls(events[..|events| - 1]) + if events[|events| - 1].Poll? then 1 else 0
  }

  lemma {:induction false} PollsConcat(a: seq<Event>, b: seq<Event>)
    ensures Polls(a + b) == Polls(a) + Polls(b)
  {
    if b == [] {
      assert a + b == a;
    } else {
      assert (a + b)[..|a + b| - 1] == a + b[..|b| - 1];
      PollsConcat(a, b[..|b| - 1]);
    }
  }

  function Elapsed(rounds: int, interval: real): real { rounds as real * interval }

  ghost predicate AdvancesFrom(w: World, interval: real, a: seq<Event>, b: seq<Event>)
  {
    a <= b ==> w.Time(b) >= w.Time(a) + Elapsed(Sleeps(b) - Sleeps(a), interval)
  }

  /** Each sleep moves the clock on by at least the poll interval. */
  ghost predicate Advances(w: World, interval: real)
  {
    forall a, b: seq<Event> :: AdvancesFrom(w, interval, a, b)
  }

  /** Polls a run can make. */
  function MaxPolls(cfg: Config): int
    requires cfg.pollInterval > 0.0
  {
    Max(1, (cfg.overallTimeout / cfg.pollInterval).Floor + 2)
  }

  /** A bound on polls, where the interval is positive and each sleep lasts as long. */
  ghost predicate FewPolls(w: World, cfg: Config, polls: nat)
  {
    cfg.pollInterval > 0.0 && Advances(w, cfg.pollInterval) ==> polls <= MaxPolls(cfg)
  }

  /** As many rounds as have fitted before the deadline. */
  lemma RoundsFit(rounds: nat, cfg: Config)
    requires cfg.pollInterval > 0.0 && Elapsed(rounds, cfg.pollInterval) <= cfg.overallTimeout
    ensures rounds + 2 <= MaxPolls(cfg)
  {
    var q := cfg.overallTimeout / cfg.pollInterval;
    assert q * cfg.pollInterval == cfg.overallTimeout;
    if q < rounds as real {
      Scaled(q, rounds as real, cfg.pollInterval);
    }
    assert q.Floor >= rounds;
  }

  lemma Scaled(x: real, y: real, k: real)
    requires x < y && k > 0.0
    ensures x * k < y * k
  {
    var d := (y - x) * k;
    assert d > 0.0;
    assert y * k == x * k + d;
  }

  // ---------- the code ----------

  method ReadPodResult(w: World, selector: string, events0: seq<Event>) returns (e: Ending, events: seq<Event>)
    ensures ReadsResult(w, selector, events, e)
    ensures Polls(events) == 0
  {
    var pods := w.pods(events0);
    events := [ListPods(selector, pods)];
    assert events[..0] == [];
    match pods
    case K8sError => return Returned(Plain(ToolError)), events;
    case OtherError => return Raised, events;
    case Ok(ps) =>
      if ps == [] {
        return Returned(Plain(ToolError)), events;
      }
      var log := w.log(events0 + events);
      events := events + [ReadLog(ps[0].name, log)];
      assert events[..1] == [ListPods(selector, pods)];
      match log
      case K8sError => return Returned(Plain(ToolError)), events;
      case OtherError => return Raised, events;
      case Ok(text) => return Returned(ClassifyLog(w, text)), events;
  }

  method PodExitCode(w: World, selector: string, job: Job, events0: seq<Event>)
    returns (e: Ending, events: seq<Event>)
    ensures ReadsExit(selector, job, events, e)
    ensures Polls(events) == 0
  {
    var reason := JobFailedReason(job);
    var pods := w.pods(events0);
    events := [ListPods(selector, pods)];
    assert events[..0] == [];
    match pods
    case K8sError => return Returned(JobOutcome(reason, None, None)), events;
    case OtherError => return Raised, events;
    case Ok(ps) =>
      return Returned(JobOutcome(reason, None, if ps == [] then None else ps[0].exitCode)), events;
  }

  /** Whole rounds of the loop: a pending poll, a reading within the deadline, a sleep. */
  ghost predicate Rounds(cfg: Config, name: string, deadline: real, events: seq<Event>)
    decreases |events|
  {
    events == [] ||
    (|events| >= 3 && PollOf(events[0], name) && IsPending(events[0].job) && events[1].Clock? &&
     events[1].t <= deadline && events[2].Sleep? && events[2].seconds == cfg.pollInterval && events[2].slept.Ok? &&
     Rounds(cfg, name, deadline, events[3..]))
  }

  lemma {:induction false} RoundsThen(
    w: World, cfg: Config, name: string, selector: string, deadline: real, a: seq<Event>, b: seq<Event>, e: Ending)
    requires Rounds(cfg, name, deadline, a) && Polling(w, cfg, name, selector, deadline, b, e)
    ensures Polling(w, cfg, name, selector, deadline, a + b, e)
    decreases |a|
  {
    if a == [] {
      assert a + b == b;
    } else {
      RoundsThen(w, cfg, name, selector, deadline, a[3..], b, e);
      var s := a + b;
      assert s[0] == a[0] && s[1] == a[1] && s[2] == a[2] && s[3..] == a[3..] + b;
    }
  }

  lemma {:induction false} RoundsAppend(cfg: Config, name: string, deadline: real, a: seq<Event>, b: seq<Event>)
    requires Rounds(cfg, name, deadline, a) && Rounds(cfg, name, deadline, b)
    ensures Rounds(cfg, name, deadline, a + b)
    decreases |a|
  {
    if a == [] {
      assert a + b == b;
    } else {
      RoundsAppend(cfg, name, deadline, a[3..], b);
      var s := a + b;
      assert s[0] == a[0] && s[1] == a[1] && s[2] == a[2] && s[3..] == a[3..] + b;
    }
  }

  lemma OneMore(events: seq<Event>, e: Event)
    ensures Polls(events + [e]) == Polls(events) + (if e.Poll? then 1 else 0)
    ensures Sleeps(events + [e]) == Sleeps(events) + (if e.Sleep? then 1 else 0)
  {
    assert (events + [e])[..|events|] == events;
  }

  /** A round leaves room for the next poll: its reading was within the deadline. */
  lemma RoundFits(w: World, cfg: Config, a: seq<Event>, b: seq<Event>, rounds: nat)
    requires cfg.pollInterval > 0.0 && AdvancesFrom(w, cfg.pollInterval, a, b) && a <= b
    requires Sleeps(b) == Sleeps(a) + rounds && w.Time(b) <= w.Time(a) + cfg.overallTimeout
    ensures rounds + 2 <= MaxPolls(cfg)
  {
    assert Elapsed(rounds, cfg.pollInterval) <= cfg.overallTimeout;
    RoundsFit(rounds, cfg);
  }

  method Settle(w: World, selector: string, job: Reply<Job>, events0: seq<Event>)
    returns (e: Ending, events: seq<Event>)
    requires !IsPending(job)
    ensures Settles(w, selector, job, events, e)
    ensures Polls(events) == 0
  {
    match job
    case K8sError => return Returned(Plain(ToolError)), [];
    case OtherError => return Raised, [];
    case Ok(j) =>
      if j.succeeded {
        e, events := ReadPodResult(w, selector, events0);
      } else {
        e, events := PodExitCode(w, selector, j, events0);
      }
  }

  lemma OnePoll(events: seq<Event>)
    requires events != [] && events[0].Poll? && forall i :: 1 <= i < |events| ==> !events[i].Poll?
    ensures Polls(events) == 1
    decreases |events|
  {
    if |events| > 1 {
      OnePoll(events[..|events| - 1]);
    }
  }

  lemma OneSleep(log: seq<Event>, poll: Event, reading: Event, nap: Event)
    requires poll.Poll? && reading.Clock? && nap.Sleep?
    ensures Sleeps(log + [poll, reading, nap]) == Sleeps(log) + 1
  {
    OneMore(log, poll);
    OneMore(log + [poll], reading);
    OneMore(log + [poll] + [reading], nap);
    assert log + [poll] + [reading] + [nap] == log + [poll, reading, nap];
  }

  /** One turn of the loop after these events: it goes round, or the loop ends. */
  ghost predicate IsTurn(
    w: World, cfg: Config, name: string, selector: string, deadline: real, log: seq<Event>, end: Option<Ending>,
    events: seq<Event>)
  {
    && Polls(events) == 1 && (end.None? <==> GoesRound(w, cfg, name, deadline, log))
    && match end
       case None => events == RoundOf(w, cfg, name, log)
       case Some(e) => Polling(w, cfg, name, selector, deadline, events, e)
  }

  method Turn(w: World, cfg: Config, name: string, selector: string, deadline: real, log: seq<Event>)
    returns (end: Option<Ending>, events: seq<Event>)
    ensures IsTurn(w, cfg, name, selector, deadline, log, end, events)
  {
    var poll := Poll(name, w.job(log));
    if !IsPending(poll.job) {
      var e, more := Settle(w, selector, poll.job, log + [poll]);
      OnePoll([poll]);
      PollsConcat([poll], more);
      assert ([poll] + more)[1..] == more;
      return Some(e), [poll] + more;
    }
    var reading := Clock(w.Time(log + [poll]));
    if reading.t > deadline {
      OnePoll([poll, reading]);
      return Some(Returned(Plain(ToolTimeout))), [poll, reading];
    }
    var nap := Sleep(cfg.pollInterval, w.sleep(log + [poll, reading]));
    OnePoll([poll, reading, nap]);
    return if nap.slept.Ok? then None else Some(Raised), [poll, reading, nap];
  }

  /** What a round adds. */
  lemma RoundAdds(w: World, cfg: Config, name: string, deadline: real, log: seq<Event>)
    requires GoesRound(w, cfg, name, deadline, log)
    ensures var r := RoundOf(w, cfg, name, log);
      && Rounds(cfg, name, deadline, r) && Polls(r) == 1 && Sleeps(log + r) == Sleeps(log) + 1
      && w.Time(log + [r[0]]) <= deadline
  {
    var r := RoundOf(w, cfg, name, log);
    OneSleep(log, r[0], r[1], r[2]);
    OnePoll(r);
    assert r == [r[0], r[1], r[2]];
  }

  /** The reading of a round that goes round leaves room for one more poll. */
  lemma RoomForPoll(w: World, cfg: Config, name: string, events0: seq<Event>, log: seq<Event>, k: nat)
    requires events0 <= log && Sleeps(log) == Sleeps(events0) + k
    requires GoesRound(w, cfg, name, w.Time(events0) + cfg.overallTimeout, log)
    ensures FewPolls(w, cfg, k + 2)
  {
    var poll := RoundOf(w, cfg, name, log)[0];
    RoundAdds(w, cfg, name, w.Time(events0) + cfg.overallTimeout, log);
    OneMore(log, poll);
    assert events0 <= log + [poll];
    if cfg.pollInterval > 0.0 && Advances(w, cfg.pollInterval) {
      assert AdvancesFrom(w, cfg.pollInterval, events0, log + [poll]);
      RoundFits(w, cfg, events0, log + [poll], k);
    }
  }

  /** After `k` rounds. */
  ghost predicate Looping(w: World, cfg: Config, name: string, events0: seq<Event>, rounds: seq<Event>, k: nat)
  {
    var start := Clock(w.Time(events0));
    var log := events0 + [start] + rounds;
    && log == AfterRounds(w, cfg, name, events0 + [start], k) && Rounds(cfg, name, start.t + cfg.overallTimeout, rounds)
    && Polls(rounds) == k && Sleeps(log) == Sleeps(events0) + k && FewPolls(w, cfg, k + 1)
  }

  lemma LoopStarts(w: World, cfg: Config, name: string, events0: seq<Event>)
    ensures Looping(w, cfg, name, events0, [], 0)
  {
    var start := Clock(w.Time(events0));
    OneMore(events0, start);
    assert events0 + [start] + [] == events0 + [start];
  }

  /** The log of the loop, from the reading that sets the deadline. */
  function LoopLog(w: World, events0: seq<Event>, rounds: seq<Event>): seq<Event>
  {
    events0 + [Clock(w.Time(events0))] + rounds
  }

  lemma LoopGoesOn(
    w: World, cfg: Config, name: string, selector: string, events0: seq<Event>, rounds: seq<Event>, k: nat,
    turn: seq<Event>, stop: nat)
    requires Looping(w, cfg, name, events0, rounds, k) && StopsBy(w, cfg, name, events0, stop)
    requires IsTurn(w, cfg, name, selector, w.Time(events0) + cfg.overallTimeout, LoopLog(w, events0, rounds), None, turn)
    ensures Looping(w, cfg, name, events0, rounds + turn, k + 1) && k != stop
  {
    var base, deadline := events0 + [Clock(w.Time(events0))], w.Time(events0) + cfg.overallTimeout;
    RoundAdds(w, cfg, name, deadline, base + rounds);
    assert events0 <= base + rounds;
    RoomForPoll(w, cfg, name, events0, base + rounds, k);
    RoundsAppend(cfg, name, deadline, rounds, turn);
    PollsConcat(rounds, turn);
    ConcatAssociates(base, rounds, turn);
  }

  /** The reading that sets the deadline, and the loop to its end. */
  ghost predicate PolledToEnd(
    w: World, cfg: Config, name: string, selector: string, events: seq<Event>, e: Ending)
  {
    && events != [] && events[0].Clock? && FewPolls(w, cfg, Polls(events))
    && Polling(w, cfg, name, selector, events[0].t + cfg.overallTimeout, events[1..], e)
  }

  lemma LoopEnds(
    w: World, cfg: Config, name: string, selector: string, events0: seq<Event>, rounds: seq<Event>, k: nat,
    turn: seq<Event>, e: Ending)
    requires Looping(w, cfg, name, events0, rounds, k)
    requires IsTurn(w, cfg, name, selector, w.Time(events0) + cfg.overallTimeout, LoopLog(w, events0, rounds), Some(e),
      turn)
    ensures PolledToEnd(w, cfg, name, selector, [Clock(w.Time(events0))] + (rounds + turn), e)
  {
    PollsOfRun(Clock(w.Time(events0)), rounds, turn);
    RoundsThen(w, cfg, name, selector, w.Time(events0) + cfg.overallTimeout, rounds, turn, e);
  }

  lemma PollsOfRun(start: Event, rounds: seq<Event>, turn: seq<Event>)
    requires start.Clock?
    ensures ([start] + (rounds + turn))[1..] == rounds + turn
    ensures Polls([start] + (rounds + turn)) == Polls(rounds) + Polls(turn)
  {
    OneMore([], start);
    assert [] + [start] == [start];
    PollsConcat([start], rounds + turn);
    PollsConcat(rounds, turn);
  }

  /** The body of the `try`. */
  method PollToEnd(w: World, cfg: Config, name: string, selector: string, events0: seq<Event>, ghost stop: nat)
    returns (e: Ending, events: seq<Event>)
    requires StopsBy(w, cfg, name, events0, stop)
    ensures PolledToEnd(w, cfg, name, selector, events, e)
  {
    var start := Clock(w.Time(events0));
    var deadline := start.t + cfg.overallTimeout;
    var rounds := [];
    ghost var k: nat := 0;
    LoopStarts(w, cfg, name, events0);
    while true
      invariant Looping(w, cfg, name, events0, rounds, k) && k <= stop
      decreases stop - k
    {
      var end, turn := Turn(w, cfg, name, selector, deadline, LoopLog(w, events0, rounds));
      if end.Some? {
        LoopEnds(w, cfg, name, selector, events0, rounds, k, turn, end.value);
        return end.value, [start] + (rounds + turn);
      }
      LoopGoesOn(w, cfg, name, selector, events0, rounds, k, turn, stop);
      rounds := rounds + turn;
      k := k + 1;
    }
  }

  // ---------- with a clock that moves the loop ends ----------

  lemma {:induction false} RoundsSleep(w: World, cfg: Config, name: string, log: seq<Event>, k: nat)
    ensures log <= AfterRounds(w, cfg, name, log, k)
    ensures Sleeps(AfterRounds(w, cfg, name, log, k)) == Sleeps(log) + k
  {
    if k > 0 {
      RoundsSleep(w, cfg, name, log, k - 1);
      var before := AfterRounds(w, cfg, name, log, k - 1);
      var r := RoundOf(w, cfg, name, before);
      OneSleep(before, r[0], r[1], r[2]);
      assert r == [r[0], r[1], r[2]];
    }
  }

  /** With a positive interval and a clock that each sleep moves on by it, the loop stops. */
  lemma MovingClockStops(w: World, cfg: Config, name: string)
    requires cfg.pollInterval > 0.0 && Advances(w, cfg.pollInterval)
    ensures Stops(w, cfg, name)
  {
    var events0, k := [Create(name, w.create([]))], MaxPolls(cfg);
    var start := Clock(w.Time(events0));
    var log := AfterRounds(w, cfg, name, events0 + [start], k);
    OneMore(events0, start);
    RoundsSleep(w, cfg, name, events0 + [start], k);
    if GoesRound(w, cfg, name, start.t + cfg.overallTimeout, log) {
      RoomForPoll(w, cfg, name, events0, log, k);
      assert false;
    }
    assert StopsBy(w, cfg, name, events0, k);
  }

  /** The whole run; the job is deleted on every way out of the `try`. */
  method RunToolJob(w: World, cfg: Config, name: string, selector: string) returns (e: Ending, events: seq<Event>)
    requires w.create([]).Done? ==> Stops(w, cfg, name)
    ensures IsRun(w, cfg, name, selector, events, e)
    ensures FewPolls(w, cfg, Polls(events))
  {
    var created := Create(name, w.create([]));
    events := [created];
    OneMore([], created);
    assert [] + [created] == [created];
    if created.done.K8sFailure? {
      return Returned(Plain(ToolError)), events;
    } else if created.done.OtherFailure? {
      return Raised, events;
    }
    ghost var stop: nat :| StopsBy(w, cfg, name, events, stop);
    var inner, polled := PollToEnd(w, cfg, name, selector, events, stop);
    var deleted := Delete(name, w.delete(events + polled));
    RunOfParts(w, cfg, name, selector, created, polled, deleted, inner);
    return if deleted.done.OtherFailure? then Raised else inner, events + polled + [deleted];
  }

  lemma RunOfParts(
    w: World, cfg: Config, name: string, selector: string, created: Event, polled: seq<Event>, deleted: Event,
    inner: Ending)
    requires created.Create? && created.name == name && created.done.Done? && deleted.Delete? && deleted.name == name
    requires PolledToEnd(w, cfg, name, selector, polled, inner)
    ensures var events := [created] + polled + [deleted];
      && IsRun(w, cfg, name, selector, events, if deleted.done.OtherFailure? then Raised else inner)
      && Polls(events) == Polls(polled)
  {
    var events := [created] + polled + [deleted];
    OneMore([], created);
    assert [] + [created] == [created];
    PollsConcat([created], polled);
    OneMore([created] + polled, deleted);
    assert events[2..|events| - 1] == polled[1..];
  }

  // ---------- what every run keeps ----------

  function Deletes(events: seq<Event>): nat
  {
    if events == [] then 0 else (if events[0].Delete? then 1 else 0) + Deletes(events[1..])
  }

  lemma {:induction false} PollingNeverDeletes(
    w: World, cfg: Config, name: string, selector: string, deadline: real, events: seq<Event>, e: Ending)
    requires Polling(w, cfg, name, selector, deadline, events, e)
    ensures forall i :: 0 <= i < |events| ==> !events[i].Delete? && !events[i].Create?
    decreases |events|
  {
    if IsPending(events[0].job) && events[1].t <= deadline && events[2].slept.Ok? {
      PollingNeverDeletes(w, cfg, name, selector, deadline, events[3..], e);
      forall i | 3 <= i < |events| ensures !events[i].Delete? && !events[i].Create? {
        assert events[i] == events[3..][i - 3];
      }
    } else if !IsPending(events[0].job) {
      forall i | 1 <= i < |events| ensures !events[i].Delete? && !events[i].Create? {
        assert events[i] == events[1..][i - 1];
      }
    }
  }

  /** One creation comes first. If it returns, exactly one deletion follows, of the same job, as the
      very last effect, on every outcome and every error; if it raises, there is none. */
  lemma CreatedJobsAreDeleted(w: World, cfg: Config, name: string, selector: string, events: seq<Event>, e: Ending)
    requires IsRun(w, cfg, name, selector, events, e)
    ensures events[0].Create? && events[0].name == name
    ensures forall i :: 0 < i < |events| ==> !events[i].Create?
    ensures forall i :: 0 <= i < |events| ==> (events[i].Delete? <==> i == |events| - 1 && events[0].done.Done?)
    ensures events[0].done.Done? ==> events[|events| - 1].Delete? && events[|events| - 1].name == name
  {
    if events[0].done.Done? {
      var n := |events| - 1;
      var body := events[2..n];
      var inner: Ending :| Polling(w, cfg, name, selector, events[1].t + cfg.overallTimeout, body, inner)
        && e == if events[n].done.OtherFailure? then Raised else inner;
      PollingNeverDeletes(w, cfg, name, selector, events[1].t + cfg.overallTimeout, body, inner);
      forall i | 2 <= i < n ensures !events[i].Delete? && !events[i].Create? {
        assert events[i] == body[i - 2];
      }
    }
  }

  /** A creation took effect and no deletion did. */
  ghost predicate JobLeft(events: seq<Event>)
  {
    && (exists i :: 0 <= i < |events| && events[i].Create? && events[i].done.TookEffect())
    && forall i :: 0 <= i < |events| && events[i].Delete? ==> !events[i].done.TookEffect()
  }

  /** A run leaves its job behind exactly if the creation took effect and raised, or the creation
      returned and the deletion had no effect. */
  lemma JobLeftExactly(w: World, cfg: Config, name: string, selector: string, events: seq<Event>, e: Ending)
    requires IsRun(w, cfg, name, selector, events, e)
    ensures JobLeft(events) <==>
      if events[0].done.Done? then !events[|events| - 1].done.TookEffect() else events[0].done.TookEffect()
  {
    CreatedJobsAreDeleted(w, cfg, name, selector, events, e);
  }

  /** A timeout is reported only for a job whose own deadline passed, or after a reading of the
      clock past the run's deadline that follows a pending poll. */
  lemma {:induction false} TimeoutHasCause(
    w: World, cfg: Config, name: string, selector: string, deadline: real, events: seq<Event>, e: Ending)
    requires Polling(w, cfg, name, selector, deadline, events, e) && e.Returned? && e.outcome.class_ == ToolTimeout
    ensures var n := |events| - 1;
      || (n >= 1 && events[n].Clock? && events[n].t > deadline && events[n - 1].Poll? && IsPending(events[n - 1].job))
      || (n >= 1 && events[n - 1].Poll? && events[n - 1].job.Ok? && events[n - 1].job.value.failed
          && exists c :: c in events[n - 1].job.value.conditions && IsDeadline(c))
    decreases |events|
  {
    if IsPending(events[0].job) && events[1].t <= deadline {
      TimeoutHasCause(w, cfg, name, selector, deadline, events[3..], e);
    }
  }

  // ---------- what the outcomes mean ----------

  /** The runner's report of a result. */
  function ResultReport(result: Json.Value): Json.Value
  {
    Json.Object([Json.Member(Json.Name("ok"), Json.Bool(true)), Json.Member(Json.Name("result"), result)])
  }

  function ErrorReport(error: string): Json.Value
  {
    Json.Object([Json.Member(Json.Name("ok"), Json.Bool(false)), Json.Member(Json.Name("error"), Json.String(Json.Name(error)))])
  }

  lemma MemberNames()
    ensures Json.Name("ok") != Json.Name("result") && Json.Name("ok") != Json.Name("error")
    ensures Json.Name("result") != Json.Name("error")
  {
    assert |Json.Name("ok")| == 2 && |Json.Name("result")| == 6 && |Json.Name("error")| == 5;
  }

  lemma LookupTwo(a: Json.Member, b: Json.Member, key: Json.Str)
    ensures Json.Lookup([a, b], key)
         == if b.name == key then Some(b.value) else if a.name == key then Some(a.value) else None
  {
    assert [a][..0] == [] && Json.Lookup([a], key) == if a.name == key then Some(a.value) else None;
    assert [a, b][..1] == [a];
  }

  lemma ReportsPrint(a: Json.Member, b: Json.Member)
    requires Json.Printable(a.value) && Json.Printable(b.value)
    ensures Json.Printable(Json.Object([a, b]))
  {
    forall m | m in [a, b] ensures Json.Printable(m.value) {
      assert m == a || m == b;
    }
  }

  /** The world reads texts as Python does, and true is truthy while false is not. */
  ghost predicate ReadsJson(w: World)
  {
    (forall t :: w.Loads(t) == Json.Loads(t, Json.Python)) && w.Truthy(Json.Bool(true)) && !w.Truthy(Json.Bool(false))
  }

  /** A printed report of a result, whatever it is, succeeds with it; null counts as none. */
  lemma ResultIsReported(w: World, result: Json.Value)
    requires ReadsJson(w) && Json.Printable(result)
    ensures Json.Printable(ResultReport(result))
    ensures ClassifyLog(w, Json.Dumps(ResultReport(result)))
         == JobOutcome(Success, if result == Json.Null then None else Some(result), Some(0))
  {
    var ok, value := Json.Member(Json.Name("ok"), Json.Bool(true)), Json.Member(Json.Name("result"), result);
    MemberNames();
    LookupTwo(ok, value, Json.Name("ok"));
    LookupTwo(ok, value, Json.Name("result"));
    ReportsPrint(ok, value);
    PrintedReads(w, ResultReport(result));
  }

  /** A printed report of an error fails, and as an unknown tool exactly for that error. */
  lemma ErrorIsReported(w: World, error: string)
    requires ReadsJson(w)
    ensures Json.Printable(ErrorReport(error))
    ensures ClassifyLog(w, Json.Dumps(ErrorReport(error)))
         == JobOutcome(if Json.Name(error) == Json.Name("unknown_tool") then UnknownTool else ToolError, None, Some(0))
  {
    var ok, value := Json.Member(Json.Name("ok"), Json.Bool(false)),
                     Json.Member(Json.Name("error"), Json.String(Json.Name(error)));
    MemberNames();
    LookupTwo(ok, value, Json.Name("ok"));
    LookupTwo(ok, value, Json.Name("error"));
    ReportsPrint(ok, value);
    PrintedReads(w, ErrorReport(error));
  }

  lemma PrintedReads(w: World, v: Json.Value)
    requires ReadsJson(w) && Json.Printable(v) && v.Object?
    ensures Json.Dumps(v) != "" && w.Loads(Json.Dumps(v)) == Some(v)
  {
    Json.PrintThenParse(v, "", "", Json.Python);
    assert "" + Json.Dumps(v) == Json.Dumps(v);
    Json.PrintDenotes(v, Json.Python);
    Json.FirstChar(Json.Print(v), "", Json.Python);
  }

  /** A log that is no JSON is a tool error, and so is one that is not an object. */
  lemma OtherLogsFail(w: World, log: string)
    requires log != "" && (w.Loads(log).None? || !w.Loads(log).value.Object?)
    ensures ClassifyLog(w, log) == JobOutcome(ToolError, None, Some(0))
  {
  }

  /** The end of a polling that saw the job succeed and read the log of its first pod. */
  ghost predicate ReadLogOf(name: string, selector: string, events: seq<Event>, log: string)
  {
    var n := |events|;
    && n >= 3 && PollOf(events[n - 3], name) && events[n - 3].job.Ok? && events[n - 3].job.value.succeeded
    && events[n - 2].ListPods? && events[n - 2].selector == selector && events[n - 2].pods.Ok?
    && events[n - 2].pods.value != []
    && events[n - 1].ReadLog? && events[n - 1].pod == events[n - 2].pods.value[0].name && events[n - 1].log == Ok(log)
  }

  /** A polling ends with the verdict on a log if it read one, and with a success, or the report of
      an unknown tool, in no other way. */
  lemma {:induction false} LogDecides(
    w: World, cfg: Config, name: string, selector: string, deadline: real, events: seq<Event>, e: Ending)
    requires Polling(w, cfg, name, selector, deadline, events, e)
    ensures forall log :: ReadLogOf(name, selector, events, log) ==> e == Returned(ClassifyLog(w, log))
    ensures e.Returned? && (e.outcome.class_ == Success || e.outcome.class_ == UnknownTool) ==>
      exists log :: ReadLogOf(name, selector, events, log)
    decreases |events|
  {
    if IsPending(events[0].job) && events[1].t <= deadline && events[2].slept.Ok? {
      LogDecides(w, cfg, name, selector, deadline, events[3..], e);
      var rest := events[3..];
      forall log ensures ReadLogOf(name, selector, events, log) <==> ReadLogOf(name, selector, rest, log) {
        SuffixReads(name, selector, events, log);
      }
    } else if !IsPending(events[0].job) {
      SettledReads(w, name, selector, events, e);
    }
  }

  lemma SuffixReads(name: string, selector: string, events: seq<Event>, log: string)
    requires |events| > 3 && events[0].Poll? && events[1].Clock? && events[2].Sleep? && events[3].Poll?
    ensures ReadLogOf(name, selector, events, log) <==> ReadLogOf(name, selector, events[3..], log)
  {
    var rest, n := events[3..], |events|;
    assert n >= 6 ==> rest[n - 6] == events[n - 3] && rest[n - 5] == events[n - 2] && rest[n - 4] == events[n - 1];
  }

  lemma SettledReads(w: World, name: string, selector: string, events: seq<Event>, e: Ending)
    requires events != [] && PollOf(events[0], name) && !IsPending(events[0].job)
    requires Settles(w, selector, events[0].job, events[1..], e)
    ensures forall log :: ReadLogOf(name, selector, events, log) ==> e == Returned(ClassifyLog(w, log))
    ensures e.Returned? && (e.outcome.class_ == Success || e.outcome.class_ == UnknownTool) ==>
      exists log :: ReadLogOf(name, selector, events, log)
  {
    var rest := events[1..];
    if events[0].job.Ok? && events[0].job.value.succeeded && |rest| == 2 && rest[1].log.Ok? {
      assert rest[0] == events[1] && rest[1] == events[2];
      assert ReadLogOf(name, selector, events, rest[1].log.value);
    }
  }

  /** A whole run succeeds with a result exactly if it read a log that says so before it deleted the
      job, and the deletion did not raise anything but a cluster error. */
  lemma SuccessExactly(w: World, cfg: Config, name: string, selector: string, events: seq<Event>, e: Ending, o: JobOutcome)
    requires IsRun(w, cfg, name, selector, events, e) && o.class_ == Success
    ensures e == Returned(o) <==>
      (events[0].done.Done? && !events[|events| - 1].done.OtherFailure? &&
       exists log :: ReadLogOf(name, selector, events[2..|events| - 1], log) && ClassifyLog(w, log) == o)
  {
    if events[0].done.Done? {
      var n := |events| - 1;
      var body, deadline := events[2..n], events[1].t + cfg.overallTimeout;
      var inner: Ending :| Polling(w, cfg, name, selector, deadline, body, inner)
        && e == if events[n].done.OtherFailure? then Raised else inner;
      LogDecides(w, cfg, name, selector, deadline, body, inner);
    }
  }

  /** A whole run reports a timeout only for a job whose own deadline passed, or after a reading of
      the clock that is more than the overall timeout past the first one. */
  lemma RunTimeoutHasCause(w: World, cfg: Config, name: string, selector: string, events: seq<Event>, e: Ending)
    requires IsRun(w, cfg, name, selector, events, e) && e.Returned? && e.outcome.class_ == ToolTimeout
    ensures |events| >= 4 && events[1].Clock?
    ensures var last := events[|events| - 2];
      || (last.Clock? && last.t - events[1].t > cfg.overallTimeout)
      || (events[|events| - 3].Poll? && events[|events| - 3].job.Ok? && events[|events| - 3].job.value.failed
          && exists c :: c in events[|events| - 3].job.value.conditions && IsDeadline(c))
  {
    var n := |events| - 1;
    var body, deadline := events[2..n], events[1].t + cfg.overallTimeout;
    var inner: Ending :| Polling(w, cfg, name, selector, deadline, body, inner)
      && e == if events[n].done.OtherFailure? then Raised else inner;
    TimeoutHasCause(w, cfg, name, selector, deadline, body, inner);
    assert body[|body| - 1] == events[n - 1] && body[|body| - 2] == events[n - 2];
  }

  /** Every sleep is as long as the poll interval, and every poll asks for this very job. */
  lemma {:induction false} PollsAndSleepsAre(
    w: World, cfg: Config, name: string, selector: string, deadline: real, events: seq<Event>, e: Ending)
    requires Polling(w, cfg, name, selector, deadline, events, e)
    ensures forall i :: 0 <= i < |events| && events[i].Sleep? ==> events[i].seconds == cfg.pollInterval
    ensures forall i :: 0 <= i < |events| && events[i].Poll? ==> events[i].name == name
    decreases |events|
  {
    if IsPending(events[0].job) && events[1].t <= deadline && events[2].slept.Ok? {
      var rest := events[3..];
      PollsAndSleepsAre(w, cfg, name, selector, deadline, rest, e);
      assert forall i :: 3 <= i < |events| ==> events[i] == rest[i - 3];
    } else if !IsPending(events[0].job) {
      var rest := events[1..];
      assert forall i :: 1 <= i < |events| ==> events[i] == rest[i - 1];
    }
  }

  /** The event is a call that raised something else than a cluster error, or a sleep that raised. */
  predicate Breaks(event: Event)
  {
    match event
    case Poll(_, job) => job.OtherError?
    case Sleep(_, slept) => !slept.Ok?
    case ListPods(_, pods) => pods.OtherError?
    case ReadLog(_, log) => log.OtherError?
    case _ => false
  }

  /** The loop raises exactly if its last call did, with something else than a cluster error; a
      cluster error of its last poll is a tool error. */
  lemma {:induction false} BreaksExactly(
    w: World, cfg: Config, name: string, selector: string, deadline: real, events: seq<Event>, e: Ending)
    requires Polling(w, cfg, name, selector, deadline, events, e)
    ensures events != [] && (e.Raised? <==> Breaks(events[|events| - 1]))
    ensures var last := events[|events| - 1];
      last.Poll? && last.job.K8sError? ==> e == Returned(JobOutcome(ToolError, None, None))
    decreases |events|
  {
    if IsPending(events[0].job) && events[1].t <= deadline && events[2].slept.Ok? {
      BreaksExactly(w, cfg, name, selector, deadline, events[3..], e);
    }
  }

  /** A failed job is reported with the first pod's exit code, as a timeout exactly if one of its
      conditions says that its deadline was exceeded. */
  lemma FailureIsReported(w: World, selector: string, job: Job, pods: seq<Pod>, e: Ending)
    requires job.failed && !job.succeeded
    requires Settles(w, selector, Ok(job), [ListPods(selector, Ok(pods))], e)
    ensures e.Returned? && e.outcome.result == None
    ensures e.outcome.exitCode == if pods == [] then None else pods[0].exitCode
    ensures e.outcome.class_ == ToolTimeout || e.outcome.class_ == ToolError
    ensures e.outcome.class_ == ToolTimeout <==>
      exists c :: c in job.conditions && c.kind == "Failed" && c.reason == "DeadlineExceeded"
  {
    if c: Condition :| c in job.conditions && IsDeadline(c) {
      assert c.kind == "Failed" && c.reason == "DeadlineExceeded";
    }
    if c: Condition :| c in job.conditions && c.kind == "Failed" && c.reason == "DeadlineExceeded" {
      assert IsDeadline(c);
    }
  }
}
