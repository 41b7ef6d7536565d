/** The bound on open install requests is the best there is: some interleaving reaches
    it, because the count and the insertion are separate sections (model_requests.py). */
module InstallRace {
  import opened Common
  import opened RateLimits
  import opened ModelRequests
  import opened RequestBodies
  import opened InstallProtocol
  import opened InstallCap
  import opened InstallRuns
  import opened CreateRequests

  /** `n` open requests of the tenant, `busy` handlers past the checks, and minute `m` unused. */
  ghost predicate Race(s: State, q: Intake, n: nat, busy: nat, m: int)
  {
    && Numbered(s.store) && CountOpen(s.store, q.tenant) == n
    && s.limiter.perMinute >= 1 && s.limiter.permits + busy == s.limiter.capacity
    && (q.tenant in s.limiter.windows ==> s.limiter.windows[q.tenant].minute < m)
    && busy <= |s.handlers|
    && forall h :: |s.handlers| - busy <= h < |s.handlers| ==> s.handlers[h] == Cleared(q)
  }

  /** The handler that arrives in minute `m`. */
  function Run(h: nat, q: Intake, m: int): seq<Step> { HandlerSteps(h, q, 60 * m, 0) }

  lemma RoomInMinute(l: Limiter, t: Tenant, m: int)
    requires l.perMinute >= 1 && l.permits >= 1 && (t in l.windows ==> l.windows[t].minute < m)
    ensures var (l', ok) := Acquire(l, t, 60 * m);
      && ok && l'.permits == l.permits - 1 && l'.capacity == l.capacity && l'.perMinute == l.perMinute
      && t in l'.windows && l'.windows[t].minute == m
  {
  }

  /** The first half of a handler takes a free slot past the checks. */
  lemma CheckPasses(cfg: Config, s: State, q: Intake, n: nat, busy: nat, m: int)
    requires Race(s, q, n, busy, m) && busy < s.limiter.capacity && n < cfg.control.cap && Welcome(cfg.control, q)
    ensures var s' := Exec(cfg, s, Run(|s.handlers|, q, m)[..3]);
      && Race(s', q, n, busy + 1, m + 1) && s'.limiter.capacity == s.limiter.capacity
      && |s'.handlers| == |s.handlers| + 1
  {
    var h := |s.handlers|;
    RoomInMinute(s.limiter, q.tenant, m);
    FirstHalf(cfg, s, q, 60 * m);
    assert Run(h, q, m)[..3] == [Arrive(q, 60 * m), TakeSlot(h), Check(h)];
    ThreeSteps(cfg, s, Arrive(q, 60 * m), TakeSlot(h), Check(h));
  }

  /** A handler by itself adds one open request while the cap permits. */
  lemma OneCreated(cfg: Config, s: State, q: Intake, n: nat, m: int)
    requires Race(s, q, n, 0, m) && s.limiter.capacity >= 1 && n < cfg.control.cap && Welcome(cfg.control, q)
    ensures var s' := Exec(cfg, s, Run(|s.handlers|, q, m));
      Race(s', q, n + 1, 0, m + 1) && s'.limiter.capacity == s.limiter.capacity
  {
    HandlerIsRun(cfg, s, q, 60 * m, 0);
    RoomInMinute(s.limiter, q.tenant, m);
    OpenAfterInsert(s.store, NewRequest(|s.store|, q, 0), q.tenant);
    NumberedIndex(s.store, |s.store|);
  }

  /** One undisturbed handler after another. */
  lemma {:induction false} CreateSome(cfg: Config, s: State, q: Intake, n: nat, target: nat, m: int)
    returns (steps: seq<Step>)
    requires Race(s, q, n, 0, m) && s.limiter.capacity >= 1 && n <= target <= cfg.control.cap
    requires Welcome(cfg.control, q)
    ensures exists m' :: Race(Exec(cfg, s, steps), q, target, 0, m')
    ensures Exec(cfg, s, steps).limiter.capacity == s.limiter.capacity
    decreases target - n
  {
    if n == target {
      steps := [];
      assert Race(Exec(cfg, s, steps), q, target, 0, m);
    } else {
      var first := Run(|s.handlers|, q, m);
      OneCreated(cfg, s, q, n, m);
      var rest := CreateSome(cfg, Exec(cfg, s, first), q, n + 1, target, m + 1);
      ExecConcat(cfg, s, first, rest);
      steps := first + rest;
    }
  }

  /** Every free slot is taken by a handler that passes the checks. */
  lemma {:induction false} FillSlots(cfg: Config, s: State, q: Intake, n: nat, busy: nat, m: int)
    returns (steps: seq<Step>)
    requires Race(s, q, n, busy, m) && busy <= s.limiter.capacity && n < cfg.control.cap && Welcome(cfg.control, q)
    ensures exists m' :: Race(Exec(cfg, s, steps), q, n, s.limiter.capacity, m')
    ensures Exec(cfg, s, steps).limiter.capacity == s.limiter.capacity
    decreases s.limiter.capacity - busy
  {
    if busy == s.limiter.capacity {
      steps := [];
      assert Race(Exec(cfg, s, steps), q, n, busy, m);
    } else {
      var first := Run(|s.handlers|, q, m)[..3];
      CheckPasses(cfg, s, q, n, busy, m);
      var rest := FillSlots(cfg, Exec(cfg, s, first), q, n, busy + 1, m + 1);
      ExecConcat(cfg, s, first, rest);
      steps := first + rest;
    }
  }

  lemma InsertSteps(cfg: Config, s: State, h: nat, q: Intake)
    requires h < |s.handlers| && s.handlers[h] == Cleared(q)
    ensures var s' := Next(cfg, Next(cfg, Next(cfg, s, Stamp(h, 0)), Insert(h)), Quit(h));
      s'.store == Added(s.store, NewRequest(|s.store|, q, 0)) && s'.handlers == s.handlers[h := Gone]
  {
    var hs := s.handlers;
    assert hs[h := Stamped(q, 0)][h := Leaving(q)] == hs[h := Leaving(q)];
    assert hs[h := Leaving(q)][h := Gone] == hs[h := Gone];
  }

  /** The second half of a handler past the checks inserts, whatever was inserted since. */
  lemma InsertCounts(cfg: Config, s: State, h: nat, q: Intake, m: int)
    requires h < |s.handlers| && s.handlers[h] == Cleared(q) && Numbered(s.store)
    ensures var s' := Exec(cfg, s, Run(h, q, m)[3..]);
      && Numbered(s'.store) && CountOpen(s'.store, q.tenant) == CountOpen(s.store, q.tenant) + 1
      && s'.handlers == s.handlers[h := Gone]
  {
    assert Run(h, q, m)[3..] == [Stamp(h, 0), Insert(h), Quit(h)];
    ThreeSteps(cfg, s, Stamp(h, 0), Insert(h), Quit(h));
    InsertSteps(cfg, s, h, q);
    OpenAfterInsert(s.store, NewRequest(|s.store|, q, 0), q.tenant);
    NumberedIndex(s.store, |s.store|);
  }

  lemma {:induction false} InsertAll(cfg: Config, s: State, q: Intake, busy: nat) returns (steps: seq<Step>)
    requires Numbered(s.store) && busy <= |s.handlers|
    requires forall h :: |s.handlers| - busy <= h < |s.handlers| ==> s.handlers[h] == Cleared(q)
    ensures CountOpen(Exec(cfg, s, steps).store, q.tenant) == CountOpen(s.store, q.tenant) + busy
    decreases busy
  {
    if busy == 0 {
      steps := [];
    } else {
      var h := |s.handlers| - busy;
      var first := Run(h, q, 0)[3..];
      InsertCounts(cfg, s, h, q, 0);
      var rest := InsertAll(cfg, Exec(cfg, s, first), q, busy - 1);
      ExecConcat(cfg, s, first, rest);
      steps := first + rest;
    }
  }

  /** With an intake that is taken in, some run reaches cap + K - 1 open requests: whole handlers
      up to one below the cap, then the first halves of K of them, then the second halves. */
  lemma OpenBoundAttained(cfg: Config, perMinute: int, maxConcurrency: int, served: string, q: Intake)
    requires cfg.control.cap >= 1 && perMinute >= 1 && Welcome(cfg.control, q)
    ensures exists steps ::
      CountOpen(Exec(cfg, Start(NewLimiter(perMinute, maxConcurrency), served), steps).store, q.tenant)
        == cfg.control.cap + Max(1, maxConcurrency) - 1
  {
    var s := Start(NewLimiter(perMinute, maxConcurrency), served);
    var below := cfg.control.cap - 1;
    var a := CreateSome(cfg, s, q, 0, below, 0);
    var s1 := Exec(cfg, s, a);
    var m1 :| Race(s1, q, below, 0, m1);
    var b := FillSlots(cfg, s1, q, below, 0, m1);
    var s2 := Exec(cfg, s1, b);
    var c := InsertAll(cfg, s2, q, s.limiter.capacity);
    ExecConcat(cfg, s, a, b);
    ExecConcat(cfg, s, a + b, c);
  }

  // ---------- the exact maximum for every configuration ----------

  /** Anything can be taken in at all. */
  ghost predicate TakesIn(control: Control, perMinute: int)
  {
    control.enabled && perMinute >= 1 && LetsSomeIn(control.allowlist)
  }

  /** A handler that will not store anything. */
  predicate Turned(control: Control, perMinute: int, x: Handler)
  {
    x.Gone? || (control.enabled && perMinute >= 1 && !x.Cleared? && !x.Stamped?)
  }

  /** Nothing was stored, and no handler is on the way to store anything. */
  ghost predicate Shut(cfg: Config, s: State)
  {
    && s.store == [] && s.rec.Idle? && (s.limiter.perMinute < 1 ==> s.limiter.windows == map[])
    && forall h :: 0 <= h < |s.handlers| ==> Turned(cfg.control, s.limiter.perMinute, s.handlers[h])
  }

  lemma HandlerKeepsShut(cfg: Config, s: State, h: nat, step: Step)
    requires Shut(cfg, s) && !TakesIn(cfg.control, s.limiter.perMinute)
    requires h < |s.handlers| && !step.Arrive? && !step.Reconcile?
    ensures Shut(cfg, HandlerNext(cfg.control, s, h, step))
    ensures HandlerNext(cfg.control, s, h, step).limiter.perMinute == s.limiter.perMinute
  {
    assert Turned(cfg.control, s.limiter.perMinute, s.handlers[h]);
    if step.Check? && s.handlers[h].Holding? {
      SomeBodyPasses(cfg.control);
      assert !Passes(cfg.control, s.handlers[h].intake.body);
    }
  }

  lemma StepKeepsShut(cfg: Config, s: State, step: Step)
    requires Shut(cfg, s) && !TakesIn(cfg.control, s.limiter.perMinute)
    ensures Shut(cfg, Next(cfg, s, step)) && Next(cfg, s, step).limiter.perMinute == s.limiter.perMinute
  {
    if step.Reconcile? {
      assert Waiting(s.store) == [] && Pending(s.store) == [];
    } else if !step.Arrive? && step.h < |s.handlers| {
      HandlerKeepsShut(cfg, s, step.h, step);
    }
  }

  lemma {:induction false} RunKeepsShut(cfg: Config, s: State, steps: seq<Step>)
    requires Shut(cfg, s) && !TakesIn(cfg.control, s.limiter.perMinute)
    ensures Exec(cfg, s, steps).store == []
    decreases |steps|
  {
    if steps != [] {
      StepKeepsShut(cfg, s, steps[0]);
      RunKeepsShut(cfg, Next(cfg, s, steps[0]), steps[1..]);
    }
  }

  /** Open requests of a tenant at the end of a run. */
  function OpenAfter(cfg: Config, perMinute: int, maxConcurrency: int, served: string, steps: seq<Step>, t: Tenant): nat
  {
    CountOpen(Exec(cfg, Start(NewLimiter(perMinute, maxConcurrency), served), steps).store, t)
  }

  ghost function MostOpen(control: Control, perMinute: int, maxConcurrency: int): int
  {
    if control.cap >= 1 && TakesIn(control, perMinute) then control.cap + Max(1, maxConcurrency) - 1 else 0
  }

  /** Over all runs, the most open requests a tenant can have: cap + K - 1 if the control plane
      takes anything in, and otherwise none. */
  lemma OpenBoundExact(cfg: Config, perMinute: int, maxConcurrency: int, served: string, t: Tenant)
    ensures forall steps ::
      OpenAfter(cfg, perMinute, maxConcurrency, served, steps, t) <= MostOpen(cfg.control, perMinute, maxConcurrency)
    ensures exists steps ::
      OpenAfter(cfg, perMinute, maxConcurrency, served, steps, t) == MostOpen(cfg.control, perMinute, maxConcurrency)
  {
    var most := MostOpen(cfg.control, perMinute, maxConcurrency);
    forall steps ensures OpenAfter(cfg, perMinute, maxConcurrency, served, steps, t) <= most {
      OpenRequestsBounded(cfg, perMinute, maxConcurrency, served, steps, t);
      if !TakesIn(cfg.control, perMinute) {
        RunKeepsShut(cfg, Start(NewLimiter(perMinute, maxConcurrency), served), steps);
      }
    }
    if cfg.control.cap >= 1 && TakesIn(cfg.control, perMinute) {
      SomeBodyPasses(cfg.control);
      var body :| Passes(cfg.control, body);
      OpenBoundAttained(cfg, perMinute, maxConcurrency, served, Intake(t, "", true, body));
      var steps :| CountOpen(Exec(cfg, Start(NewLimiter(perMinute, maxConcurrency), served), steps).store, t) == most;
      assert OpenAfter(cfg, perMinute, maxConcurrency, served, steps, t) == most;
    } else {
      assert OpenAfter(cfg, perMinute, maxConcurrency, served, [], t) == most;
    }
  }
}
