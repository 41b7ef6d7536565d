/** Requests that stay recorded as installing although no pass works on them any more
    (reconciler.py 76-140): how a pass leaves one, and that none is ever taken up again. */
module InstallStuck {
  import opened Common
  import opened RateLimits
  import opened ModelRequests
  import opened RequestBodies
  import opened InstallProtocol
  import opened InstallRuns
  import opened CreateRequests
  import opened Reconcilers

  /** Recorded as installing, and not in progress. */
  predicate Stuck(s: State, id: nat)
  {
    id < |s.store| && s.store[id].status == Installing && (s.rec.Idle? || s.rec.id != id)
  }

  // ---------- stuck requests stay ----------

  lemma PickKeepsStuck(cfg: Config, s: State, reply: Reply, id: nat)
    requires Numbered(s.store) && Stuck(s, id) && s.rec.Idle?
    ensures Stuck(RecNext(cfg, s, reply), id) && RecNext(cfg, s, reply).store == s.store
  {
    if Pending(s.store) != [] {
      PendingHead(s.store);
    }
  }

  lemma CallKeepsStuck(cfg: Config, s: State, reply: Reply, id: nat)
    requires Shaped(s) && Stuck(s, id) && !s.rec.Idle?
    ensures Stuck(RecNext(cfg, s, reply), id) && RecNext(cfg, s, reply).store[id] == s.store[id]
  {
    NumberedIndex(s.store, s.rec.id);
  }

  lemma StepKeepsStuck(cfg: Config, s: State, step: Step, id: nat)
    requires Shaped(s) && Stuck(s, id)
    ensures Stuck(Next(cfg, s, step), id) && Next(cfg, s, step).store[id] == s.store[id]
  {
    if !step.Reconcile? {
      HandlerFrame(cfg, s, step);
    } else if s.rec.Idle? {
      PickKeepsStuck(cfg, s, step.reply, id);
    } else {
      CallKeepsStuck(cfg, s, step.reply, id);
    }
  }

  /** No run ever takes a stuck request up again or changes it. */
  lemma {:induction false} StuckForEver(cfg: Config, s: State, steps: seq<Step>, id: nat)
    requires Shaped(s) && Stuck(s, id)
    ensures var s' := Exec(cfg, s, steps);
      Shaped(s') && Stuck(s', id) && s'.store[id] == s.store[id]
    decreases |steps|
  {
    if steps != [] {
      StepKeepsShape(cfg, s, steps[0]);
      StepKeepsStuck(cfg, s, steps[0], id);
      StuckForEver(cfg, Next(cfg, s, steps[0]), steps[1..], id);
    }
  }

  // ---------- what they cost ----------

  function CountInstalling(items: Items, t: Tenant): nat
  {
    Count(items, (r: Request) => r.tenant == t && r.status == Installing)
  }

  /** What is kept place by place is counted in full. */
  lemma {:induction false} CountKept(a: Items, b: Items, t: Tenant)
    requires |a| <= |b| && forall i :: 0 <= i < |a| && a[i].status == Installing ==> b[i] == a[i]
    ensures CountInstalling(a, t) <= CountOpen(b, t)
  {
    if a != [] {
      forall i | 0 <= i < |a[1..]| && a[1..][i].status == Installing ensures b[1..][i] == a[1..][i] {
        assert a[1..][i] == a[i + 1];
      }
      CountKept(a[1..], b[1..], t);
    }
  }

  /** A tenant with as many stuck requests as the cap allows is refused from then on, whatever
      happens: no body of it is ever accepted again. */
  lemma StuckTenantIsShutOut(cfg: Config, s: State, steps: seq<Step>, intake: Intake, id: nat, created: int)
    requires Shaped(s) && s.rec.Idle? && CountInstalling(s.store, intake.tenant) >= cfg.control.cap
    ensures !Decide(cfg.control, Exec(cfg, s, steps).store, intake, id, created).0.Accepted?
  {
    var s' := Exec(cfg, s, steps);
    NeverShrinks(cfg, s, steps);
    forall i | 0 <= i < |s.store| && s.store[i].status == Installing ensures s'.store[i] == s.store[i] {
      StuckForEver(cfg, s, steps, i);
    }
    CountKept(s.store, s'.store, intake.tenant);
  }

  lemma {:induction false} NeverShrinks(cfg: Config, s: State, steps: seq<Step>)
    requires Shaped(s)
    ensures |s.store| <= |Exec(cfg, s, steps).store|
    decreases |steps|
  {
    if steps != [] {
      var step := steps[0];
      StepKeepsShape(cfg, s, step);
      if !step.Reconcile? {
        HandlerFrame(cfg, s, step);
      }
      NeverShrinks(cfg, Next(cfg, s, step), steps[1..]);
    }
  }

  // ---------- how a pass leaves one ----------

  /** Past its first status call a pass has one more, the closing one. */
  predicate InstallInProgress(rec: Rec) { !rec.Idle? && !rec.Deny? && !rec.Mark? }

  lemma ClosingLeaves(cfg: Config, s: State, script: Script)
    requires Shaped(s) && (s.rec.Fail? || s.rec.Apply?)
    ensures var s' := Drive(cfg, s, script);
      && s'.rec.Idle? && |s'.store| == |s.store|
      && (s'.store[s.rec.id].status == Installing <==> !script.last.call.TookEffect())
      && forall i :: 0 <= i < |s.store| && i != s.rec.id ==> s'.store[i] == s.store[i]
  {
    Unfold(cfg, s, script);
    NumberedIndex(s.store, s.rec.id);
  }

  /** The calls in between write no status. */
  lemma MiddleCall(cfg: Config, s: State, reply: Reply)
    requires Shaped(s) && InstallInProgress(s.rec) && !s.rec.Fail? && !s.rec.Apply?
    ensures var s' := RecNext(cfg, s, reply);
      && s'.store == s.store && InstallInProgress(s'.rec) && s'.rec.id == s.rec.id && Shaped(s')
      && CallsLeft(s'.rec) < CallsLeft(s.rec)
  {
    CallKeepsShape(cfg, s, reply);
  }

  /** From there on the request stays installing exactly if the closing call has no effect. */
  lemma {:induction false} RestLeaves(cfg: Config, s: State, script: Script)
    requires Shaped(s) && InstallInProgress(s.rec)
    ensures var s' := Drive(cfg, s, script);
      && s'.rec.Idle? && |s'.store| == |s.store|
      && (s'.store[s.rec.id].status == Installing <==> !script.last.call.TookEffect())
      && forall i :: 0 <= i < |s.store| && i != s.rec.id ==> s'.store[i] == s.store[i]
    decreases CallsLeft(s.rec)
  {
    if s.rec.Fail? || s.rec.Apply? {
      ClosingLeaves(cfg, s, script);
    } else {
      var reply := ReplyFor(script, s.rec);
      MiddleCall(cfg, s, reply);
      Unfold(cfg, s, script);
      RestLeaves(cfg, RecNext(cfg, s, reply), script);
    }
  }

  /** The status calls of a pass that installs leave its request installing: the first raised
      having taken effect, or it returned and the closing one had no effect. */
  predicate LosesTrack(script: Script)
  {
    if script.mark.call.Raised() then script.mark.call.FailedAfter? else !script.last.call.TookEffect()
  }

  lemma MarkLeaves(cfg: Config, s: State, script: Script)
    requires Shaped(s) && s.rec.Mark?
    ensures var s' := Drive(cfg, s, script);
      && s'.rec.Idle? && |s'.store| == |s.store|
      && (s'.store[s.rec.id].status == Installing <==> LosesTrack(script))
      && forall i :: 0 <= i < |s.store| && i != s.rec.id ==> s'.store[i] == s.store[i]
  {
    var s1 := RecNext(cfg, s, script.mark);
    Unfold(cfg, s, script);
    NumberedIndex(s.store, s.rec.id);
    CallKeepsShape(cfg, s, script.mark);
    if s1.rec.Scale? {
      RestLeaves(cfg, s1, script);
    }
  }

  lemma DenyLeaves(cfg: Config, s: State, script: Script)
    requires Shaped(s) && s.rec.Deny?
    ensures var s' := Drive(cfg, s, script);
      && s'.rec.Idle? && |s'.store| == |s.store| && s'.store[s.rec.id].status != Installing
      && forall i :: 0 <= i < |s.store| && i != s.rec.id ==> s'.store[i] == s.store[i]
  {
    Unfold(cfg, s, script);
    NumberedIndex(s.store, s.rec.id);
  }

  /** Exactly when one pass, with arbitrary replies, leaves one more request stuck, and which. */
  lemma PassLeavesStuckExactly(cfg: Config, s: State, script: Script, id: nat)
    requires Shaped(s) && s.rec.Idle?
    ensures Stuck(Pass(cfg, s, script), id) <==>
      || Stuck(s, id)
      || (PicksInstallable(cfg, s, script.list) && Pending(s.store)[0].id == id &&
          (script.mark.call.FailedAfter? || (script.mark.call.Done? && script.last.call.FailedBefore?)))
  {
    var s1 := RecNext(cfg, s, script.list);
    PickKeepsShape(cfg, s, script.list);
    if Pending(s.store) != [] {
      PendingHead(s.store);
    }
    if s1.rec.Mark? {
      MarkLeaves(cfg, s1, script);
    } else if s1.rec.Deny? {
      DenyLeaves(cfg, s1, script);
    }
  }

  /** A run that leaves one: a handler records a request, the pass picks it, and its first status
      call takes effect and raises. */
  lemma StuckRun(cfg: Config, limiter: Limiter, initial: string, q: Intake, now: int, created: int)
    requires Welcome(cfg.control, q) && cfg.control.cap >= 1 && Acquire(limiter, q.tenant, now).1
    requires cfg.installer.enabled && IsRepoAllowed(cfg.installer.allowlist, Repo(q.body))
    ensures Stuck(Exec(cfg, Start(limiter, initial),
      HandlerSteps(0, q, now, created) + [Reconcile(Reply(Done, true))] + [Reconcile(Reply(FailedAfter, true))]), 0)
  {
    var s, steps := Start(limiter, initial), HandlerSteps(0, q, now, created);
    var pick, mark := Reconcile(Reply(Done, true)), Reconcile(Reply(FailedAfter, true));
    FirstRequest(cfg, limiter, initial, q, now, created);
    GoodRepoIsClean(q.body);
    var s1 := Exec(cfg, s, steps);
    ExecConcat(cfg, s, steps, [pick]);
    ExecOne(cfg, s1, pick);
    ExecConcat(cfg, s, steps + [pick], [mark]);
    ExecOne(cfg, Next(cfg, s1, pick), mark);
    NumberedIndex(s1.store, 0);
  }
}
