/** One pass of the reconciler as code, and which model the shared release is left
    pointing at (reconciler.py). */
module Reconcilers {
  import opened Common
  import opened RateLimits
  import opened ModelRequests
  import opened RequestBodies
  import opened InstallProtocol
  import opened InstallLifecycle
  import opened CreateRequests

  // ---------- the served model over whole runs ----------

  /** set_model is all or nothing, get_model succeeds, and a rollback takes effect. */
  predicate Benign(rec: Rec, reply: Reply)
  {
    && (rec.Set? ==> !reply.call.FailedAfter?)
    && (rec.Get? ==> reply.call.Done?)
    && (rec.Roll? ==> reply.call.TookEffect())
  }

  ghost predicate BenignRun(cfg: Config, s: State, steps: seq<Step>)
    decreases |steps|
  {
    steps == [] ||
    ((steps[0].Reconcile? ==> Benign(s.rec, steps[0].reply)) && BenignRun(cfg, Next(cfg, s, steps[0]), steps[1..]))
  }

  /** Between a successful set_model and its verdict the attempted repo is served and the
      last good model remembered; at every other time the last good model is served. */
  ghost predicate ServesGood(s: State, initial: string)
  {
    var good := LastReady(s.log, initial);
    && good != ""
    && (s.rec.Set? ==> s.rec.previous == good)
    && (if s.rec.Wait? || s.rec.Roll? then s.served == s.rec.repo && s.rec.previous == good
        else s.served == good)
  }

  /** Only a load that became ready changes which model is the last good one. */
  lemma RecReady(cfg: Config, s: State, reply: Reply, initial: string)
    ensures LastReady(RecNext(cfg, s, reply).log, initial)
         == if s.rec.Wait? && reply.call.Done? && reply.answer then s.rec.repo else LastReady(s.log, initial)
  {
    var s' := RecNext(cfg, s, reply);
    RecFrame(cfg, s, reply);
    if |s'.log| > |s.log| {
      assert s'.log == s.log + [s'.log[|s.log|]];
      LogGrows(s.log, s'.log[|s.log|], 0, initial);
    } else {
      assert s'.log == s.log;
    }
  }

  lemma RecServesGood(cfg: Config, s: State, reply: Reply, initial: string)
    requires RecOk(s) && ServesGood(s, initial) && Benign(s.rec, reply)
    ensures ServesGood(RecNext(cfg, s, reply), initial)
  {
    RecReady(cfg, s, reply, initial);
  }

  lemma StepServesGood(cfg: Config, s: State, step: Step, initial: string)
    requires Inv(s) && ServesGood(s, initial)
    requires step.Reconcile? ==> Benign(s.rec, step.reply)
    ensures ServesGood(Next(cfg, s, step), initial)
  {
    if step.Reconcile? {
      RecServesGood(cfg, s, step.reply, initial);
    } else {
      HandlerFrame(cfg, s, step);
      LogGrows(s.log, Recorded(|s.store|, Requested), 0, initial);
    }
  }

  lemma {:induction false} RunServesGood(cfg: Config, s: State, steps: seq<Step>, initial: string)
    requires Inv(s) && ServesGood(s, initial) && BenignRun(cfg, s, steps)
    ensures ServesGood(Exec(cfg, s, steps), initial)
    decreases |steps|
  {
    if steps != [] {
      StepServesGood(cfg, s, steps[0], initial);
      StepKeepsInv(cfg, s, steps[0]);
      RunServesGood(cfg, Next(cfg, s, steps[0]), steps[1..], initial);
    }
  }

  /** In a benign run, whenever no pass is in progress -- at the end of every pass, whether
      it returned or raised -- the release names the repo of the last load that became
      ready, or the initial model. */
  lemma LastReadyIsServed(cfg: Config, limiter: Limiter, initial: string, steps: seq<Step>)
    requires initial != "" && BenignRun(cfg, Start(limiter, initial), steps)
    ensures var s := Exec(cfg, Start(limiter, initial), steps);
      s.rec.Idle? ==> s.served == LastReady(s.log, initial)
  {
    RunKeepsInv(cfg, Start(limiter, initial), []);
    StartIsGood(limiter, initial);
    RunServesGood(cfg, Start(limiter, initial), steps, initial);
  }

  lemma StartIsGood(limiter: Limiter, initial: string)
    requires initial != ""
    ensures Inv(Start(limiter, initial)) && ServesGood(Start(limiter, initial), initial)
  {
  }

  // ---------- one pass ----------

  /** What each client call of a pass does; the calls a pass does not make are not read. */
  datatype Script = Script(
    list: Reply, mark: Reply, scale: Reply, get: Reply, set_: Reply, wait: Reply, roll: Reply, last: Reply)

  function ReplyFor(script: Script, rec: Rec): Reply
  {
    match rec
    case Idle => script.list
    case Mark(_, _) => script.mark
    case Scale(_, _) => script.scale
    case Get(_, _) => script.get
    case Set(_, _, _) => script.set_
    case Wait(_, _, _) => script.wait
    case Roll(_, _, _, _) => script.roll
    case _ => script.last      // the closing status call
  }

  function CallsLeft(rec: Rec): nat
  {
    match rec
    case Idle => 0
    case Mark(_, _) => 7
    case Scale(_, _) => 6
    case Get(_, _) => 5
    case Set(_, _, _) => 4
    case Wait(_, _, _) => 3
    case Roll(_, _, _, _) => 2
    case _ => 1
  }

  /** The steps of the protocol from `s` to the end of the pass. */
  function Drive(cfg: Config, s: State, script: Script): State
    decreases CallsLeft(s.rec)
  {
    if s.rec.Idle? then s else Drive(cfg, RecNext(cfg, s, ReplyFor(script, s.rec)), script)
  }

  function Pass(cfg: Config, s: State, script: Script): State
  {
    Drive(cfg, RecNext(cfg, s, script.list), script)
  }

  /** The pass picks a request that it may install. */
  predicate PicksInstallable(cfg: Config, s: State, list: Reply)
  {
    && cfg.installer.enabled && !list.call.Raised() && cfg.control.enabled && Pending(s.store) != []
    && MatchesRepo(Pending(s.store)[0].repo) && IsRepoAllowed(cfg.installer.allowlist, Pending(s.store)[0].repo)
  }

  lemma PickResult(cfg: Config, s: State, list: Reply)
    requires s.rec.Idle?
    ensures var s' := RecNext(cfg, s, list);
      && s'.served == s.served && (s'.rec.Idle? || s'.rec.Deny? || s'.rec.Mark?)
      && (s'.rec.Mark? <==> PicksInstallable(cfg, s, list))
      && (s'.rec.Mark? ==> s'.rec.repo == Pending(s.store)[0].repo)
  {
  }

  /** What `run_once` reports: whether it did work, or None where a call raised through it. */
  function Reported(cfg: Config, s: State, script: Script): Option<bool>
  {
    if !cfg.installer.enabled then Some(false)
    else if script.list.call.Raised() then None
    else if !cfg.control.enabled || Pending(s.store) == [] then Some(false)
    else if PicksInstallable(cfg, s, script.list) && script.mark.call.Raised() then None
    else if script.last.call.Raised() then None
    else Some(true)
  }

  /** The pass gets as far as pointing the release at the oldest request's repo. */
  predicate ReachesSet(cfg: Config, s: State, script: Script)
  {
    PicksInstallable(cfg, s, script.list) && !script.mark.call.Raised() && !script.scale.call.Raised()
  }

  /** Once it gets there, the load becomes ready. */
  predicate BecomesReady(script: Script)
  {
    script.set_.call.Done? && script.wait.call.Done? && script.wait.answer
  }

  /** The ways a pass that gets there leaves the release on a repo that did not become ready:
      set_model raised after changing it, or the load failed and the rollback did not happen, for
      want of a known model to go back to or because it failed. */
  predicate LeavesUnready(script: Script, served: string)
  {
    if script.set_.call.Raised() then script.set_.call.FailedAfter?
    else (script.wait.call.Raised() || !script.wait.answer) &&
         (script.get.call.Raised() || served == "" || !script.roll.call.TookEffect())
  }

  /** The model served at the end of a pass that gets there, and the last one that became ready. */
  function ServedAfter(script: Script, served: string, repo: string): string
  {
    if BecomesReady(script) || LeavesUnready(script, served) then repo else served
  }

  function ReadyAfter(script: Script, good: string, repo: string): string
  {
    if BecomesReady(script) then repo else good
  }

  lemma Unfold(cfg: Config, s: State, script: Script)
    requires !s.rec.Idle?
    ensures Drive(cfg, s, script) == Drive(cfg, RecNext(cfg, s, ReplyFor(script, s.rec)), script)
  {
  }

  /** Where the rest of a pass ends. */
  ghost predicate Ends(cfg: Config, s: State, script: Script, initial: string, served: string, ready: string)
  {
    var s' := Drive(cfg, s, script);
    s'.rec.Idle? && s'.served == served && LastReady(s'.log, initial) == ready
  }

  lemma ClosingCall(cfg: Config, s: State, script: Script, initial: string)
    requires s.rec.Deny? || s.rec.Fail? || s.rec.Apply?
    ensures Ends(cfg, s, script, initial, s.served, LastReady(s.log, initial))
  {
    RecReady(cfg, s, script.last, initial);
    Unfold(cfg, s, script);
  }

  /** The rest of a pass from each of its calls, last call first. */
  lemma RollPass(cfg: Config, s: State, script: Script, initial: string)
    requires s.rec.Roll?
    ensures var back := s.rec.previous != "" && s.rec.previous != s.rec.repo && script.roll.call.TookEffect();
      Ends(cfg, s, script, initial, if back then s.rec.previous else s.served, LastReady(s.log, initial))
  {
    RecReady(cfg, s, script.roll, initial);
    Unfold(cfg, s, script);
    ClosingCall(cfg, RecNext(cfg, s, script.roll), script, initial);
  }

  lemma WaitPass(cfg: Config, s: State, script: Script, initial: string)
    requires s.rec.Wait?
    ensures var ready := !script.wait.call.Raised() && script.wait.answer;
      var back := s.rec.previous != "" && s.rec.previous != s.rec.repo && script.roll.call.TookEffect();
      Ends(cfg, s, script, initial, if !ready && back then s.rec.previous else s.served,
           if ready then s.rec.repo else LastReady(s.log, initial))
  {
    var s1 := RecNext(cfg, s, script.wait);
    RecReady(cfg, s, script.wait, initial);
    Unfold(cfg, s, script);
    if s1.rec.Roll? {
      RollPass(cfg, s1, script, initial);
    } else {
      ClosingCall(cfg, s1, script, initial);
    }
  }

  lemma SetPass(cfg: Config, s: State, script: Script, initial: string)
    requires s.rec.Set? && s.rec.previous == if script.get.call.Raised() then "" else s.served
    ensures Ends(cfg, s, script, initial, ServedAfter(script, s.served, s.rec.repo),
                 ReadyAfter(script, LastReady(s.log, initial), s.rec.repo))
  {
    var s1 := RecNext(cfg, s, script.set_);
    RecReady(cfg, s, script.set_, initial);
    Unfold(cfg, s, script);
    if s1.rec.Wait? {
      WaitPass(cfg, s1, script, initial);
    } else {
      ClosingCall(cfg, s1, script, initial);
    }
  }

  lemma GetPass(cfg: Config, s: State, script: Script, initial: string)
    requires s.rec.Get?
    ensures Ends(cfg, s, script, initial, ServedAfter(script, s.served, s.rec.repo),
                 ReadyAfter(script, LastReady(s.log, initial), s.rec.repo))
  {
    RecReady(cfg, s, script.get, initial);
    Unfold(cfg, s, script);
    SetPass(cfg, RecNext(cfg, s, script.get), script, initial);
  }

  lemma ScalePass(cfg: Config, s: State, script: Script, initial: string)
    requires s.rec.Scale?
    ensures var good := LastReady(s.log, initial);
      if script.scale.call.Raised() then Ends(cfg, s, script, initial, s.served, good)
      else Ends(cfg, s, script, initial, ServedAfter(script, s.served, s.rec.repo), ReadyAfter(script, good, s.rec.repo))
  {
    var s1 := RecNext(cfg, s, script.scale);
    RecReady(cfg, s, script.scale, initial);
    Unfold(cfg, s, script);
    if s1.rec.Get? {
      GetPass(cfg, s1, script, initial);
    } else {
      ClosingCall(cfg, s1, script, initial);
    }
  }

  lemma MarkPass(cfg: Config, s: State, script: Script, initial: string)
    requires s.rec.Mark?
    ensures var good := LastReady(s.log, initial);
      if script.mark.call.Raised() || script.scale.call.Raised() then Ends(cfg, s, script, initial, s.served, good)
      else Ends(cfg, s, script, initial, ServedAfter(script, s.served, s.rec.repo), ReadyAfter(script, good, s.rec.repo))
  {
    var s1 := RecNext(cfg, s, script.mark);
    RecReady(cfg, s, script.mark, initial);
    Unfold(cfg, s, script);
    if s1.rec.Scale? {
      ScalePass(cfg, s1, script, initial);
    }
  }

  /** From any state: what one pass leaves served, and which model became ready last. */
  lemma PassEnds(cfg: Config, s: State, script: Script, initial: string)
    requires s.rec.Idle?
    ensures var s', good := Pass(cfg, s, script), LastReady(s.log, initial);
      && s'.rec.Idle?
      && (if ReachesSet(cfg, s, script) then
            var repo := Pending(s.store)[0].repo;
            s'.served == ServedAfter(script, s.served, repo) && LastReady(s'.log, initial) == ReadyAfter(script, good, repo)
          else s'.served == s.served && LastReady(s'.log, initial) == good)
  {
    var s1 := RecNext(cfg, s, script.list);
    RecReady(cfg, s, script.list, initial);
    PickResult(cfg, s, script.list);
    if s1.rec.Mark? {
      MarkPass(cfg, s1, script, initial);
    } else if s1.rec.Deny? {
      ClosingCall(cfg, s1, script, initial);
    }
  }

  /** Exactly when one pass keeps the release on the last model that became ready. */
  lemma PassKeepsServedModel(cfg: Config, s: State, script: Script, initial: string)
    requires s.rec.Idle? && s.served == LastReady(s.log, initial)
    ensures var s' := Pass(cfg, s, script);
      && s'.rec.Idle?
      && (s'.served == LastReady(s'.log, initial) <==>
          !(PicksInstallable(cfg, s, script.list) && !script.mark.call.Raised() && !script.scale.call.Raised()
            && Pending(s.store)[0].repo != s.served
            && (if script.set_.call.Raised() then script.set_.call.FailedAfter?
                else (script.wait.call.Raised() || !script.wait.answer) &&
                     (script.get.call.Raised() || s.served == "" || !script.roll.call.TookEffect()))))
  {
    PassEnds(cfg, s, script, initial);
  }

  /** Exactly when one pass brings back a release that is not on the last model that became
      ready: the attempted repo becomes ready, or it is that model and the pass stays on it. */
  lemma PassRestoresExactly(cfg: Config, s: State, script: Script, initial: string)
    requires s.rec.Idle? && s.served != LastReady(s.log, initial)
    ensures var s' := Pass(cfg, s, script);
      s'.served == LastReady(s'.log, initial) <==>
        (PicksInstallable(cfg, s, script.list) && !script.mark.call.Raised() && !script.scale.call.Raised() &&
         (if script.set_.call.Raised() then
            script.set_.call.FailedAfter? && Pending(s.store)[0].repo == LastReady(s.log, initial)
          else if script.wait.call.Raised() || !script.wait.answer then
            && (script.get.call.Raised() || s.served == "" || !script.roll.call.TookEffect())
            && Pending(s.store)[0].repo == LastReady(s.log, initial)
          else true))
  {
    PassEnds(cfg, s, script, initial);
  }

  /** All calls succeed, but set_model raises after its first patch. */
  const HALF_SET :=
    var ok := Reply(Done, true);
    Script(ok, ok, ok, ok, Reply(FailedAfter, true), ok, ok, ok)

  /** A failing pass in a run: a handler records a request, set_model raises half-way for it, and
      the release is left on a model that never became ready. */
  lemma HalfSetModel(cfg: Config, limiter: Limiter, initial: string, q: Intake, now: int, created: int)
    requires Welcome(cfg.control, q) && cfg.control.cap >= 1 && Acquire(limiter, q.tenant, now).1
    requires cfg.installer.enabled && IsRepoAllowed(cfg.installer.allowlist, Repo(q.body)) && Repo(q.body) != initial
    ensures var s := Exec(cfg, Start(limiter, initial), HandlerSteps(0, q, now, created));
      var s' := Pass(cfg, s, HALF_SET);
      && s.served == LastReady(s.log, initial) == initial
      && s'.served == Repo(q.body) && LastReady(s'.log, initial) == initial
  {
    var s := Exec(cfg, Start(limiter, initial), HandlerSteps(0, q, now, created));
    FirstRequest(cfg, limiter, initial, q, now, created);
    GoodRepoIsClean(q.body);
    LogGrows([], Recorded(0, Requested), 0, initial);
    assert [] + [Recorded(0, Requested)] == s.log;
    PassEnds(cfg, s, HALF_SET, initial);
  }

  // ---------- the code ----------

  /** The vLLM release: the model its ConfigMap names. */
  class Release {
    var model: string

    constructor (initial: string)
      ensures model == initial
    {
      model := initial;
    }
  }

  class Reconciler {
    const cfg: Config
    const store: ModelRequestStore
    const release: Release
    ghost var log: seq<Event>

    ghost function View(): State
      reads this, store, release
    {
      State(store.items, [], NewLimiter(0, 1), Idle, release.model, log)
    }

    constructor (cfg: Config, store: ModelRequestStore, release: Release)
      ensures this.cfg == cfg && this.store == store && this.release == release && log == []
    {
      this.cfg := cfg;
      this.store := store;
      this.release := release;
      log := [];
    }

    /** A status call of the control-plane client. */
    method SetStatus(id: nat, status: Status, why: string, call: Call) returns (raised: bool)
      modifies this, store
      ensures View() == Record(old(View()), id, status, why, call) && raised == call.Raised()
    {
      if call.TookEffect() {
        var _ := store.UpdateStatus(id, status, why);
        log := log + [Recorded(id, status)];
      }
      return call.Raised();
    }

    /** Returns whether it did work, or None if a call raised through it. */
    method RunOnce(script: Script) returns (worked: Option<bool>)
      modifies this, store, release
      ensures View() == Pass(cfg, old(View()), script)
      ensures worked == Reported(cfg, old(View()), script)
      ensures worked == Some(false) ==> View() == old(View())
    {
      if !cfg.installer.enabled {
        return Some(false);
      }
      if script.list.call.Raised() {
        return None;
      }
      var pending := [];
      if cfg.control.enabled {
        pending := store.ListPending(PENDING_LIMIT);
      }
      if pending == [] {
        return Some(false);
      }
      var id, repo := pending[0].id, pending[0].repo;
      log := log + [Took(id)];
      ghost var taken := View();
      if !MatchesRepo(repo) || !IsRepoAllowed(cfg.installer.allowlist, repo) {
        var why := if !MatchesRepo(repo) then "repo_invalid" else "repo_not_allowed";
        Unfold(cfg, taken.(rec := Deny(id, why)), script);
        var raised := SetStatus(id, Failed, why, script.last.call);
        return if raised then None else Some(true);
      }
      Unfold(cfg, taken.(rec := Mark(id, repo)), script);
      var raised := SetStatus(id, Installing, "", script.mark.call);
      if raised {
        return None;
      }
      worked := Install(id, repo, script);
    }

    /** The part of `run_once` after the request is recorded as installing. */
    method Install(id: nat, repo: string, script: Script) returns (worked: Option<bool>)
      modifies this, store, release
      ensures View() == Drive(cfg, old(View()).(rec := Scale(id, repo)), script)
      ensures worked == if script.last.call.Raised() then None else Some(true)
    {
      ghost var s := View();
      Unfold(cfg, s.(rec := Scale(id, repo)), script);
      if script.scale.call.Raised() {
        worked := Close(id, Failed, "gpu_provision_failed", script);
        return;
      }
      var previous := if script.get.call.Raised() then "" else release.model;
      Unfold(cfg, s.(rec := Get(id, repo)), script);
      Unfold(cfg, s.(rec := Set(id, repo, previous)), script);
      log := log + [ForwardSet(id, StatusOf(store.items, id))];
      if script.set_.call.TookEffect() {
        release.model := repo;
      }
      if script.set_.call.Raised() {
        worked := Close(id, Failed, "vllm_apply_failed", script);
        return;
      }
      worked := Await(id, repo, previous, script);
    }

    method Await(id: nat, repo: string, previous: string, script: Script) returns (worked: Option<bool>)
      modifies this, store, release
      ensures View() == Drive(cfg, old(View()).(rec := Wait(id, repo, previous)), script)
      ensures worked == if script.last.call.Raised() then None else Some(true)
    {
      ghost var s := View();
      Unfold(cfg, s.(rec := Wait(id, repo, previous)), script);
      if script.wait.call.Raised() || !script.wait.answer {
        var why := if script.wait.call.Raised() then "install_failed" else "load_timeout";
        Unfold(cfg, s.(rec := Roll(id, repo, previous, why)), script);
        Rollback(previous, repo, script.roll.call);
        worked := Close(id, Failed, why, script);
        return;
      }
      log := log + [Ready(repo)];
      worked := Close(id, Applied, "", script);
    }

    method Rollback(previous: string, attempted: string, call: Call)
      modifies release
      ensures release.model == if previous != "" && previous != attempted && call.TookEffect()
                               then previous else old(release.model)
    {
      if previous == "" || previous == attempted {
        return;
      }
      if call.TookEffect() {
        release.model := previous;
      }
    }

    /** The closing status call and the return after it. */
    method Close(id: nat, status: Status, why: string, script: Script) returns (worked: Option<bool>)
      requires status == Applied || status == Failed
      requires status == Applied ==> why == ""
      modifies this, store
      ensures View() == Drive(cfg, old(View()).(rec := if status == Applied then Apply(id) else Fail(id, why)), script)
      ensures worked == if script.last.call.Raised() then None else Some(true)
    {
      Unfold(cfg, View().(rec := if status == Applied then Apply(id) else Fail(id, why)), script);
      var raised := SetStatus(id, status, why, script.last.call);
      return if raised then None else Some(true);
    }
  }
}
