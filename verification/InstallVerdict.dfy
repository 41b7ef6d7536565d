/** What a pass of the reconciler records, and which repos are ever installed
    (reconciler.py 76-153). */
module InstallVerdicts {
  import opened Common
  import opened RateLimits
  import opened ModelRequests
  import opened RequestBodies
  import opened InstallProtocol
  import opened Reconcilers
  import opened InstallOrder

  // ---------- the verdict of one pass ----------

  datatype Verdict = Verdict(status: Status, error: string)

  /** The request ends so, and no other changes. */
  ghost predicate EndsAs(before: Items, after: Items, id: nat, v: Verdict)
  {
    && |after| == |before| && id < |before|
    && after[id] == before[id].(status := v.status, error := v.error)
    && forall i :: 0 <= i < |before| && i != id ==> after[i] == before[i]
  }

  /** What is left to record from each call of a pass on. */
  function FromWait(script: Script): Verdict
  {
    if script.wait.call.Raised() then Verdict(Failed, "install_failed")
    else if !script.wait.answer then Verdict(Failed, "load_timeout")
    else Verdict(Applied, "")
  }

  function FromSet(script: Script): Verdict
  {
    if script.set_.call.Raised() then Verdict(Failed, "vllm_apply_failed") else FromWait(script)
  }

  function FromScale(script: Script): Verdict
  {
    if script.scale.call.Raised() then Verdict(Failed, "gpu_provision_failed") else FromSet(script)
  }

  /** A closing call without effect leaves the request as it was marked. */
  function Closed(script: Script, v: Verdict): Verdict
  {
    if script.last.call.TookEffect() then v else Verdict(Installing, "")
  }

  /** The request in progress is marked. */
  ghost predicate Marked(s: State)
  {
    Shaped(s) && !s.rec.Idle? && !s.rec.Deny? && !s.rec.Mark? && s.store[s.rec.id].error == ""
  }

  lemma RecordsOne(s: State, id: nat, v: Verdict, call: Call)
    requires Numbered(s.store) && id < |s.store|
    ensures call.TookEffect() ==> EndsAs(s.store, Record(s, id, v.status, v.error, call).store, id, v)
    ensures !call.TookEffect() ==> Record(s, id, v.status, v.error, call).store == s.store
  {
    NumberedIndex(s.store, id);
  }

  lemma CloseRecords(cfg: Config, s: State, script: Script)
    requires Marked(s) && (s.rec.Fail? || s.rec.Apply?)
    ensures var v := if s.rec.Apply? then Verdict(Applied, "") else Verdict(Failed, s.rec.why);
      EndsAs(s.store, Drive(cfg, s, script).store, s.rec.id, Closed(script, v))
  {
    Unfold(cfg, s, script);
    RecordsOne(s, s.rec.id, if s.rec.Apply? then Verdict(Applied, "") else Verdict(Failed, s.rec.why),
      script.last.call);
  }

  lemma RollRecords(cfg: Config, s: State, script: Script)
    requires Marked(s) && s.rec.Roll?
    ensures EndsAs(s.store, Drive(cfg, s, script).store, s.rec.id, Closed(script, Verdict(Failed, s.rec.why)))
  {
    Unfold(cfg, s, script);
    CallKeepsShape(cfg, s, script.roll);
    CloseRecords(cfg, RecNext(cfg, s, script.roll), script);
  }

  lemma WaitRecords(cfg: Config, s: State, script: Script)
    requires Marked(s) && s.rec.Wait?
    ensures EndsAs(s.store, Drive(cfg, s, script).store, s.rec.id, Closed(script, FromWait(script)))
  {
    var s1 := RecNext(cfg, s, script.wait);
    Unfold(cfg, s, script);
    CallKeepsShape(cfg, s, script.wait);
    if s1.rec.Roll? {
      RollRecords(cfg, s1, script);
    } else {
      CloseRecords(cfg, s1, script);
    }
  }

  lemma SetRecords(cfg: Config, s: State, script: Script)
    requires Marked(s) && s.rec.Set?
    ensures EndsAs(s.store, Drive(cfg, s, script).store, s.rec.id, Closed(script, FromSet(script)))
  {
    var s1 := RecNext(cfg, s, script.set_);
    Unfold(cfg, s, script);
    CallKeepsShape(cfg, s, script.set_);
    if s1.rec.Wait? {
      WaitRecords(cfg, s1, script);
    } else {
      CloseRecords(cfg, s1, script);
    }
  }

  lemma ScaleRecords(cfg: Config, s: State, script: Script)
    requires Marked(s) && s.rec.Scale?
    ensures EndsAs(s.store, Drive(cfg, s, script).store, s.rec.id, Closed(script, FromScale(script)))
  {
    var s1 := RecNext(cfg, s, script.scale);
    Unfold(cfg, s, script);
    CallKeepsShape(cfg, s, script.scale);
    if s1.rec.Get? {
      Unfold(cfg, s1, script);
      CallKeepsShape(cfg, s1, script.get);
      SetRecords(cfg, RecNext(cfg, s1, script.get), script);
    } else {
      CloseRecords(cfg, s1, script);
    }
  }

  lemma MarkRecords(cfg: Config, s: State, script: Script)
    requires Shaped(s) && s.rec.Mark?
    ensures var after, id := Drive(cfg, s, script).store, s.rec.id;
      if script.mark.call.FailedBefore? then after == s.store
      else if script.mark.call.Raised() then EndsAs(s.store, after, id, Verdict(Installing, ""))
      else EndsAs(s.store, after, id, Closed(script, FromScale(script)))
  {
    Unfold(cfg, s, script);
    CallKeepsShape(cfg, s, script.mark);
    RecordsOne(s, s.rec.id, Verdict(Installing, ""), script.mark.call);
    if !script.mark.call.Raised() {
      ScaleRecords(cfg, RecNext(cfg, s, script.mark), script);
    }
  }

  lemma DenyRecords(cfg: Config, s: State, script: Script)
    requires Shaped(s) && s.rec.Deny?
    ensures var after := Drive(cfg, s, script).store;
      if script.last.call.TookEffect() then EndsAs(s.store, after, s.rec.id, Verdict(Failed, s.rec.why))
      else after == s.store
  {
    Unfold(cfg, s, script);
    RecordsOne(s, s.rec.id, Verdict(Failed, s.rec.why), script.last.call);
  }

  /** What one pass records of the oldest waiting request, for every answer to every call: denied
      for its name or the installer's list; else failed with the error of the first call that
      fails; else applied. A status call that has no effect records nothing. */
  lemma PassRecordsExactly(cfg: Config, s: State, script: Script)
    requires Shaped(s) && s.rec.Idle? && Pending(s.store) != []
    requires cfg.installer.enabled && cfg.control.enabled && !script.list.call.Raised()
    ensures var q, after, list := Pending(s.store)[0], Pass(cfg, s, script).store, cfg.installer.allowlist;
      var closed := script.last.call.TookEffect();
      if !MatchesRepo(q.repo) then
        if closed then EndsAs(s.store, after, q.id, Verdict(Failed, "repo_invalid")) else after == s.store
      else if !("*" in list || q.repo in list || exists o :: o in list && '/' !in o && o + "/" <= q.repo) then
        if closed then EndsAs(s.store, after, q.id, Verdict(Failed, "repo_not_allowed")) else after == s.store
      else if script.mark.call.FailedBefore? then after == s.store
      else
        EndsAs(s.store, after, q.id,
          if script.mark.call.FailedAfter? || !closed then Verdict(Installing, "")
          else if script.scale.call.Raised() then Verdict(Failed, "gpu_provision_failed")
          else if script.set_.call.Raised() then Verdict(Failed, "vllm_apply_failed")
          else if script.wait.call.Raised() then Verdict(Failed, "install_failed")
          else if !script.wait.answer then Verdict(Failed, "load_timeout")
          else Verdict(Applied, ""))
  {
    var s1 := RecNext(cfg, s, script.list);
    PickKeepsShape(cfg, s, script.list);
    AllowedExactly(cfg.installer.allowlist, Pending(s.store)[0].repo);
    if s1.rec.Mark? {
      MarkRecords(cfg, s1, script);
    } else {
      DenyRecords(cfg, s1, script);
    }
  }

  /** A pass records its request as applied exactly if the model became ready and the call that
      says so took effect. */
  lemma AppliedExactly(cfg: Config, s: State, script: Script)
    requires Shaped(s) && s.rec.Idle? && Pending(s.store) != []
    requires cfg.installer.enabled && cfg.control.enabled && !script.list.call.Raised()
    ensures var q, after := Pending(s.store)[0], Pass(cfg, s, script).store;
      q.id < |after| &&
      (after[q.id].status == Applied <==>
        ReachesSet(cfg, s, script) && BecomesReady(script) && script.last.call.TookEffect())
  {
    PassRecordsExactly(cfg, s, script);
    PendingHead(s.store);
    AllowedExactly(cfg.installer.allowlist, Pending(s.store)[0].repo);
  }

  // ---------- what a pass reports ----------

  lemma {:induction false} RestTakesNothing(cfg: Config, s: State, script: Script)
    requires !s.rec.Idle?
    ensures Taken(Drive(cfg, s, script).log) == Taken(s.log)
    decreases CallsLeft(s.rec)
  {
    var reply := ReplyFor(script, s.rec);
    var s1 := RecNext(cfg, s, reply);
    Unfold(cfg, s, script);
    CallTakesNothing(cfg, s, reply);
    if !s1.rec.Idle? {
      RestTakesNothing(cfg, s1, script);
    }
  }

  /** A pass takes the oldest waiting request if there is one and it may look, and nothing else. */
  lemma PassTakes(cfg: Config, s: State, script: Script)
    requires s.rec.Idle?
    ensures var picks :=
        cfg.installer.enabled && cfg.control.enabled && !script.list.call.Raised() && Pending(s.store) != [];
      && Taken(Pass(cfg, s, script).log) == Taken(s.log) + (if picks then [Pending(s.store)[0].id] else [])
      && (!picks ==> Pass(cfg, s, script) == s)
  {
    var s1 := RecNext(cfg, s, script.list);
    if !s1.rec.Idle? {
      LogGrows(s.log, Took(Pending(s.store)[0].id), 0, "");
      RestTakesNothing(cfg, s1, script);
    } else {
      assert Taken(s.log) + [] == Taken(s.log);
    }
  }

  /** It reports work exactly if it took a request and none of its status calls raised, and lets an
      exception through exactly if the listing or one of them raised. */
  lemma ReportsExactly(cfg: Config, s: State, script: Script)
    requires s.rec.Idle? && cfg.installer.enabled
    ensures var took := Taken(Pass(cfg, s, script).log) != Taken(s.log);
      var marks := took && PicksInstallable(cfg, s, script.list);
      var broke := took && ((marks && script.mark.call.Raised()) || script.last.call.Raised());
      && (Reported(cfg, s, script) == Some(true) <==> took && !broke)
      && (Reported(cfg, s, script) == None <==> script.list.call.Raised() || broke)
      && (Reported(cfg, s, script) == Some(false) <==> !script.list.call.Raised() && !took)
  {
    PassTakes(cfg, s, script);
  }

  // ---------- which repos are installed, over whole runs ----------

  predicate InControl(cfg: Config, repo: string)
  {
    IsRepoName(repo) && |repo| <= MAX_REPO_CHARS && IsRepoAllowed(cfg.control.allowlist, repo)
  }

  predicate Installable(cfg: Config, repo: string)
  {
    InControl(cfg, repo) && IsRepoAllowed(cfg.installer.allowlist, repo)
  }

  predicate HandlerVetted(cfg: Config, x: Handler)
  {
    && (!x.Gone? ==> cfg.control.enabled && x.intake.granted)
    && (x.Cleared? || x.Stamped? ==> Passes(cfg.control, x.intake.body))
  }

  predicate RequestVetted(cfg: Config, r: Request)
  {
    InControl(cfg, r.repo) && (r.status == Installing || r.status == Applied ==> Installable(cfg, r.repo))
  }

  predicate Known(cfg: Config, model: string, initial: string) { model == initial || Installable(cfg, model) }

  ghost predicate RecVetted(cfg: Config, s: State, initial: string)
  {
    && Known(cfg, s.served, initial)
    && (s.rec.Idle? || s.rec.Deny? || s.rec.Fail? || s.rec.Apply? ||
        (s.rec.id < |s.store| && s.rec.repo == s.store[s.rec.id].repo && Installable(cfg, s.rec.repo)))
    && (s.rec.Set? || s.rec.Wait? || s.rec.Roll? ==> s.rec.previous == "" || Known(cfg, s.rec.previous, initial))
  }

  ghost predicate Vetted(cfg: Config, s: State, initial: string)
  {
    && (forall h :: 0 <= h < |s.handlers| ==> HandlerVetted(cfg, s.handlers[h]))
    && (forall i :: 0 <= i < |s.store| ==> RequestVetted(cfg, s.store[i]))
    && RecVetted(cfg, s, initial)
  }

  /** A step moves one handler, or adds one, and to a place that it may be in. */
  lemma HandlerMovesVetted(cfg: Config, s: State, step: Step)
    requires !step.Reconcile? && forall h :: 0 <= h < |s.handlers| ==> HandlerVetted(cfg, s.handlers[h])
    ensures var hs := Next(cfg, s, step).handlers; forall h :: 0 <= h < |hs| ==> HandlerVetted(cfg, hs[h])
  {
    if !step.Arrive? && step.h < |s.handlers| {
      var hs := Next(cfg, s, step).handlers;
      assert HandlerVetted(cfg, s.handlers[step.h]) && HandlerVetted(cfg, hs[step.h]);
      assert hs == s.handlers[step.h := hs[step.h]];
    }
  }

  lemma HandlerKeepsVetted(cfg: Config, s: State, step: Step, initial: string)
    requires Shaped(s) && Vetted(cfg, s, initial) && !step.Reconcile?
    ensures Vetted(cfg, Next(cfg, s, step), initial)
  {
    HandlerFrame(cfg, s, step);
    HandlerMovesVetted(cfg, s, step);
    if Inserts(s, step) {
      var x := s.handlers[step.h];
      assert HandlerVetted(cfg, x);
      GoodRepoIsClean(x.intake.body);
      assert RequestVetted(cfg, NewRequest(|s.store|, x.intake, x.created));
    }
  }

  lemma PickKeepsVetted(cfg: Config, s: State, reply: Reply, initial: string)
    requires Shaped(s) && Vetted(cfg, s, initial) && s.rec.Idle?
    ensures Vetted(cfg, RecNext(cfg, s, reply), initial)
  {
    if Pending(s.store) != [] {
      PendingHead(s.store);
      var i :| 0 <= i < |s.store| && s.store[i] == Pending(s.store)[0];
      assert RequestVetted(cfg, s.store[i]);
    }
  }

  lemma WriteKeepsVetted(cfg: Config, s: State, reply: Reply, initial: string)
    requires Shaped(s) && Vetted(cfg, s, initial) && WritesStatus(s.rec)
    ensures Vetted(cfg, RecNext(cfg, s, reply), initial)
  {
    var id := s.rec.id;
    NumberedIndex(s.store, id);
    assert RequestVetted(cfg, s.store[id]);
  }

  lemma CallKeepsVetted(cfg: Config, s: State, reply: Reply, initial: string)
    requires Shaped(s) && Vetted(cfg, s, initial) && !s.rec.Idle? && !WritesStatus(s.rec)
    ensures Vetted(cfg, RecNext(cfg, s, reply), initial)
  {
  }

  lemma {:induction false} RunKeepsVetted(cfg: Config, s: State, steps: seq<Step>, initial: string)
    requires Shaped(s) && Vetted(cfg, s, initial)
    ensures Vetted(cfg, Exec(cfg, s, steps), initial)
    decreases |steps|
  {
    if steps != [] {
      var step := steps[0];
      StepKeepsShape(cfg, s, step);
      if !step.Reconcile? {
        HandlerKeepsVetted(cfg, s, step, initial);
      } else if s.rec.Idle? {
        PickKeepsVetted(cfg, s, step.reply, initial);
      } else if WritesStatus(s.rec) {
        WriteKeepsVetted(cfg, s, step.reply, initial);
      } else {
        CallKeepsVetted(cfg, s, step.reply, initial);
      }
      RunKeepsVetted(cfg, Next(cfg, s, step), steps[1..], initial);
    }
  }

  lemma EveryRunIsVetted(cfg: Config, limiter: Limiter, initial: string, steps: seq<Step>)
    ensures Vetted(cfg, Exec(cfg, Start(limiter, initial), steps), initial)
  {
    RunKeepsVetted(cfg, Start(limiter, initial), steps, initial);
  }

  /** In every run, every stored repo is a name that the control plane's list admits. */
  lemma StoredAreAdmitted(cfg: Config, limiter: Limiter, initial: string, steps: seq<Step>, i: nat)
    requires i < |Exec(cfg, Start(limiter, initial), steps).store|
    ensures var repo, list := Exec(cfg, Start(limiter, initial), steps).store[i].repo, cfg.control.allowlist;
      && IsRepoName(repo) && |repo| <= MAX_REPO_CHARS
      && ("*" in list || repo in list || exists o :: o in list && '/' !in o && o + "/" <= repo)
  {
    var r := Exec(cfg, Start(limiter, initial), steps).store[i];
    EveryRunIsVetted(cfg, limiter, initial, steps);
    assert RequestVetted(cfg, r);
    AllowedExactly(cfg.control.allowlist, r.repo);
  }

  /** In every run, every repo recorded as installing or applied is one that the installer's list
      admits too. */
  lemma InstalledAreAdmitted(cfg: Config, limiter: Limiter, initial: string, steps: seq<Step>, i: nat)
    requires i < |Exec(cfg, Start(limiter, initial), steps).store|
    requires var status := Exec(cfg, Start(limiter, initial), steps).store[i].status;
      status == Installing || status == Applied
    ensures var repo, list := Exec(cfg, Start(limiter, initial), steps).store[i].repo, cfg.installer.allowlist;
      "*" in list || repo in list || exists o :: o in list && '/' !in o && o + "/" <= repo
  {
    var r := Exec(cfg, Start(limiter, initial), steps).store[i];
    EveryRunIsVetted(cfg, limiter, initial, steps);
    assert RequestVetted(cfg, r);
    AllowedExactly(cfg.installer.allowlist, r.repo);
  }

  /** In every run, the release names the initial model or a repo that both lists admit. */
  lemma ServedIsAdmitted(cfg: Config, limiter: Limiter, initial: string, steps: seq<Step>)
    ensures var repo, list, other :=
        Exec(cfg, Start(limiter, initial), steps).served, cfg.installer.allowlist, cfg.control.allowlist;
      || repo == initial
      || (IsRepoName(repo)
          && ("*" in list || repo in list || exists o :: o in list && '/' !in o && o + "/" <= repo)
          && ("*" in other || repo in other || exists o :: o in other && '/' !in o && o + "/" <= repo))
  {
    var repo := Exec(cfg, Start(limiter, initial), steps).served;
    EveryRunIsVetted(cfg, limiter, initial, steps);
    AllowedExactly(cfg.installer.allowlist, repo);
    AllowedExactly(cfg.control.allowlist, repo);
  }
}
