/** The status history of every request, over whole runs of the install protocol
    (reconciler.py 76-140). */
module InstallLifecycle {
  import opened RateLimits
  import opened ModelRequests
  import opened InstallProtocol

  lemma {:induction false} RunKeepsInv(cfg: Config, s: State, steps: seq<Step>)
    requires Inv(s)
    ensures Inv(Exec(cfg, s, steps))
    decreases |steps|
  {
    if steps != [] {
      StepKeepsInv(cfg, s, steps[0]);
      RunKeepsInv(cfg, Next(cfg, s, steps[0]), steps[1..]);
    }
  }

  /** In every run every request's status history is a path of the lifecycle that ends in
      the recorded status, and `set_model` is issued for it at most once, while it is
      recorded as installing. */
  lemma EveryRunFollowsLifecycle(cfg: Config, limiter: Limiter, served: string, steps: seq<Step>)
    ensures var s := Exec(cfg, Start(limiter, served), steps);
      && (forall id: nat :: id < |s.store| ==>
            s.store[id].id == id && Lifecycle(History(s.log, id), s.store[id].status))
      && (forall id: nat :: id >= |s.store| ==> History(s.log, id) == [])
      && (forall id: nat :: Forwards(s.log, id) <= 1)
      && (forall i :: 0 <= i < |s.log| && s.log[i].ForwardSet? ==> s.log[i].at == Installing)
  {
    RunKeepsInv(cfg, Start(limiter, served), steps);
    var s := Exec(cfg, Start(limiter, served), steps);
    forall id: nat
      ensures id < |s.store| ==> Lifecycle(History(s.log, id), s.store[id].status)
      ensures id >= |s.store| ==> History(s.log, id) == []
      ensures Forwards(s.log, id) <= 1
    {
      assert RequestOk(s, id);
    }
  }
}
