/** Slots and the cap on open install requests, over all interleavings of create handlers
    with the reconciler (model_requests.py 349-409). */
module InstallCap {
  import opened Common
  import opened RateLimits
  import opened ModelRequests
  import opened RequestBodies
  import opened InstallProtocol

  function Slots(hs: seq<Handler>): nat { Count(hs, (h: Handler) => h.HasSlot()) }

  function ClearedFor(hs: seq<Handler>, t: Tenant): nat { Count(hs, (h: Handler) => h.IsCleared(t)) }

  /** Free permits and held slots add up to the capacity. */
  ghost predicate SlotsOk(s: State)
  {
    s.limiter.permits + Slots(s.handlers) == s.limiter.capacity
  }

  /** The most open requests a tenant can have. */
  function OpenBound(cap: int, capacity: nat): int
  {
    if cap >= 1 then cap + capacity - 1 else 0
  }

  ghost predicate CapOk(cfg: Config, s: State, t: Tenant)
  {
    CountOpen(s.store, t) + ClearedFor(s.handlers, t) <= OpenBound(cfg.control.cap, s.limiter.capacity)
  }

  lemma {:induction false} ClearedHaveSlots(hs: seq<Handler>, t: Tenant)
    ensures ClearedFor(hs, t) <= Slots(hs)
  {
    if hs != [] {
      ClearedHaveSlots(hs[1..], t);
    }
  }

  lemma HandlerMoves(hs: seq<Handler>, h: nat, x: Handler, t: Tenant)
    requires h < |hs|
    ensures Slots(hs[h := x]) == Slots(hs) - (if hs[h].HasSlot() then 1 else 0) + (if x.HasSlot() then 1 else 0)
    ensures ClearedFor(hs[h := x], t)
         == ClearedFor(hs, t) - (if hs[h].IsCleared(t) then 1 else 0) + (if x.IsCleared(t) then 1 else 0)
  {
    CountUpdate(hs, h, x, (h: Handler) => h.HasSlot());
    CountUpdate(hs, h, x, (h: Handler) => h.IsCleared(t));
  }

  lemma HandlerArrives(hs: seq<Handler>, x: Handler, t: Tenant)
    requires !x.HasSlot()
    ensures Slots(hs + [x]) == Slots(hs) && ClearedFor(hs + [x], t) == ClearedFor(hs, t)
  {
    CountConcat(hs, [x], (h: Handler) => h.HasSlot());
    CountConcat(hs, [x], (h: Handler) => h.IsCleared(t));
    assert [x][1..] == [];
  }

  lemma OpenAfterInsert(items: Items, r: Request, t: Tenant)
    requires Numbered(items) && r.id == |items|
    ensures CountOpen(Added(items, r), t) == CountOpen(items, t) + (if r.tenant == t && r.IsOpen() then 1 else 0)
  {
    NumberedIndex(items, |items|);
    CountConcat(items, [r], (r: Request) => r.tenant == t && r.IsOpen());
    assert [r][1..] == [];
  }

  /** What one step of a handler does to the slots, the handlers past the check and the open
      requests: it moves one handler, or nothing. */
  lemma HandlerStepMoves(control: Control, s: State, h: nat, step: Step, t: Tenant)
    requires h < |s.handlers| && !step.Arrive? && !step.Reconcile?
    ensures var s' := HandlerNext(control, s, h, step);
      && |s'.handlers| == |s.handlers| && s'.handlers == s.handlers[h := s'.handlers[h]]
      && Slots(s'.handlers) == Slots(s.handlers) - (if s.handlers[h].HasSlot() then 1 else 0)
                               + (if s'.handlers[h].HasSlot() then 1 else 0)
      && ClearedFor(s'.handlers, t) == ClearedFor(s.handlers, t) - (if s.handlers[h].IsCleared(t) then 1 else 0)
                                       + (if s'.handlers[h].IsCleared(t) then 1 else 0)
  {
    var s' := HandlerNext(control, s, h, step);
    HandlerMoves(s.handlers, h, s'.handlers[h], t);
    assert s.handlers[h := s.handlers[h]] == s.handlers;
  }

  lemma HandlerKeepsSlots(control: Control, s: State, h: nat, step: Step)
    requires h < |s.handlers| && !step.Arrive? && !step.Reconcile? && SlotsOk(s) && WellFormed(s.limiter)
    ensures var s' := HandlerNext(control, s, h, step);
      SlotsOk(s') && WellFormed(s'.limiter) && s'.limiter.capacity == s.limiter.capacity
  {
    HandlerStepMoves(control, s, h, step, "");
    if s.handlers[h].HasSlot() {
      SlotHeld(s.handlers, h);
    }
  }

  lemma {:induction false} SlotHeld(hs: seq<Handler>, h: nat)
    requires h < |hs| && hs[h].HasSlot()
    ensures Slots(hs) >= 1
  {
    if h > 0 {
      SlotHeld(hs[1..], h - 1);
    }
  }

  lemma ArrivalKeepsSlots(cfg: Config, s: State, intake: Intake, now: int, t: Tenant)
    requires SlotsOk(s) && WellFormed(s.limiter)
    ensures var s' := Next(cfg, s, Arrive(intake, now));
      && SlotsOk(s') && WellFormed(s'.limiter) && s'.limiter.capacity == s.limiter.capacity
      && s'.store == s.store && ClearedFor(s'.handlers, t) == ClearedFor(s.handlers, t)
  {
    var s' := Next(cfg, s, Arrive(intake, now));
    HandlerArrives(s.handlers, s'.handlers[|s.handlers|], t);
    assert s'.handlers == s.handlers + [s'.handlers[|s.handlers|]];
  }

  lemma StepKeepsSlots(cfg: Config, s: State, step: Step)
    requires SlotsOk(s) && WellFormed(s.limiter)
    ensures SlotsOk(Next(cfg, s, step)) && WellFormed(Next(cfg, s, step).limiter)
    ensures Next(cfg, s, step).limiter.capacity == s.limiter.capacity
  {
    if step.Arrive? {
      ArrivalKeepsSlots(cfg, s, step.intake, step.now, "");
    } else if step.Reconcile? {
      RecFrame(cfg, s, step.reply);
    } else if step.h < |s.handlers| {
      HandlerKeepsSlots(cfg.control, s, step.h, step);
    }
  }

  // One lemma for each kind of step: with the handlers past the check, the open requests
  // never exceed the bound.

  /** The check lets a handler on only while the count is under the cap. */
  lemma CheckKeepsCap(cfg: Config, s: State, h: nat, t: Tenant)
    requires h < |s.handlers| && s.handlers[h].Holding? && SlotsOk(s) && WellFormed(s.limiter) && CapOk(cfg, s, t)
    ensures CapOk(cfg, HandlerNext(cfg.control, s, h, Check(h)), t)
  {
    var s' := HandlerNext(cfg.control, s, h, Check(h));
    HandlerStepMoves(cfg.control, s, h, Check(h), t);
    HandlerKeepsSlots(cfg.control, s, h, Check(h));
    ClearedHaveSlots(s'.handlers, t);
  }

  /** An insertion turns a handler past the check into an open request. */
  lemma InsertKeepsCap(cfg: Config, s: State, h: nat, t: Tenant)
    requires h < |s.handlers| && s.handlers[h].Stamped? && Numbered(s.store) && CapOk(cfg, s, t)
    ensures CapOk(cfg, HandlerNext(cfg.control, s, h, Insert(h)), t)
  {
    HandlerStepMoves(cfg.control, s, h, Insert(h), t);
    OpenAfterInsert(s.store, NewRequest(|s.store|, s.handlers[h].intake, s.handlers[h].created), t);
  }

  /** The other steps neither pass a check nor insert. */
  lemma OtherStepKeepsCap(cfg: Config, s: State, h: nat, step: Step, t: Tenant)
    requires h < |s.handlers| && !step.Arrive? && !step.Reconcile? && CapOk(cfg, s, t)
    requires !(step.Check? && s.handlers[h].Holding?) && !(step.Insert? && s.handlers[h].Stamped?)
    ensures CapOk(cfg, HandlerNext(cfg.control, s, h, step), t)
  {
    HandlerStepMoves(cfg.control, s, h, step, t);
  }

  /** A status that the reconciler records never makes a request open. */
  lemma CallKeepsCap(cfg: Config, s: State, reply: Reply, t: Tenant)
    requires Shaped(s) && CapOk(cfg, s, t)
    ensures CapOk(cfg, RecNext(cfg, s, reply), t)
  {
    RecFrame(cfg, s, reply);
    if !s.rec.Idle? {
      NumberedIndex(s.store, s.rec.id);
      var before := s.store[s.rec.id];
      forall status, why {
        CountUpdate(s.store, s.rec.id, before.(status := status, error := why),
          (r: Request) => r.tenant == t && r.IsOpen());
      }
    }
  }

  lemma StepKeepsCap(cfg: Config, s: State, step: Step, t: Tenant)
    requires Shaped(s) && SlotsOk(s) && WellFormed(s.limiter) && CapOk(cfg, s, t)
    ensures CapOk(cfg, Next(cfg, s, step), t)
  {
    if step.Arrive? {
      ArrivalKeepsSlots(cfg, s, step.intake, step.now, t);
    } else if step.Reconcile? {
      CallKeepsCap(cfg, s, step.reply, t);
    } else if step.h < |s.handlers| {
      if step.Check? && s.handlers[step.h].Holding? {
        CheckKeepsCap(cfg, s, step.h, t);
      } else if step.Insert? && s.handlers[step.h].Stamped? {
        InsertKeepsCap(cfg, s, step.h, t);
      } else {
        OtherStepKeepsCap(cfg, s, step.h, step, t);
      }
    }
  }

  lemma {:induction false} RunKeepsCap(cfg: Config, s: State, steps: seq<Step>, t: Tenant)
    requires Shaped(s) && SlotsOk(s) && WellFormed(s.limiter) && CapOk(cfg, s, t)
    ensures var s' := Exec(cfg, s, steps);
      SlotsOk(s') && s'.limiter.capacity == s.limiter.capacity && CapOk(cfg, s', t)
    decreases |steps|
  {
    if steps != [] {
      StepKeepsShape(cfg, s, steps[0]);
      StepKeepsSlots(cfg, s, steps[0]);
      StepKeepsCap(cfg, s, steps[0], t);
      RunKeepsCap(cfg, Next(cfg, s, steps[0]), steps[1..], t);
    }
  }

  /** In every interleaving a tenant has at most cap + K - 1 open requests, K being the
      number of slots, although the count and the insertion are separate steps; with one
      slot it is the cap. Every acquired slot is given back exactly once. */
  lemma OpenRequestsBounded(cfg: Config, perMinute: int, maxConcurrency: int, served: string,
        steps: seq<Step>, t: Tenant)
    ensures var k := Max(1, maxConcurrency);
      var s := Exec(cfg, Start(NewLimiter(perMinute, maxConcurrency), served), steps);
      && CountOpen(s.store, t) <= (if cfg.control.cap >= 1 then cfg.control.cap + k - 1 else 0)
      && (k == 1 && cfg.control.cap >= 1 ==> CountOpen(s.store, t) <= cfg.control.cap)
      && s.limiter.permits + Slots(s.handlers) == k
  {
    RunKeepsCap(cfg, Start(NewLimiter(perMinute, maxConcurrency), served), steps, t);
  }
}
