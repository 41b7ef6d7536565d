/** In which order requests are taken (reconciler.py 80-101, model_requests.py 176-180,
    396-402). A handler reads the creation time before it inserts, so a request may be
    inserted behind others and yet be older than they are. */
module InstallOrder {
  import opened Common
  import opened RateLimits
  import opened ModelRequests
  import opened InstallProtocol
  import opened InstallRuns
  import opened CreateRequests

  /** A status call that takes a request out of the queue has its effect. */
  predicate Effective(s: State, step: Step)
  {
    step.Reconcile? && Picked(s.rec) ==> step.reply.call.TookEffect()
  }

  ghost predicate EffectiveRun(cfg: Config, s: State, steps: seq<Step>)
    decreases |steps|
  {
    steps == [] || (Effective(s, steps[0]) && EffectiveRun(cfg, Next(cfg, s, steps[0]), steps[1..]))
  }

  /** The picked request is still recorded as waiting. */
  predicate Picked(rec: Rec) { rec.Deny? || rec.Mark? }

  /** Waiting, and not the one that is being taken. */
  predicate InLine(items: Items, rec: Rec, i: nat)
  {
    i < |items| && items[i].status == Requested && !(Picked(rec) && rec.id == i)
  }

  /** Created earlier, or inserted earlier with the same time. */
  predicate Older(items: Items, i: nat, j: nat)
    requires i < |items| && j < |items|
  {
    items[i].created < items[j].created || (items[i].created == items[j].created && i < j)
  }

  /** The requests in line before `id`. */
  function Ahead(items: Items, rec: Rec, id: nat): set<nat>
    requires id < |items|
  {
    set i | 0 <= i < |items| && InLine(items, rec, i) && Older(items, i, id)
  }

  // ---------- the head of the queue is the oldest ----------

  /** The first sorted element is the first of those with the least key. */
  lemma {:induction false} FirstLeast<T>(s: seq<T>, key: T -> real) returns (i: nat)
    requires s != []
    ensures i < |s| && StableSort(s, key) != [] && StableSort(s, key)[0] == s[i]
    ensures forall j :: 0 <= j < |s| ==> key(s[i]) <= key(s[j])
    ensures forall j :: 0 <= j < i ==> key(s[i]) < key(s[j])
  {
    if |s| == 1 {
      assert StableSort(s[1..], key) == [];
      i := 0;
    } else {
      var k := FirstLeast(s[1..], key);
      i := if key(s[0]) <= key(s[1..][k]) then 0 else k + 1;
      forall j | 0 <= j < |s| ensures key(s[i]) <= key(s[j]) && (j < i ==> key(s[i]) < key(s[j])) {
        assert j > 0 ==> s[j] == s[1..][j - 1];
      }
    }
  }

  /** Ids rise along the list, from `low` up. */
  ghost predicate Rises(items: Items, low: nat)
  {
    && (forall i, j :: 0 <= i < j < |items| ==> items[i].id < items[j].id)
    && (forall i :: 0 <= i < |items| ==> low <= items[i].id)
  }

  lemma {:induction false} WaitingRises(items: Items, low: nat)
    requires Rises(items, low)
    ensures Rises(Waiting(items), low)
  {
    if items != [] {
      var rest := Waiting(items[1..]);
      WaitingRises(items[1..], items[0].id + 1);
      assert Waiting(items) == if items[0].status == Requested then [items[0]] + rest else rest;
    }
  }

  lemma HeadIsOldest(items: Items)
    requires Numbered(items) && Pending(items) != []
    ensures var q := Pending(items)[0];
      && q.id < |items| && items[q.id] == q && q.status == Requested
      && forall i :: 0 <= i < |items| && items[i].status == Requested && i != q.id ==> Older(items, q.id, i)
  {
    var w := Waiting(items);
    var k := FirstLeast(w, Age);
    var q := w[k];
    assert Pending(items)[0] == q;
    WaitingExactly(items, q);
    WaitingRises(items, 0);
    forall i | 0 <= i < |items| && items[i].status == Requested && i != q.id ensures Older(items, q.id, i) {
      WaitingExactly(items, items[i]);
      var j :| 0 <= j < |w| && w[j] == items[i];
      assert Age(q) <= Age(w[j]) && (j < k ==> Age(q) < Age(w[j]));
    }
  }

  lemma SomeonePending(items: Items, i: nat)
    requires i < |items| && items[i].status == Requested
    ensures Pending(items) != []
  {
    WaitingExactly(items, items[i]);
    var k := FirstLeast(Waiting(items), Age);
  }

  // ---------- what a step does to a request in line ----------

  /** How a step moves the others relative to a request in line: an insertion with a smaller
      time overtakes it. */
  function Overtakes(s: State, step: Step, id: nat): nat
    requires id < |s.store|
  {
    if Inserts(s, step) && s.handlers[step.h].created < s.store[id].created then 1 else 0
  }

  /** The step left the request in line, one shorter for a pick and one longer if overtaken. */
  ghost predicate Advanced(s: State, s': State, id: nat, overtakes: nat)
  {
    && id < |s.store| && id < |s'.store| && InLine(s'.store, s'.rec, id)
    && s'.store[id].created == s.store[id].created
    && |Ahead(s'.store, s'.rec, id)| + |Taken(s'.log)|
       == |Ahead(s.store, s.rec, id)| + |Taken(s.log)| + overtakes
  }

  lemma BeforeInMore(items: Items, rec: Rec, r: Request, id: nat, i: nat)
    requires id < |items| && i < |items|
    ensures i in Ahead(items + [r], rec, id) <==> i in Ahead(items, rec, id)
  {
    assert (items + [r])[i] == items[i] && (items + [r])[id] == items[id];
  }

  lemma LastInMore(items: Items, rec: Rec, r: Request, id: nat)
    requires id < |items| && r.status == Requested && (rec.Idle? || rec.id < |items|)
    ensures |items| in Ahead(items + [r], rec, id) <==> r.created < items[id].created
  {
    var more := items + [r];
    assert more[|items|] == r && more[id] == items[id];
    assert InLine(more, rec, |items|);
  }

  /** A request that is appended comes before `id` exactly if its time is smaller. */
  lemma AheadOfMore(items: Items, rec: Rec, r: Request, id: nat)
    requires id < |items| && r.status == Requested && (rec.Idle? || rec.id < |items|)
    ensures |Ahead(items + [r], rec, id)|
         == |Ahead(items, rec, id)| + if r.created < items[id].created then 1 else 0
  {
    var n, ahead, ahead' := |items|, Ahead(items, rec, id), Ahead(items + [r], rec, id);
    LastInMore(items, rec, r, id);
    assert ahead' - {n} == ahead by {
      forall i: nat | i < n ensures i in ahead' <==> i in ahead {
        BeforeInMore(items, rec, r, id, i);
      }
      WithinLength(items, rec, id);
      WithinLength(items + [r], rec, id);
    }
    if n in ahead' {
      assert ahead' == ahead + {n};
    }
  }

  lemma WithinLength(items: Items, rec: Rec, id: nat)
    requires id < |items|
    ensures forall i :: i in Ahead(items, rec, id) ==> i < |items|
  {
  }

  lemma InsertAdvances(cfg: Config, s: State, step: Step, id: nat)
    requires Numbered(s.store) && RecOk(s) && InLine(s.store, s.rec, id) && !step.Reconcile?
    ensures Advanced(s, Next(cfg, s, step), id, Overtakes(s, step, id))
    ensures Taken(Next(cfg, s, step).log) == Taken(s.log)
  {
    HandlerFrame(cfg, s, step);
    if Inserts(s, step) {
      var r := NewRequest(|s.store|, s.handlers[step.h].intake, s.handlers[step.h].created);
      LogGrows(s.log, Recorded(r.id, Requested), 0, "");
      AheadOfMore(s.store, s.rec, r, id);
    }
  }

  /** When the head of the queue is picked, only that one leaves the line. */
  lemma AheadAfterPick(items: Items, rec: Rec, rec': Rec, id: nat)
    requires InLine(items, rec, id) && rec.Idle? && Picked(rec') && rec'.id != id
    requires rec'.id < |items| && items[rec'.id].status == Requested && Older(items, rec'.id, id)
    ensures InLine(items, rec', id) && rec'.id in Ahead(items, rec, id)
    ensures |Ahead(items, rec, id)| == |Ahead(items, rec', id)| + 1
  {
    assert Ahead(items, rec', id) == Ahead(items, rec, id) - {rec'.id};
  }

  /** A pick takes the request if it is at the head, and otherwise one ahead of it. */
  lemma PickAdvances(cfg: Config, s: State, reply: Reply, id: nat)
    requires Numbered(s.store) && InLine(s.store, s.rec, id) && s.rec.Idle?
    ensures var s' := RecNext(cfg, s, reply);
      || (s' == s && Advanced(s, s', id, 0))
      || (Ahead(s.store, s.rec, id) == {} && Taken(s'.log) == Taken(s.log) + [id])
      || (Ahead(s.store, s.rec, id) != {} && Advanced(s, s', id, 0) &&
          exists other :: other != id && Taken(s'.log) == Taken(s.log) + [other])
  {
    var s' := RecNext(cfg, s, reply);
    SomeonePending(s.store, id);
    HeadIsOldest(s.store);
    var q := Pending(s.store)[0].id;
    if s' != s {
      LogGrows(s.log, Took(q), 0, "");
      assert s'.store == s.store && Picked(s'.rec) && s'.rec.id == q;
      if q == id {
        assert Ahead(s.store, s.rec, id) == {};
      } else {
        AheadAfterPick(s.store, s.rec, s'.rec, id);
      }
    }
  }

  /** A client call on a picked request touches no other, and never makes one wait again. */
  lemma CallEffect(cfg: Config, s: State, reply: Reply)
    requires Numbered(s.store) && RecOk(s) && !s.rec.Idle?
    ensures var s' := RecNext(cfg, s, reply);
      && !Picked(s'.rec) && |s'.store| == |s.store|
      && (forall i :: 0 <= i < |s.store| ==> s'.store[i].created == s.store[i].created)
      && (forall i :: 0 <= i < |s.store| && i != s.rec.id ==> s'.store[i] == s.store[i])
      && ((Picked(s.rec) ==> reply.call.TookEffect()) ==> s'.store[s.rec.id].status != Requested)
  {
    NumberedIndex(s.store, s.rec.id);
  }

  lemma CallTakesNothing(cfg: Config, s: State, reply: Reply)
    requires !s.rec.Idle?
    ensures Taken(RecNext(cfg, s, reply).log) == Taken(s.log)
  {
    var s' := RecNext(cfg, s, reply);
    RecFrame(cfg, s, reply);
    if |s'.log| > |s.log| {
      assert s'.log == s.log + [s'.log[|s.log|]];
      LogGrows(s.log, s'.log[|s.log|], 0, "");
    } else {
      assert s'.log == s.log;
    }
  }

  /** Nobody comes into line or out of it by a call that has its effect. */
  lemma CallKeepsLine(cfg: Config, s: State, reply: Reply)
    requires Numbered(s.store) && RecOk(s) && !s.rec.Idle? && Effective(s, Reconcile(reply))
    ensures var s' := RecNext(cfg, s, reply);
      && |s'.store| == |s.store|
      && (forall i :: 0 <= i < |s.store| ==> s'.store[i].created == s.store[i].created)
      && (forall i :: 0 <= i < |s.store| ==> (InLine(s'.store, s'.rec, i) <==> InLine(s.store, s.rec, i)))
  {
    CallEffect(cfg, s, reply);
  }

  /** The requests ahead depend on the times and on who is in line. */
  lemma SameAhead(items: Items, rec: Rec, items': Items, rec': Rec, id: nat)
    requires id < |items| && |items'| == |items|
    requires forall i :: 0 <= i < |items| ==> items'[i].created == items[i].created
    requires forall i :: 0 <= i < |items| ==> (InLine(items', rec', i) <==> InLine(items, rec, i))
    ensures Ahead(items', rec', id) == Ahead(items, rec, id)
  {
    forall i ensures i in Ahead(items', rec', id) <==> i in Ahead(items, rec, id) {
      if 0 <= i < |items| {
        assert Older(items', i, id) <==> Older(items, i, id);
      }
    }
  }

  lemma CallAdvances(cfg: Config, s: State, reply: Reply, id: nat)
    requires Numbered(s.store) && RecOk(s) && InLine(s.store, s.rec, id) && !s.rec.Idle?
    requires Effective(s, Reconcile(reply))
    ensures Advanced(s, RecNext(cfg, s, reply), id, 0)
    ensures Taken(RecNext(cfg, s, reply).log) == Taken(s.log)
  {
    var s' := RecNext(cfg, s, reply);
    CallKeepsLine(cfg, s, reply);
    CallTakesNothing(cfg, s, reply);
    SameAhead(s.store, s.rec, s'.store, s'.rec, id);
  }

  // ---------- over a run ----------

  /** Later insertions with a strictly smaller time than `id`'s. */
  function Overtakers(cfg: Config, s: State, steps: seq<Step>, id: nat): nat
    requires id < |s.store| && Numbered(s.store)
    decreases |steps|
  {
    if steps == [] then 0 else
      StoreGrows(cfg, s, steps[0]);
      Overtakes(s, steps[0], id) + Overtakers(cfg, Next(cfg, s, steps[0]), steps[1..], id)
  }

  lemma StoreGrows(cfg: Config, s: State, step: Step)
    requires Numbered(s.store)
    ensures Numbered(Next(cfg, s, step).store) && |s.store| <= |Next(cfg, s, step).store|
  {
    if !step.Reconcile? {
      HandlerFrame(cfg, s, step);
    } else if !s.rec.Idle? {
      NumberedIndex(s.store, s.rec.id);
    }
  }

  /** The requests taken in between. */
  function NewlyTaken(s: State, s': State): seq<nat>
  {
    if |Taken(s.log)| <= |Taken(s'.log)| then Taken(s'.log)[|Taken(s.log)|..] else []
  }

  lemma TakenGrows(cfg: Config, s: State, step: Step)
    requires Numbered(s.store)
    ensures Taken(s.log) <= Taken(Next(cfg, s, step).log)
  {
    var s' := Next(cfg, s, step);
    if step.Reconcile? {
      RecFrame(cfg, s, step.reply);
    } else {
      HandlerFrame(cfg, s, step);
    }
    if |s'.log| > |s.log| {
      assert s'.log == s.log + [s'.log[|s.log|]];
      LogGrows(s.log, s'.log[|s.log|], 0, "");
    } else {
      assert s'.log == s.log;
    }
  }

  lemma {:induction false} TakenOnlyGrows(cfg: Config, s: State, steps: seq<Step>)
    requires Numbered(s.store)
    ensures Taken(s.log) <= Taken(Exec(cfg, s, steps).log)
    decreases |steps|
  {
    if steps != [] {
      TakenGrows(cfg, s, steps[0]);
      StoreGrows(cfg, s, steps[0]);
      TakenOnlyGrows(cfg, Next(cfg, s, steps[0]), steps[1..]);
    }
  }

  lemma NotTaken(taken: seq<nat>, more: seq<nat>, id: nat)
    requires taken <= more && id !in more[|taken|..]
    ensures more != taken + [id]
  {
    assert (taken + [id])[|taken|..] == [id];
  }

  /** One step: the request stays in line and the account goes on, or it is taken. */
  lemma StepAdvances(cfg: Config, s: State, step: Step, id: nat)
    requires Shaped(s) && InLine(s.store, s.rec, id) && Effective(s, step)
    requires id !in NewlyTaken(s, Next(cfg, s, step))
    ensures Advanced(s, Next(cfg, s, step), id, Overtakes(s, step, id))
  {
    if !step.Reconcile? {
      InsertAdvances(cfg, s, step, id);
    } else if s.rec.Idle? {
      PickAdvances(cfg, s, step.reply, id);
      NotTaken(Taken(s.log), Taken(Next(cfg, s, step).log), id);
    } else {
      CallAdvances(cfg, s, step.reply, id);
    }
  }

  /** While a request waits, the picks so far and the requests still ahead of it add up to
      those that were ahead and those that overtook it. */
  lemma {:induction false} WaitingAccount(cfg: Config, s: State, steps: seq<Step>, id: nat)
    requires Shaped(s) && InLine(s.store, s.rec, id) && EffectiveRun(cfg, s, steps)
    requires id !in NewlyTaken(s, Exec(cfg, s, steps))
    ensures Advanced(s, Exec(cfg, s, steps), id, Overtakers(cfg, s, steps, id))
    ensures Shaped(Exec(cfg, s, steps))
    decreases |steps|
  {
    if steps != [] {
      var s1 := Next(cfg, s, steps[0]);
      StepKeepsShape(cfg, s, steps[0]);
      TakenGrows(cfg, s, steps[0]);
      TakenOnlyGrows(cfg, s1, steps[1..]);
      NewlySplit(s, s1, Exec(cfg, s, steps), id);
      StepAdvances(cfg, s, steps[0], id);
      WaitingAccount(cfg, s1, steps[1..], id);
    }
  }

  lemma NewlySplit(s: State, s1: State, s2: State, id: nat)
    requires Taken(s.log) <= Taken(s1.log) <= Taken(s2.log) && id !in NewlyTaken(s, s2)
    ensures id !in NewlyTaken(s, s1) && id !in NewlyTaken(s1, s2)
  {
    var a, b, c := Taken(s.log), Taken(s1.log), Taken(s2.log);
    assert c[|a|..] == b[|a|..] + c[|b|..] by {
      assert b == c[..|b|];
    }
  }

  /** A request in line with k others ahead of it is taken by exactly the (k+1+j)-th pick from
      then on, where j counts the later insertions with a strictly smaller creation time before
      its turn: a pick takes it if and only if k + j picks went before. */
  lemma PickedInTurn(cfg: Config, s: State, id: nat, steps: seq<Step>, reply: Reply)
    requires Shaped(s) && InLine(s.store, s.rec, id) && EffectiveRun(cfg, s, steps)
    requires id !in NewlyTaken(s, Exec(cfg, s, steps))
    ensures var t := Exec(cfg, s, steps);
      var due := |Ahead(s.store, s.rec, id)| + Overtakers(cfg, s, steps, id);
      && |NewlyTaken(s, t)| <= due
      && (NewlyTaken(t, Next(cfg, t, Reconcile(reply))) != [] ==>
            (NewlyTaken(t, Next(cfg, t, Reconcile(reply))) == [id] <==> |NewlyTaken(s, t)| == due))
  {
    var t := Exec(cfg, s, steps);
    WaitingAccount(cfg, s, steps, id);
    TakenOnlyGrows(cfg, s, steps);
    assert Ahead(t.store, t.rec, id) == {} <==> |Ahead(t.store, t.rec, id)| == 0;
    var t' := Next(cfg, t, Reconcile(reply));
    if t.rec.Idle? {
      PickAdvances(cfg, t, reply, id);
      if t' != t {
        var taken, more := Taken(t.log), Taken(t'.log);
        assert more[|taken|..] == [more[|taken|]];
      }
    } else {
      CallTakesNothing(cfg, t, reply);
    }
  }

  // ---------- two requests in line together ----------

  /** `i` was taken, and `j` not before it. */
  ghost predicate TakenBefore(taken: seq<nat>, i: nat, j: nat)
  {
    exists k :: 0 <= k < |taken| && taken[k] == i && j !in taken[..k]
  }

  lemma FirstTaken(q: nat, rest: seq<nat>, i: nat, j: nat)
    requires i != j
    ensures TakenBefore([q] + rest, i, j) <==> q == i || (q != j && TakenBefore(rest, i, j))
  {
    var taken := [q] + rest;
    if q == i {
      assert taken[0] == i && j !in taken[..0];
    } else {
      if k :| 0 <= k < |taken| && taken[k] == i && j !in taken[..k] {
        assert taken[..k] == [q] + rest[..k - 1] && rest[k - 1] == i;
      }
      if k :| 0 <= k < |rest| && rest[k] == i && j !in rest[..k] {
        assert taken[k + 1] == i && taken[..k + 1] == [q] + rest[..k];
      }
    }
  }

  lemma NewlyConcat(s: State, s1: State, s2: State)
    requires Taken(s.log) <= Taken(s1.log) <= Taken(s2.log)
    ensures NewlyTaken(s, s2) == NewlyTaken(s, s1) + NewlyTaken(s1, s2)
  {
    assert Taken(s1.log) == Taken(s2.log)[..|Taken(s1.log)|];
  }

  /** What one step takes, with the requests in line by then: nothing or the oldest of them. */
  lemma StepTakes(cfg: Config, s: State, step: Step)
    requires Shaped(s)
    ensures var taken := NewlyTaken(s, Next(cfg, s, step));
      taken == [] || (|taken| == 1 && taken[0] < |s.store| &&
        forall i :: InLine(s.store, s.rec, i) && i != taken[0] ==> Older(s.store, taken[0], i))
  {
    var s' := Next(cfg, s, step);
    if !step.Reconcile? {
      HandlerFrame(cfg, s, step);
      LogGrows(s.log, Recorded(|s.store|, Requested), 0, "");
    } else if !s.rec.Idle? {
      CallTakesNothing(cfg, s, step.reply);
    } else if s' != s {
      HeadIsOldest(s.store);
      LogGrows(s.log, Took(Pending(s.store)[0].id), 0, "");
    }
  }

  /** Both still in line after a step that takes neither. */
  lemma BothWait(cfg: Config, s: State, step: Step, i: nat, j: nat)
    requires Shaped(s) && InLine(s.store, s.rec, i) && InLine(s.store, s.rec, j) && Effective(s, step)
    requires i !in NewlyTaken(s, Next(cfg, s, step)) && j !in NewlyTaken(s, Next(cfg, s, step))
    ensures var s' := Next(cfg, s, step);
      && InLine(s'.store, s'.rec, i) && InLine(s'.store, s'.rec, j)
      && s'.store[i].created == s.store[i].created && s'.store[j].created == s.store[j].created
  {
    StepAdvances(cfg, s, step, i);
    StepAdvances(cfg, s, step, j);
  }

  /** Of two requests in line together, the one inserted first is taken first exactly if its
      creation time is not the larger one, in every run that takes either of them. */
  lemma {:induction false} PairInOrderExactly(cfg: Config, s: State, steps: seq<Step>, i: nat, j: nat)
    requires Shaped(s) && i < j && InLine(s.store, s.rec, i) && InLine(s.store, s.rec, j) && EffectiveRun(cfg, s, steps)
    requires var taken := NewlyTaken(s, Exec(cfg, s, steps)); i in taken || j in taken
    ensures TakenBefore(NewlyTaken(s, Exec(cfg, s, steps)), i, j) <==> s.store[i].created <= s.store[j].created
    decreases |steps|
  {
    if steps != [] {
      var s1, s2 := Next(cfg, s, steps[0]), Exec(cfg, s, steps);
      StepKeepsShape(cfg, s, steps[0]);
      TakenGrows(cfg, s, steps[0]);
      TakenOnlyGrows(cfg, s1, steps[1..]);
      NewlyConcat(s, s1, s2);
      StepTakes(cfg, s, steps[0]);
      var taken, rest := NewlyTaken(s, s1), NewlyTaken(s1, s2);
      if taken != [] {
        assert taken == [taken[0]];
        FirstTaken(taken[0], rest, i, j);
      } else {
        assert taken + rest == rest;
      }
      if i !in taken && j !in taken {
        BothWait(cfg, s, steps[0], i, j);
        PairInOrderExactly(cfg, s1, steps[1..], i, j);
      }
    }
  }

  // ---------- when times do not decrease ----------

  /** Requests are inserted with creation times that do not decrease. */
  ghost predicate Orderly(s: State, step: Step)
  {
    Effective(s, step) &&
    (Inserts(s, step) ==> forall i :: 0 <= i < |s.store| ==> s.store[i].created <= s.handlers[step.h].created)
  }

  ghost predicate OrderlyRun(cfg: Config, s: State, steps: seq<Step>)
    decreases |steps|
  {
    steps == [] || (Orderly(s, steps[0]) && OrderlyRun(cfg, Next(cfg, s, steps[0]), steps[1..]))
  }

  /** The first requests have been taken, in order, and the rest are in line. */
  ghost predicate InOrder(items: Items, taken: seq<nat>, rec: Rec)
  {
    && |taken| <= |items|
    && (forall i, j :: 0 <= i < j < |items| ==> items[i].created <= items[j].created)
    && (forall i :: 0 <= i < |taken| ==> taken[i] == i)
    && (forall i :: 0 <= i < |items| ==> (InLine(items, rec, i) <==> |taken| <= i))
  }

  ghost predicate Queue(s: State) { InOrder(s.store, Taken(s.log), s.rec) }

  /** At the head of an orderly queue is the first request that was not taken. */
  lemma HeadOfQueue(items: Items, taken: seq<nat>, rec: Rec)
    requires Numbered(items) && InOrder(items, taken, rec) && rec.Idle? && Pending(items) != []
    ensures |taken| < |items| && Pending(items)[0].id == |taken|
  {
    var m := |taken|;
    HeadIsOldest(items);
    var q := Pending(items)[0].id;
    assert InLine(items, rec, q) && InLine(items, rec, m);
    assert q != m ==> Older(items, q, m);
  }

  lemma NextTaken(items: Items, taken: seq<nat>, rec: Rec, rec': Rec)
    requires InOrder(items, taken, rec) && rec.Idle? && |taken| < |items| && Picked(rec') && rec'.id == |taken|
    ensures InOrder(items, taken + [|taken|], rec')
  {
    forall i | 0 <= i < |items| ensures InLine(items, rec', i) <==> |taken| + 1 <= i {
      assert InLine(items, rec, i) <==> |taken| <= i;
    }
  }

  lemma PickKeepsQueue(cfg: Config, s: State, reply: Reply)
    requires Numbered(s.store) && Queue(s) && s.rec.Idle?
    ensures Queue(RecNext(cfg, s, reply))
  {
    var m, s' := |Taken(s.log)|, RecNext(cfg, s, reply);
    if s' != s {
      HeadOfQueue(s.store, Taken(s.log), s.rec);
      LogGrows(s.log, Took(m), 0, "");
      NextTaken(s.store, Taken(s.log), s.rec, s'.rec);
    }
  }

  lemma LongerQueue(items: Items, taken: seq<nat>, rec: Rec, r: Request)
    requires InOrder(items, taken, rec) && (rec.Idle? || rec.id < |items|) && r.status == Requested
    requires forall i :: 0 <= i < |items| ==> items[i].created <= r.created
    ensures InOrder(items + [r], taken, rec)
  {
    var more := items + [r];
    forall i | 0 <= i < |more| ensures InLine(more, rec, i) <==> |taken| <= i {
      if i < |items| {
        assert more[i] == items[i] && (InLine(items, rec, i) <==> |taken| <= i);
      }
    }
  }

  lemma HandlerKeepsQueue(cfg: Config, s: State, step: Step)
    requires Numbered(s.store) && RecOk(s) && Queue(s) && !step.Reconcile? && Orderly(s, step)
    ensures Queue(Next(cfg, s, step))
  {
    HandlerFrame(cfg, s, step);
    if Inserts(s, step) {
      var r := NewRequest(|s.store|, s.handlers[step.h].intake, s.handlers[step.h].created);
      LogGrows(s.log, Recorded(r.id, Requested), 0, "");
      LongerQueue(s.store, Taken(s.log), s.rec, r);
    }
  }

  lemma CallKeepsQueue(cfg: Config, s: State, reply: Reply)
    requires Numbered(s.store) && RecOk(s) && Queue(s) && !s.rec.Idle? && Effective(s, Reconcile(reply))
    ensures Queue(RecNext(cfg, s, reply))
  {
    CallKeepsLine(cfg, s, reply);
    CallTakesNothing(cfg, s, reply);
  }

  lemma {:induction false} RunKeepsQueue(cfg: Config, s: State, steps: seq<Step>)
    requires Shaped(s) && Queue(s) && OrderlyRun(cfg, s, steps)
    ensures Shaped(Exec(cfg, s, steps)) && Queue(Exec(cfg, s, steps))
    decreases |steps|
  {
    if steps != [] {
      var step := steps[0];
      StepKeepsShape(cfg, s, step);
      if !step.Reconcile? {
        HandlerKeepsQueue(cfg, s, step);
      } else if s.rec.Idle? {
        PickKeepsQueue(cfg, s, step.reply);
      } else {
        CallKeepsQueue(cfg, s, step.reply);
      }
      RunKeepsQueue(cfg, Next(cfg, s, step), steps[1..]);
    }
  }

  /** If requests are inserted with times that do not decrease, the n-th pick of a run is the
      n-th inserted request. */
  lemma TakenInOrderOfCreation(cfg: Config, limiter: Limiter, served: string, steps: seq<Step>)
    requires OrderlyRun(cfg, Start(limiter, served), steps)
    ensures var s := Exec(cfg, Start(limiter, served), steps);
      |Taken(s.log)| <= |s.store| && forall i :: 0 <= i < |Taken(s.log)| ==> Taken(s.log)[i] == i == s.store[i].id
  {
    var s := Start(limiter, served);
    assert Shaped(s) && Queue(s);
    RunKeepsQueue(cfg, s, steps);
  }

  // ---------- an older request that is inserted later ----------

  /** A handler reads its time, another one runs from start to end, then the first inserts; and
      the reconciler picks. */
  function OvertakingSteps(q: Intake, early: int, late: int): seq<Step>
  {
    HandlerSteps(0, q, early, early)[..4] + HandlerSteps(1, q, late, late)
    + HandlerSteps(0, q, early, early)[4..] + [Reconcile(Reply(Done, true))]
  }

  lemma SlotForTwo(l: Limiter, t: Tenant, early: int, late: int)
    requires l.perMinute >= 2 && l.permits >= 2 && l.windows == map[] && early < late
    ensures var (l1, ok1) := Acquire(l, t, early);
      var (_, ok2) := Acquire(l1, t, late);
      ok1 && ok2
  {
  }

  /** Up to its stamp, the first handler stores nothing. */
  lemma FirstStamps(cfg: Config, s: State, q: Intake, early: int)
    requires s.handlers == [] && s.store == [] && Welcome(cfg.control, q) && cfg.control.cap >= 1
    requires Acquire(s.limiter, q.tenant, early).1
    ensures Exec(cfg, s, HandlerSteps(0, q, early, early)[..4])
         == s.(limiter := Acquire(s.limiter, q.tenant, early).0, handlers := [Stamped(q, early)])
  {
    var steps := HandlerSteps(0, q, early, early);
    assert steps[..4] == [Arrive(q, early), TakeSlot(0), Check(0)] + [Stamp(0, early)];
    ExecConcat(cfg, s, [Arrive(q, early), TakeSlot(0), Check(0)], [Stamp(0, early)]);
    ThreeSteps(cfg, s, Arrive(q, early), TakeSlot(0), Check(0));
    FirstHalf(cfg, s, q, early);
    ExecOne(cfg, Exec(cfg, s, [Arrive(q, early), TakeSlot(0), Check(0)]), Stamp(0, early));
  }

  /** The other handler runs as if it were alone. */
  lemma OtherRuns(cfg: Config, s: State, q: Intake, early: int, late: int)
    requires s.handlers == [Stamped(q, early)] && s.store == [] && Welcome(cfg.control, q) && cfg.control.cap >= 1
    requires Acquire(s.limiter, q.tenant, late).1
    ensures var t := Exec(cfg, s, HandlerSteps(1, q, late, late));
      && t.store == [NewRequest(0, q, late)] && t.handlers == [Stamped(q, early), Gone]
      && t.rec == s.rec && Taken(t.log) == Taken(s.log)
  {
    HandlerIsRun(cfg, s, q, late, late);
    LogGrows(s.log, Recorded(0, Requested), 0, "");
  }

  /** Then the first handler stores its older request behind it. */
  lemma FirstInserts(cfg: Config, s: State, q: Intake, early: int, late: int)
    requires s.store == [NewRequest(0, q, late)] && s.handlers == [Stamped(q, early), Gone]
    ensures var t := Exec(cfg, s, HandlerSteps(0, q, early, early)[4..]);
      && t.store == [NewRequest(0, q, late), NewRequest(1, q, early)]
      && t.rec == s.rec && Taken(t.log) == Taken(s.log)
  {
    var s1 := Next(cfg, s, Insert(0));
    HandlerFrame(cfg, s, Insert(0));
    LogGrows(s.log, Recorded(1, Requested), 0, "");
    HandlerFrame(cfg, s1, Quit(0));
    ExecOne(cfg, s, Insert(0));
    ExecOne(cfg, s1, Quit(0));
    ExecConcat(cfg, s, [Insert(0)], [Quit(0)]);
    assert HandlerSteps(0, q, early, early)[4..] == [Insert(0)] + [Quit(0)];
  }

  /** The handlers' part: the one with the earlier time is stored behind the other. */
  lemma BothStored(cfg: Config, s: State, q: Intake, early: int, late: int)
    requires s.handlers == [] && s.store == [] && s.limiter.windows == map[] && early < late
    requires s.limiter.perMinute >= 2 && s.limiter.permits >= 2 && Welcome(cfg.control, q) && cfg.control.cap >= 1
    ensures var steps := HandlerSteps(0, q, early, early);
      var t := Exec(cfg, s, steps[..4] + HandlerSteps(1, q, late, late) + steps[4..]);
      && t.store == [NewRequest(0, q, late), NewRequest(1, q, early)]
      && t.rec == s.rec && Taken(t.log) == Taken(s.log)
  {
    var steps, other := HandlerSteps(0, q, early, early), HandlerSteps(1, q, late, late);
    SlotForTwo(s.limiter, q.tenant, early, late);
    FirstStamps(cfg, s, q, early);
    var s1 := Exec(cfg, s, steps[..4]);
    OtherRuns(cfg, s1, q, early, late);
    FirstInserts(cfg, Exec(cfg, s1, other), q, early, late);
    ExecConcat(cfg, s, steps[..4], other);
    ExecConcat(cfg, s, steps[..4] + other, steps[4..]);
  }

  lemma OlderIsPicked(cfg: Config, s: State, q: Intake, early: int, late: int)
    requires s.store == [NewRequest(0, q, late), NewRequest(1, q, early)] && early < late
    requires s.rec.Idle? && cfg.installer.enabled && cfg.control.enabled && Taken(s.log) == []
    ensures var s' := RecNext(cfg, s, Reply(Done, true));
      s'.store == s.store && Taken(s'.log) == [1]
  {
    SomeonePending(s.store, 1);
    HeadIsOldest(s.store);
    assert Older(s.store, 1, 0);
    LogGrows(s.log, Took(1), 0, "");
  }

  /** Two handlers race: the request inserted second is the older one and is taken first. */
  lemma Overtaking(cfg: Config, limiter: Limiter, served: string, q: Intake, early: int, late: int)
    requires limiter.perMinute >= 2 && limiter.permits >= 2 && limiter.windows == map[] && early < late
    requires Welcome(cfg.control, q) && cfg.control.cap >= 1 && cfg.installer.enabled
    ensures var s := Exec(cfg, Start(limiter, served), OvertakingSteps(q, early, late));
      && |s.store| == 2 && s.store[0].created == late && s.store[1].created == early
      && Taken(s.log) == [1]
  {
    var s, steps := Start(limiter, served), HandlerSteps(0, q, early, early);
    var handlers := steps[..4] + HandlerSteps(1, q, late, late) + steps[4..];
    BothStored(cfg, s, q, early, late);
    var t := Exec(cfg, s, handlers);
    ExecConcat(cfg, s, handlers, [Reconcile(Reply(Done, true))]);
    ExecOne(cfg, t, Reconcile(Reply(Done, true)));
    OlderIsPicked(cfg, t, q, early, late);
  }
}
