/** The per-user notification buffer and the polling push stream over it
    (notifications.py). Instants are carried as their ISO 8601 text. */
module Notifications {
  import opened Common
  import Json

  type Text = Json.Str

  const BUFFER_CAP := 200

  datatype Owner = Owner(tenant: string, user: string)

  datatype Event = Event(
    id: Text, owner: Owner, eventClass: Text, resourceId: Text, createdAt: Text, readAt: Option<Text>)

  predicate IsUnread(e: Event) { e.readAt.None? }

  function Unread(events: seq<Event>): seq<Event> { Filter(events, IsUnread) }

  /** Python's `s[-limit:]`; with a limit of zero that is all of `s`. */
  function Tail<T>(s: seq<T>, limit: int): seq<T>
  {
    if limit > 0 then Last(s, limit) else s[Min(-limit, |s|)..]
  }

  function Reverse<T>(s: seq<T>): (r: seq<T>)
    ensures |r| == |s|
  {
    if s == [] then [] else Reverse(s[1..]) + [s[0]]
  }

  lemma {:induction false} ReverseAppend<T>(s: seq<T>, x: T)
    ensures Reverse(s + [x]) == [x] + Reverse(s)
  {
    if s != [] {
      ReverseAppend(s[1..], x);
      assert (s + [x])[1..] == s[1..] + [x];
    }
  }

  lemma {:induction false} ReverseTwice<T>(s: seq<T>)
    ensures Reverse(Reverse(s)) == s
  {
    if s != [] {
      ReverseTwice(s[1..]);
      ReverseAppend(Reverse(s[1..]), s[0]);
    }
  }

  // ---------- the buffer ----------

  predicate Matches(e: Event, id: Text) { e.id == id && e.readAt.None? }

  /** The first unread event with the id becomes read. */
  function Marked(bucket: seq<Event>, id: Text, at: Text): (r: seq<Event>)
    ensures |r| == |bucket|
  {
    if bucket == [] then []
    else if Matches(bucket[0], id) then [bucket[0].(readAt := Some(at))] + bucket[1..]
    else [bucket[0]] + Marked(bucket[1..], id, at)
  }

  lemma {:induction false} MarkedAt(bucket: seq<Event>, id: Text, at: Text, i: nat)
    requires i <= |bucket| && forall j :: 0 <= j < i ==> !Matches(bucket[j], id)
    ensures i == |bucket| ==> Marked(bucket, id, at) == bucket
    ensures i < |bucket| && Matches(bucket[i], id) ==>
      Marked(bucket, id, at) == bucket[i := bucket[i].(readAt := Some(at))]
  {
    if i > 0 {
      MarkedAt(bucket[1..], id, at, i - 1);
      assert bucket == [bucket[0]] + bucket[1..];
    }
  }

  datatype Op = Publish(event: Event) | MarkRead(owner: Owner, id: Text, at: Text)

  /** What an operation does to one owner's bucket. */
  function Apply(bucket: seq<Event>, owner: Owner, op: Op): seq<Event>
  {
    match op
    case Publish(e) => if e.owner == owner then Last(bucket + [e], BUFFER_CAP) else bucket
    case MarkRead(o, id, at) => if o == owner then Marked(bucket, id, at) else bucket
  }

  function ApplyAll(bucket: seq<Event>, owner: Owner, ops: seq<Op>): seq<Event>
    decreases |ops|
  {
    if ops == [] then bucket else ApplyAll(Apply(bucket, owner, ops[0]), owner, ops[1..])
  }

  class InMemoryNotificationStore {
    var events: map<Owner, seq<Event>>

    function Bucket(owner: Owner): seq<Event>
      reads this
    {
      if owner in events then events[owner] else []
    }

    constructor ()
      ensures forall o :: Bucket(o) == []
    {
      events := map[];
    }

    /** Newest first. */
    method ListForUser(owner: Owner, limit: int, includeRead: bool) returns (listed: seq<Event>)
      ensures listed == Reverse(Tail(if includeRead then Bucket(owner) else Unread(Bucket(owner)), limit))
    {
      var found := Bucket(owner);
      if !includeRead {
        found := Filter(found, IsUnread);
      }
      return Reverse(Tail(found, limit));
    }

    method Publish(event: Event)
      modifies this
      ensures Bucket(event.owner) == Last(old(Bucket(event.owner)) + [event], BUFFER_CAP)
      ensures forall o :: o != event.owner ==> Bucket(o) == old(Bucket(o))
    {
      var bucket := Bucket(event.owner) + [event];
      events := events[event.owner := bucket];
      if |bucket| > BUFFER_CAP {
        events := events[event.owner := Last(bucket, BUFFER_CAP)];
      }
    }

    method MarkRead(owner: Owner, id: Text, at: Text) returns (updated: Option<Event>)
      modifies this
      ensures Bucket(owner) == Marked(old(Bucket(owner)), id, at)
      ensures forall o :: o != owner ==> Bucket(o) == old(Bucket(o))
      ensures updated.None? <==> forall e <- old(Bucket(owner)) :: !Matches(e, id)
      ensures updated.Some? ==> updated.value.id == id && updated.value.readAt == Some(at)
      ensures updated.Some? ==> updated.value in Bucket(owner)
      ensures updated.Some? ==> updated.value.(readAt := None) in old(Bucket(owner))
    {
      var bucket := Bucket(owner);
      for i := 0 to |bucket|
        invariant events == old(events)
        invariant forall j :: 0 <= j < i ==> !Matches(bucket[j], id)
      {
        if Matches(bucket[i], id) {
          MarkedAt(bucket, id, at, i);
          var read := bucket[i].(readAt := Some(at));
          events := events[owner := bucket[i := read]];
          assert Bucket(owner)[i] == read;
          return Some(read);
        }
      }
      MarkedAt(bucket, id, at, |bucket|);
      return None;
    }

    method Perform(op: Op)
      modifies this
      ensures forall o :: Bucket(o) == Apply(old(Bucket(o)), o, op)
    {
      match op
      case Publish(e) => Publish(e);
      case MarkRead(o, id, at) => var _ := MarkRead(o, id, at);
    }
  }

  // ---------- the bucket is the tail of the history ----------

  /** The owner's published events, in order, as published. */
  function Arrivals(owner: Owner, ops: seq<Op>): seq<Event>
  {
    if ops == [] then []
    else (if ops[0].Publish? && ops[0].event.owner == owner then [ops[0].event] else []) + Arrivals(owner, ops[1..])
  }

  predicate Quiet(owner: Owner, ops: seq<Op>)
  {
    forall i :: 0 <= i < |ops| ==> ops[i].MarkRead? ==> ops[i].owner != owner
  }

  /** The same event, perhaps read since. */
  predicate Since(now: Event, before: Event)
  {
    now == before || (before.readAt.None? && now.readAt.Some? && now == before.(readAt := now.readAt))
  }

  ghost predicate AllSince(now: seq<Event>, before: seq<Event>)
  {
    |now| == |before| && forall i :: 0 <= i < |now| ==> Since(now[i], before[i])
  }

  lemma LastOfLast<T>(s: seq<T>, t: seq<T>, n: nat)
    ensures Last(Last(s, n) + t, n) == Last(s + t, n)
  {
    if |s| > n {
      var cut := s[|s| - n..];
      assert s == s[..|s| - n] + cut;
      assert (s + t)[|s + t| - n..] == (cut + t)[|cut + t| - n..];
    }
  }

  lemma MarkedSince(bucket: seq<Event>, id: Text, at: Text, later: seq<Event>)
    ensures AllSince(Last(Marked(bucket, id, at) + later, BUFFER_CAP), Last(bucket + later, BUFFER_CAP))
  {
    MarkedAllSince(bucket, id, at);
  }

  lemma {:induction false} MarkedAllSince(bucket: seq<Event>, id: Text, at: Text)
    ensures AllSince(Marked(bucket, id, at), bucket)
  {
    if bucket != [] && !Matches(bucket[0], id) {
      MarkedAllSince(bucket[1..], id, at);
    }
  }

  /** One operation moves the tail of the history on, or marks part of it. */
  lemma ApplyIsTail(bucket: seq<Event>, owner: Owner, op: Op, later: seq<Event>)
    requires |bucket| <= BUFFER_CAP
    ensures |Apply(bucket, owner, op)| <= BUFFER_CAP
    ensures var was := Last(bucket + Arrivals(owner, [op]) + later, BUFFER_CAP);
      var now := Last(Apply(bucket, owner, op) + later, BUFFER_CAP);
      AllSince(now, was) && (Quiet(owner, [op]) ==> now == was)
  {
    if op.Publish? && op.event.owner == owner {
      assert Arrivals(owner, [op]) == [op.event];
      LastOfLast(bucket + [op.event], later, BUFFER_CAP);
    } else {
      assert bucket + Arrivals(owner, [op]) == bucket;
      if op.MarkRead? && op.owner == owner {
        MarkedSince(bucket, op.id, op.at, later);
        assert !Quiet(owner, [op]) by { assert [op][0] == op; }
      }
    }
  }

  lemma {:induction false} ApplyAllIsTail(bucket: seq<Event>, owner: Owner, ops: seq<Op>)
    requires |bucket| <= BUFFER_CAP
    ensures AllSince(ApplyAll(bucket, owner, ops), Last(bucket + Arrivals(owner, ops), BUFFER_CAP))
    ensures Quiet(owner, ops) ==> ApplyAll(bucket, owner, ops) == Last(bucket + Arrivals(owner, ops), BUFFER_CAP)
    decreases |ops|
  {
    if ops == [] {
      assert bucket + [] == bucket;
    } else {
      var rest := Arrivals(owner, ops[1..]);
      ApplyIsTail(bucket, owner, ops[0], rest);
      ApplyAllIsTail(Apply(bucket, owner, ops[0]), owner, ops[1..]);
      ArrivalsHead(bucket, owner, ops);
    }
  }

  lemma ArrivalsHead(bucket: seq<Event>, owner: Owner, ops: seq<Op>)
    requires ops != []
    ensures bucket + Arrivals(owner, ops) == bucket + Arrivals(owner, [ops[0]]) + Arrivals(owner, ops[1..])
    ensures Quiet(owner, ops) ==> Quiet(owner, [ops[0]]) && Quiet(owner, ops[1..])
  {
    assert [ops[0]][1..] == [];
  }

  /** From an empty store, a bucket is the last 200 events its owner was sent, some read since. */
  lemma BucketIsTail(owner: Owner, ops: seq<Op>)
    ensures AllSince(ApplyAll([], owner, ops), Last(Arrivals(owner, ops), 200))
  {
    ApplyAllIsTail([], owner, ops);
    assert [] + Arrivals(owner, ops) == Arrivals(owner, ops);
  }

  // ---------- the stream ----------

  datatype Frame = Data(event: Event) | Ping

  /** What one poll sees, oldest first. */
  function Window(bucket: seq<Event>, limit: int): seq<Event> { Tail(Unread(bucket), limit) }

  function Ids(events: seq<Event>): (ids: seq<Text>)
    ensures |ids| == |events| && forall i :: 0 <= i < |ids| ==> ids[i] == events[i].id
  {
    seq(|events|, i requires 0 <= i < |events| => events[i].id)
  }

  function IdSet(events: seq<Event>): set<Text> { set e | e in events :: e.id }

  /** The events one tick sends, given the ids sent before. */
  function NewOnes(events: seq<Event>, emitted: set<Text>): seq<Event>
  {
    if events == [] then []
    else if events[0].id in emitted then NewOnes(events[1..], emitted)
    else [events[0]] + NewOnes(events[1..], emitted + {events[0].id})
  }

  function Frames(events: seq<Event>): seq<Frame>
  {
    if events == [] then [] else [Data(events[0])] + Frames(events[1..])
  }

  /** One tick for each of `gaps`, which holds what happens to the store after that tick. */
  function StreamFrames(
    bucket: seq<Event>, owner: Owner, gaps: seq<seq<Op>>, limit: int, emitted: set<Text>): seq<Frame>
    decreases |gaps|
  {
    if gaps == [] then [] else
      var sent := NewOnes(Window(bucket, limit), emitted);
      Frames(sent) + [Ping] +
      StreamFrames(ApplyAll(bucket, owner, gaps[0]), owner, gaps[1..], limit, emitted + IdSet(sent))
  }

  /** The events of those frames. */
  function Emission(
    bucket: seq<Event>, owner: Owner, gaps: seq<seq<Op>>, limit: int, emitted: set<Text>): seq<Event>
    decreases |gaps|
  {
    if gaps == [] then [] else
      var sent := NewOnes(Window(bucket, limit), emitted);
      sent + Emission(ApplyAll(bucket, owner, gaps[0]), owner, gaps[1..], limit, emitted + IdSet(sent))
  }

  function Sent(frames: seq<Frame>): seq<Event>
  {
    if frames == [] then []
    else (if frames[0].Data? then [frames[0].event] else []) + Sent(frames[1..])
  }

  function Replayed(bucket: seq<Event>, owner: Owner, gaps: seq<seq<Op>>): seq<Event>
    decreases |gaps|
  {
    if gaps == [] then bucket else Replayed(ApplyAll(bucket, owner, gaps[0]), owner, gaps[1..])
  }

  lemma TickUnfolds(
    frames: seq<Frame>, bucket: seq<Event>, owner: Owner, gaps: seq<seq<Op>>, t: nat, limit: int, emitted: set<Text>)
    requires t < |gaps|
    ensures var sent, next := NewOnes(Window(bucket, limit), emitted), ApplyAll(bucket, owner, gaps[t]);
      && frames + StreamFrames(bucket, owner, gaps[t..], limit, emitted)
         == frames + Frames(sent) + [Ping] + StreamFrames(next, owner, gaps[t + 1..], limit, emitted + IdSet(sent))
      && Replayed(bucket, owner, gaps[t..]) == Replayed(next, owner, gaps[t + 1..])
  {
    assert gaps[t..][0] == gaps[t] && gaps[t..][1..] == gaps[t + 1..];
  }

  /** The generator: between two ticks, and between two frames of a tick, the rest of the
      process may do anything to the store; the poll has taken its snapshot. */
  method StreamNotificationFrames(
    store: InMemoryNotificationStore, owner: Owner, gaps: seq<seq<Op>>, limit: int, seen: set<Text>)
    returns (frames: seq<Frame>)
    modifies store
    ensures frames == StreamFrames(old(store.Bucket(owner)), owner, gaps, limit, seen)
    ensures store.Bucket(owner) == Replayed(old(store.Bucket(owner)), owner, gaps)
  {
    frames := [];
    var emitted := seen;
    ghost var all := StreamFrames(store.Bucket(owner), owner, gaps, limit, seen);
    ghost var end := Replayed(store.Bucket(owner), owner, gaps);
    assert gaps[0..] == gaps;
    for t := 0 to |gaps|
      invariant all == frames + StreamFrames(store.Bucket(owner), owner, gaps[t..], limit, emitted)
      invariant end == Replayed(store.Bucket(owner), owner, gaps[t..])
    {
      var events := store.ListForUser(owner, limit, false);
      ReverseTwice(Window(store.Bucket(owner), limit));
      TickUnfolds(frames, store.Bucket(owner), owner, gaps, t, limit, emitted);
      var sent;
      sent, emitted := EmitNew(Reverse(events), emitted);
      frames := frames + Frames(sent) + [Ping];
      RunGap(store, owner, gaps[t]);
    }
  }

  method RunGap(store: InMemoryNotificationStore, ghost owner: Owner, ops: seq<Op>)
    modifies store
    ensures store.Bucket(owner) == ApplyAll(old(store.Bucket(owner)), owner, ops)
  {
    for i := 0 to |ops|
      invariant ApplyAll(store.Bucket(owner), owner, ops[i..]) == ApplyAll(old(store.Bucket(owner)), owner, ops)
    {
      assert ops[i..][0] == ops[i] && ops[i..][1..] == ops[i + 1..];
      store.Perform(ops[i]);
    }
  }

  method EmitNew(events: seq<Event>, emitted0: set<Text>) returns (sent: seq<Event>, emitted: set<Text>)
    ensures sent == NewOnes(events, emitted0)
    ensures emitted == emitted0 + IdSet(sent)
  {
    sent, emitted := [], emitted0;
    for i := 0 to |events|
      invariant NewOnes(events, emitted0) == sent + NewOnes(events[i..], emitted)
      invariant emitted == emitted0 + IdSet(sent)
    {
      var event := events[i];
      assert events[i..][0] == event && events[i..][1..] == events[i + 1..];
      if event.id !in emitted {
        emitted := emitted + {event.id};
        sent := sent + [event];
      }
    }
  }
}
