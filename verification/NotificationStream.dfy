/** What the push stream delivers over a whole run (notifications.py 383-411): no event
    twice, exactly which events, and when their order is the order of publication. */
module NotificationStreams {
  import opened Common
  import opened Notifications

  // ---------- never twice ----------

  ghost predicate DistinctIds(events: seq<Event>)
  {
    forall i, j :: 0 <= i < j < |events| ==> events[i].id != events[j].id
  }

  ghost predicate NoneIn(events: seq<Event>, ids: set<Text>)
  {
    forall i :: 0 <= i < |events| ==> events[i].id !in ids
  }

  lemma {:induction false} NewOnesAreNew(events: seq<Event>, emitted: set<Text>)
    ensures DistinctIds(NewOnes(events, emitted)) && NoneIn(NewOnes(events, emitted), emitted)
    ensures forall i :: 0 <= i < |events| ==> events[i].id in emitted + IdSet(NewOnes(events, emitted))
  {
    if events != [] {
      var known := if events[0].id in emitted then emitted else emitted + {events[0].id};
      NewOnesAreNew(events[1..], known);
      var rest := NewOnes(events[1..], known);
      if events[0].id !in emitted {
        forall i | 0 <= i < |rest| ensures rest[i].id != events[0].id {
          assert rest[i].id !in known;
        }
        assert IdSet([events[0]] + rest) == {events[0].id} + IdSet(rest) by {
          IdSetConcat([events[0]], rest);
        }
      }
    }
  }

  lemma IdSetConcat(a: seq<Event>, b: seq<Event>)
    ensures IdSet(a + b) == IdSet(a) + IdSet(b)
  {
    forall k | k in IdSet(a) + IdSet(b) ensures k in IdSet(a + b) {
      if k in IdSet(a) {
        var e :| e in a && e.id == k;
        assert e in a + b;
      } else {
        var e :| e in b && e.id == k;
        assert e in a + b;
      }
    }
  }

  lemma DistinctConcat(a: seq<Event>, b: seq<Event>)
    requires DistinctIds(a) && DistinctIds(b) && NoneIn(b, IdSet(a))
    ensures DistinctIds(a + b)
  {
    forall i, j | 0 <= i < j < |a + b| ensures (a + b)[i].id != (a + b)[j].id {
      if i < |a| <= j {
        assert a[i] in a && a[i].id in IdSet(a);
        assert b[j - |a|].id !in IdSet(a);
      }
    }
  }

  /** Whatever is published or marked read meanwhile, by whomever, a stream sends no
      event twice and none of those the client said it had seen. */
  lemma {:induction false} NeverTwice(
    bucket: seq<Event>, owner: Owner, gaps: seq<seq<Op>>, limit: int, emitted: set<Text>)
    ensures var all := Emission(bucket, owner, gaps, limit, emitted);
      DistinctIds(all) && NoneIn(all, emitted)
    decreases |gaps|
  {
    if gaps != [] {
      var sent := NewOnes(Window(bucket, limit), emitted);
      var next := ApplyAll(bucket, owner, gaps[0]);
      NewOnesAreNew(Window(bucket, limit), emitted);
      NeverTwice(next, owner, gaps[1..], limit, emitted + IdSet(sent));
      var later := Emission(next, owner, gaps[1..], limit, emitted + IdSet(sent));
      assert NoneIn(later, IdSet(sent)) && NoneIn(later, emitted) by {
        forall i | 0 <= i < |later| ensures later[i].id !in IdSet(sent) && later[i].id !in emitted {
          assert later[i].id !in emitted + IdSet(sent);
        }
      }
      DistinctConcat(sent, later);
    }
  }

  function Pings(frames: seq<Frame>): nat
  {
    if frames == [] then 0 else (if frames[0].Ping? then 1 else 0) + Pings(frames[1..])
  }

  lemma {:induction false} PingsAfter(sent: seq<Event>, later: seq<Frame>)
    ensures Pings(Frames(sent) + later) == Pings(later)
  {
    if sent == [] {
      assert Frames(sent) + later == later;
    } else {
      var all := Frames(sent) + later;
      assert all[0] == Data(sent[0]) && all[1..] == Frames(sent[1..]) + later;
      PingsAfter(sent[1..], later);
    }
  }

  /** One heartbeat a tick. */
  lemma {:induction false} PingEachTick(
    bucket: seq<Event>, owner: Owner, gaps: seq<seq<Op>>, limit: int, emitted: set<Text>)
    ensures Pings(StreamFrames(bucket, owner, gaps, limit, emitted)) == |gaps|
    decreases |gaps|
  {
    if gaps != [] {
      var sent := NewOnes(Window(bucket, limit), emitted);
      var next, known := ApplyAll(bucket, owner, gaps[0]), emitted + IdSet(sent);
      var later := StreamFrames(next, owner, gaps[1..], limit, known);
      PingEachTick(next, owner, gaps[1..], limit, known);
      PingsAfter(sent, [Ping] + later);
      assert ([Ping] + later)[1..] == later;
      assert Frames(sent) + [Ping] + later == Frames(sent) + ([Ping] + later);
    }
  }

  /** The frames are those events, each tick closed by a heartbeat. */
  lemma {:induction false} SentIsEmission(
    bucket: seq<Event>, owner: Owner, gaps: seq<seq<Op>>, limit: int, emitted: set<Text>)
    ensures Sent(StreamFrames(bucket, owner, gaps, limit, emitted)) == Emission(bucket, owner, gaps, limit, emitted)
    decreases |gaps|
  {
    if gaps != [] {
      var sent := NewOnes(Window(bucket, limit), emitted);
      var next, known := ApplyAll(bucket, owner, gaps[0]), emitted + IdSet(sent);
      SentIsEmission(next, owner, gaps[1..], limit, known);
      var later := StreamFrames(next, owner, gaps[1..], limit, known);
      SentFrames(sent, [Ping] + later);
      assert ([Ping] + later)[1..] == later;
      assert Frames(sent) + [Ping] + later == Frames(sent) + ([Ping] + later);
    }
  }

  lemma {:induction false} SentFrames(events: seq<Event>, rest: seq<Frame>)
    ensures Sent(Frames(events) + rest) == events + Sent(rest)
  {
    if events == [] {
      assert Frames(events) + rest == rest;
    } else {
      SentFrames(events[1..], rest);
      ConcatAssociates([Data(events[0])], Frames(events[1..]), rest);
      var all := [Data(events[0])] + (Frames(events[1..]) + rest);
      assert all[0] == Data(events[0]) && all[1..] == Frames(events[1..]) + rest;
      ConcatAssociates([events[0]], events[1..], Sent(rest));
      assert [events[0]] + events[1..] == events;
    }
  }

  // ---------- exactly which events, while nothing is marked read ----------

  function Unseen(events: seq<Event>, ids: set<Text>): seq<Event>
  {
    if events == [] then []
    else (if events[0].id in ids then [] else [events[0]]) + Unseen(events[1..], ids)
  }

  /** How many of the latest arrivals one poll can show. */
  function Reach(limit: nat): nat { if limit == 0 then BUFFER_CAP else Min(limit, BUFFER_CAP) }

  /** The arrivals the ticks after the first can show. */
  function LaterBatches(owner: Owner, gaps: seq<seq<Op>>, limit: nat): seq<Event>
  {
    if |gaps| <= 1 then []
    else Last(Arrivals(owner, gaps[0]), Reach(limit)) + LaterBatches(owner, gaps[1..], limit)
  }

  /** Everything published to the owner before the last tick. */
  function AllArrivals(owner: Owner, gaps: seq<seq<Op>>): seq<Event>
  {
    if |gaps| <= 1 then [] else Arrivals(owner, gaps[0]) + AllArrivals(owner, gaps[1..])
  }

  ghost predicate AllUnread(events: seq<Event>) { forall i :: 0 <= i < |events| ==> IsUnread(events[i]) }

  ghost predicate QuietRun(owner: Owner, gaps: seq<seq<Op>>)
  {
    forall t :: 0 <= t < |gaps| ==> Quiet(owner, gaps[t])
  }

  lemma {:induction false} UnseenConcat(a: seq<Event>, b: seq<Event>, ids: set<Text>)
    ensures Unseen(a + b, ids) == Unseen(a, ids) + Unseen(b, ids)
  {
    if a == [] {
      assert a + b == b;
    } else {
      UnseenConcat(a[1..], b, ids);
      assert (a + b)[1..] == a[1..] + b && (a + b)[0] == a[0];
      ConcatAssociates(if a[0].id in ids then [] else [a[0]], Unseen(a[1..], ids), Unseen(b, ids));
    }
  }

  lemma {:induction false} UnseenNone(events: seq<Event>, ids: set<Text>)
    requires forall i :: 0 <= i < |events| ==> events[i].id in ids
    ensures Unseen(events, ids) == []
  {
    if events != [] {
      UnseenNone(events[1..], ids);
    }
  }

  lemma {:induction false} UnseenSame(events: seq<Event>, ids: set<Text>, ids': set<Text>)
    requires forall i :: 0 <= i < |events| ==> (events[i].id in ids <==> events[i].id in ids')
    ensures Unseen(events, ids) == Unseen(events, ids')
  {
    if events != [] {
      UnseenSame(events[1..], ids, ids');
    }
  }

  lemma {:induction false} NewOnesOfDistinct(events: seq<Event>, emitted: set<Text>)
    requires DistinctIds(events)
    ensures NewOnes(events, emitted) == Unseen(events, emitted)
  {
    if events != [] {
      var known := if events[0].id in emitted then emitted else emitted + {events[0].id};
      NewOnesOfDistinct(events[1..], known);
      UnseenSame(events[1..], known, emitted);
    }
  }

  lemma UnreadOfUnread(a: seq<Event>, b: seq<Event>)
    requires AllUnread(b)
    ensures Unread(a + b) == Unread(a) + b
  {
    FilterConcat(a, b, IsUnread);
    FilterAll(b, IsUnread);
  }

  /** A poll after arrivals shows the latest arrivals, and before them only events that the
      poll before showed. */
  lemma WindowAdvances(bucket: seq<Event>, arrived: seq<Event>, limit: nat) returns (before: seq<Event>)
    requires |bucket| <= BUFFER_CAP && AllUnread(arrived)
    ensures Window(Last(bucket + arrived, BUFFER_CAP), limit) == before + Last(arrived, Reach(limit))
    ensures forall i :: 0 <= i < |before| ==> before[i] in Window(bucket, limit)
  {
    var now := Last(bucket + arrived, BUFFER_CAP);
    if |arrived| >= BUFFER_CAP {
      assert now == Last(arrived, BUFFER_CAP);
      FilterAll(now, IsUnread);
      TailOfLast(arrived, limit);
      before := [];
    } else {
      var cut := |bucket + arrived| - |now|;
      var gone, kept := bucket[..cut], bucket[cut..];
      assert bucket == gone + kept && now == kept + arrived;
      FilterConcat(gone, kept, IsUnread);
      UnreadOfUnread(kept, arrived);
      before := TailAdvances(Unread(gone), Unread(kept), arrived, limit);
    }
  }

  lemma TailOfLast(arrived: seq<Event>, limit: nat)
    requires |arrived| >= BUFFER_CAP
    ensures Tail(Last(arrived, BUFFER_CAP), limit) == Last(arrived, Reach(limit))
  {
  }

  lemma TailAdvances(gone: seq<Event>, kept: seq<Event>, arrived: seq<Event>, limit: nat) returns (before: seq<Event>)
    requires |arrived| < BUFFER_CAP
    ensures Tail(kept + arrived, limit) == before + Last(arrived, Reach(limit))
    ensures forall i :: 0 <= i < |before| ==> before[i] in Tail(gone + kept, limit)
  {
    if limit == 0 {
      before := kept;
    } else {
      LastOfConcat(kept, arrived, limit);
      assert limit > |arrived| ==> Last(arrived, Reach(limit)) == arrived;
      assert limit <= |arrived| ==> Reach(limit) == limit;
      before := if limit <= |arrived| then [] else Last(kept, limit - |arrived|);
      forall i | 0 <= i < |before| ensures before[i] in Last(gone + kept, limit) {
        InLast(gone, kept, limit, |kept| - |before| + i);
      }
    }
  }

  lemma InLast(a: seq<Event>, b: seq<Event>, n: nat, i: nat)
    requires |b| - n <= i < |b|
    ensures b[i] in Last(a + b, n)
  {
    var s := Last(a + b, n);
    assert s[|s| - |b| + i] == b[i];
  }

  /** Everything a poll would show has been sent. */
  ghost predicate CaughtUp(bucket: seq<Event>, limit: nat, emitted: set<Text>)
  {
    forall i :: 0 <= i < |Window(bucket, limit)| ==> Window(bucket, limit)[i].id in emitted
  }

  /** The ids sent so far and the ids the client started with agree on these events. */
  ghost predicate SameNews(events: seq<Event>, emitted: set<Text>, seen: set<Text>)
  {
    forall i :: 0 <= i < |events| ==> (events[i].id in emitted <==> events[i].id in seen)
  }

  lemma ArrivalsSplit(arrived: seq<Event>, later: seq<Event>)
    requires AllUnread(arrived + later)
    ensures AllUnread(arrived) && AllUnread(later)
  {
    forall i | 0 <= i < |arrived| ensures IsUnread(arrived[i]) {
      assert arrived[i] == (arrived + later)[i];
    }
    forall i | 0 <= i < |later| ensures IsUnread(later[i]) {
      assert later[i] == (arrived + later)[|arrived| + i];
    }
  }

  lemma NextIsDistinct(bucket: seq<Event>, arrived: seq<Event>, later: seq<Event>)
    requires DistinctIds(bucket + (arrived + later))
    ensures DistinctIds(Last(bucket + arrived, BUFFER_CAP) + later) && DistinctIds(bucket + arrived)
  {
    var all := bucket + (arrived + later);
    assert bucket + arrived == all[..|bucket| + |arrived|];
    var now := Last(bucket + arrived, BUFFER_CAP);
    var cut := |bucket + arrived| - |now|;
    assert now + later == all[cut..];
  }

  /** What the next tick sends. */
  lemma OneTick(bucket: seq<Event>, arrived: seq<Event>, limit: nat, emitted: set<Text>) returns (sent: seq<Event>)
    requires |bucket| <= BUFFER_CAP && AllUnread(arrived) && DistinctIds(bucket + arrived)
    requires CaughtUp(bucket, limit, emitted)
    ensures sent == NewOnes(Window(Last(bucket + arrived, BUFFER_CAP), limit), emitted)
    ensures sent == Unseen(Last(arrived, Reach(limit)), emitted)
    ensures forall e <- sent :: e in arrived
  {
    var now := Last(bucket + arrived, BUFFER_CAP);
    var before := WindowAdvances(bucket, arrived, limit);
    DistinctWindow(now, limit);
    NewOnesOfDistinct(Window(now, limit), emitted);
    UnseenNone(before, emitted);
    UnseenConcat(before, Last(arrived, Reach(limit)), emitted);
    sent := NewOnes(Window(now, limit), emitted);
    forall e | e in sent ensures e in arrived {
      InUnseen(Last(arrived, Reach(limit)), emitted, e);
    }
  }

  lemma DistinctWindow(bucket: seq<Event>, limit: int)
    requires DistinctIds(bucket)
    ensures DistinctIds(Window(bucket, limit))
  {
    DistinctUnread(bucket);
    var w, u := Window(bucket, limit), Unread(bucket);
    forall i, j | 0 <= i < j < |w| ensures w[i].id != w[j].id {
      assert w[i] == u[|u| - |w| + i] && w[j] == u[|u| - |w| + j];
    }
  }

  lemma {:induction false} DistinctUnread(bucket: seq<Event>)
    requires DistinctIds(bucket)
    ensures DistinctIds(Unread(bucket))
  {
    if bucket != [] {
      DistinctUnread(bucket[1..]);
      var rest := Unread(bucket[1..]);
      forall i | 0 <= i < |rest| ensures rest[i].id != bucket[0].id {
        InFilter(bucket[1..], IsUnread, rest[i]);
      }
    }
  }

  lemma {:induction false} InUnseen(events: seq<Event>, ids: set<Text>, e: Event)
    ensures e in Unseen(events, ids) ==> e in events
  {
    if events != [] {
      InUnseen(events[1..], ids, e);
    }
  }

  /** One more tick, and the state it leaves for the ticks after it. */
  lemma TickOnward(
    bucket: seq<Event>, arrived: seq<Event>, later: seq<Event>, limit: nat, emitted: set<Text>, seen: set<Text>)
    returns (sent: seq<Event>)
    requires |bucket| <= BUFFER_CAP && CaughtUp(bucket, limit, emitted)
    requires AllUnread(arrived) && DistinctIds(bucket + (arrived + later)) && SameNews(arrived + later, emitted, seen)
    ensures var next := Last(bucket + arrived, BUFFER_CAP);
      && sent == NewOnes(Window(next, limit), emitted) && sent == Unseen(Last(arrived, Reach(limit)), seen)
      && DistinctIds(next + later) && CaughtUp(next, limit, emitted + IdSet(sent))
      && SameNews(later, emitted + IdSet(sent), seen)
  {
    var next := Last(bucket + arrived, BUFFER_CAP);
    NextIsDistinct(bucket, arrived, later);
    sent := OneTick(bucket, arrived, limit, emitted);
    SameNewsParts(arrived, later, emitted, seen);
    var latest := Last(arrived, Reach(limit));
    forall i | 0 <= i < |latest| ensures latest[i].id in emitted <==> latest[i].id in seen {
      assert latest[i] == arrived[|arrived| - |latest| + i];
    }
    UnseenSame(latest, emitted, seen);
    NewOnesAreNew(Window(next, limit), emitted);
    forall i | 0 <= i < |later| ensures later[i].id !in IdSet(sent) {
      NotSent(bucket, arrived, later, sent, i);
    }
  }

  lemma SameNewsParts(a: seq<Event>, b: seq<Event>, emitted: set<Text>, seen: set<Text>)
    requires SameNews(a + b, emitted, seen)
    ensures SameNews(a, emitted, seen) && SameNews(b, emitted, seen)
  {
    forall i | 0 <= i < |a| ensures a[i].id in emitted <==> a[i].id in seen {
      assert a[i] == (a + b)[i];
    }
    forall i | 0 <= i < |b| ensures b[i].id in emitted <==> b[i].id in seen {
      assert b[i] == (a + b)[|a| + i];
    }
  }

  lemma NotSent(bucket: seq<Event>, arrived: seq<Event>, later: seq<Event>, sent: seq<Event>, i: nat)
    requires i < |later| && DistinctIds(bucket + (arrived + later))
    requires forall e <- sent :: e in arrived
    ensures later[i].id !in IdSet(sent)
  {
    var all := bucket + (arrived + later);
    forall e | e in sent ensures e.id != later[i].id {
      var j :| 0 <= j < |arrived| && arrived[j] == e;
      assert all[|bucket| + j] == e && all[|bucket| + |arrived| + i] == later[i];
    }
  }

  /** The ticks after one at `bucket`, everything shown there having been sent. */
  lemma {:induction false} LaterTicks(
    bucket: seq<Event>, owner: Owner, gaps: seq<seq<Op>>, limit: nat, emitted: set<Text>, seen: set<Text>)
    requires |bucket| <= BUFFER_CAP && QuietRun(owner, gaps) && gaps != []
    requires AllUnread(AllArrivals(owner, gaps)) && DistinctIds(bucket + AllArrivals(owner, gaps))
    requires CaughtUp(bucket, limit, emitted) && SameNews(AllArrivals(owner, gaps), emitted, seen)
    ensures Emission(ApplyAll(bucket, owner, gaps[0]), owner, gaps[1..], limit, emitted)
         == Unseen(LaterBatches(owner, gaps, limit), seen)
    decreases |gaps|
  {
    if |gaps| > 1 {
      var arrived, later := Arrivals(owner, gaps[0]), AllArrivals(owner, gaps[1..]);
      var next := ApplyAll(bucket, owner, gaps[0]);
      ApplyAllIsTail(bucket, owner, gaps[0]);
      assert Quiet(owner, gaps[0]);
      ArrivalsSplit(arrived, later);
      var sent := TickOnward(bucket, arrived, later, limit, emitted, seen);
      LaterTicks(next, owner, gaps[1..], limit, emitted + IdSet(sent), seen);
      UnseenConcat(Last(arrived, Reach(limit)), LaterBatches(owner, gaps[1..], limit), seen);
    }
  }

  /** While nothing of the owner's is marked read, the stream sends exactly this: what the
      first poll shows, then after each gap its latest arrivals, as many as one poll can
      show, leaving out what the client had seen. */
  lemma StreamIsExact(bucket: seq<Event>, owner: Owner, gaps: seq<seq<Op>>, limit: nat, seen: set<Text>)
    requires |bucket| <= BUFFER_CAP && QuietRun(owner, gaps) && gaps != []
    requires AllUnread(AllArrivals(owner, gaps)) && DistinctIds(bucket + AllArrivals(owner, gaps))
    ensures Emission(bucket, owner, gaps, limit, seen)
         == Unseen(Window(bucket, limit) + LaterBatches(owner, gaps, limit), seen)
  {
    var window, all := Window(bucket, limit), bucket + AllArrivals(owner, gaps);
    assert DistinctIds(bucket) by {
      assert bucket == all[..|bucket|];
    }
    DistinctWindow(bucket, limit);
    var sent := NewOnes(window, seen);
    NewOnesOfDistinct(window, seen);
    NewOnesAreNew(window, seen);
    FirstSent(bucket, AllArrivals(owner, gaps), limit, seen);
    LaterTicks(bucket, owner, gaps, limit, seen + IdSet(sent), seen);
    UnseenConcat(window, LaterBatches(owner, gaps, limit), seen);
  }

  lemma FirstSent(bucket: seq<Event>, later: seq<Event>, limit: nat, seen: set<Text>)
    requires DistinctIds(bucket + later)
    ensures SameNews(later, seen + IdSet(NewOnes(Window(bucket, limit), seen)), seen)
  {
    var all, sent := bucket + later, NewOnes(Window(bucket, limit), seen);
    forall i, e | 0 <= i < |later| && e in sent ensures e.id != later[i].id {
      InNewOnes(Window(bucket, limit), seen, e);
      InFilter(bucket, IsUnread, e);
      var j :| 0 <= j < |bucket| && bucket[j] == e;
      assert all[j] == e && all[|bucket| + i] == later[i];
    }
  }

  lemma {:induction false} InNewOnes(events: seq<Event>, emitted: set<Text>, e: Event)
    ensures e in NewOnes(events, emitted) ==> e in events
  {
    if events != [] {
      InNewOnes(events[1..], if events[0].id in emitted then emitted else emitted + {events[0].id}, e);
    }
  }

  /** If no gap brings more than a poll can show, every event published between the first and
      the last tick is sent, once, in the order of publication. */
  lemma {:induction false} NothingMissed(bucket: seq<Event>, owner: Owner, gaps: seq<seq<Op>>, limit: nat)
    requires |bucket| <= BUFFER_CAP && QuietRun(owner, gaps) && gaps != []
    requires AllUnread(AllArrivals(owner, gaps)) && DistinctIds(bucket + AllArrivals(owner, gaps))
    requires forall t :: 0 <= t < |gaps| - 1 ==> |Arrivals(owner, gaps[t])| <= Reach(limit)
    ensures Emission(bucket, owner, gaps, limit, {}) == Window(bucket, limit) + AllArrivals(owner, gaps)
  {
    StreamIsExact(bucket, owner, gaps, limit, {});
    BatchesAreAll(owner, gaps, limit);
    UnseenOfNothing(Window(bucket, limit) + AllArrivals(owner, gaps));
  }

  lemma {:induction false} BatchesAreAll(owner: Owner, gaps: seq<seq<Op>>, limit: nat)
    requires forall t :: 0 <= t < |gaps| - 1 ==> |Arrivals(owner, gaps[t])| <= Reach(limit)
    ensures LaterBatches(owner, gaps, limit) == AllArrivals(owner, gaps)
  {
    if |gaps| > 1 {
      forall t | 0 <= t < |gaps[1..]| - 1 ensures |Arrivals(owner, gaps[1..][t])| <= Reach(limit) {
        assert gaps[1..][t] == gaps[t + 1];
      }
      BatchesAreAll(owner, gaps[1..], limit);
    }
  }

  lemma {:induction false} UnseenOfNothing(events: seq<Event>)
    ensures Unseen(events, {}) == events
  {
    if events != [] {
      UnseenOfNothing(events[1..]);
      assert [events[0]] + events[1..] == events;
    }
  }

  // ---------- the order of publication ----------

  /** `a` can be read off from `b` by leaving items out. */
  predicate Subsequence(a: seq<Text>, b: seq<Text>)
  {
    a == [] ||
    (b != [] && ((a[0] == b[0] && Subsequence(a[1..], b[1..])) || Subsequence(a, b[1..])))
  }

  lemma {:induction false} SubsequenceConcat(a: seq<Text>, b: seq<Text>, c: seq<Text>, d: seq<Text>)
    requires Subsequence(a, b) && Subsequence(c, d)
    ensures Subsequence(a + c, b + d)
    decreases |b|
  {
    if b == [] {
      assert a + c == c && b + d == d;
    } else {
      assert (b + d)[0] == b[0] && (b + d)[1..] == b[1..] + d;
      if a != [] && a[0] == b[0] && Subsequence(a[1..], b[1..]) {
        SubsequenceConcat(a[1..], b[1..], c, d);
        assert (a + c)[0] == a[0] && (a + c)[1..] == a[1..] + c;
      } else {
        SubsequenceConcat(a, b[1..], c, d);
      }
    }
  }

  lemma {:induction false} SubsequenceLength(a: seq<Text>, b: seq<Text>)
    requires Subsequence(a, b)
    ensures |a| <= |b| && (|a| == |b| ==> a == b)
    decreases |b|
  {
    if a != [] {
      if a[0] == b[0] && Subsequence(a[1..], b[1..]) {
        SubsequenceLength(a[1..], b[1..]);
        assert a == [a[0]] + a[1..] && b == [b[0]] + b[1..];
      } else {
        SubsequenceLength(a, b[1..]);
      }
    }
  }

  lemma {:induction false} NewUnreadInOrder(events: seq<Event>, emitted: set<Text>)
    ensures Subsequence(Ids(NewOnes(Unread(events), emitted)), Ids(events))
  {
    if events != [] {
      var e, rest := events[0], events[1..];
      var sends := IsUnread(e) && e.id !in emitted;
      var known := if sends then emitted + {e.id} else emitted;
      NewUnreadInOrder(rest, known);
      assert Ids(events)[0] == e.id && Ids(events)[1..] == Ids(rest);
      var later := NewOnes(Unread(rest), known);
      if IsUnread(e) {
        assert ([e] + Unread(rest))[1..] == Unread(rest);
      }
      if sends {
        assert Ids([e] + later)[1..] == Ids(later);
      }
    }
  }

  lemma {:induction false} NewOnesSkip(a: seq<Event>, b: seq<Event>, emitted: set<Text>)
    requires forall i :: 0 <= i < |a| ==> IsUnread(a[i]) ==> a[i].id in emitted
    ensures NewOnes(Unread(a + b), emitted) == NewOnes(Unread(b), emitted)
  {
    if a == [] {
      assert a + b == b;
    } else {
      NewOnesSkip(a[1..], b, emitted);
      assert (a + b)[0] == a[0] && (a + b)[1..] == a[1..] + b;
      assert ([a[0]] + Unread(a[1..] + b))[1..] == Unread(a[1..] + b);
    }
  }

  /** A limit that shows the whole buffer. */
  predicate ShowsAll(limit: nat) { limit == 0 || limit >= BUFFER_CAP }

  ghost predicate AllSent(bucket: seq<Event>, emitted: set<Text>)
  {
    forall i :: 0 <= i < |bucket| ==> IsUnread(bucket[i]) ==> bucket[i].id in emitted
  }

  /** `now` is the history from position `cut` on, some of it read since. */
  ghost predicate TailFrom(now: seq<Event>, history: seq<Event>, cut: nat)
  {
    |now| + cut == |history| && forall i :: 0 <= i < |now| ==> Since(now[i], history[cut + i])
  }

  lemma OldPart(bucket: seq<Event>, arrived: seq<Event>, now: seq<Event>, cut: nat, k: nat, emitted: set<Text>)
    requires AllSent(bucket, emitted) && TailFrom(now, bucket + arrived, cut)
    requires k <= |now| && k + cut <= Max(|bucket|, cut)
    ensures AllSent(now[..k], emitted)
  {
    forall i | 0 <= i < k && IsUnread(now[i]) ensures now[i].id in emitted {
      assert Since(now[i], bucket[cut + i]);
    }
  }

  lemma NewPart(bucket: seq<Event>, arrived: seq<Event>, now: seq<Event>, cut: nat, k: nat)
    requires TailFrom(now, bucket + arrived, cut) && k <= |now| && k + cut >= |bucket|
    ensures |now| - k <= |arrived| && Ids(now[k..]) == Ids(arrived)[|arrived| - (|now| - k)..]
  {
    var latest := arrived[|arrived| - (|now| - k)..];
    forall j | 0 <= j < |latest| ensures now[k..][j].id == latest[j].id {
      assert now[k..][j] == now[k + j];
      assert Since(now[k + j], (bucket + arrived)[cut + (k + j)]);
    }
    assert Ids(now[k..]) == Ids(latest);
    assert Ids(latest) == Ids(arrived)[|arrived| - (|now| - k)..];
  }

  /** A bucket after a gap: what is left of the old one, then the latest arrivals. */
  lemma OldAndNew(bucket: seq<Event>, arrived: seq<Event>, now: seq<Event>, emitted: set<Text>) returns (k: nat)
    requires |bucket| <= BUFFER_CAP && AllSent(bucket, emitted)
    requires AllSince(now, Last(bucket + arrived, BUFFER_CAP))
    ensures k <= |now| && AllSent(now[..k], emitted)
    ensures |now| - k <= |arrived| && Ids(now[k..]) == Ids(arrived)[|arrived| - (|now| - k)..]
  {
    var all, before := bucket + arrived, Last(bucket + arrived, BUFFER_CAP);
    var cut := |all| - |now|;
    forall i | 0 <= i < |now| ensures Since(now[i], all[cut + i]) {
      assert before[i] == all[cut + i];
    }
    k := Max(0, |bucket| - cut);
    OldPart(bucket, arrived, now, cut, k, emitted);
    NewPart(bucket, arrived, now, cut, k);
  }

  lemma SuffixInOrder(a: seq<Text>, b: seq<Text>, skipped: nat)
    requires skipped <= |b| && Subsequence(a, b[skipped..])
    ensures Subsequence(a, b)
  {
    SubsequenceConcat([], b[..skipped], a, b[skipped..]);
    assert b == b[..skipped] + b[skipped..] && [] + a == a;
  }

  /** After a gap, a tick that shows the whole buffer sends arrivals only, in their order. */
  lemma TickInOrder(bucket: seq<Event>, owner: Owner, gap: seq<Op>, emitted: set<Text>)
    requires |bucket| <= BUFFER_CAP && AllSent(bucket, emitted)
    ensures Subsequence(Ids(NewOnes(Unread(ApplyAll(bucket, owner, gap)), emitted)), Ids(Arrivals(owner, gap)))
  {
    var now, arrived := ApplyAll(bucket, owner, gap), Arrivals(owner, gap);
    ApplyAllIsTail(bucket, owner, gap);
    var k := OldAndNew(bucket, arrived, now, emitted);
    var left, latest := now[..k], now[k..];
    assert now == left + latest;
    NewOnesSkip(left, latest, emitted);
    NewUnreadInOrder(latest, emitted);
    SuffixInOrder(Ids(NewOnes(Unread(latest), emitted)), Ids(arrived), |arrived| - |latest|);
  }

  lemma UnreadSent(bucket: seq<Event>, emitted: set<Text>)
    ensures AllSent(bucket, emitted + IdSet(NewOnes(Unread(bucket), emitted)))
  {
    NewOnesAreNew(Unread(bucket), emitted);
    forall i | 0 <= i < |bucket| && IsUnread(bucket[i])
      ensures bucket[i].id in emitted + IdSet(NewOnes(Unread(bucket), emitted))
    {
      InFilter(bucket, IsUnread, bucket[i]);
    }
  }

  lemma WholeWindow(bucket: seq<Event>, limit: nat)
    requires |bucket| <= BUFFER_CAP && ShowsAll(limit)
    ensures Window(bucket, limit) == Unread(bucket)
  {
  }

  lemma {:induction false} LaterInOrder(
    bucket: seq<Event>, owner: Owner, gaps: seq<seq<Op>>, limit: nat, emitted: set<Text>)
    requires |bucket| <= BUFFER_CAP && gaps != [] && ShowsAll(limit) && AllSent(bucket, emitted)
    ensures Subsequence(
      Ids(Emission(ApplyAll(bucket, owner, gaps[0]), owner, gaps[1..], limit, emitted)), Ids(AllArrivals(owner, gaps)))
    decreases |gaps|
  {
    if |gaps| > 1 {
      var next := ApplyAll(bucket, owner, gaps[0]);
      var sent := NewOnes(Unread(next), emitted);
      ApplyAllIsTail(bucket, owner, gaps[0]);
      WholeWindow(next, limit);
      TickInOrder(bucket, owner, gaps[0], emitted);
      UnreadSent(next, emitted);
      LaterInOrder(next, owner, gaps[1..], limit, emitted + IdSet(sent));
      var later := Emission(ApplyAll(next, owner, gaps[1]), owner, gaps[2..], limit, emitted + IdSet(sent));
      assert gaps[1..][1..] == gaps[2..];
      InOrderConcat(sent, Arrivals(owner, gaps[0]), later, AllArrivals(owner, gaps[1..]));
    }
  }

  lemma InOrderConcat(a: seq<Event>, b: seq<Event>, c: seq<Event>, d: seq<Event>)
    requires Subsequence(Ids(a), Ids(b)) && Subsequence(Ids(c), Ids(d))
    ensures Subsequence(Ids(a + c), Ids(b + d))
  {
    SubsequenceConcat(Ids(a), Ids(b), Ids(c), Ids(d));
    assert Ids(a + c) == Ids(a) + Ids(c) && Ids(b + d) == Ids(b) + Ids(d);
  }

  /** The run's events go out in the order in which they were published. */
  ghost predicate InOrder(bucket: seq<Event>, owner: Owner, gaps: seq<seq<Op>>, limit: nat, seen: set<Text>)
  {
    Subsequence(Ids(Emission(bucket, owner, gaps, limit, seen)), Ids(bucket + AllArrivals(owner, gaps)))
  }

  lemma InOrderWhenShowingAll(bucket: seq<Event>, owner: Owner, gaps: seq<seq<Op>>, limit: nat, seen: set<Text>)
    requires |bucket| <= BUFFER_CAP && ShowsAll(limit)
    ensures InOrder(bucket, owner, gaps, limit, seen)
  {
    if gaps == [] {
      assert Ids(Emission(bucket, owner, gaps, limit, seen)) == [];
    } else {
      var sent := NewOnes(Unread(bucket), seen);
      WholeWindow(bucket, limit);
      NewUnreadInOrder(bucket, seen);
      UnreadSent(bucket, seen);
      LaterInOrder(bucket, owner, gaps, limit, seen + IdSet(sent));
      var later := Emission(ApplyAll(bucket, owner, gaps[0]), owner, gaps[1..], limit, seen + IdSet(sent));
      InOrderConcat(sent, bucket, later, AllArrivals(owner, gaps));
    }
  }

  // A run that breaks the order: limit + 1 unread events, and the last of them is marked
  // read after the first tick, which brings the first one into view.

  function Crowd(owner: Owner, n: nat): (bucket: seq<Event>)
    requires n <= BUFFER_CAP
    ensures |bucket| == n
  {
    seq(n, i requires 0 <= i < n => Event([i], owner, [], [], [], None))
  }

  /** Two ticks with one operation between them. */
  function TwoTicks(op: Op): seq<seq<Op>> { [[op], []] }

  lemma TwoTicksSend(bucket: seq<Event>, owner: Owner, op: Op, limit: nat, sent: seq<Event>)
    requires sent == NewOnes(Window(bucket, limit), {})
    ensures Emission(bucket, owner, TwoTicks(op), limit, {})
         == sent + NewOnes(Window(Apply(bucket, owner, op), limit), IdSet(sent))
  {
    var gaps, next := TwoTicks(op), Apply(bucket, owner, op);
    assert gaps[0][0] == op && gaps[0][1..] == [] && gaps[1..] == [[]] && gaps[1..][1..] == [];
    assert ApplyAll(bucket, owner, gaps[0]) == next;
    var second := NewOnes(Window(next, limit), IdSet(sent));
    assert {} + IdSet(sent) == IdSet(sent);
    assert Emission(next, owner, gaps[1..], limit, IdSet(sent)) == second + [];
  }

  lemma NothingPublished(owner: Owner, op: Op)
    requires op.MarkRead?
    ensures AllArrivals(owner, TwoTicks(op)) == []
  {
    var gaps := TwoTicks(op);
    assert gaps[0][1..] == [] && gaps[1..] == [[]];
    assert Arrivals(owner, gaps[0]) == [];
  }

  lemma CrowdShown(owner: Owner, limit: nat)
    requires !ShowsAll(limit)
    ensures var bucket := Crowd(owner, limit + 1);
      && Window(bucket, limit) == bucket[1..]
      && Window(Apply(bucket, owner, MarkRead(owner, [limit], [])), limit) == bucket[..limit]
  {
    var bucket := Crowd(owner, limit + 1);
    FilterAll(bucket, IsUnread);
    MarkedAt(bucket, [limit], [], limit);
    SecondWindow(bucket, Apply(bucket, owner, MarkRead(owner, [limit], [])), limit);
  }

  lemma ReadingReorders(owner: Owner, limit: nat)
    requires !ShowsAll(limit)
    ensures !InOrder(Crowd(owner, limit + 1), owner, TwoTicks(MarkRead(owner, [limit], [])), limit, {})
  {
    var bucket, op := Crowd(owner, limit + 1), MarkRead(owner, [limit], []);
    var shown := bucket[1..];
    CrowdShown(owner, limit);
    NewOnesOfDistinct(shown, {});
    UnseenOfNothing(shown);
    TwoTicksSend(bucket, owner, op, limit, shown);
    FirstOnly(bucket, limit, IdSet(shown));
    NothingPublished(owner, op);
    RotatedIsOutOfOrder(bucket);
    assert bucket + [] == bucket;
  }

  lemma RotatedIsOutOfOrder(bucket: seq<Event>)
    requires |bucket| > 1 && DistinctIds(bucket)
    ensures !Subsequence(Ids(bucket[1..] + bucket[..1]), Ids(bucket))
  {
    var a, b := Ids(bucket[1..] + bucket[..1]), Ids(bucket);
    assert a[0] == bucket[1].id && b[0] == bucket[0].id;
    if Subsequence(a, b) {
      SubsequenceLength(a, b);
    }
  }

  lemma SecondWindow(bucket: seq<Event>, next: seq<Event>, limit: nat)
    requires |bucket| == |next| == limit + 1 && limit > 0 && AllUnread(bucket)
    requires next[..limit] == bucket[..limit] && !IsUnread(next[limit])
    ensures Window(next, limit) == bucket[..limit]
  {
    FilterAll(next[..limit], IsUnread);
    FilterNone(next[limit..], IsUnread);
    FilterConcat(next[..limit], next[limit..], IsUnread);
    assert next == next[..limit] + next[limit..];
    assert bucket[..limit] + [] == bucket[..limit];
  }

  lemma FirstOnly(bucket: seq<Event>, limit: nat, known: set<Text>)
    requires |bucket| == limit + 1 && limit > 0 && DistinctIds(bucket)
    requires known == IdSet(bucket[1..])
    ensures NewOnes(bucket[..limit], known) == bucket[..1]
  {
    var e, rest := bucket[0], bucket[..limit][1..];
    forall x | x in bucket[1..] ensures x.id != e.id {
      var i :| 0 <= i < |bucket[1..]| && bucket[1..][i] == x;
      assert bucket[i + 1] == x;
    }
    forall i | 0 <= i < |rest| ensures rest[i].id in known {
      assert rest[i] == bucket[1..][i] && rest[i] in bucket[1..];
    }
    NewOnesOfDistinct(bucket[..limit], known);
    UnseenNone(rest, known);
    assert bucket[..limit][0] == e;
  }

  /** Publication order survives `mark_read` in every run exactly if each poll shows the whole
      buffer; with any smaller positive limit, the default of fifty included, it does not. */
  lemma OrderExactly(limit: nat)
    ensures ShowsAll(limit) <==>
      (forall bucket, owner, gaps: seq<seq<Op>>, seen ::
        |bucket| <= BUFFER_CAP && DistinctIds(bucket + AllArrivals(owner, gaps))
        ==> InOrder(bucket, owner, gaps, limit, seen))
  {
    if ShowsAll(limit) {
      forall bucket, owner, gaps: seq<seq<Op>>, seen | |bucket| <= BUFFER_CAP
        ensures InOrder(bucket, owner, gaps, limit, seen)
      {
        InOrderWhenShowingAll(bucket, owner, gaps, limit, seen);
      }
    } else {
      var owner := Owner("", "");
      var bucket, op := Crowd(owner, limit + 1), MarkRead(owner, [limit], []);
      ReadingReorders(owner, limit);
      NothingPublished(owner, op);
      assert bucket + [] == bucket && DistinctIds(bucket);
    }
  }
}
