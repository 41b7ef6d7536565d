/** The per-tenant fixed-window rate limit with a global concurrency cap
    (agent_tools.py), and what its windows imply for sliding intervals. */
module RateLimits {
  import opened Common

  type Tenant = string

  datatype Window = Window(minute: int, count: int)

  datatype Limiter = Limiter(perMinute: int, capacity: nat, windows: map<Tenant, Window>, permits: nat)

  predicate WellFormed(l: Limiter) { l.permits <= l.capacity && l.capacity >= 1 }

  function NewLimiter(perMinute: int, maxConcurrency: int): Limiter
  {
    Limiter(perMinute, Max(1, maxConcurrency), map[], Max(1, maxConcurrency))
  }

  /** The section under the lock: count this call in the tenant's window, or refuse it. */
  function Admit(l: Limiter, tenant: Tenant, now: int): (Limiter, bool)
  {
    var minute := now / 60;
    var w := if tenant in l.windows then l.windows[tenant] else Window(minute, 0);
    var w' := if w.minute != minute then Window(minute, 0) else w;
    if w'.count >= l.perMinute then (l, false)
    else (l.(windows := l.windows[tenant := Window(w'.minute, w'.count + 1)]), true)
  }

  function AcquireSlot(l: Limiter): (Limiter, bool)
  {
    if l.permits > 0 then (l.(permits := l.permits - 1), true) else (l, false)
  }

  function Acquire(l: Limiter, tenant: Tenant, now: int): (Limiter, bool)
  {
    var (l', admitted) := Admit(l, tenant, now);
    if admitted then AcquireSlot(l') else (l', false)
  }

  /** A release beyond the bound raises ValueError, which the source swallows. */
  function Freed(l: Limiter): Limiter
  {
    if l.permits < l.capacity then l.(permits := l.permits + 1) else l
  }

  class RateLimiter {
    const perMinute: int
    const capacity: nat
    var windows: map<Tenant, Window>
    var permits: nat

    function State(): Limiter
      reads this
    {
      Limiter(perMinute, capacity, windows, permits)
    }

    ghost predicate Valid()
      reads this
    {
      WellFormed(State())
    }

    constructor (perMinute: int, maxConcurrency: int)
      ensures Valid() && State() == NewLimiter(perMinute, maxConcurrency)
    {
      this.perMinute := perMinute;
      capacity := Max(1, maxConcurrency);
      windows := map[];
      permits := Max(1, maxConcurrency);
    }

    method TryAcquire(tenant: Tenant, now: int) returns (ok: bool)
      requires Valid()
      modifies this
      ensures Valid()
      ensures (State(), ok) == Acquire(old(State()), tenant, now)
    {
      var minute := now / 60;
      var w := minute;
      var count := 0;
      if tenant in windows {
        w, count := windows[tenant].minute, windows[tenant].count;
      }
      if w != minute {
        w, count := minute, 0;
      }
      if count >= perMinute {
        return false;
      }
      windows := windows[tenant := Window(w, count + 1)];
      if permits == 0 {
        return false;
      }
      permits := permits - 1;
      return true;
    }

    method Release()
      requires Valid()
      modifies this`permits
      ensures Valid() && State() == Freed(old(State()))
    {
      if permits < capacity {
        permits := permits + 1;
      }
    }
  }

  // ---------- traces of calls by all tenants ----------

  datatype Op = Try(tenant: Tenant, now: int) | Free

  function NextLimiter(l: Limiter, op: Op): Limiter
  {
    match op
    case Try(tenant, now) => Acquire(l, tenant, now).0
    case Free => Freed(l)
  }

  /** The clock does not step back. */
  ghost predicate Ordered(ops: seq<Op>)
  {
    forall i, j :: 0 <= i < j < |ops| && ops[i].Try? && ops[j].Try? ==> ops[i].now <= ops[j].now
  }

  /** The clock minutes of one tenant's calls. */
  function Minutes(ops: seq<Op>, tenant: Tenant): seq<int>
  {
    if ops == [] then []
    else (if ops[0].Try? && ops[0].tenant == tenant then [ops[0].now / 60] else []) + Minutes(ops[1..], tenant)
  }

  /** No minute is entered again once it was left; inside a minute the clock may step back. */
  ghost predicate NoReturn(minutes: seq<int>)
  {
    forall i, j, k :: 0 <= i < j < k < |minutes| && minutes[i] == minutes[k] ==> minutes[j] == minutes[i]
  }

  lemma {:induction false} MinutesRise(ops: seq<Op>, tenant: Tenant, low: int)
    requires Ordered(ops) && forall i :: 0 <= i < |ops| && ops[i].Try? ==> low <= ops[i].now
    ensures forall i :: 0 <= i < |Minutes(ops, tenant)| ==> low / 60 <= Minutes(ops, tenant)[i]
    ensures forall i, j :: 0 <= i < j < |Minutes(ops, tenant)| ==> Minutes(ops, tenant)[i] <= Minutes(ops, tenant)[j]
  {
    if ops != [] {
      var first := if ops[0].Try? then ops[0].now else low;
      forall i | 0 <= i < |ops[1..]| && ops[1..][i].Try? ensures first <= ops[1..][i].now {
        assert ops[1..][i] == ops[i + 1];
      }
      MinutesRise(ops[1..], tenant, first);
    }
  }

  /** A clock that never steps back never returns to a minute. */
  lemma OrderedNeverReturns(ops: seq<Op>, tenant: Tenant)
    requires Ordered(ops)
    ensures NoReturn(Minutes(ops, tenant))
  {
    var low := LowTime(ops);
    MinutesRise(ops, tenant, low);
  }

  lemma {:induction false} LowTime(ops: seq<Op>) returns (low: int)
    ensures forall i :: 0 <= i < |ops| && ops[i].Try? ==> low <= ops[i].now
  {
    if ops == [] {
      low := 0;
    } else {
      var rest := LowTime(ops[1..]);
      low := if ops[0].Try? then Min(ops[0].now, rest) else rest;
      forall i | 0 <= i < |ops| && ops[i].Try? ensures low <= ops[i].now {
        assert i > 0 ==> ops[i] == ops[1..][i - 1];
      }
    }
  }

  /** Successful calls of `tenant` at times in `[a, b)`. */
  function Hits(l: Limiter, ops: seq<Op>, tenant: Tenant, a: int, b: int): nat
    decreases |ops|
  {
    if ops == [] then 0
    else
      var op := ops[0];
      (if op.Try? && op.tenant == tenant && a <= op.now < b && Acquire(l, tenant, op.now).1 then 1 else 0)
      + Hits(NextLimiter(l, op), ops[1..], tenant, a, b)
  }

  lemma {:induction false} HitsSplit(l: Limiter, ops: seq<Op>, tenant: Tenant, a: int, b: int, c: int)
    requires a <= b <= c
    ensures Hits(l, ops, tenant, a, c) == Hits(l, ops, tenant, a, b) + Hits(l, ops, tenant, b, c)
    decreases |ops|
  {
    if ops != [] {
      HitsSplit(NextLimiter(l, ops[0]), ops[1..], tenant, a, b, c);
    }
  }

  /** How many more calls the tenant's window lets through in minute `m`. */
  function Left(l: Limiter, tenant: Tenant, m: int): int
  {
    if tenant in l.windows && l.windows[tenant].minute == m then Max(0, l.perMinute - l.windows[tenant].count)
    else Max(0, l.perMinute)
  }

  /** The minute of the tenant's window, as the start of the minutes to come. */
  function Current(l: Limiter, tenant: Tenant): seq<int>
  {
    if tenant in l.windows then [l.windows[tenant].minute] else []
  }

  lemma {:induction false} NoHitsElsewhere(l: Limiter, ops: seq<Op>, tenant: Tenant, m: int)
    requires forall i :: 0 <= i < |Minutes(ops, tenant)| ==> Minutes(ops, tenant)[i] != m
    ensures Hits(l, ops, tenant, 60 * m, 60 * m + 60) == 0
    decreases |ops|
  {
    if ops != [] {
      var ms, rest := Minutes(ops, tenant), Minutes(ops[1..], tenant);
      forall i | 0 <= i < |rest| ensures rest[i] != m {
        assert rest[i] == ms[|ms| - |rest| + i];
      }
      assert ops[0].Try? && ops[0].tenant == tenant ==> ms[0] == ops[0].now / 60;
      NoHitsElsewhere(NextLimiter(l, ops[0]), ops[1..], tenant, m);
    }
  }

  lemma NoReturnParts(a: seq<int>, b: seq<int>)
    requires NoReturn(a + b)
    ensures NoReturn(b)
    ensures |a| == 1 && |b| > 0 && b[0] != a[0] ==> forall k :: 0 <= k < |b| ==> b[k] != a[0]
    ensures |a| == 1 && |b| > 0 ==> NoReturn(a + b[1..])
  {
    var all := a + b;
    forall i, j, k | 0 <= i < j < k < |b| && b[i] == b[k] ensures b[j] == b[i] {
      assert all[|a| + i] == b[i] && all[|a| + j] == b[j] && all[|a| + k] == b[k];
    }
    if |a| == 1 && |b| > 0 {
      assert all[0] == a[0] && all[1] == b[0];
      forall k | 1 <= k < |b| && b[0] != a[0] ensures b[k] != a[0] {
        assert all[1 + k] == b[k];
      }
      var less := a + b[1..];
      forall i, j, k | 0 <= i < j < k < |less| && less[i] == less[k] ensures less[j] == less[i] {
        assert less[k] == all[k + 1] && less[j] == all[j + 1] && less[i] == all[if i == 0 then 0 else i + 1];
      }
    }
  }

  /** A call uses up what it is let through with, and only a call in another minute moves
      the window. */
  lemma TryEffect(l: Limiter, tenant: Tenant, now: int, m: int)
    ensures var l' := Acquire(l, tenant, now).0;
      && (Current(l', tenant) == Current(l, tenant) || Current(l', tenant) == [now / 60])
      && ((Current(l, tenant) == [m] && now / 60 != m) ||
          Left(l', tenant, m) + (if Acquire(l, tenant, now).1 && now / 60 == m then 1 else 0) <= Left(l, tenant, m))
  {
  }

  lemma OtherEffect(l: Limiter, op: Op, tenant: Tenant, m: int)
    requires !(op.Try? && op.tenant == tenant)
    ensures Current(NextLimiter(l, op), tenant) == Current(l, tenant)
    ensures Left(NextLimiter(l, op), tenant, m) == Left(l, tenant, m)
  {
  }

  /** As long as the tenant never returns to a minute it left, a minute holds no more than
      its window leaves, whatever the other tenants do. */
  lemma {:induction false} MinuteBound(l: Limiter, ops: seq<Op>, tenant: Tenant, m: int)
    requires NoReturn(Current(l, tenant) + Minutes(ops, tenant))
    ensures Hits(l, ops, tenant, 60 * m, 60 * m + 60) <= Left(l, tenant, m)
    decreases |ops|, 1
  {
    if ops != [] {
      var rest := Minutes(ops[1..], tenant);
      if ops[0].Try? && ops[0].tenant == tenant {
        OwnCallBound(l, ops, tenant, m, rest);
      } else {
        OtherEffect(l, ops[0], tenant, m);
        assert Minutes(ops, tenant) == rest;
        MinuteBound(NextLimiter(l, ops[0]), ops[1..], tenant, m);
      }
    }
  }

  lemma {:induction false} OwnCallBound(l: Limiter, ops: seq<Op>, tenant: Tenant, m: int, rest: seq<int>)
    requires ops != [] && ops[0].Try? && ops[0].tenant == tenant && rest == Minutes(ops[1..], tenant)
    requires NoReturn(Current(l, tenant) + Minutes(ops, tenant))
    ensures Hits(l, ops, tenant, 60 * m, 60 * m + 60) <= Left(l, tenant, m)
    decreases |ops|, 0
  {
    var now, l' := ops[0].now, NextLimiter(l, ops[0]);
    var x := now / 60;
    assert Minutes(ops, tenant) == [x] + rest;
    TryEffect(l, tenant, now, m);
    if Current(l, tenant) == [m] && x != m {
      NoReturnParts([m], [x] + rest);
      NoHitsElsewhere(l, ops, tenant, m);
    } else {
      NoReturnStep(Current(l, tenant), x, rest);
      MinuteBound(l', ops[1..], tenant, m);
      assert 60 * m <= now < 60 * m + 60 <==> x == m;
    }
  }

  lemma NoReturnStep(a: seq<int>, x: int, rest: seq<int>)
    requires NoReturn(a + ([x] + rest)) && |a| <= 1
    ensures NoReturn([x] + rest) && NoReturn(a + rest)
  {
    NoReturnParts(a, [x] + rest);
    assert ([x] + rest)[1..] == rest;
    if a == [] {
      NoReturnParts([x], rest);
      assert a + rest == rest;
    }
  }

  lemma {:induction false} MinutesBound(l: Limiter, ops: seq<Op>, tenant: Tenant, m: int, n: nat)
    requires NoReturn(Minutes(ops, tenant)) && tenant !in l.windows
    ensures Hits(l, ops, tenant, 60 * m, 60 * (m + n)) <= n * Max(0, l.perMinute)
  {
    if n == 0 {
      NoHits(l, ops, tenant, 60 * m);
    } else {
      MinutesBound(l, ops, tenant, m, n - 1);
      HitsSplit(l, ops, tenant, 60 * m, 60 * (m + n - 1), 60 * (m + n));
      assert Current(l, tenant) + Minutes(ops, tenant) == Minutes(ops, tenant);
      MinuteBound(l, ops, tenant, m + n - 1);
      assert n * Max(0, l.perMinute) == (n - 1) * Max(0, l.perMinute) + Max(0, l.perMinute);
    }
  }

  lemma {:induction false} NoHits(l: Limiter, ops: seq<Op>, tenant: Tenant, a: int)
    ensures Hits(l, ops, tenant, a, a) == 0
    decreases |ops|
  {
    if ops != [] {
      NoHits(NextLimiter(l, ops[0]), ops[1..], tenant, a);
    }
  }

  /** Any interval of `length` seconds touches at most ceil((length - 1) / 60) + 1
      windows, so it holds at most that many times the per-minute limit, whatever the
      other tenants do. The source speaks of calls per minute: for 60 seconds the
      bound is twice the limit. */
  lemma SlidingBound(l: Limiter, ops: seq<Op>, tenant: Tenant, a: int, length: int)
    requires NoReturn(Minutes(ops, tenant)) && tenant !in l.windows && length >= 1
    ensures Hits(l, ops, tenant, a, a + length) <= ((length + 58) / 60 + 1) * Max(0, l.perMinute)
    ensures length == 60 ==> Hits(l, ops, tenant, a, a + length) <= 2 * Max(0, l.perMinute)
  {
    var m := a / 60;
    var n := (a + length - 1) / 60 - m + 1;
    var p := Max(0, l.perMinute);
    MinutesBound(l, ops, tenant, m, n);
    HitsSplit(l, ops, tenant, 60 * m, a, 60 * (m + n));
    HitsSplit(l, ops, tenant, a, a + length, 60 * (m + n));
    assert n <= (length + 58) / 60 + 1;
    assert n * p <= ((length + 58) / 60 + 1) * p by { ProductMonotone(n, (length + 58) / 60 + 1, p); }
  }

  lemma ProductMonotone(a: int, b: int, p: int)
    requires a <= b && 0 <= p
    ensures a * p <= b * p
  {
  }

  function Burst(tenant: Tenant, now: int, n: nat): seq<Op>
  {
    if n == 0 then [] else [Try(tenant, now), Free] + Burst(tenant, now, n - 1)
  }

  function After(l: Limiter, ops: seq<Op>): Limiter
    decreases |ops|
  {
    if ops == [] then l else After(NextLimiter(l, ops[0]), ops[1..])
  }

  lemma {:induction false} HitsConcat(l: Limiter, x: seq<Op>, y: seq<Op>, tenant: Tenant, a: int, b: int)
    ensures Hits(l, x + y, tenant, a, b) == Hits(l, x, tenant, a, b) + Hits(After(l, x), y, tenant, a, b)
    decreases |x|
  {
    if x == [] {
      assert x + y == y;
    } else {
      assert (x + y)[1..] == x[1..] + y;
      HitsConcat(NextLimiter(l, x[0]), x[1..], y, tenant, a, b);
    }
  }

  lemma {:induction false} BurstHits(l: Limiter, tenant: Tenant, now: int, n: nat, a: int, b: int)
    requires WellFormed(l) && l.permits == l.capacity && a <= now < b && n <= l.perMinute
    requires tenant in l.windows ==> l.windows[tenant].minute != now / 60 || l.windows[tenant].count + n <= l.perMinute
    ensures Hits(l, Burst(tenant, now, n), tenant, a, b) == n
    ensures var l' := After(l, Burst(tenant, now, n));
      && WellFormed(l') && l'.permits == l'.capacity && l'.perMinute == l.perMinute
      && (n == 0 ==> l' == l)
      && (n > 0 ==> tenant in l'.windows && l'.windows[tenant].minute == now / 60)
    decreases n
  {
    if n > 0 {
      var ops := Burst(tenant, now, n);
      var tail := Burst(tenant, now, n - 1);
      assert ops[1..] == [Free] + tail && ops[1..][1..] == tail;
      var l2 := NextLimiter(NextLimiter(l, Try(tenant, now)), Free);
      BurstHits(l2, tenant, now, n - 1, a, b);
    }
  }

  lemma {:induction false} BurstTimes(tenant: Tenant, now: int, n: nat)
    ensures forall i :: 0 <= i < |Burst(tenant, now, n)| ==>
              (Burst(tenant, now, n)[i].Try? ==> Burst(tenant, now, n)[i].now == now)
  {
    if n > 0 {
      BurstTimes(tenant, now, n - 1);
    }
  }

  /** The factor two is attained, within two seconds around a window's edge. */
  lemma SlidingBoundAttained(perMinute: nat, maxConcurrency: int, tenant: Tenant)
    ensures var ops := Burst(tenant, 59, perMinute) + Burst(tenant, 60, perMinute);
      Ordered(ops) && Hits(NewLimiter(perMinute, maxConcurrency), ops, tenant, 59, 61) == 2 * perMinute
  {
    var l := NewLimiter(perMinute, maxConcurrency);
    BurstTimes(tenant, 59, perMinute);
    BurstTimes(tenant, 60, perMinute);
    BurstHits(l, tenant, 59, perMinute, 59, 61);
    BurstHits(After(l, Burst(tenant, 59, perMinute)), tenant, 60, perMinute, 59, 61);
    HitsConcat(l, Burst(tenant, 59, perMinute), Burst(tenant, 60, perMinute), tenant, 59, 61);
  }

  // ---------- exactly which clocks keep the limit ----------

  /** A window in another minute starts over, so a return to minute `m` is let through. */
  lemma {:induction false} EntryIsHit(l: Limiter, ops: seq<Op>, tenant: Tenant, m: int, k: nat)
    requires l.perMinute == 1 && l.permits >= |ops| && k < |Minutes(ops, tenant)| && Minutes(ops, tenant)[k] == m
    requires tenant in l.windows ==> l.windows[tenant].minute != m
    ensures Hits(l, ops, tenant, 60 * m, 60 * m + 60) >= 1
    decreases |ops|
  {
    var own := ops[0].Try? && ops[0].tenant == tenant;
    var rest := Minutes(ops[1..], tenant);
    assert Minutes(ops, tenant) == (if own then [ops[0].now / 60] else []) + rest;
    if !own {
      EntryIsHit(NextLimiter(l, ops[0]), ops[1..], tenant, m, k);
    } else if ops[0].now / 60 != m {
      EntryIsHit(NextLimiter(l, ops[0]), ops[1..], tenant, m, k - 1);
    }
  }

  /** Leaving minute `m` and coming back to it is one more call let through in it. */
  lemma {:induction false} ReturnIsHit(l: Limiter, ops: seq<Op>, tenant: Tenant, m: int, j: nat, k: nat)
    requires l.perMinute == 1 && l.permits >= |ops| && tenant in l.windows && l.windows[tenant].minute == m
    requires j < k < |Minutes(ops, tenant)| && Minutes(ops, tenant)[j] != m && Minutes(ops, tenant)[k] == m
    ensures Hits(l, ops, tenant, 60 * m, 60 * m + 60) >= 1
    decreases |ops|
  {
    var own := ops[0].Try? && ops[0].tenant == tenant;
    var l', rest := NextLimiter(l, ops[0]), Minutes(ops[1..], tenant);
    assert Minutes(ops, tenant) == (if own then [ops[0].now / 60] else []) + rest;
    if !own {
      ReturnIsHit(l', ops[1..], tenant, m, j, k);
    } else if ops[0].now / 60 != m {
      EntryIsHit(l', ops[1..], tenant, m, k - 1);
    } else {
      ReturnIsHit(l', ops[1..], tenant, m, j - 1, k - 1);
    }
  }

  /** A minute that is entered twice holds two calls although one a minute is allowed. */
  lemma {:induction false} TwoEntries(l: Limiter, ops: seq<Op>, tenant: Tenant, i: nat, j: nat, k: nat)
    requires l.perMinute == 1 && l.permits >= |ops| && i < j < k < |Minutes(ops, tenant)|
    requires var ms := Minutes(ops, tenant); ms[i] == ms[k] && ms[j] != ms[i]
    requires tenant in l.windows ==> l.windows[tenant].minute != Minutes(ops, tenant)[i]
    ensures var m := Minutes(ops, tenant)[i]; Hits(l, ops, tenant, 60 * m, 60 * m + 60) >= 2
    decreases |ops|
  {
    var m := Minutes(ops, tenant)[i];
    var own := ops[0].Try? && ops[0].tenant == tenant;
    var l', rest := NextLimiter(l, ops[0]), Minutes(ops[1..], tenant);
    assert Minutes(ops, tenant) == (if own then [ops[0].now / 60] else []) + rest;
    if !own {
      TwoEntries(l', ops[1..], tenant, i, j, k);
    } else if ops[0].now / 60 == m {
      ReturnIsHit(l', ops[1..], tenant, m, j - 1, k - 1);
    } else {
      TwoEntries(l', ops[1..], tenant, i - 1, j - 1, k - 1);
    }
  }

  /** The limiter, new, with this limit and this many slots, keeps every minute to the limit. */
  ghost predicate KeepsLimit(perMinute: int, maxConcurrency: int, ops: seq<Op>, tenant: Tenant)
  {
    forall m: int :: MinuteHits(NewLimiter(perMinute, maxConcurrency), ops, tenant, m) <= Max(0, perMinute)
  }

  function MinuteHits(l: Limiter, ops: seq<Op>, tenant: Tenant, m: int): nat
  {
    Hits(l, ops, tenant, 60 * m, 60 * m + 60)
  }

  /** Every minute holds at most per_minute accepted calls, for every limit and every number of
      slots, exactly if the tenant's calls never return to a minute they left. */
  lemma LimitKeptExactly(ops: seq<Op>, tenant: Tenant)
    ensures NoReturn(Minutes(ops, tenant)) <==>
      forall perMinute: int, maxConcurrency: int :: KeepsLimit(perMinute, maxConcurrency, ops, tenant)
  {
    var ms := Minutes(ops, tenant);
    if NoReturn(ms) {
      forall perMinute: int, maxConcurrency: int, m: int
        ensures MinuteHits(NewLimiter(perMinute, maxConcurrency), ops, tenant, m) <= Max(0, perMinute)
      {
        var l := NewLimiter(perMinute, maxConcurrency);
        assert Current(l, tenant) + ms == ms;
        MinuteBound(l, ops, tenant, m);
      }
    } else {
      var i, j, k :| 0 <= i < j < k < |ms| && ms[i] == ms[k] && ms[j] != ms[i];
      TwoEntries(NewLimiter(1, |ops|), ops, tenant, i, j, k);
      assert MinuteHits(NewLimiter(1, |ops|), ops, tenant, ms[i]) >= 2;
      assert !KeepsLimit(1, |ops|, ops, tenant);
    }
  }

  /** With a clock that steps back into an earlier minute the window starts over, and one
      minute holds two calls at a limit of one, even with a single slot. */
  lemma ClockStepsBack(tenant: Tenant)
    ensures var ops := [Try(tenant, 0), Free, Try(tenant, 60), Free, Try(tenant, 0)];
      !NoReturn(Minutes(ops, tenant)) && Hits(NewLimiter(1, 1), ops, tenant, 0, 1) == 2
  {
    var ops := [Try(tenant, 0), Free, Try(tenant, 60), Free, Try(tenant, 0)];
    assert ops[1..] == [Free, Try(tenant, 60), Free, Try(tenant, 0)];
    assert ops[1..][1..] == [Try(tenant, 60), Free, Try(tenant, 0)];
    assert ops[1..][1..][1..] == [Free, Try(tenant, 0)];
    assert ops[1..][1..][1..][1..] == [Try(tenant, 0)];
    var l1 := NextLimiter(NextLimiter(NewLimiter(1, 1), ops[0]), ops[1]);
    assert l1.windows[tenant] == Window(0, 1) && l1.permits == 1;
    var l2 := NextLimiter(NextLimiter(l1, ops[2]), ops[3]);
    assert l2.windows[tenant] == Window(1, 1) && l2.permits == 1;
    assert Hits(l2, [Try(tenant, 0)], tenant, 0, 1) == 1;
    assert Hits(l1, ops[2..], tenant, 0, 1) == 1 by { assert ops[2..] == ops[1..][1..]; }
    assert Minutes([Try(tenant, 0)], tenant) == [0] + Minutes([], tenant);
    assert Minutes(ops[1..][1..], tenant) == [1] + Minutes(ops[1..][1..][1..], tenant);
    assert Minutes(ops, tenant) == [0, 1, 0];
    assert Minutes(ops, tenant)[0] == Minutes(ops, tenant)[2] != Minutes(ops, tenant)[1];
  }

  // ---------- who is let through ----------

  /** The limiter after these operations. */
  function AfterOps(l: Limiter, ops: seq<Op>): Limiter
    decreases |ops|
  {
    if ops == [] then l else AfterOps(NextLimiter(l, ops[0]), ops[1..])
  }

  /** Calls of the tenant in minute `m` that its window let through, with or without a free slot. */
  function LetThrough(l: Limiter, ops: seq<Op>, tenant: Tenant, m: int): nat
    decreases |ops|
  {
    if ops == [] then 0
    else
      var op := ops[0];
      (if op.Try? && op.tenant == tenant && op.now / 60 == m && Admit(l, tenant, op.now).1 then 1 else 0)
      + LetThrough(NextLimiter(l, op), ops[1..], tenant, m)
  }

  /** What the window has counted for minute `m`. */
  function CountedFor(l: Limiter, tenant: Tenant, m: int): int
  {
    if tenant in l.windows && l.windows[tenant].minute == m then l.windows[tenant].count else 0
  }

  lemma OwnCallCounts(l: Limiter, tenant: Tenant, now: int, m: int)
    requires now / 60 == m || Current(l, tenant) != [m]
    ensures CountedFor(Acquire(l, tenant, now).0, tenant, m)
         == CountedFor(l, tenant, m) + if now / 60 == m && Admit(l, tenant, now).1 then 1 else 0
    ensures Acquire(l, tenant, now).0.perMinute == l.perMinute
    ensures Current(Acquire(l, tenant, now).0, tenant) == Current(l, tenant) ||
            Current(Acquire(l, tenant, now).0, tenant) == [now / 60]
  {
  }

  lemma NoReturnPasses(a: seq<int>, x: int, rest: seq<int>, m: int)
    requires |a| <= 1 && NoReturn(a + ([x] + rest) + [m])
    ensures NoReturn(a + rest + [m]) && NoReturn([x] + rest + [m]) && (x == m || a != [m])
  {
    var all := a + ([x] + rest) + [m];
    assert all == a + ([x] + (rest + [m]));
    NoReturnStep(a, x, rest + [m]);
    assert a + (rest + [m]) == a + rest + [m] && [x] + (rest + [m]) == [x] + rest + [m];
    if a == [m] {
      assert all[0] == m && all[1] == x && all[|all| - 1] == m;
    }
  }

  lemma {:induction false} WindowCounts(l: Limiter, ops: seq<Op>, tenant: Tenant, m: int)
    requires NoReturn(Current(l, tenant) + Minutes(ops, tenant) + [m])
    ensures CountedFor(AfterOps(l, ops), tenant, m) == CountedFor(l, tenant, m) + LetThrough(l, ops, tenant, m)
    ensures AfterOps(l, ops).perMinute == l.perMinute
    decreases |ops|
  {
    if ops != [] {
      var op, l', rest := ops[0], NextLimiter(l, ops[0]), Minutes(ops[1..], tenant);
      if op.Try? && op.tenant == tenant {
        assert Minutes(ops, tenant) == [op.now / 60] + rest;
        NoReturnPasses(Current(l, tenant), op.now / 60, rest, m);
        OwnCallCounts(l, tenant, op.now, m);
      } else {
        OtherEffect(l, op, tenant, m);
        assert Minutes(ops, tenant) == rest;
      }
      WindowCounts(l', ops[1..], tenant, m);
    }
  }

  /** A new limiter lets a call of the tenant through exactly if fewer than per_minute calls of that
      tenant were let through in this clock minute, whatever the other tenants did; and the call then
      succeeds exactly if a slot is free. */
  lemma LetThroughExactly(perMinute: int, maxConcurrency: int, ops: seq<Op>, tenant: Tenant, now: int)
    requires NoReturn(Minutes(ops, tenant) + [now / 60])
    ensures var start := NewLimiter(perMinute, maxConcurrency);
      var l := AfterOps(start, ops);
      && (Admit(l, tenant, now).1 <==> LetThrough(start, ops, tenant, now / 60) < perMinute)
      && (Acquire(l, tenant, now).1 <==> LetThrough(start, ops, tenant, now / 60) < perMinute && l.permits > 0)
  {
    var start := NewLimiter(perMinute, maxConcurrency);
    assert [] + Minutes(ops, tenant) + [now / 60] == Minutes(ops, tenant) + [now / 60];
    WindowCounts(start, ops, tenant, now / 60);
  }
}
