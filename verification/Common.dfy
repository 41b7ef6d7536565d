/** Small definitions shared by the models: an option type, counting, filtering
    and the stable sort that stands for the built-in one. */
module Common {

  datatype Option<+T> = None | Some(value: T)

  function Min(a: int, b: int): int { if a <= b then a else b }

  function Max(a: int, b: int): int { if a <= b then b else a }

  function Lower(a: real, b: real): real { if a <= b then a else b }

  function Upper(a: real, b: real): real { if a <= b then b else a }

  function Last<T>(s: seq<T>, n: nat): seq<T>
  {
    if |s| <= n then s else s[|s| - n..]
  }

  function Take<T>(s: seq<T>, n: nat): seq<T>
  {
    if |s| <= n then s else s[..n]
  }

  /** `s[:k]` */
  function Prefix<T>(s: seq<T>, k: int): seq<T>
  {
    if k >= 0 then Take(s, k) else s[..Max(0, |s| + k)]
  }

  lemma PrefixExactly<T>(s: seq<T>, k: int)
    ensures Prefix(s, k) <= s && |Prefix(s, k)| == if k >= 0 then Min(k, |s|) else Max(0, |s| + k)
  {
  }

  lemma ConcatAssociates<T>(a: seq<T>, b: seq<T>, c: seq<T>)
    ensures (a + b) + c == a + (b + c)
  {
  }

  lemma LastOfConcat<T>(a: seq<T>, b: seq<T>, n: nat)
    ensures Last(a + b, n) == if n <= |b| then Last(b, n) else Last(a, n - |b|) + b
  {
    if n <= |b| {
      assert |a| + |b| > n ==> (a + b)[|a + b| - n..] == b[|b| - n..];
      assert |a| + |b| == n ==> a == [] && a + b == b;
    } else if |a| + |b| > n {
      assert (a + b)[|a + b| - n..] == a[|a| + |b| - n..] + b;
    }
  }

  // ---------- counting and filtering ----------

  function Filter<T>(s: seq<T>, p: T -> bool): (r: seq<T>)
    ensures |r| <= |s|
  {
    if s == [] then []
    else if p(s[0]) then [s[0]] + Filter(s[1..], p)
    else Filter(s[1..], p)
  }

  lemma {:induction false} InFilter<T>(s: seq<T>, p: T -> bool, x: T)
    ensures x in Filter(s, p) <==> x in s && p(x)
  {
    if s != [] {
      InFilter(s[1..], p, x);
    }
  }

  lemma {:induction false} FilterConcat<T>(a: seq<T>, b: seq<T>, p: T -> bool)
    ensures Filter(a + b, p) == Filter(a, p) + Filter(b, p)
  {
    if a == [] {
      assert a + b == b;
    } else {
      assert (a + b)[0] == a[0] && (a + b)[1..] == a[1..] + b;
      FilterConcat(a[1..], b, p);
    }
  }

  lemma {:induction false} FilterAll<T>(s: seq<T>, p: T -> bool)
    requires forall i :: 0 <= i < |s| ==> p(s[i])
    ensures Filter(s, p) == s
  {
    if s != [] {
      FilterAll(s[1..], p);
    }
  }

  lemma {:induction false} FilterNone<T>(s: seq<T>, p: T -> bool)
    requires forall i :: 0 <= i < |s| ==> !p(s[i])
    ensures Filter(s, p) == []
  {
    if s != [] {
      FilterNone(s[1..], p);
    }
  }

  function Count<T>(s: seq<T>, p: T -> bool): nat
  {
    if s == [] then 0 else (if p(s[0]) then 1 else 0) + Count(s[1..], p)
  }

  lemma {:induction false} CountConcat<T>(a: seq<T>, b: seq<T>, p: T -> bool)
    ensures Count(a + b, p) == Count(a, p) + Count(b, p)
  {
    if a == [] {
      assert a + b == b;
    } else {
      assert (a + b)[0] == a[0] && (a + b)[1..] == a[1..] + b;
      CountConcat(a[1..], b, p);
    }
  }

  lemma {:induction false} CountUpdate<T>(s: seq<T>, i: nat, x: T, p: T -> bool)
    requires i < |s|
    ensures Count(s[i := x], p) == Count(s, p) - (if p(s[i]) then 1 else 0) + (if p(x) then 1 else 0)
  {
    if i == 0 {
      assert s[i := x][1..] == s[1..];
    } else {
      assert s[i := x][0] == s[0] && s[i := x][1..] == s[1..][i - 1 := x];
      CountUpdate(s[1..], i - 1, x, p);
    }
  }

  /** The places at which the predicate holds. */
  function Places<T>(s: seq<T>, p: T -> bool): set<nat>
  {
    set i: nat | i < |s| && p(s[i])
  }

  lemma PlacesLast<T>(s: seq<T>, p: T -> bool)
    requires s != []
    ensures var n := |s| - 1; Places(s, p) == Places(s[..n], p) + if p(s[n]) then {n} else {}
  {
    var n := |s| - 1;
    var last: set<nat> := if p(s[n]) then {n} else {};
    forall i: nat ensures i in Places(s, p) <==> i in Places(s[..n], p) + last {
      assert i < n ==> s[i] == s[..n][i];
    }
  }

  lemma {:induction false} CountIsPlaces<T>(s: seq<T>, p: T -> bool)
    ensures Count(s, p) == |Places(s, p)|
  {
    if s == [] {
      assert Places(s, p) == {};
    } else {
      var n := |s| - 1;
      assert s == s[..n] + [s[n]] && [s[n]][1..] == [];
      CountConcat(s[..n], [s[n]], p);
      CountIsPlaces(s[..n], p);
      PlacesLast(s, p);
    }
  }

  // ---------- the built-in stable sort ----------

  ghost predicate Sorted<T>(s: seq<T>, key: T -> real)
  {
    forall i, j :: 0 <= i < j < |s| ==> key(s[i]) <= key(s[j])
  }

  function Insert<T>(x: T, s: seq<T>, key: T -> real): seq<T>
  {
    if s == [] || key(x) <= key(s[0]) then [x] + s else [s[0]] + Insert(x, s[1..], key)
  }

  /** Elements in increasing key order; elements with equal keys keep their order. */
  function StableSort<T>(s: seq<T>, key: T -> real): seq<T>
  {
    if s == [] then [] else Insert(s[0], StableSort(s[1..], key), key)
  }

  lemma {:induction false} InsertPermutes<T>(x: T, s: seq<T>, key: T -> real)
    ensures multiset(Insert(x, s, key)) == multiset{x} + multiset(s)
    ensures |Insert(x, s, key)| == |s| + 1
  {
    if s == [] || key(x) <= key(s[0]) {
    } else {
      InsertPermutes(x, s[1..], key);
      assert s == [s[0]] + s[1..];
    }
  }

  lemma {:induction false} InsertSorts<T>(x: T, s: seq<T>, key: T -> real, low: real)
    requires Sorted(s, key) && low <= key(x) && forall i :: 0 <= i < |s| ==> low <= key(s[i])
    ensures Sorted(Insert(x, s, key), key)
    ensures forall i :: 0 <= i < |Insert(x, s, key)| ==> low <= key(Insert(x, s, key)[i])
  {
    if s != [] && key(s[0]) < key(x) {
      InsertSorts(x, s[1..], key, key(s[0]));
    }
  }

  lemma {:induction false} SortOrders<T>(s: seq<T>, key: T -> real)
    ensures Sorted(StableSort(s, key), key)
  {
    if s != [] {
      var t := StableSort(s[1..], key);
      SortOrders(s[1..], key);
      InsertSorts(s[0], t, key, if t == [] then key(s[0]) else Lower(key(s[0]), key(t[0])));
    }
  }

  lemma {:induction false} SortPermutes<T>(s: seq<T>, key: T -> real)
    ensures multiset(StableSort(s, key)) == multiset(s)
  {
    if s != [] {
      SortPermutes(s[1..], key);
      InsertPermutes(s[0], StableSort(s[1..], key), key);
      assert s == [s[0]] + s[1..];
    }
  }

  /** The sort is a sorted permutation of its input. */
  lemma StableSortSorts<T>(s: seq<T>, key: T -> real)
    ensures Sorted(StableSort(s, key), key)
    ensures multiset(StableSort(s, key)) == multiset(s)
  {
    SortOrders(s, key);
    SortPermutes(s, key);
  }

  /** The first of the sorted elements is an element with the least key. */
  lemma StableSortHead<T>(s: seq<T>, key: T -> real, k: nat)
    requires k < |s|
    ensures |StableSort(s, key)| == |s|
    ensures StableSort(s, key)[0] in s && key(StableSort(s, key)[0]) <= key(s[k])
  {
    var t := StableSort(s, key);
    StableSortSorts(s, key);
    assert |t| == |multiset(t)| == |multiset(s)| == |s|;
    assert t[0] in multiset(s);
    assert s[k] in multiset(t);
    var j :| 0 <= j < |t| && t[j] == s[k];
    assert j == 0 || key(t[0]) <= key(t[j]);
  }

  lemma {:induction false} InsertStable<T(!new)>(x: T, s: seq<T>, key: T -> real, k: real, p: T -> bool)
    requires Sorted(s, key) && forall y :: p(y) <==> key(y) == k
    ensures Filter(Insert(x, s, key), p) == Filter([x] + s, p)
  {
    if s == [] || key(x) <= key(s[0]) {
    } else {
      InsertStable(x, s[1..], key, k, p);
      assert ([s[0]] + Insert(x, s[1..], key))[1..] == Insert(x, s[1..], key);
      FilterConcat([x], s[1..], p);
      FilterConcat([x], s, p);
    }
  }

  /** The sort keeps the order of elements whose keys are equal; `p` picks those with key `k`. */
  lemma {:induction false} StableSortStable<T(!new)>(s: seq<T>, key: T -> real, k: real, p: T -> bool)
    requires forall y :: p(y) <==> key(y) == k
    ensures Filter(StableSort(s, key), p) == Filter(s, p)
  {
    if s != [] {
      StableSortSorts(s[1..], key);
      StableSortStable(s[1..], key, k, p);
      InsertStable(s[0], StableSort(s[1..], key), key, k, p);
      FilterConcat([s[0]], StableSort(s[1..], key), p);
      FilterConcat([s[0]], s[1..], p);
      assert [s[0]] + s[1..] == s;
    }
  }

  /** A list already in order is left as it is. */
  lemma {:induction false} StableSortOfSorted<T>(s: seq<T>, key: T -> real)
    requires Sorted(s, key)
    ensures StableSort(s, key) == s
  {
    if s != [] {
      StableSortOfSorted(s[1..], key);
      assert [s[0]] + s[1..] == s;
    }
  }
}
