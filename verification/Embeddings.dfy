/** The deterministic embedding: hash tokens into signed buckets and normalise
    (embeddings.py). Tokenising, hashing and the square root are given functions;
    arithmetic is over the reals. */
module Embeddings {

  type Vector = seq<real>

  datatype Embedder = Embedder(
    dim: nat, tokenize: string -> seq<string>, hash: string -> nat, positive: string -> bool, sqrt: real -> real)
  {
    function Tokens(text: string): seq<string> { tokenize(text) }
    function Bucket(token: string): (b: nat)
      requires dim >= 1
      ensures b < dim
    {
      hash(token) % dim
    }
    function Sign(token: string): real { if positive(token) then 1.0 else -1.0 }
    function Root(x: real): real { sqrt(x) }

    ghost predicate Valid()
    {
      dim >= 1 && forall x :: x >= 0.0 ==> Root(x) >= 0.0 && Root(x) * Root(x) == x
    }
  }

  /** `sum(x * y for x, y in zip(a, b))` */
  function Dot(a: Vector, b: Vector): real
  {
    if a == [] || b == [] then 0.0 else a[0] * b[0] + Dot(a[1..], b[1..])
  }

  /** What a token adds to a bucket. */
  function Share(m: Embedder, token: string, bucket: nat): real
    requires m.dim >= 1
  {
    if m.Bucket(token) == bucket then m.Sign(token) else 0.0
  }

  function Load(m: Embedder, tokens: seq<string>, bucket: nat): real
    requires m.dim >= 1
  {
    if tokens == [] then 0.0 else Load(m, tokens[..|tokens| - 1], bucket) + Share(m, tokens[|tokens| - 1], bucket)
  }

  function Loads(m: Embedder, tokens: seq<string>): (v: Vector)
    requires m.dim >= 1
    ensures |v| == m.dim
    ensures forall b :: 0 <= b < m.dim ==> v[b] == Load(m, tokens, b)
  {
    seq(m.dim, b requires 0 <= b < m.dim => Load(m, tokens, b))
  }

  function Normalise(m: Embedder, v: Vector): (r: Vector)
    ensures |r| == |v|
  {
    var norm := m.Root(Dot(v, v));
    if norm == 0.0 then v else seq(|v|, i requires 0 <= i < |v| => v[i] / norm)
  }

  function Embed(m: Embedder, text: string): (v: Vector)
    requires m.dim >= 1
    ensures |v| == m.dim
  {
    Normalise(m, Loads(m, m.Tokens(text)))
  }

  // ---------- the code ----------

  method EmbedOne(m: Embedder, text: string) returns (v: Vector)
    requires m.Valid()
    ensures v == Embed(m, text)
  {
    var vec := new real[m.dim](_ => 0.0);
    var tokens := m.Tokens(text);
    for i := 0 to |tokens|
      invariant forall b :: 0 <= b < m.dim ==> vec[b] == Load(m, tokens[..i], b)
    {
      assert tokens[..i + 1][..i] == tokens[..i];
      var bucket := m.Bucket(tokens[i]);
      vec[bucket] := vec[bucket] + m.Sign(tokens[i]);
    }
    assert tokens[..|tokens|] == tokens;
    var total := vec[..];
    assert total == Loads(m, tokens);
    v := Normalise(m, total);
  }

  // ---------- only the multiset of tokens matters ----------

  lemma {:induction false} LoadWithout(m: Embedder, tokens: seq<string>, i: nat, bucket: nat)
    requires m.dim >= 1 && i < |tokens|
    ensures Load(m, tokens, bucket) == Load(m, tokens[..i] + tokens[i + 1..], bucket) + Share(m, tokens[i], bucket)
  {
    var rest := tokens[..i] + tokens[i + 1..];
    var n := |tokens| - 1;
    if i == n {
      assert rest == tokens[..n];
    } else {
      assert rest[..n - 1] == tokens[..n][..i] + tokens[..n][i + 1..] && rest[n - 1] == tokens[n];
      LoadWithout(m, tokens[..n], i, bucket);
    }
  }

  lemma MultisetWithout(s: seq<string>, i: nat)
    requires i < |s|
    ensures multiset(s[..i] + s[i + 1..]) == multiset(s) - multiset{s[i]}
  {
    assert s == s[..i] + [s[i]] + s[i + 1..];
  }

  lemma {:induction false} LoadPermutes(m: Embedder, a: seq<string>, b: seq<string>, bucket: nat)
    requires m.dim >= 1 && multiset(a) == multiset(b)
    ensures Load(m, a, bucket) == Load(m, b, bucket)
    decreases |a|
  {
    assert |a| == |multiset(a)| == |multiset(b)| == |b|;
    if a != [] {
      var n := |a| - 1;
      assert a[n] in multiset(b);
      var i :| 0 <= i < |b| && b[i] == a[n];
      var rest := b[..i] + b[i + 1..];
      MultisetWithout(a, n);
      MultisetWithout(b, i);
      assert a[..n] + a[n + 1..] == a[..n];
      LoadPermutes(m, a[..n], rest, bucket);
      LoadWithout(m, b, i, bucket);
    }
  }

  /** Texts with the same tokens, in whatever order, have the same embedding. */
  lemma EmbeddingOfMultiset(m: Embedder, s: string, t: string)
    requires m.dim >= 1 && multiset(m.Tokens(s)) == multiset(m.Tokens(t))
    ensures Embed(m, s) == Embed(m, t)
  {
    forall b | 0 <= b < m.dim ensures Load(m, m.Tokens(s), b) == Load(m, m.Tokens(t), b) {
      LoadPermutes(m, m.Tokens(s), m.Tokens(t), b);
    }
    assert Loads(m, m.Tokens(s)) == Loads(m, m.Tokens(t));
  }

  // ---------- norms and scores ----------

  lemma {:induction false} DotSelf(v: Vector)
    ensures Dot(v, v) >= 0.0
    ensures Dot(v, v) == 0.0 ==> forall i :: 0 <= i < |v| ==> v[i] == 0.0
  {
    if v != [] {
      DotSelf(v[1..]);
      var square, rest := v[0] * v[0], Dot(v[1..], v[1..]);
      Square(v[0], square);
      assert Dot(v, v) == square + rest;
      forall i | Dot(v, v) == 0.0 && 0 <= i < |v| ensures v[i] == 0.0 {
        assert i > 0 ==> v[i] == v[1..][i - 1];
      }
    }
  }

  lemma Square(x: real, square: real)
    requires square == x * x
    ensures square >= 0.0
    ensures x != 0.0 ==> square > 0.0
  {
    if x > 0.0 {
      PositiveProduct(x, x, square);
    } else if x < 0.0 {
      PositiveProduct(-x, -x, square);
    }
  }

  lemma PositiveProduct(x: real, y: real, product: real)
    requires x > 0.0 && y > 0.0 && product == x * y
    ensures product > 0.0
  {
  }

  lemma {:induction false} DotZero(z: Vector, v: Vector)
    requires forall i :: 0 <= i < |z| ==> z[i] == 0.0
    ensures Dot(z, v) == 0.0
  {
    if z != [] && v != [] {
      DotZero(z[1..], v[1..]);
    }
  }

  lemma {:induction false} DotScaled(v: Vector, w: Vector, k: real)
    requires |v| == |w| && forall i :: 0 <= i < |v| ==> w[i] == v[i] * k
    ensures Dot(w, w) == Dot(v, v) * (k * k)
  {
    if v != [] {
      DotScaled(v[1..], w[1..], k);
      assert w[0] * w[0] == (v[0] * v[0]) * (k * k) by { SquareOfProduct(v[0], k); }
      Distribute(v[0] * v[0], Dot(v[1..], v[1..]), k * k);
    }
  }

  lemma SquareOfProduct(x: real, k: real)
    ensures (x * k) * (x * k) == (x * x) * (k * k)
  {
  }

  lemma Distribute(a: real, b: real, c: real)
    ensures (a + b) * c == a * c + b * c
  {
  }

  /** A vector of norm one, or the zero vector. */
  ghost predicate UnitOrZero(v: Vector)
  {
    Dot(v, v) == 1.0 || forall i :: 0 <= i < |v| ==> v[i] == 0.0
  }

  lemma NormaliseIsUnitOrZero(m: Embedder, v: Vector)
    requires m.Valid()
    ensures UnitOrZero(Normalise(m, v))
  {
    DotSelf(v);
    var norm := m.Root(Dot(v, v));
    if norm == 0.0 {
      assert norm * norm == 0.0;
    } else {
      var k := 1.0 / norm;
      var w := Normalise(m, v);
      forall i | 0 <= i < |v| ensures w[i] == v[i] * k {
        Quotient(v[i], norm);
      }
      DotScaled(v, w, k);
      assert Dot(v, v) == norm * norm;
      assert (norm * norm) * (k * k) == 1.0 by {
        assert norm * k == 1.0;
        SquareOfProduct(norm, k);
      }
    }
  }

  lemma Quotient(x: real, d: real)
    requires d != 0.0
    ensures x / d == x * (1.0 / d)
  {
  }

  lemma {:induction false} TwiceDot(a: Vector, b: Vector)
    requires |a| == |b|
    ensures 2.0 * Dot(a, b) <= Dot(a, a) + Dot(b, b)
    ensures -2.0 * Dot(a, b) <= Dot(a, a) + Dot(b, b)
  {
    if a != [] {
      TwiceDot(a[1..], b[1..]);
      Mean(a[0], b[0]);
    }
  }

  lemma Mean(x: real, y: real)
    ensures 2.0 * (x * y) <= x * x + y * y
    ensures -2.0 * (x * y) <= x * x + y * y
  {
    Square(x - y, (x - y) * (x - y));
    Square(x + y, (x + y) * (x + y));
    assert (x - y) * (x - y) == x * x - 2.0 * (x * y) + y * y;
    assert (x + y) * (x + y) == x * x + 2.0 * (x * y) + y * y;
  }

  /** Between embeddings a score lies in [-1, 1], and none beats the score with itself. */
  lemma OwnScoreIsBest(a: Vector, b: Vector)
    requires |a| == |b| && UnitOrZero(a) && UnitOrZero(b)
    ensures -1.0 <= Dot(a, b) <= 1.0 && Dot(a, b) <= Dot(a, a)
  {
    DotSelf(a);
    DotSelf(b);
    TwiceDot(a, b);
    if Dot(a, a) != 1.0 {
      DotZero(a, a);
      DotZero(a, b);
    }
    if Dot(b, b) != 1.0 {
      DotZero(b, b);
    }
  }

  // ---------- where tokens land ----------

  /** The scalar product, position by position. */
  lemma {:induction false} DotAppends(a: Vector, b: Vector, x: real, y: real)
    requires |a| == |b|
    ensures Dot(a + [x], b + [y]) == Dot(a, b) + x * y
  {
    if a == [] {
      assert ([x] + [])[1..] == [] && a + [x] == [x] && b + [y] == [y];
      assert Dot([x], [y]) == x * y + Dot([x][1..], [y][1..]);
    } else {
      assert (a + [x])[1..] == a[1..] + [x] && (b + [y])[1..] == b[1..] + [y];
      DotAppends(a[1..], b[1..], x, y);
    }
  }

  /** Tokens add up. */
  lemma {:induction false} LoadConcat(m: Embedder, a: seq<string>, b: seq<string>, bucket: nat)
    requires m.dim >= 1
    ensures Load(m, a + b, bucket) == Load(m, a, bucket) + Load(m, b, bucket)
  {
    if b == [] {
      assert a + b == a;
    } else {
      var n := |b| - 1;
      assert (a + b)[..|a + b| - 1] == a + b[..n] && (a + b)[|a + b| - 1] == b[n];
      LoadConcat(m, a, b[..n], bucket);
    }
  }

  /** A token counts one, with its sign, in the bucket of its hash, and nothing elsewhere. */
  lemma LoadOfToken(m: Embedder, token: string, bucket: nat)
    requires m.dim >= 1
    ensures Load(m, [token], bucket) ==
      if bucket == m.hash(token) % m.dim then (if m.positive(token) then 1.0 else -1.0) else 0.0
  {
    assert [token][..0] == [];
  }

  /** `v` is `k` times `w`. */
  ghost predicate Multiple(v: Vector, w: Vector, k: real)
  {
    |v| == |w| && forall i :: 0 <= i < |v| ==> v[i] == k * w[i]
  }

  /** Normalising keeps the direction: it divides by the length, and leaves the zero vector. */
  lemma NormaliseKeepsDirection(m: Embedder, v: Vector) returns (k: real)
    requires m.Valid()
    ensures k > 0.0 && Multiple(v, Normalise(m, v), k)
    ensures Dot(v, v) != 0.0 ==> k * k == Dot(v, v)
  {
    DotSelf(v);
    var norm := m.Root(Dot(v, v));
    assert norm * norm == Dot(v, v) && norm >= 0.0;
    k := if norm == 0.0 then 1.0 else norm;
    forall i | 0 <= i < |v| ensures v[i] == k * Normalise(m, v)[i] {
      if norm != 0.0 {
        assert norm * (v[i] / norm) == v[i];
      }
    }
  }

  /** The embedding of a text points where its signed token counts do. */
  lemma EmbeddingDirection(m: Embedder, text: string) returns (k: real)
    requires m.Valid()
    ensures k > 0.0 && Multiple(Loads(m, m.Tokens(text)), Embed(m, text), k)
  {
    k := NormaliseKeepsDirection(m, Loads(m, m.Tokens(text)));
  }

  lemma {:induction false} DotOfOne(v: Vector, i: nat, x: real)
    requires i < |v| && v[i] == x && forall j :: 0 <= j < |v| && j != i ==> v[j] == 0.0
    ensures Dot(v, v) == x * x
  {
    var rest := v[1..];
    if i == 0 {
      DotZero(rest, rest);
    } else {
      assert forall j :: 0 <= j < |rest| ==> rest[j] == v[j + 1];
      DotOfOne(rest, i - 1, x);
    }
  }

  lemma RootOfOne(m: Embedder)
    requires m.Valid()
    ensures m.Root(1.0) == 1.0
  {
    var r := m.Root(1.0);
    assert (r - 1.0) * (r + 1.0) == r * r - 1.0;
    ZeroProduct(r - 1.0, r + 1.0, (r - 1.0) * (r + 1.0));
  }

  lemma ZeroProduct(x: real, y: real, product: real)
    requires y > 0.0 && product == x * y == 0.0
    ensures x == 0.0
  {
    if x > 0.0 {
      PositiveProduct(x, y, product);
    } else if x < 0.0 {
      PositiveProduct(-x, y, -product);
    }
  }

  /** The embedding of a text with one token: its sign in its bucket, and zero elsewhere. */
  lemma OneTokenEmbedding(m: Embedder, text: string, token: string)
    requires m.Valid() && m.Tokens(text) == [token]
    ensures forall b :: 0 <= b < m.dim ==>
      Embed(m, text)[b] ==
        if b == m.hash(token) % m.dim then (if m.positive(token) then 1.0 else -1.0) else 0.0
  {
    var v, home := Loads(m, [token]), m.hash(token) % m.dim;
    var x := if m.positive(token) then 1.0 else -1.0;
    forall b | 0 <= b < m.dim ensures v[b] == if b == home then x else 0.0 {
      LoadOfToken(m, token, b);
    }
    DotOfOne(v, home, x);
    assert x * x == 1.0;
    RootOfOne(m);
  }
}
