/** Python strings: white space (`split()`, `strip()` and `" ".join`) and slugs. */
module Text {
  import Common

  /** The characters `str.split()` and `str.strip()` treat as white space. */
  predicate IsBlank(c: char)
  {
    var n := c as int;
    9 <= n <= 13 || 28 <= n <= 32 || n == 0x85 || n == 0xA0 || n == 0x1680 || 0x2000 <= n <= 0x200A ||
    n == 0x2028 || n == 0x2029 || n == 0x202F || n == 0x205F || n == 0x3000
  }

  predicate IsWord(w: string) { w != [] && forall c <- w :: !IsBlank(c) }

  predicate AreWords(ws: seq<string>) { forall i :: 0 <= i < |ws| ==> IsWord(ws[i]) }

  function WordLength(s: string): (n: nat)
    ensures n <= |s|
    ensures forall i :: 0 <= i < n ==> !IsBlank(s[i])
    ensures n < |s| ==> IsBlank(s[n])
  {
    if s == [] || IsBlank(s[0]) then 0 else 1 + WordLength(s[1..])
  }

  /** `s.split()` */
  function Words(s: string): (ws: seq<string>)
    ensures AreWords(ws)
    decreases |s|
  {
    if s == [] then []
    else if IsBlank(s[0]) then Words(s[1..])
    else [s[..WordLength(s)]] + Words(s[WordLength(s)..])
  }

  /** `" ".join(ws)` */
  function Join(ws: seq<string>): string
  {
    if ws == [] then "" else if |ws| == 1 then ws[0] else ws[0] + " " + Join(ws[1..])
  }

  function LStrip(s: string): string
  {
    if s != [] && IsBlank(s[0]) then LStrip(s[1..]) else s
  }

  function RStrip(s: string): string
  {
    if s != [] && IsBlank(s[|s| - 1]) then RStrip(s[..|s| - 1]) else s
  }

  /** `s.strip()` */
  function Strip(s: string): string { RStrip(LStrip(s)) }

  /** Characters of the words with one separator each. */
  function Weight(ws: seq<string>): nat
  {
    if ws == [] then 0 else |ws[0]| + 1 + Weight(ws[1..])
  }

  lemma {:induction false} WeightConcat(a: seq<string>, b: seq<string>)
    ensures Weight(a + b) == Weight(a) + Weight(b)
  {
    if a == [] {
      assert a + b == b;
    } else {
      assert (a + b)[1..] == a[1..] + b;
      WeightConcat(a[1..], b);
    }
  }

  lemma {:induction false} JoinLength(ws: seq<string>)
    ensures ws != [] ==> |Join(ws)| == Weight(ws) - 1
  {
    if |ws| > 1 {
      JoinLength(ws[1..]);
    }
  }

  /** The words of a text and the blanks between them fit in the text. */
  lemma {:induction false} WordsFit(s: string)
    ensures Weight(Words(s)) <= |s| + 1
    decreases |s|
  {
    if s != [] {
      if IsBlank(s[0]) {
        WordsFit(s[1..]);
      } else {
        var n := WordLength(s);
        assert Words(s)[1..] == Words(s[n..]);
        if n < |s| {
          assert s[n..][1..] == s[n + 1..];
          WordsFit(s[n + 1..]);
        }
      }
    }
  }

  lemma {:induction false} WordThenBlank(w: string, rest: string)
    requires IsWord(w) && (rest == [] || IsBlank(rest[0]))
    ensures WordLength(w + rest) == |w|
  {
    var s := w + rest;
    assert s[0] == w[0];
    if |w| == 1 {
      assert s[1..] == rest;
    } else {
      assert s[1..] == w[1..] + rest;
      WordThenBlank(w[1..], rest);
    }
  }

  /** Splitting a joined list gives the list back. */
  lemma {:induction false} WordsOfJoin(ws: seq<string>)
    requires AreWords(ws)
    ensures Words(Join(ws)) == ws
  {
    if ws != [] {
      var rest := if |ws| == 1 then "" else " " + Join(ws[1..]);
      assert Join(ws) == ws[0] + rest;
      WordThenBlank(ws[0], rest);
      assert (ws[0] + rest)[..|ws[0]|] == ws[0] && (ws[0] + rest)[|ws[0]|..] == rest;
      if |ws| > 1 {
        assert rest[1..] == Join(ws[1..]);
        WordsOfJoin(ws[1..]);
      }
      assert ws == [ws[0]] + ws[1..];
    }
  }

  // ---------- what splitting keeps ----------

  /** A blank separates: what stands before it and what stands after it are split on their own. */
  lemma {:induction false} WordsAtBlank(a: string, c: char, b: string)
    requires IsBlank(c)
    ensures Words(a + ([c] + b)) == Words(a) + Words(b)
    decreases |a|
  {
    var s := a + ([c] + b);
    if a == [] {
      assert s == [c] + b && s[1..] == b;
    } else if IsBlank(a[0]) {
      assert s[1..] == a[1..] + ([c] + b);
      WordsAtBlank(a[1..], c, b);
    } else {
      var n := WordLength(a);
      var w, rest := a[..n], a[n..] + ([c] + b);
      assert a == w + a[n..] && s == w + rest;
      WordThenBlank(w, rest);
      assert s[..n] == w && s[n..] == rest;
      WordsAtBlank(a[n..], c, b);
      assert Words(s) == [w] + Words(rest) && Words(a) == [w] + Words(a[n..]);
    }
  }

  /** A text without blanks is one word. */
  lemma WordsOfWord(w: string)
    requires IsWord(w)
    ensures Words(w) == [w]
  {
    WordThenBlank(w, "");
    assert w + "" == w && w[|w|..] == "" && w[..|w|] == w;
  }

  predicate IsLetter(c: char) { !IsBlank(c) }

  /** The characters that are not blank, in order. */
  function Letters(s: string): string { Common.Filter(s, IsLetter) }

  function Glue(ws: seq<string>): string
  {
    if ws == [] then "" else ws[0] + Glue(ws[1..])
  }

  lemma {:induction false} GlueConcat(a: seq<string>, b: seq<string>)
    ensures Glue(a + b) == Glue(a) + Glue(b)
  {
    if a == [] {
      assert a + b == b;
    } else {
      assert (a + b)[1..] == a[1..] + b;
      GlueConcat(a[1..], b);
    }
  }

  lemma LettersConcat(a: string, b: string)
    ensures Letters(a + b) == Letters(a) + Letters(b)
  {
    Common.FilterConcat(a, b, IsLetter);
  }

  lemma LettersOfWord(w: string)
    requires forall c <- w :: !IsBlank(c)
    ensures Letters(w) == w
  {
    forall i | 0 <= i < |w| ensures IsLetter(w[i]) {
      assert w[i] in w;
    }
    Common.FilterAll(w, IsLetter);
  }

  /** Splitting loses blanks and nothing else. */
  lemma {:induction false} LettersOfWords(s: string)
    ensures Glue(Words(s)) == Letters(s)
    decreases |s|
  {
    if s != [] {
      if IsBlank(s[0]) {
        LettersOfWords(s[1..]);
      } else {
        var n := WordLength(s);
        LettersOfWord(s[..n]);
        LettersConcat(s[..n], s[n..]);
        assert s[..n] + s[n..] == s;
        LettersOfWords(s[n..]);
      }
    }
  }

  /** Joining puts one space between. */
  lemma {:induction false} JoinAppends(ws: seq<string>, w: string)
    requires ws != []
    ensures Join(ws + [w]) == Join(ws) + " " + w
  {
    var all := ws + [w];
    if |ws| == 1 {
      assert all[1..] == [w];
    } else {
      assert all[1..] == ws[1..] + [w];
      JoinAppends(ws[1..], w);
    }
  }

  /** The white space of `str.split()` and `str.strip()`, one by one. */
  lemma BlanksListed(c: char)
    ensures IsBlank(c) <==> c as int in {
      0x09, 0x0A, 0x0B, 0x0C, 0x0D, 0x1C, 0x1D, 0x1E, 0x1F, 0x20, 0x85, 0xA0, 0x1680, 0x2000, 0x2001, 0x2002, 0x2003,
      0x2004, 0x2005, 0x2006, 0x2007, 0x2008, 0x2009, 0x200A, 0x2028, 0x2029, 0x202F, 0x205F, 0x3000}
  {
  }

  // ---------- what stripping takes away ----------

  predicate AllBlank(s: string) { forall i :: 0 <= i < |s| ==> IsBlank(s[i]) }

  predicate Bare(s: string) { s == "" || (!IsBlank(s[0]) && !IsBlank(s[|s| - 1])) }

  lemma {:induction false} LStripOf(a: string, r: string)
    requires AllBlank(a) && (r == "" || !IsBlank(r[0]))
    ensures LStrip(a + r) == r
  {
    if a == "" {
      assert a + r == r;
    } else {
      assert (a + r)[0] == a[0] && (a + r)[1..] == a[1..] + r;
      LStripOf(a[1..], r);
    }
  }

  lemma {:induction false} RStripOf(r: string, b: string)
    requires AllBlank(b) && (r == "" || !IsBlank(r[|r| - 1]))
    ensures RStrip(r + b) == r
    decreases |b|
  {
    var n := |b| - 1;
    if b == "" {
      assert r + b == r;
    } else {
      assert (r + b)[|r + b| - 1] == b[n] && (r + b)[..|r + b| - 1] == r + b[..n];
      RStripOf(r, b[..n]);
    }
  }

  lemma {:induction false} LStripTakes(s: string) returns (a: string)
    ensures AllBlank(a) && s == a + LStrip(s) && (LStrip(s) == "" || !IsBlank(LStrip(s)[0]))
  {
    if s != "" && IsBlank(s[0]) {
      var rest := LStripTakes(s[1..]);
      a := [s[0]] + rest;
      assert s == [s[0]] + s[1..];
    } else {
      a := "";
    }
  }

  lemma {:induction false} RStripTakes(s: string) returns (b: string)
    ensures AllBlank(b) && s == RStrip(s) + b && (RStrip(s) == "" || !IsBlank(RStrip(s)[|RStrip(s)| - 1]))
    decreases |s|
  {
    if s != "" && IsBlank(s[|s| - 1]) {
      var rest := RStripTakes(s[..|s| - 1]);
      b := rest + [s[|s| - 1]];
      assert s == s[..|s| - 1] + [s[|s| - 1]];
    } else {
      b := "";
    }
  }

  /** Stripping takes blanks from both ends and leaves none there. */
  lemma StripTakes(s: string) returns (a: string, b: string)
    ensures AllBlank(a) && AllBlank(b) && s == a + Strip(s) + b && Bare(Strip(s))
  {
    a := LStripTakes(s);
    var t := LStrip(s);
    b := RStripTakes(t);
    if Strip(s) != "" {
      assert t[0] == Strip(s)[0];
    }
  }

  /** And that says what it leaves. */
  lemma StripOf(a: string, r: string, b: string)
    requires AllBlank(a) && AllBlank(b) && Bare(r)
    ensures Strip(a + r + b) == r
  {
    assert a + r + b == a + (r + b);
    if r == "" {
      assert a + (r + b) == (a + b) + "" && AllBlank(a + b);
      LStripOf(a + b, "");
    } else {
      LStripOf(a, r + b);
      RStripOf(r, b);
    }
  }

  predicate EndsInNewline(s: string) { s != "" && s[|s| - 1] == '\n' }

  // ---------- slugs ----------

  predicate IsAlnum(c: char) { '0' <= c <= '9' || 'a' <= c <= 'z' || 'A' <= c <= 'Z' }

  predicate IsSlugChar(c: char) { IsAlnum(c) || c == '.' || c == '_' || c == '-' }

  /** `[A-Za-z0-9][A-Za-z0-9._-]*` */
  predicate IsSlug(s: string)
  {
    s != [] && IsAlnum(s[0]) && forall c <- s :: IsSlugChar(c)
  }
}
