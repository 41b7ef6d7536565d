/** JSON text (RFC 8259) as concrete syntax trees, the values they denote, and
    the text that Python's `json.dumps` prints.

    `Emit(n, k)` is the text of tree `n` followed by the text `k`. With the
    continuation as an argument every proof about texts is structural. The trees
    determine their text and, by `TreeUnique`, the text determines the tree, so
    `Loads` is the one function a correct parser can compute. */
module Json {
  import opened Common

  // Decoded text is a sequence of UTF-16 code units: on these, joining an escaped
  // surrogate pair and keeping a lone surrogate need no special case.
  type Unit = u: int | 0 <= u < 0x10000
  type Str = seq<Unit>

  datatype Value =
    | Null
    | Bool(b: bool)
    | Number(literal: string)
    | String(s: Str)
    | Array(elements: seq<Value>)
    | Object(members: seq<Member>)

  datatype Member = Member(name: Str, value: Value)

  datatype Item = Plain(c: char) | Escape(e: char) | Hex(h0: char, h1: char, h2: char, h3: char)

  datatype Node =
    | Word(word: string)                 // true, false, null; Python also reads NaN and Infinity
    | Numeral(digits: string)
    | Quoted(items: seq<Item>)
    | EmptyArray(pad: string)
    | ArrayOf(elems: Elements)
    | EmptyObject(pad: string)
    | ObjectOf(mems: Members)

  datatype Elements =
    | LastElement(lead: string, node: Node, trail: string)
    | NextElement(lead: string, node: Node, trail: string, rest: Elements)

  datatype Members =
    | LastMember(lead: string, key: seq<Item>, mid: string, gap: string, node: Node, trail: string)
    | NextMember(lead: string, key: seq<Item>, mid: string, gap: string, node: Node, trail: string, rest: Members)

  /** RFC 8259, or that plus the three constants Python's decoder also accepts. */
  datatype Dialect = Rfc8259 | Python

  // ---------- text of a tree ----------

  function EmitItem(i: Item): string
  {
    match i
    case Plain(c) => [c]
    case Escape(e) => ['\\', e]
    case Hex(a, b, c, d) => ['\\', 'u', a, b, c, d]
  }

  function EmitItems(items: seq<Item>, k: string): string
  {
    if items == [] then ['"'] + k else EmitItem(items[0]) + EmitItems(items[1..], k)
  }

  function Emit(n: Node, k: string): string
  {
    match n
    case Word(w) => w + k
    case Numeral(d) => d + k
    case Quoted(items) => ['"'] + EmitItems(items, k)
    case EmptyArray(pad) => ['['] + (pad + ([']'] + k))
    case ArrayOf(es) => ['['] + EmitElements(es, k)
    case EmptyObject(pad) => ['{'] + (pad + (['}'] + k))
    case ObjectOf(ms) => ['{'] + EmitMembers(ms, k)
  }

  function EmitElements(es: Elements, k: string): string
  {
    match es
    case LastElement(l, n, t) => l + Emit(n, t + ([']'] + k))
    case NextElement(l, n, t, rest) => l + Emit(n, t + ([','] + EmitElements(rest, k)))
  }

  function EmitMembers(ms: Members, k: string): string
  {
    match ms
    case LastMember(l, key, m, g, n, t) =>
      l + (['"'] + EmitItems(key, m + ([':'] + (g + Emit(n, t + (['}'] + k))))))
    case NextMember(l, key, m, g, n, t, rest) =>
      l + (['"'] + EmitItems(key, m + ([':'] + (g + Emit(n, t + ([','] + EmitMembers(rest, k)))))))
  }

  // ---------- which trees are JSON ----------

  predicate IsSpace(c: char) { c == ' ' || c == '\t' || c == '\n' || c == '\r' }

  predicate Spaces(s: string) { forall i :: 0 <= i < |s| ==> IsSpace(s[i]) }

  predicate IsDigit(c: char) { '0' <= c <= '9' }

  predicate IsHex(c: char) { IsDigit(c) || 'a' <= c <= 'f' || 'A' <= c <= 'F' }

  predicate TokenChar(c: char)
  {
    IsDigit(c) || 'a' <= c <= 'z' || 'A' <= c <= 'Z' || c == '-' || c == '+' || c == '.'
  }

  predicate Tokens(s: string) { forall i :: 0 <= i < |s| ==> TokenChar(s[i]) }

  function DigitRun(s: string): (n: nat)
    ensures n <= |s|
    ensures forall i :: 0 <= i < n ==> IsDigit(s[i])
  {
    if s != [] && IsDigit(s[0]) then 1 + DigitRun(s[1..]) else 0
  }

  predicate IsExponent(s: string)
  {
    s == [] ||
    ((s[0] == 'e' || s[0] == 'E') &&
     var t := if |s| > 1 && (s[1] == '+' || s[1] == '-') then s[2..] else s[1..];
     |t| > 0 && DigitRun(t) == |t|)
  }

  predicate IsFraction(s: string)
  {
    if s != [] && s[0] == '.' then DigitRun(s[1..]) > 0 && IsExponent(s[1..][DigitRun(s[1..])..])
    else IsExponent(s)
  }

  /** number = [ minus ] int [ frac ] [ exp ] (RFC 8259, section 6) */
  predicate IsNumeral(s: string)
  {
    var t := if s != [] && s[0] == '-' then s[1..] else s;
    var n := DigitRun(t);
    n > 0 && (n == 1 || t[0] != '0') && IsFraction(t[n..])
  }

  predicate IsWord(w: string, d: Dialect)
  {
    w == "true" || w == "false" || w == "null" ||
    (d == Python && (w == "NaN" || w == "Infinity" || w == "-Infinity"))
  }

  predicate ValidItem(i: Item)
  {
    match i
    case Plain(c) => c != '"' && c != '\\' && c >= ' '
    case Escape(e) => e in ['"', '\\', '/', 'b', 'f', 'n', 'r', 't']
    case Hex(a, b, c, d) => IsHex(a) && IsHex(b) && IsHex(c) && IsHex(d)
  }

  predicate ValidItems(items: seq<Item>) { forall i :: 0 <= i < |items| ==> ValidItem(items[i]) }

  predicate Valid(n: Node, d: Dialect)
  {
    match n
    case Word(w) => IsWord(w, d)
    case Numeral(s) => IsNumeral(s)
    case Quoted(items) => ValidItems(items)
    case EmptyArray(pad) => Spaces(pad)
    case ArrayOf(es) => ValidElements(es, d)
    case EmptyObject(pad) => Spaces(pad)
    case ObjectOf(ms) => ValidMembers(ms, d)
  }

  predicate ValidElements(es: Elements, d: Dialect)
  {
    Spaces(es.lead) && Spaces(es.trail) && Valid(es.node, d) &&
    (es.NextElement? ==> ValidElements(es.rest, d))
  }

  predicate ValidMembers(ms: Members, d: Dialect)
  {
    Spaces(ms.lead) && Spaces(ms.mid) && Spaces(ms.gap) && Spaces(ms.trail) &&
    ValidItems(ms.key) && Valid(ms.node, d) &&
    (ms.NextMember? ==> ValidMembers(ms.rest, d))
  }

  // ---------- what a tree denotes ----------

  function HexDigit(c: char): (v: int)
    ensures 0 <= v < 16
  {
    if IsDigit(c) then c as int - '0' as int
    else if 'a' <= c <= 'f' then c as int - 'a' as int + 10
    else if 'A' <= c <= 'F' then c as int - 'A' as int + 10
    else 0
  }

  function Units(c: char): (s: Str)
  {
    var n := c as int;
    if n < 0x10000 then [n]
    else [0xD800 + (n - 0x10000) / 0x400, 0xDC00 + (n - 0x10000) % 0x400]
  }

  /** The units of a text in the basic multilingual plane, one each. */
  function Name(s: string): Str { seq(|s|, i requires 0 <= i < |s| => s[i] as int % 0x10000) }

  function DecodeItem(i: Item): Str
  {
    match i
    case Plain(c) => Units(c)
    case Hex(a, b, c, d) => [((HexDigit(a) * 16 + HexDigit(b)) * 16 + HexDigit(c)) * 16 + HexDigit(d)]
    case Escape(e) =>
      if e == 'b' then [8] else if e == 'f' then [12] else if e == 'n' then [10]
      else if e == 'r' then [13] else if e == 't' then [9] else Units(e)
  }

  function Decode(items: seq<Item>): Str
  {
    if items == [] then [] else DecodeItem(items[0]) + Decode(items[1..])
  }

  function Denote(n: Node): Value
  {
    match n
    case Word(w) =>
      if w == "true" then Bool(true) else if w == "false" then Bool(false)
      else if w == "null" then Null else Number(w)
    case Numeral(d) => Number(d)
    case Quoted(items) => String(Decode(items))
    case EmptyArray(_) => Array([])
    case ArrayOf(es) => Array(DenoteElements(es))
    case EmptyObject(_) => Object([])
    case ObjectOf(ms) => Object(DenoteMembers(ms))
  }

  function DenoteElements(es: Elements): seq<Value>
  {
    [Denote(es.node)] + if es.NextElement? then DenoteElements(es.rest) else []
  }

  function DenoteMembers(ms: Members): seq<Member>
  {
    [Member(Decode(ms.key), Denote(ms.node))] + if ms.NextMember? then DenoteMembers(ms.rest) else []
  }

  /** A later member with the same name replaces an earlier one. */
  function Lookup(members: seq<Member>, key: Str): Option<Value>
  {
    if members == [] then None
    else if members[|members| - 1].name == key then Some(members[|members| - 1].value)
    else Lookup(members[..|members| - 1], key)
  }

  // ---------- what the parts mean ----------

  /** The escapes, one by one. */
  lemma EscapesMean()
    ensures DecodeItem(Escape('"')) == [0x22] && DecodeItem(Escape('\\')) == [0x5C] && DecodeItem(Escape('/')) == [0x2F]
    ensures DecodeItem(Escape('b')) == [0x08] && DecodeItem(Escape('f')) == [0x0C] && DecodeItem(Escape('n')) == [0x0A]
    ensures DecodeItem(Escape('r')) == [0x0D] && DecodeItem(Escape('t')) == [0x09]
  {
  }

  /** The hexadecimal digits, of either case, ... */
  lemma DigitsMean(v: int)
    requires 0 <= v < 16
    ensures HexDigit("0123456789abcdef"[v]) == v && HexDigit("0123456789ABCDEF"[v]) == v
  {
  }

  /** ... and four of them. */
  lemma HexMeans(a: char, b: char, c: char, d: char)
    ensures DecodeItem(Hex(a, b, c, d)) == [0x1000 * HexDigit(a) + 0x100 * HexDigit(b) + 0x10 * HexDigit(c) + HexDigit(d)]
  {
  }

  /** Any other character is its code, in two surrogates if it takes more than sixteen bits. */
  lemma PlainMeans(c: char)
    ensures c as int < 0x10000 ==> DecodeItem(Plain(c)) == [c as int]
    ensures c as int >= 0x10000 ==>
      |DecodeItem(Plain(c))| == 2 &&
      var high: int, low: int := DecodeItem(Plain(c))[0], DecodeItem(Plain(c))[1];
      && 0xD800 <= high < 0xDC00 && 0xDC00 <= low < 0xE000
      && (high - 0xD800) * 0x400 + (low - 0xDC00) + 0x10000 == c as int
  {
  }

  /** Words and numerals. */
  lemma ScalarsMean(numeral: string)
    ensures Denote(Word("true")) == Bool(true) && Denote(Word("false")) == Bool(false) && Denote(Word("null")) == Null
    ensures Denote(Word("NaN")) == Number("NaN") && Denote(Numeral(numeral)) == Number(numeral)
  {
  }

  // ---------- the text determines the tree ----------

  predicate Delimited(s: string) { s == [] || !TokenChar(s[0]) }

  lemma {:induction false} NumeralTokens(s: string)
    requires IsNumeral(s)
    ensures s != [] && Tokens(s)
  {
    var t := if s != [] && s[0] == '-' then s[1..] else s;
    UnsignedTokens(t, DigitRun(t));
    if s[0] == '-' {
      TokensConcat("-", t);
      assert s == "-" + t;
    }
  }

  lemma UnsignedTokens(t: string, n: nat)
    requires 0 < n <= |t| && (forall i :: 0 <= i < n ==> IsDigit(t[i])) && IsFraction(t[n..])
    ensures Tokens(t)
  {
    FractionTokens(t[n..]);
    forall i | 0 <= i < |t| ensures TokenChar(t[i]) {
      assert i >= n ==> t[i] == t[n..][i - n];
    }
  }

  lemma TokensConcat(a: string, b: string)
    requires Tokens(a) && Tokens(b)
    ensures Tokens(a + b)
  {
  }

  lemma {:induction false} FractionTokens(s: string)
    requires IsFraction(s)
    ensures Tokens(s)
  {
    if s != [] && s[0] == '.' {
      var u := s[1..];
      var n := DigitRun(u);
      ExponentTokens(u[n..]);
      TokensConcat(u[..n], u[n..]);
      assert u == u[..n] + u[n..];
      TokensConcat(".", u);
      assert s == "." + u;
    } else {
      ExponentTokens(s);
    }
  }

  lemma {:induction false} ExponentTokens(s: string)
    requires IsExponent(s)
    ensures Tokens(s)
  {
    if s != [] {
      var t := if |s| > 1 && (s[1] == '+' || s[1] == '-') then s[2..] else s[1..];
      assert s == s[..|s| - |t|] + t;
    }
  }

  lemma ScalarFirstChar(w: string, k: string, d: Dialect)
    requires IsWord(w, d) || IsNumeral(w)
    ensures w + k != [] && TokenChar((w + k)[0])
  {
    if IsNumeral(w) {
      NumeralTokens(w);
    }
    assert (w + k)[0] == w[0];
  }

  /** The first character tells the seven kinds of tree apart, up to word and numeral. */
  lemma {:induction false} FirstChar(n: Node, k: string, d: Dialect)
    requires Valid(n, d)
    ensures Emit(n, k) != []
    ensures var c := Emit(n, k)[0];
      && !IsSpace(c) && c != ']' && c != '}' && c != ',' && c != ':'
      && (TokenChar(c) <==> n.Word? || n.Numeral?)
      && (c == '"' <==> n.Quoted?)
      && (c == '[' <==> n.EmptyArray? || n.ArrayOf?)
      && (c == '{' <==> n.EmptyObject? || n.ObjectOf?)
  {
    match n
    case Word(w) => ScalarFirstChar(w, k, d);
    case Numeral(w) => ScalarFirstChar(w, k, d);
    case _ =>
  }

  lemma {:induction false} SpacesUnique(w: string, s: string, w': string, s': string)
    requires Spaces(w) && Spaces(w')
    requires s != [] && s' != [] && !IsSpace(s[0]) && !IsSpace(s'[0])
    requires w + s == w' + s'
    ensures w == w' && s == s'
  {
    var c := w + s;
    assert c[|w|] == s[0] && c[|w'|] == s'[0];
    assert forall i :: 0 <= i < |w'| ==> c[i] == w'[i];
    assert |w| == |w'|;
    SplitUnique(w, s, w', s');
  }

  lemma SplitUnique(a: string, b: string, a': string, b': string)
    requires |a| == |a'| && a + b == a' + b'
    ensures a == a' && b == b'
  {
    assert a == (a + b)[..|a|] && b == (a + b)[|a|..];
    assert a' == (a' + b')[..|a|] && b' == (a' + b')[|a|..];
  }

  lemma {:induction false} TokensUnique(w: string, s: string, w': string, s': string)
    requires Tokens(w) && Tokens(w') && Delimited(s) && Delimited(s')
    requires w + s == w' + s'
    ensures w == w' && s == s'
  {
    var c := w + s;
    assert s != [] ==> c[|w|] == s[0];
    assert s' != [] ==> c[|w'|] == s'[0];
    assert forall i :: 0 <= i < |w'| ==> c[i] == w'[i];
    assert |w| == |w'|;
    SplitUnique(w, s, w', s');
  }

  lemma ItemUnique(x: Item, s: string, y: Item, s': string)
    requires ValidItem(x) && ValidItem(y) && EmitItem(x) + s == EmitItem(y) + s'
    ensures x == y && s == s'
  {
    var a, b := EmitItem(x), EmitItem(y);
    var t := a + s;
    assert a[0] == t[0] == b[0];
    if !x.Plain? {
      assert a[1] == t[1] == b[1];
    }
    SplitUnique(a, s, b, s');
    if x.Hex? {
      assert a[2] == b[2] && a[3] == b[3] && a[4] == b[4] && a[5] == b[5];
    }
  }

  lemma {:induction false} ItemsUnique(xs: seq<Item>, k: string, ys: seq<Item>, k': string)
    requires ValidItems(xs) && ValidItems(ys)
    requires EmitItems(xs, k) == EmitItems(ys, k')
    ensures xs == ys && k == k'
  {
    var s := EmitItems(xs, k);
    assert xs == [] <==> s[0] == '"';
    assert ys == [] <==> s[0] == '"';
    if xs == [] {
      SplitUnique(['"'], k, ['"'], k');
    } else {
      ItemUnique(xs[0], EmitItems(xs[1..], k), ys[0], EmitItems(ys[1..], k'));
      ItemsUnique(xs[1..], k, ys[1..], k');
      assert xs == [xs[0]] + xs[1..] && ys == [ys[0]] + ys[1..];
    }
  }

  /** Two trees with the same text, each followed by a delimiter, are the same tree. */
  lemma {:induction false} TreeUnique(a: Node, k: string, b: Node, k': string, d: Dialect)
    requires Valid(a, d) && Valid(b, d) && Delimited(k) && Delimited(k')
    requires Emit(a, k) == Emit(b, k')
    ensures a == b && k == k'
    decreases a, 1
  {
    FirstChar(a, k, d);
    FirstChar(b, k', d);
    var s := Emit(a, k);
    match a
    case Word(w) => ScalarUnique(a, k, b, k', d);
    case Numeral(w) => ScalarUnique(a, k, b, k', d);
    case Quoted(items) =>
      assert EmitItems(items, k) == s[1..] == EmitItems(b.items, k');
      ItemsUnique(items, k, b.items, k');
    case EmptyArray(pad) =>
      assert pad + ([']'] + k) == s[1..];
      if b.EmptyArray? {
        assert b.pad + ([']'] + k') == s[1..];
        SpacesUnique(pad, [']'] + k, b.pad, [']'] + k');
        SplitUnique([']'], k, [']'], k');
      } else {
        assert EmitElements(b.elems, k') == s[1..];
        PadNotElements(pad, k, b.elems, k', d);
      }
    case ArrayOf(es) =>
      assert EmitElements(es, k) == s[1..];
      if b.EmptyArray? {
        assert b.pad + ([']'] + k') == s[1..];
        PadNotElements(b.pad, k', es, k, d);
      } else {
        assert EmitElements(b.elems, k') == s[1..];
        ElementsUnique(es, k, b.elems, k', d);
      }
    case EmptyObject(pad) =>
      assert pad + (['}'] + k) == s[1..];
      if b.EmptyObject? {
        assert b.pad + (['}'] + k') == s[1..];
        SpacesUnique(pad, ['}'] + k, b.pad, ['}'] + k');
        SplitUnique(['}'], k, ['}'], k');
      } else {
        assert EmitMembers(b.mems, k') == s[1..];
        PadNotMembers(pad, k, b.mems, k', d);
      }
    case ObjectOf(ms) =>
      assert EmitMembers(ms, k) == s[1..];
      if b.EmptyObject? {
        assert b.pad + (['}'] + k') == s[1..];
        PadNotMembers(b.pad, k', ms, k, d);
      } else {
        assert EmitMembers(b.mems, k') == s[1..];
        MembersUnique(ms, k, b.mems, k', d);
      }
  }

  lemma {:induction false} ScalarUnique(a: Node, k: string, b: Node, k': string, d: Dialect)
    requires Valid(a, d) && Valid(b, d) && Delimited(k) && Delimited(k')
    requires (a.Word? || a.Numeral?) && (b.Word? || b.Numeral?)
    requires Emit(a, k) == Emit(b, k')
    ensures a == b && k == k'
  {
    var w := if a.Word? then a.word else a.digits;
    var w' := if b.Word? then b.word else b.digits;
    ScalarText(a, d);
    ScalarText(b, d);
    TokensUnique(w, k, w', k');
  }

  lemma {:induction false} ScalarText(a: Node, d: Dialect)
    requires Valid(a, d)
    ensures a.Word? ==> Tokens(a.word) && !IsNumeral(a.word)
    ensures a.Numeral? ==> Tokens(a.digits) && IsNumeral(a.digits)
  {
    if a.Numeral? {
      NumeralTokens(a.digits);
    } else if a.Word? {
      var w := a.word;
      assert Tokens(w) && |w| >= 3 && !IsDigit(w[0]);
      assert w[0] == '-' ==> !IsDigit(w[1..][0]);
    }
  }

  lemma PadNotElements(pad: string, k: string, es: Elements, k': string, d: Dialect)
    requires Spaces(pad) && ValidElements(es, d)
    ensures pad + ([']'] + k) != EmitElements(es, k')
  {
    var rest := if es.LastElement? then es.trail + ([']'] + k')
                else es.trail + ([','] + EmitElements(es.rest, k'));
    FirstChar(es.node, rest, d);
    if pad + ([']'] + k) == EmitElements(es, k') {
      SpacesUnique(pad, [']'] + k, es.lead, Emit(es.node, rest));
    }
  }

  lemma PadNotMembers(pad: string, k: string, ms: Members, k': string, d: Dialect)
    requires Spaces(pad) && ValidMembers(ms, d)
    ensures pad + (['}'] + k) != EmitMembers(ms, k')
  {
    if pad + (['}'] + k) == EmitMembers(ms, k') {
      SpacesUnique(pad, ['}'] + k, ms.lead, ['"'] + EmitItems(ms.key, AfterKey(ms, k')));
    }
  }

  lemma {:induction false} ElementsUnique(a: Elements, k: string, b: Elements, k': string, d: Dialect)
    requires ValidElements(a, d) && ValidElements(b, d)
    requires EmitElements(a, k) == EmitElements(b, k')
    ensures a == b && k == k'
    decreases a, 0
  {
    var tail := if a.LastElement? then [']'] + k else [','] + EmitElements(a.rest, k);
    var tail' := if b.LastElement? then [']'] + k' else [','] + EmitElements(b.rest, k');
    FirstChar(a.node, a.trail + tail, d);
    FirstChar(b.node, b.trail + tail', d);
    SpacesUnique(a.lead, Emit(a.node, a.trail + tail), b.lead, Emit(b.node, b.trail + tail'));
    TreeUnique(a.node, a.trail + tail, b.node, b.trail + tail', d);
    SpacesUnique(a.trail, tail, b.trail, tail');
    assert tail[0] == tail'[0] && tail[1..] == tail'[1..];
    if a.NextElement? {
      assert tail[1..] == EmitElements(a.rest, k);
      assert tail'[1..] == EmitElements(b.rest, k');
      ElementsUnique(a.rest, k, b.rest, k', d);
    } else {
      assert tail[1..] == k && tail'[1..] == k';
    }
  }

  function AfterNode(ms: Members, k: string): string
  {
    if ms.LastMember? then ['}'] + k else [','] + EmitMembers(ms.rest, k)
  }

  function AfterKey(ms: Members, k: string): string
  {
    ms.mid + ([':'] + (ms.gap + Emit(ms.node, ms.trail + AfterNode(ms, k))))
  }

  lemma MemberNames(a: Members, k: string, b: Members, k': string, d: Dialect)
    requires ValidMembers(a, d) && ValidMembers(b, d)
    requires EmitMembers(a, k) == EmitMembers(b, k')
    ensures a.lead == b.lead && a.key == b.key && AfterKey(a, k) == AfterKey(b, k')
  {
    var name, name' := EmitItems(a.key, AfterKey(a, k)), EmitItems(b.key, AfterKey(b, k'));
    SpacesUnique(a.lead, ['"'] + name, b.lead, ['"'] + name');
    SplitUnique(['"'], name, ['"'], name');
    ItemsUnique(a.key, AfterKey(a, k), b.key, AfterKey(b, k'));
  }

  lemma {:induction false} MemberValues(a: Members, k: string, b: Members, k': string, d: Dialect)
    requires ValidMembers(a, d) && ValidMembers(b, d)
    requires AfterKey(a, k) == AfterKey(b, k')
    ensures a.mid == b.mid && a.gap == b.gap && a.node == b.node && a.trail == b.trail
    ensures AfterNode(a, k) == AfterNode(b, k')
    decreases a, 0, 0
  {
    var tail, tail' := AfterNode(a, k), AfterNode(b, k');
    FirstChar(a.node, a.trail + tail, d);
    FirstChar(b.node, b.trail + tail', d);
    ColonUnique(a.mid, a.gap, Emit(a.node, a.trail + tail), b.mid, b.gap, Emit(b.node, b.trail + tail'));
    TreeUnique(a.node, a.trail + tail, b.node, b.trail + tail', d);
    SpacesUnique(a.trail, tail, b.trail, tail');
  }

  lemma ColonUnique(mid: string, gap: string, s: string, mid': string, gap': string, s': string)
    requires Spaces(mid) && Spaces(gap) && Spaces(mid') && Spaces(gap')
    requires s != [] && s' != [] && !IsSpace(s[0]) && !IsSpace(s'[0])
    requires mid + ([':'] + (gap + s)) == mid' + ([':'] + (gap' + s'))
    ensures mid == mid' && gap == gap' && s == s'
  {
    SpacesUnique(mid, [':'] + (gap + s), mid', [':'] + (gap' + s'));
    SplitUnique([':'], gap + s, [':'], gap' + s');
    SpacesUnique(gap, s, gap', s');
  }

  lemma {:induction false} MembersUnique(a: Members, k: string, b: Members, k': string, d: Dialect)
    requires ValidMembers(a, d) && ValidMembers(b, d)
    requires EmitMembers(a, k) == EmitMembers(b, k')
    ensures a == b && k == k'
    decreases a, 0, 1
  {
    MemberNames(a, k, b, k', d);
    MemberValues(a, k, b, k', d);
    var tail, tail' := AfterNode(a, k), AfterNode(b, k');
    assert tail[0] == tail'[0] && tail[1..] == tail'[1..];
    if a.NextMember? {
      assert tail[1..] == EmitMembers(a.rest, k);
      assert tail'[1..] == EmitMembers(b.rest, k');
      MembersUnique(a.rest, k, b.rest, k', d);
    } else {
      assert tail[1..] == k && tail'[1..] == k';
    }
  }

  // ---------- parsing ----------

  /** A JSON text: a value with white space around it. */
  datatype Document = Document(lead: string, node: Node, trail: string)

  predicate ValidDocument(doc: Document, d: Dialect)
  {
    Spaces(doc.lead) && Spaces(doc.trail) && Valid(doc.node, d)
  }

  function DocumentText(doc: Document): string { doc.lead + Emit(doc.node, doc.trail) }

  lemma {:induction false} EmitAppend(n: Node, k: string, j: string)
    ensures Emit(n, k + j) == Emit(n, k) + j
    decreases n, 1
  {
    match n
    case Word(w) =>
    case Numeral(d) =>
    case Quoted(items) => EmitItemsAppend(items, k, j);
    case EmptyArray(pad) =>
    case ArrayOf(es) => EmitElementsAppend(es, k, j);
    case EmptyObject(pad) =>
    case ObjectOf(ms) => EmitMembersAppend(ms, k, j);
  }

  lemma {:induction false} EmitItemsAppend(items: seq<Item>, k: string, j: string)
    ensures EmitItems(items, k + j) == EmitItems(items, k) + j
  {
    if items != [] {
      EmitItemsAppend(items[1..], k, j);
    }
  }

  lemma {:induction false} EmitElementsAppend(es: Elements, k: string, j: string)
    ensures EmitElements(es, k + j) == EmitElements(es, k) + j
    decreases es, 0
  {
    var tail := if es.LastElement? then [']'] + k else [','] + EmitElements(es.rest, k);
    if es.NextElement? {
      EmitElementsAppend(es.rest, k, j);
      assert [','] + EmitElements(es.rest, k + j) == tail + j;
    } else {
      assert [']'] + (k + j) == tail + j;
    }
    assert es.trail + (tail + j) == (es.trail + tail) + j;
    EmitAppend(es.node, es.trail + tail, j);
  }

  lemma {:induction false} EmitMembersAppend(ms: Members, k: string, j: string)
    ensures EmitMembers(ms, k + j) == EmitMembers(ms, k) + j
    decreases ms, 0, 1
  {
    if ms.NextMember? {
      EmitMembersAppend(ms.rest, k, j);
    }
    AfterNodeAppend(ms, k, j);
    AfterKeyAppend(ms, k, j, Emit(ms.node, ms.trail + AfterNode(ms, k)));
    EmitItemsAppend(ms.key, AfterKey(ms, k), j);
    QuotedAppend(ms.lead, EmitItems(ms.key, AfterKey(ms, k)), j);
  }

  lemma AfterNodeAppend(ms: Members, k: string, j: string)
    requires ms.NextMember? ==> EmitMembers(ms.rest, k + j) == EmitMembers(ms.rest, k) + j
    ensures AfterNode(ms, k + j) == AfterNode(ms, k) + j
  {
  }

  lemma QuotedAppend(lead: string, s: string, j: string)
    ensures lead + (['"'] + (s + j)) == lead + (['"'] + s) + j
  {
  }

  lemma {:induction false} AfterKeyAppend(ms: Members, k: string, j: string, node: string)
    requires AfterNode(ms, k + j) == AfterNode(ms, k) + j
    requires node == Emit(ms.node, ms.trail + AfterNode(ms, k))
    ensures AfterKey(ms, k + j) == AfterKey(ms, k) + j
    decreases ms, 0, 0
  {
    assert ms.trail + (AfterNode(ms, k) + j) == (ms.trail + AfterNode(ms, k)) + j;
    EmitAppend(ms.node, ms.trail + AfterNode(ms, k), j);
    assert ms.mid + ([':'] + (ms.gap + (node + j))) == ms.mid + ([':'] + (ms.gap + node)) + j;
  }

  /** What a parser of the dialect returns for `s`: the value, or a rejection. */
  ghost function Loads(s: string, d: Dialect): Option<Value>
  {
    if exists doc :: ValidDocument(doc, d) && DocumentText(doc) == s
    then var doc :| ValidDocument(doc, d) && DocumentText(doc) == s; Some(Denote(doc.node))
    else None
  }

  lemma {:induction false} DocumentUnique(a: Document, b: Document, d: Dialect)
    requires ValidDocument(a, d) && ValidDocument(b, d)
    requires DocumentText(a) == DocumentText(b)
    ensures a == b
  {
    FirstChar(a.node, a.trail, d);
    FirstChar(b.node, b.trail, d);
    SpacesUnique(a.lead, Emit(a.node, a.trail), b.lead, Emit(b.node, b.trail));
    TreeUnique(a.node, a.trail, b.node, b.trail, d);
  }

  lemma LoadsHasDocument(s: string, d: Dialect) returns (doc: Document)
    requires Loads(s, d).Some?
    ensures ValidDocument(doc, d) && DocumentText(doc) == s && Loads(s, d) == Some(Denote(doc.node))
  {
    doc :| ValidDocument(doc, d) && DocumentText(doc) == s && Loads(s, d) == Some(Denote(doc.node));
  }

  /** Parsing is single-valued: any tree of the text gives the value `Loads` returns. */
  lemma LoadsIsDenotation(doc: Document, d: Dialect)
    requires ValidDocument(doc, d)
    ensures Loads(DocumentText(doc), d) == Some(Denote(doc.node))
  {
    var s := DocumentText(doc);
    var other :| ValidDocument(other, d) && DocumentText(other) == s && Loads(s, d) == Some(Denote(other.node));
    DocumentUnique(doc, other, d);
  }

  // ---------- printing: json.dumps with its default settings ----------

  function HexChar(v: int): (c: char)
    requires 0 <= v < 16
    ensures IsHex(c) && HexDigit(c) == v
  {
    if v < 10 then ('0' as int + v) as char else ('a' as int + v - 10) as char
  }

  function PrintUnit(u: Unit): Item
  {
    if u == 0x22 then Escape('"') else if u == 0x5C then Escape('\\')
    else if u == 10 then Escape('n') else if u == 13 then Escape('r')
    else if u == 9 then Escape('t') else if u == 12 then Escape('f')
    else if u == 8 then Escape('b')
    else if 0x20 <= u <= 0x7E then Plain(u as char)
    else Hex(HexChar(u / 0x1000), HexChar(u / 0x100 % 16), HexChar(u / 16 % 16), HexChar(u % 16))
  }

  function PrintStr(s: Str): seq<Item>
  {
    if s == [] then [] else [PrintUnit(s[0])] + PrintStr(s[1..])
  }

  /** Numbers are printed from their literal, which must be one. */
  predicate Printable(v: Value)
  {
    match v
    case Number(t) => IsNumeral(t)
    case Array(es) => forall e | e in es :: Printable(e)
    case Object(ms) => forall m | m in ms :: Printable(m.value)
    case _ => true
  }

  function Print(v: Value): Node
    requires Printable(v)
    decreases v
  {
    match v
    case Null => Word("null")
    case Bool(b) => Word(if b then "true" else "false")
    case Number(t) => Numeral(t)
    case String(s) => Quoted(PrintStr(s))
    case Array(es) => if es == [] then EmptyArray("") else ArrayOf(PrintElements(es, ""))
    case Object(ms) => if ms == [] then EmptyObject("") else ObjectOf(PrintMembers(ms, ""))
  }

  function PrintElements(es: seq<Value>, lead: string): Elements
    requires es != [] && forall e | e in es :: Printable(e)
    decreases es
  {
    if |es| == 1 then LastElement(lead, Print(es[0]), "")
    else NextElement(lead, Print(es[0]), "", PrintElements(es[1..], " "))
  }

  function PrintMembers(ms: seq<Member>, lead: string): Members
    requires ms != [] && forall m | m in ms :: Printable(m.value)
    decreases ms
  {
    if |ms| == 1 then LastMember(lead, PrintStr(ms[0].name), "", " ", Print(ms[0].value), "")
    else NextMember(lead, PrintStr(ms[0].name), "", " ", Print(ms[0].value), "", PrintMembers(ms[1..], " "))
  }

  function Dumps(v: Value): string
    requires Printable(v)
  {
    Emit(Print(v), "")
  }

  lemma PrintUnitDecodes(u: Unit)
    ensures ValidItem(PrintUnit(u)) && DecodeItem(PrintUnit(u)) == [u]
  {
    if PrintUnit(u).Hex? {
      HexDecodes(u);
    }
  }

  lemma FourDigits(u: Unit, a: int, b: int, c: int, d: int)
    requires a == u / 0x1000 && b == u / 0x100 % 16 && c == u / 16 % 16 && d == u % 16
    ensures ((a * 16 + b) * 16 + c) * 16 + d == u
  {
    assert u / 0x100 == a * 16 + b;
    assert u / 16 == (a * 16 + b) * 16 + c;
  }

  lemma HexDecodes(u: Unit)
    ensures DecodeItem(Hex(HexChar(u / 0x1000), HexChar(u / 0x100 % 16), HexChar(u / 16 % 16), HexChar(u % 16))) == [u]
  {
    FourDigits(u, u / 0x1000, u / 0x100 % 16, u / 16 % 16, u % 16);
  }

  lemma {:induction false} PrintStrDecodes(s: Str)
    ensures ValidItems(PrintStr(s)) && Decode(PrintStr(s)) == s
  {
    if s != [] {
      PrintUnitDecodes(s[0]);
      PrintStrDecodes(s[1..]);
      assert PrintStr(s)[1..] == PrintStr(s[1..]);
      assert [s[0]] + s[1..] == s;
    }
  }

  lemma {:induction false} PrintDenotes(v: Value, d: Dialect)
    requires Printable(v)
    ensures Valid(Print(v), d) && Denote(Print(v)) == v
    decreases v
  {
    match v
    case String(s) => PrintStrDecodes(s);
    case Array(es) => if es != [] { PrintElementsDenotes(es, "", d); }
    case Object(ms) => if ms != [] { PrintMembersDenotes(ms, "", d); }
    case _ =>
  }

  lemma {:induction false} PrintElementsDenotes(es: seq<Value>, lead: string, d: Dialect)
    requires es != [] && Spaces(lead) && forall e | e in es :: Printable(e)
    ensures ValidElements(PrintElements(es, lead), d) && DenoteElements(PrintElements(es, lead)) == es
    decreases es
  {
    PrintDenotes(es[0], d);
    if |es| > 1 {
      PrintElementsDenotes(es[1..], " ", d);
    }
    assert es == [es[0]] + es[1..];
  }

  /** One printed member denotes itself, given that its parts do. */
  lemma MemberDenotes(p: Members, m: Member, d: Dialect)
    requires ValidItems(p.key) && Decode(p.key) == m.name && Valid(p.node, d) && Denote(p.node) == m.value
    requires Spaces(p.lead) && p.mid == "" && p.gap == " " && p.trail == ""
    requires p.NextMember? ==> ValidMembers(p.rest, d)
    ensures ValidMembers(p, d)
    ensures DenoteMembers(p) == [m] + if p.NextMember? then DenoteMembers(p.rest) else []
  {
  }

  lemma {:induction false} PrintMembersDenotes(ms: seq<Member>, lead: string, d: Dialect)
    requires ms != [] && Spaces(lead) && forall m | m in ms :: Printable(m.value)
    ensures ValidMembers(PrintMembers(ms, lead), d) && DenoteMembers(PrintMembers(ms, lead)) == ms
    decreases ms
  {
    PrintStrDecodes(ms[0].name);
    PrintDenotes(ms[0].value, d);
    if |ms| > 1 {
      PrintMembersDenotes(ms[1..], " ", d);
    }
    MemberDenotes(PrintMembers(ms, lead), ms[0], d);
    assert ms == [ms[0]] + ms[1..];
  }

  // ---------- the two dialects ----------

  /** A tree of Python's dialect is one of the standard exactly if all its numbers are numerals,
      that is, if none of the three extra constants occurs. */
  lemma {:induction false} StrictExactly(n: Node)
    ensures Valid(n, Rfc8259) <==> Valid(n, Python) && Printable(Denote(n))
    decreases n, 1
  {
    match n
    case Word(w) => if Valid(n, Python) { ScalarText(n, Python); }
    case ArrayOf(es) =>
      StrictElements(es);
      assert Printable(Array(DenoteElements(es))) <==> forall v | v in DenoteElements(es) :: Printable(v);
    case ObjectOf(ms) =>
      StrictMembers(ms);
      assert Printable(Object(DenoteMembers(ms))) <==> forall m | m in DenoteMembers(ms) :: Printable(m.value);
    case EmptyArray(_) => assert Printable(Array([]));
    case EmptyObject(_) => assert Printable(Object([]));
    case Quoted(_) =>
    case Numeral(_) =>
  }

  lemma {:induction false} StrictElements(es: Elements)
    ensures ValidElements(es, Rfc8259) <==>
      ValidElements(es, Python) && forall v | v in DenoteElements(es) :: Printable(v)
    decreases es, 0
  {
    StrictExactly(es.node);
    var first, rest := Denote(es.node), if es.NextElement? then DenoteElements(es.rest) else [];
    assert forall v :: v in [first] + rest <==> v == first || v in rest;
    if es.NextElement? {
      StrictElements(es.rest);
    }
  }

  lemma {:induction false} StrictMembers(ms: Members)
    ensures ValidMembers(ms, Rfc8259) <==>
      ValidMembers(ms, Python) && forall m | m in DenoteMembers(ms) :: Printable(m.value)
    decreases ms, 0
  {
    StrictExactly(ms.node);
    var first := Member(Decode(ms.key), Denote(ms.node));
    var rest := if ms.NextMember? then DenoteMembers(ms.rest) else [];
    assert forall m :: m in [first] + rest <==> m == first || m in rest;
    if ms.NextMember? {
      StrictMembers(ms.rest);
    }
  }

  /** A printed value with white space around it. */
  function Padded(v: Value, lead: string, trail: string): string
    requires Printable(v)
  {
    lead + Emit(Print(v), trail)
  }

  /** json.loads(json.dumps(v)) is v, in either dialect and with white space around. */
  lemma PrintThenParse(v: Value, lead: string, trail: string, d: Dialect)
    requires Printable(v) && Spaces(lead) && Spaces(trail)
    ensures Loads(Padded(v, lead, trail), d) == Some(v)
  {
    PrintDenotes(v, d);
    LoadsIsDenotation(Document(lead, Print(v), trail), d);
  }
}
