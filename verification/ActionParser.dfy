/** Picking a JSON object out of untrusted model output (agent_loop.py).

    The source scans once from every opening brace, counting braces outside
    strings, and hands the first balanced piece to the parser. The reference is a
    search over all substrings that are JSON objects; the two agree. */
module ActionParser {
  import opened Common
  import opened Json

  predicate IsObject(n: Node) { n.EmptyObject? || n.ObjectOf? }

  ghost predicate ObjectText(t: string, d: Dialect)
  {
    exists n :: Valid(n, d) && IsObject(n) && Emit(n, "") == t
  }

  /** `text[s..e]` is a JSON object. */
  ghost predicate ObjectAt(text: string, s: int, e: int, d: Dialect)
  {
    0 <= s <= e <= |text| && ObjectText(text[s..e], d)
  }

  /** The brute-force answer: the object that starts first, or nothing if there is none. */
  ghost predicate FirstObject(text: string, r: Option<Value>, d: Dialect)
  {
    match r
    case None => forall s, e :: !ObjectAt(text, s, e, d)
    case Some(v) => exists s, e ::
      && ObjectAt(text, s, e, d)
      && Loads(text[s..e], d) == Some(v)
      && forall s', e' :: ObjectAt(text, s', e', d) ==> s < s' || (s == s' && e == e')
  }

  // ---------- one pass from an opening brace ----------

  /** What is left of `s` after the brace at which a pass in the given state stops. */
  function Stop(s: string, depth: int, inStr: bool, esc: bool): Option<string>
  {
    if s == [] then None
    else if inStr then
      if esc then Stop(s[1..], depth, true, false)
      else if s[0] == '\\' then Stop(s[1..], depth, true, true)
      else Stop(s[1..], depth, s[0] != '"', false)
    else if s[0] == '"' then Stop(s[1..], depth, true, esc)
    else if s[0] == '{' then Stop(s[1..], depth + 1, false, esc)
    else if s[0] == '}' then After(s[1..], depth - 1, esc)
    else Stop(s[1..], depth, false, esc)
  }

  function After(s: string, depth: int, esc: bool): Option<string>
  {
    if depth == 0 then Some(s) else Stop(s, depth, false, esc)
  }

  lemma {:induction false} StopSkips(w: string, k: string, depth: int)
    requires forall i :: 0 <= i < |w| ==> w[i] != '"' && w[i] != '{' && w[i] != '}'
    ensures Stop(w + k, depth, false, false) == Stop(k, depth, false, false)
  {
    if w == [] {
      assert w + k == k;
    } else {
      assert (w + k)[1..] == w[1..] + k;
      StopSkips(w[1..], k, depth);
    }
  }

  lemma {:induction false} StopItems(items: seq<Item>, k: string, depth: int)
    requires ValidItems(items)
    ensures Stop(EmitItems(items, k), depth, true, false) == Stop(k, depth, false, false)
  {
    if items == [] {
      assert (['"'] + k)[1..] == k;
    } else {
      StopItem(items[0], EmitItems(items[1..], k), depth);
      StopItems(items[1..], k, depth);
    }
  }

  /** Inside a string an escape never lets its second character be taken for a quote. */
  lemma StopItem(item: Item, rest: string, depth: int)
    requires ValidItem(item)
    ensures Stop(EmitItem(item) + rest, depth, true, false) == Stop(rest, depth, true, false)
  {
    match item
    case Plain(c) =>
      assert ([c] + rest)[1..] == rest;
    case Escape(e) =>
      assert (['\\', e] + rest)[1..] == [e] + rest;
      assert ([e] + rest)[1..] == rest;
    case Hex(a, b, c, d) =>
      var t := ['u', a, b, c, d] + rest;
      assert (['\\', 'u', a, b, c, d] + rest)[1..] == t;
      assert t[1..] == [a, b, c, d] + rest;
      StopDigits([a, b, c, d], rest, depth);
  }

  lemma {:induction false} StopDigits(w: string, k: string, depth: int)
    requires forall i :: 0 <= i < |w| ==> IsHex(w[i])
    ensures Stop(w + k, depth, true, false) == Stop(k, depth, true, false)
  {
    if w == [] {
      assert w + k == k;
    } else {
      assert (w + k)[1..] == w[1..] + k;
      StopDigits(w[1..], k, depth);
    }
  }

  lemma StopQuoted(items: seq<Item>, k: string, depth: int)
    requires ValidItems(items)
    ensures Stop(['"'] + EmitItems(items, k), depth, false, false) == Stop(k, depth, false, false)
  {
    StopItems(items, k, depth);
    assert (['"'] + EmitItems(items, k))[1..] == EmitItems(items, k);
  }

  lemma StopTokens(w: string, k: string, depth: int)
    requires Tokens(w)
    ensures Stop(w + k, depth, false, false) == Stop(k, depth, false, false)
  {
    StopSkips(w, k, depth);
  }

  lemma StopWord(w: string, k: string, depth: int)
    requires IsWord(w, Python)
    ensures Stop(w + k, depth, false, false) == Stop(k, depth, false, false)
  {
    StopTokens(w, k, depth);
  }

  lemma StopEmptyArray(pad: string, k: string, depth: int)
    requires Spaces(pad)
    ensures Stop(['['] + (pad + ([']'] + k)), depth, false, false) == Stop(k, depth, false, false)
  {
    StopSkips(['['], pad + ([']'] + k), depth);
    StopSkips(pad, [']'] + k, depth);
    StopSkips([']'], k, depth);
  }

  /** A pass inside an object walks over any value without stopping. */
  lemma {:induction false} StopNode(n: Node, k: string, depth: int)
    requires Valid(n, Python) && depth >= 1
    ensures Stop(Emit(n, k), depth, false, false) == Stop(k, depth, false, false)
    decreases n, 1
  {
    match n
    case Word(w) => StopWord(w, k, depth);
    case Numeral(d) =>
      NumeralTokens(d);
      StopTokens(d, k, depth);
    case Quoted(items) => StopQuoted(items, k, depth);
    case EmptyArray(pad) => StopEmptyArray(pad, k, depth);
    case ArrayOf(es) =>
      StopSkips(['['], EmitElements(es, k), depth);
      StopElements(es, k, depth);
    case EmptyObject(pad) => StopObject(n, k, depth);
    case ObjectOf(ms) => StopObject(n, k, depth);
  }

  /** A pass that meets an object leaves it at its last brace. */
  lemma {:induction false} StopObject(n: Node, k: string, depth: int)
    requires Valid(n, Python) && IsObject(n) && depth >= 0
    ensures Stop(Emit(n, k), depth, false, false) == After(k, depth, false)
    decreases n, 0
  {
    match n
    case EmptyObject(pad) =>
      assert (['{'] + (pad + (['}'] + k)))[1..] == pad + (['}'] + k);
      StopSkips(pad, ['}'] + k, depth + 1);
      assert (['}'] + k)[1..] == k;
    case ObjectOf(ms) =>
      assert (['{'] + EmitMembers(ms, k))[1..] == EmitMembers(ms, k);
      StopMembers(ms, k, depth);
  }

  lemma {:induction false} StopElements(es: Elements, k: string, depth: int)
    requires ValidElements(es, Python) && depth >= 1
    ensures Stop(EmitElements(es, k), depth, false, false) == Stop(k, depth, false, false)
    decreases es, 0
  {
    var tail := if es.LastElement? then [']'] + k else [','] + EmitElements(es.rest, k);
    StopSkips(es.lead, Emit(es.node, es.trail + tail), depth);
    StopNode(es.node, es.trail + tail, depth);
    StopSkips(es.trail, tail, depth);
    if es.LastElement? {
      StopSkips([']'], k, depth);
    } else {
      StopSkips([','], EmitElements(es.rest, k), depth);
      StopElements(es.rest, k, depth);
    }
  }

  lemma {:induction false} StopMembers(ms: Members, k: string, depth: int)
    requires ValidMembers(ms, Python) && depth >= 0
    ensures Stop(EmitMembers(ms, k), depth + 1, false, false) == After(k, depth, false)
    decreases ms, 0
  {
    var tail := AfterNode(ms, k);
    StopMemberStart(ms, k, depth + 1);
    StopNode(ms.node, ms.trail + tail, depth + 1);
    StopSkips(ms.trail, tail, depth + 1);
    if ms.LastMember? {
      assert (['}'] + k)[1..] == k;
    } else {
      StopSkips([','], EmitMembers(ms.rest, k), depth + 1);
      StopMembers(ms.rest, k, depth);
    }
  }

  lemma StopMemberStart(ms: Members, k: string, depth: int)
    requires ValidMembers(ms, Python) && depth >= 1
    ensures Stop(EmitMembers(ms, k), depth, false, false)
         == Stop(Emit(ms.node, ms.trail + AfterNode(ms, k)), depth, false, false)
  {
    var node := Emit(ms.node, ms.trail + AfterNode(ms, k));
    StopSkips(ms.lead, ['"'] + EmitItems(ms.key, AfterKey(ms, k)), depth);
    StopQuoted(ms.key, AfterKey(ms, k), depth);
    StopSkips(ms.mid, [':'] + (ms.gap + node), depth);
    StopSkips([':'], ms.gap + node, depth);
    StopSkips(ms.gap, node, depth);
  }

  // ---------- the scan agrees with the search ----------

  lemma ValidInPython(n: Node, d: Dialect)
    requires Valid(n, d)
    ensures Valid(n, Python)
  {
    StrictExactly(n);
  }

  /** If `text[s..e]` is an object, the pass from `s` stops at `e` and nowhere earlier. */
  lemma ObjectStopsPass(text: string, s: int, e: int, d: Dialect)
    requires ObjectAt(text, s, e, d)
    ensures Stop(text[s..], 0, false, false) == Some(text[e..])
    ensures text[s] == '{' && s < e
  {
    var n :| Valid(n, d) && IsObject(n) && Emit(n, "") == text[s..e];
    ValidInPython(n, d);
    EmitAppend(n, "", text[e..]);
    assert "" + text[e..] == text[e..];
    assert text[s..] == text[s..e] + text[e..];
    StopObject(n, text[e..], 0);
  }

  /** At most one object starts at any position. */
  lemma ObjectEndUnique(text: string, s: int, e: int, e': int, d: Dialect)
    requires ObjectAt(text, s, e, d) && ObjectAt(text, s, e', d)
    ensures e == e'
  {
    ObjectStopsPass(text, s, e, d);
    ObjectStopsPass(text, s, e', d);
    assert |text[e..]| == |text[e'..]|;
  }

  lemma FirstObjectUnique(text: string, a: Option<Value>, b: Option<Value>, d: Dialect)
    requires FirstObject(text, a, d) && FirstObject(text, b, d)
    ensures a == b
  {
  }

  /** A text from one brace to another that parses is an object. */
  lemma BracedTextIsObject(t: string, v: Value)
    requires |t| > 1 && t[0] == '{' && t[|t| - 1] == '}'
    requires Loads(t, Python) == Some(v)
    ensures ObjectText(t, Python) && v.Object?
  {
    var doc := LoadsHasDocument(t, Python);
    EmitAppend(doc.node, "", doc.trail);
    assert "" + doc.trail == doc.trail;
    Unpadded(doc.lead, Emit(doc.node, ""), doc.trail, t);
    FirstChar(doc.node, "", Python);
  }

  lemma Unpadded(lead: string, body: string, trail: string, t: string)
    requires Spaces(lead) && Spaces(trail) && t == lead + (body + trail)
    requires |t| > 1 && t[0] == '{' && t[|t| - 1] == '}'
    ensures t == body
  {
    PaddingShows(lead, body, trail);
    assert lead == [] && trail == [];
  }

  lemma PaddingShows(lead: string, body: string, trail: string)
    requires Spaces(lead) && Spaces(trail)
    ensures var t := lead + (body + trail);
      && (lead != [] ==> IsSpace(t[0]))
      && (trail != [] ==> IsSpace(t[|t| - 1]))
  {
    var t := lead + (body + trail);
    if trail != [] {
      assert t[|t| - 1] == trail[|trail| - 1];
    }
  }

  lemma ObjectTextParses(t: string)
    requires ObjectText(t, Python)
    ensures Loads(t, Python).Some? && Loads(t, Python).value.Object?
  {
    var n :| Valid(n, Python) && IsObject(n) && Emit(n, "") == t;
    LoadsIsDenotation(Document("", n, ""), Python);
    assert DocumentText(Document("", n, "")) == t;
  }

  /** Python's `text.find("{", from)`. */
  function Find(text: string, from: nat): (r: int)
    ensures r == -1 || from <= r < |text|
    ensures r != -1 ==> text[r] == '{'
    ensures forall i :: from <= i < |text| && (r == -1 || i < r) ==> text[i] != '{'
    decreases |text| - from
  {
    if from >= |text| then -1 else if text[from] == '{' then from else Find(text, from + 1)
  }

  /** A pass that never stops, or stops at text the parser rejects, rules its start out. */
  lemma FailedPass(text: string, start: nat, i: nat)
    requires start <= i <= |text|
    requires Stop(text[start..], 0, false, false) == None ||
             (Stop(text[start..], 0, false, false) == Some(text[i..]) && Loads(text[start..i], Python) == None)
    ensures forall e :: !ObjectAt(text, start, e, Python)
  {
    forall e | ObjectAt(text, start, e, Python) ensures false {
      ObjectStopsPass(text, start, e, Python);
      assert |text[e..]| == |text[i..]|;
      ObjectTextParses(text[start..e]);
    }
  }

  ghost predicate NoneBefore(text: string, start: nat)
  {
    forall s, e :: ObjectAt(text, s, e, Python) ==> start <= s
  }

  /** A pass that stops at text the parser accepts has found an object. */
  lemma SuccessfulPass(text: string, start: nat, i: nat, v: Value)
    requires start + 1 < i <= |text| && text[start] == '{' && text[i - 1] == '}'
    requires Loads(text[start..i], Python) == Some(v)
    requires NoneBefore(text, start)
    ensures v.Object? && FirstObject(text, Some(v), Python)
  {
    BracedTextIsObject(text[start..i], v);
    assert ObjectAt(text, start, i, Python);
    forall s, e | ObjectAt(text, s, e, Python) && s == start ensures e == i {
      ObjectEndUnique(text, s, e, i, Python);
    }
  }

  lemma ObjectsStartAtBraces(text: string)
    ensures forall s, e :: ObjectAt(text, s, e, Python) ==> s < |text| && text[s] == '{'
  {
    forall s, e | ObjectAt(text, s, e, Python) ensures s < |text| && text[s] == '{' {
      ObjectStopsPass(text, s, e, Python);
    }
  }

  /** `loads` is the library parser: its value, or None where it raises ValueError. */
  ghost predicate IsLoads(loads: string -> Option<Value>)
  {
    forall t :: loads(t) == Loads(t, Python)
  }

  method ExtractJsonObject(text: string, loads: string -> Option<Value>) returns (r: Option<Value>)
    requires IsLoads(loads)
    ensures FirstObject(text, r, Python)
  {
    ObjectsStartAtBraces(text);
    var start := Find(text, 0);
    while start != -1
      invariant start == -1 || (0 <= start < |text| && text[start] == '{')
      invariant forall s, e :: ObjectAt(text, s, e, Python) ==> start != -1 && start <= s
      decreases if start == -1 then 0 else |text| - start
    {
      var depth, inStr, esc, i := 0, false, false, start;
      while i < |text|
        invariant start <= i <= |text|
        invariant Stop(text[start..], 0, false, false) == Stop(text[i..], depth, inStr, esc)
        invariant i > start || (depth == 0 && !inStr)
      {
        var ch := text[i];
        assert text[i..][0] == ch && text[i..][1..] == text[i + 1..];
        i := i + 1;
        if inStr {
          if esc {
            esc := false;
          } else if ch == '\\' {
            esc := true;
          } else if ch == '"' {
            inStr := false;
          }
          continue;
        }
        if ch == '"' {
          inStr := true;
        } else if ch == '{' {
          depth := depth + 1;
        } else if ch == '}' {
          depth := depth - 1;
          if depth == 0 {
            var parsed := loads(text[start..i]);
            if parsed.None? {
              break;
            }
            assert NoneBefore(text, start);
            SuccessfulPass(text, start, i, parsed.value);
            return if parsed.value.Object? then parsed else None;
          }
        }
      }
      FailedPass(text, start, i);
      start := Find(text, start + 1);
    }
    return None;
  }

  /** Prose without braces, a printed object and any suffix yield that object. */
  lemma ProseObjectSuffix(prose: string, v: Value, suffix: string)
    requires '{' !in prose && v.Object? && Printable(v)
    ensures FirstObject(prose + Dumps(v) + suffix, Some(v), Python)
  {
    var text := prose + Dumps(v) + suffix;
    var s, e := |prose|, |prose| + |Dumps(v)|;
    assert text[s..e] == Dumps(v);
    PrintThenParse(v, "", "", Python);
    assert "" + Dumps(v) == Dumps(v);
    PrintDenotes(v, Python);
    assert ObjectAt(text, s, e, Python);
    assert forall i :: 0 <= i < s ==> text[i] == prose[i];
    forall s', e' | ObjectAt(text, s', e', Python) ensures s < s' || (s == s' && e == e') {
      ObjectStopsPass(text, s', e', Python);
      if s' == s {
        ObjectEndUnique(text, s, e, e', Python);
      }
    }
  }
}
