/** The scanner reads Python's dialect of JSON. When that differs from a search for objects
    of the standard (agent_loop.py 96-132; RFC 8259, sections 3, 4 and 7). */
module StrictSearch {
  import opened Common
  import opened Json
  import opened ActionParser

  lemma TreeValue(n: Node, t: string, d: Dialect)
    requires Valid(n, d) && IsObject(n) && Emit(n, "") == t
    ensures ObjectText(t, d) && Loads(t, d) == Some(Denote(n))
  {
    LoadsIsDenotation(Document("", n, ""), d);
    assert DocumentText(Document("", n, "")) == t;
  }

  /** What a standard object is for Python. */
  lemma StrictTextExactly(t: string)
    ensures ObjectText(t, Rfc8259) <==>
      ObjectText(t, Python) && Loads(t, Python).Some? && Printable(Loads(t, Python).value)
    ensures ObjectText(t, Rfc8259) ==> Loads(t, Rfc8259) == Loads(t, Python)
  {
    if ObjectText(t, Rfc8259) {
      var n :| Valid(n, Rfc8259) && IsObject(n) && Emit(n, "") == t;
      StrictExactly(n);
      TreeValue(n, t, Rfc8259);
      TreeValue(n, t, Python);
    }
    if ObjectText(t, Python) {
      var n :| Valid(n, Python) && IsObject(n) && Emit(n, "") == t;
      StrictExactly(n);
      TreeValue(n, t, Python);
    }
  }

  lemma StrictAtExactly(text: string, s: int, e: int)
    ensures ObjectAt(text, s, e, Rfc8259) ==> ObjectAt(text, s, e, Python)
  {
    if 0 <= s <= e <= |text| {
      StrictTextExactly(text[s..e]);
    }
  }

  /** In either dialect a search has an answer. */
  lemma SearchAnswers(text: string, d: Dialect) returns (r: Option<Value>)
    ensures FirstObject(text, r, d)
  {
    r := SearchFrom(text, 0, d);
  }

  lemma {:induction false} SearchFrom(text: string, from: nat, d: Dialect) returns (r: Option<Value>)
    requires from <= |text| + 1 && forall s, e :: ObjectAt(text, s, e, d) ==> from <= s
    ensures FirstObject(text, r, d)
    decreases |text| + 1 - from
  {
    if from > |text| {
      r := None;
    } else if e: int :| ObjectAt(text, from, e, d) {
      var t := text[from..e];
      var n :| Valid(n, d) && IsObject(n) && Emit(n, "") == t;
      TreeValue(n, t, d);
      r := Some(Denote(n));
      forall s', e' | ObjectAt(text, s', e', d) ensures from < s' || (from == s' && e == e') {
        if s' == from {
          ObjectEndUnique(text, from, e, e', d);
        }
      }
    } else {
      r := SearchFrom(text, from + 1, d);
    }
  }

  /** The object at which the search in Python's dialect stops is one of the standard. */
  ghost predicate FoundIsStrict(text: string)
  {
    exists s, e ::
      && ObjectAt(text, s, e, Rfc8259)
      && forall s', e' :: ObjectAt(text, s', e', Python) ==> s < s' || (s == s' && e == e')
  }

  /** The found value tells whether its text is standard. */
  lemma FoundExactly(text: string, v: Value)
    requires FirstObject(text, Some(v), Python)
    ensures FoundIsStrict(text) <==> Printable(v)
  {
    var s, e :| ObjectAt(text, s, e, Python) && Loads(text[s..e], Python) == Some(v)
      && forall s', e' :: ObjectAt(text, s', e', Python) ==> s < s' || (s == s' && e == e');
    StrictTextExactly(text[s..e]);
    assert ObjectAt(text, s, e, Rfc8259) <==> Printable(v);
    if FoundIsStrict(text) {
      var s1, e1 :| ObjectAt(text, s1, e1, Rfc8259)
        && forall s', e' :: ObjectAt(text, s', e', Python) ==> s1 < s' || (s1 == s' && e1 == e');
      StrictAtExactly(text, s1, e1);
      assert s == s1 && e == e1;
    }
  }

  /** What the strict search finds is made of numerals. */
  lemma StrictFindsPrintable(text: string, v: Value)
    requires FirstObject(text, Some(v), Rfc8259)
    ensures Printable(v)
  {
    var s, e :| ObjectAt(text, s, e, Rfc8259) && Loads(text[s..e], Rfc8259) == Some(v);
    StrictTextExactly(text[s..e]);
  }

  /** The scanner's answer is that of the search for standard objects if and only if it finds
      nothing, or finds an object of the standard. */
  lemma ScanAgreesExactly(text: string, r: Option<Value>, strict: Option<Value>)
    requires FirstObject(text, r, Python) && FirstObject(text, strict, Rfc8259)
    ensures r == strict <==> r.None? || FoundIsStrict(text)
    ensures r.Some? ==> (FoundIsStrict(text) <==> Printable(r.value))
  {
    if r.None? {
      forall s, e ensures !ObjectAt(text, s, e, Rfc8259) {
        StrictAtExactly(text, s, e);
      }
    } else {
      FoundExactly(text, r.value);
      if Printable(r.value) {
        StrictIsFirst(text, r.value);
        FirstObjectUnique(text, r, strict, Rfc8259);
      } else if strict.Some? {
        StrictFindsPrintable(text, strict.value);
      }
    }
  }

  lemma StrictIsFirst(text: string, v: Value)
    requires FirstObject(text, Some(v), Python) && Printable(v)
    ensures FirstObject(text, Some(v), Rfc8259)
  {
    var s, e :| ObjectAt(text, s, e, Python) && Loads(text[s..e], Python) == Some(v)
      && forall s', e' :: ObjectAt(text, s', e', Python) ==> s < s' || (s == s' && e == e');
    StrictTextExactly(text[s..e]);
    forall s', e' | ObjectAt(text, s', e', Rfc8259) ensures s < s' || (s == s' && e == e') {
      StrictAtExactly(text, s', e');
    }
  }

  // ---------- where they differ ----------

  const NOT_A_NUMBER := "{\"a\":NaN}"
  const STANDARD := "{\"b\":1}"

  function Single(name: char, node: Node): Node
  {
    ObjectOf(LastMember("", [Plain(name)], "", "", node, ""))
  }

  lemma OneItem(c: char, k: string)
    ensures EmitItems([Plain(c)], k) == [c] + (['"'] + k)
    ensures Decode([Plain(c)]) == Units(c)
  {
    assert [Plain(c)][1..] == [];
    assert Units(c) + [] == Units(c);
  }

  lemma SingleText(name: char, node: Node)
    ensures Emit(Single(name, node), "") == ['{', '"', name, '"', ':'] + Emit(node, "}")
    ensures Decode([Plain(name)]) == Units(name)
  {
    var value := Emit(node, "}");
    assert "" + (['}'] + "") == "}";
    assert "" + ([':'] + ("" + value)) == [':'] + value;
    OneItem(name, [':'] + value);
    assert Emit(Single(name, node), "") == ['{'] + ("" + (['"'] + EmitItems([Plain(name)], [':'] + value)));
  }

  lemma NotANumberText()
    ensures ObjectText(NOT_A_NUMBER, Python) && !ObjectText(NOT_A_NUMBER, Rfc8259)
    ensures Loads(NOT_A_NUMBER, Python) == Some(Object([Member([0x61], Number("NaN"))]))
  {
    var n := Single('a', Word("NaN"));
    SingleText('a', Word("NaN"));
    assert ValidItems([Plain('a')]);
    TreeValue(n, NOT_A_NUMBER, Python);
    var m := Member([0x61], Number("NaN"));
    ScalarText(Word("NaN"), Python);
    assert m in [m] && !Printable(m.value);
    assert Denote(n) == Object([m]);
    StrictTextExactly(NOT_A_NUMBER);
  }

  lemma StandardText()
    ensures ObjectText(STANDARD, Rfc8259)
    ensures Loads(STANDARD, Rfc8259) == Some(Object([Member([0x62], Number("1"))]))
  {
    var n := Single('b', Numeral("1"));
    SingleText('b', Numeral("1"));
    assert "1"[1..] == [];
    assert IsNumeral("1");
    TreeValue(n, STANDARD, Rfc8259);
    assert Denote(n) == Object([Member([0x62], Number("1"))]);
  }

  lemma TwoBraces(text: string, s: int)
    requires text == NOT_A_NUMBER + " " + STANDARD && 0 <= s < |text| && text[s] == '{'
    ensures s == 0 || s == 10
  {
    assert text == "{\"a\":NaN} {\"b\":1}";
  }

  lemma TwoPieces(text: string)
    requires text == NOT_A_NUMBER + " " + STANDARD
    ensures |text| == 17 && text[0..9] == NOT_A_NUMBER && text[10..17] == STANDARD
  {
  }

  /** In a text that starts with the one and goes on with the other, the strict search passes
      over the first. */
  lemma PassedOver(text: string, s: int, e: int)
    requires text == NOT_A_NUMBER + " " + STANDARD && ObjectAt(text, s, e, Rfc8259)
    ensures s == 10 && e == 17
  {
    TwoPieces(text);
    StrictAtExactly(text, s, e);
    ObjectStopsPass(text, s, e, Python);
    TwoBraces(text, s);
    if s == 0 {
      NotANumberText();
      ObjectEndUnique(text, 0, 9, e, Python);
    } else {
      StandardText();
      StrictAtExactly(text, 10, 17);
      ObjectEndUnique(text, 10, 17, e, Python);
    }
  }

  /** On this text the scanner stops at an object that the standard does not know, and the
      strict search goes on to the next one. */
  lemma NotANumberFirst()
    ensures var text := NOT_A_NUMBER + " " + STANDARD;
      && FirstObject(text, Some(Object([Member([0x61], Number("NaN"))])), Python)
      && FirstObject(text, Some(Object([Member([0x62], Number("1"))])), Rfc8259)
  {
    var text := NOT_A_NUMBER + " " + STANDARD;
    NotANumberText();
    StandardText();
    TwoPieces(text);
    assert ObjectAt(text, 0, 9, Python) && ObjectAt(text, 10, 17, Rfc8259);
    forall s, e | ObjectAt(text, s, e, Python) ensures 0 < s || (0 == s && 9 == e) {
      if s == 0 {
        ObjectEndUnique(text, 0, 9, e, Python);
      }
    }
    forall s, e | ObjectAt(text, s, e, Rfc8259) ensures 10 < s || (10 == s && 17 == e) {
      PassedOver(text, s, e);
    }
  }
}
