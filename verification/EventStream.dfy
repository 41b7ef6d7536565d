/** Server-sent frames and the client's incremental parser of them (notifications.py
    378-411, app.js 1020-1053; HTML Standard, section 9.2.6).

    Printed JSON is ASCII, so bytes and characters of the stream coincide, and a
    chunk may end anywhere in it. */
module EventStreams {
  import opened Common
  import opened Json
  import opened Notifications

  // ---------- printed JSON: plain ASCII on one line ----------

  predicate IsPlain(c: char) { ' ' <= c <= '~' }

  predicate PlainText(s: string) { forall i :: 0 <= i < |s| ==> IsPlain(s[i]) }

  lemma PlainConcat(a: string, b: string)
    requires PlainText(a) && PlainText(b)
    ensures PlainText(a + b)
  {
  }

  lemma {:induction false} ItemsPlain(s: Str, k: string)
    requires PlainText(k)
    ensures PlainText(EmitItems(PrintStr(s), k))
  {
    if s == [] {
      PlainConcat("\"", k);
    } else {
      ItemsPlain(s[1..], k);
      assert PrintStr(s)[1..] == PrintStr(s[1..]);
      PlainConcat(EmitItem(PrintUnit(s[0])), EmitItems(PrintStr(s[1..]), k));
    }
  }

  lemma TokensPlain(s: string, k: string)
    requires Tokens(s) && PlainText(k)
    ensures PlainText(s + k)
  {
  }

  lemma {:induction false} PrintedPlain(v: Value, k: string)
    requires Printable(v) && PlainText(k)
    ensures PlainText(Emit(Print(v), k))
    decreases v, 1
  {
    match v
    case Null => TokensPlain("null", k);
    case Bool(b) => TokensPlain(if b then "true" else "false", k);
    case Number(t) =>
      NumeralTokens(t);
      TokensPlain(t, k);
    case String(s) =>
      ItemsPlain(s, k);
      PlainConcat("\"", EmitItems(PrintStr(s), k));
    case Array(es) => ArrayPlain(es, k);
    case Object(ms) => ObjectPlain(ms, k);
  }

  lemma {:induction false} ArrayPlain(es: seq<Value>, k: string)
    requires Printable(Array(es)) && PlainText(k)
    ensures PlainText(Emit(Print(Array(es)), k))
    decreases Array(es), 0
  {
    if es == [] {
      PlainConcat("[", "" + ([']'] + k));
    } else {
      ElementsPlain(es, "", k);
      PlainConcat("[", EmitElements(PrintElements(es, ""), k));
    }
  }

  lemma {:induction false} ObjectPlain(ms: seq<Member>, k: string)
    requires Printable(Object(ms)) && PlainText(k)
    ensures PlainText(Emit(Print(Object(ms)), k))
    decreases Object(ms), 0
  {
    if ms == [] {
      PlainConcat("{", "" + (['}'] + k));
    } else {
      MembersPlain(ms, "", k);
      PlainConcat("{", EmitMembers(PrintMembers(ms, ""), k));
    }
  }

  lemma {:induction false} ElementsPlain(es: seq<Value>, lead: string, k: string)
    requires es != [] && PlainText(lead) && PlainText(k) && forall e | e in es :: Printable(e)
    ensures PlainText(EmitElements(PrintElements(es, lead), k))
    decreases es, 0
  {
    if |es| == 1 {
      PrintedPlain(es[0], "" + ([']'] + k));
    } else {
      ElementsPlain(es[1..], " ", k);
      PrintedPlain(es[0], "" + ([','] + EmitElements(PrintElements(es[1..], " "), k)));
    }
  }

  lemma {:induction false} MembersPlain(ms: seq<Member>, lead: string, k: string)
    requires ms != [] && PlainText(lead) && PlainText(k) && forall m | m in ms :: Printable(m.value)
    ensures PlainText(EmitMembers(PrintMembers(ms, lead), k))
    decreases ms, 0
  {
    var tail := if |ms| == 1 then ['}'] + k else [','] + EmitMembers(PrintMembers(ms[1..], " "), k);
    if |ms| > 1 {
      MembersPlain(ms[1..], " ", k);
    }
    PrintedPlain(ms[0].value, "" + tail);
    var value := "" + ([':'] + (" " + Emit(Print(ms[0].value), "" + tail)));
    ItemsPlain(ms[0].name, value);
  }

  // ---------- frames ----------

  function Stamp(t: Option<Text>): Value { if t.Some? then String(t.value) else Null }

  function Field(name: string, value: Value): Member { Member(Name(name), value) }

  /** `to_api_dict`: shape only, never content. */
  function ToApiDict(e: Event): Value
  {
    Object([
      Field("id", String(e.id)), Field("event_class", String(e.eventClass)),
      Field("resource_id", String(e.resourceId)), Field("created_at", String(e.createdAt)),
      Field("read_at", Stamp(e.readAt)), Field("read", Bool(e.readAt.Some?))])
  }

  predicate IsScalar(v: Value) { v.String? || v.Bool? || v.Null? }

  lemma ScalarsPrint(ms: seq<Member>)
    requires forall i :: 0 <= i < |ms| ==> IsScalar(ms[i].value)
    ensures Printable(Object(ms))
  {
    forall m | m in ms ensures Printable(m.value) {
      var i :| 0 <= i < |ms| && ms[i] == m;
    }
  }

  lemma ApiDictPrints(e: Event)
    ensures Printable(ToApiDict(e))
  {
    ScalarsPrint(ToApiDict(e).members);
  }

  /** A frame without its closing blank line. */
  function Body(f: Frame): string
  {
    match f
    case Data(e) =>
      ApiDictPrints(e);
      "data: " + Dumps(ToApiDict(e))
    case Ping => ": ping"
  }

  function Wire(frames: seq<Frame>): string
  {
    if frames == [] then "" else Body(frames[0]) + "\n\n" + Wire(frames[1..])
  }

  lemma BodyPlain(f: Frame)
    ensures Body(f) != "" && PlainText(Body(f))
  {
    if f.Data? {
      var dict := ToApiDict(f.event);
      ApiDictPrints(f.event);
      PrintedPlain(dict, "");
      PlainConcat("data: ", Dumps(dict));
    }
  }

  // ---------- splitting ----------

  function Prepend(c: char, parts: seq<string>): (r: seq<string>)
    requires parts != []
    ensures |r| == |parts|
  {
    [[c] + parts[0]] + parts[1..]
  }

  /** `s.split('\n\n')`: the parts between the leftmost separators that do not overlap. */
  function Split(s: string): (parts: seq<string>)
    ensures parts != []
    decreases |s|
  {
    if |s| < 2 then [s]
    else if s[0] == '\n' && s[1] == '\n' then [""] + Split(s[2..])
    else Prepend(s[0], Split(s[1..]))
  }

  /** `s.split('\n')` */
  function Lines(s: string): (lines: seq<string>)
    ensures lines != []
  {
    if s == "" then [s]
    else if s[0] == '\n' then [""] + Lines(s[1..])
    else Prepend(s[0], Lines(s[1..]))
  }

  function Init<T>(s: seq<T>): seq<T>
    requires s != []
  {
    s[..|s| - 1]
  }

  function End<T>(s: seq<T>): T
    requires s != []
  {
    s[|s| - 1]
  }

  lemma {:induction false} OnePart(s: string)
    requires |Split(s)| == 1
    ensures Split(s) == [s]
    decreases |s|
  {
    if |s| >= 2 {
      OnePart(s[1..]);
      assert s == [s[0]] + s[1..];
    }
  }

  lemma PrependInit(c: char, rest: seq<string>, more: seq<string>)
    requires |rest| > 1 && more != []
    ensures Prepend(c, Init(rest) + more) == Init(Prepend(c, rest)) + more
    ensures End(Prepend(c, rest)) == End(rest)
  {
  }

  lemma EmptyPartInit(rest: seq<string>, more: seq<string>)
    requires rest != []
    ensures [""] + (Init(rest) + more) == Init([""] + rest) + more
  {
  }

  /** Splitting can be resumed: only the last part may still change as text arrives. */
  lemma {:induction false} SplitResumes(x: string, y: string)
    ensures Split(x + y) == Init(Split(x)) + Split(End(Split(x)) + y)
    decreases |x|
  {
    if |Split(x)| == 1 {
      OnePart(x);
      assert Init([x]) == [];
    } else {
      var s := x + y;
      if x[0] == '\n' && x[1] == '\n' {
        assert s[2..] == x[2..] + y;
        SplitResumes(x[2..], y);
        EmptyPartInit(Split(x[2..]), Split(End(Split(x[2..])) + y));
      } else {
        assert s[1..] == x[1..] + y && s[0] == x[0] && s[1] == x[1];
        SplitResumes(x[1..], y);
        PrependInit(x[0], Split(x[1..]), Split(End(Split(x[1..])) + y));
      }
    }
  }

  lemma {:induction false} SplitWithout(s: string)
    requires forall i :: 0 <= i < |s| - 1 ==> s[i] != '\n'
    ensures Split(s) == [s]
    decreases |s|
  {
    if |s| >= 2 {
      SplitWithout(s[1..]);
      assert s == [s[0]] + s[1..];
    }
  }

  lemma {:induction false} SplitBody(body: string, rest: string)
    requires '\n' !in body
    ensures Split(body + "\n\n" + rest) == [body] + Split(rest)
  {
    var s := body + "\n\n" + rest;
    if body == "" {
      assert s[0] == '\n' && s[1] == '\n' && s[2..] == rest;
    } else {
      assert s[0] == body[0] && s[1..] == body[1..] + "\n\n" + rest;
      SplitBody(body[1..], rest);
      assert [body[0]] + body[1..] == body;
    }
  }

  lemma {:induction false} LinesWithout(s: string)
    requires '\n' !in s
    ensures Lines(s) == [s]
  {
    if s != "" {
      LinesWithout(s[1..]);
      assert s == [s[0]] + s[1..];
    }
  }

  // ---------- what a prefix of the stream holds ----------

  /** The frames that lie wholly in the first `n` characters. */
  function Complete(frames: seq<Frame>, n: nat): (k: nat)
    ensures k <= |frames|
  {
    if frames == [] || n < |Body(frames[0])| + 2 then 0
    else 1 + Complete(frames[1..], n - |Body(frames[0])| - 2)
  }

  function Bodies(frames: seq<Frame>): seq<string>
  {
    if frames == [] then [] else [Body(frames[0])] + Bodies(frames[1..])
  }

  lemma {:induction false} PrefixParts(frames: seq<Frame>, n: nat)
    requires n <= |Wire(frames)|
    ensures Init(Split(Wire(frames)[..n])) == Bodies(frames[..Complete(frames, n)])
  {
    var s := Wire(frames)[..n];
    if frames == [] {
      assert s == "";
    } else {
      var body, rest := Body(frames[0]), Wire(frames[1..]);
      BodyPlain(frames[0]);
      var m := |body| + 2;
      if n < m {
        PartialFrame(body, rest, n);
        assert frames[..0] == [];
      } else {
        assert s == body + "\n\n" + rest[..n - m];
        PrefixParts(frames[1..], n - m);
        FirstPart(body, rest[..n - m]);
        BodiesUpTo(frames, Complete(frames[1..], n - m));
      }
    }
  }

  lemma FirstPart(body: string, rest: string)
    requires PlainText(body)
    ensures Init(Split(body + "\n\n" + rest)) == [body] + Init(Split(rest))
  {
    SplitBody(body, rest);
  }

  lemma BodiesUpTo(frames: seq<Frame>, k: nat)
    requires k < |frames|
    ensures Bodies(frames[..k + 1]) == [Body(frames[0])] + Bodies(frames[1..][..k])
  {
    assert frames[..k + 1][1..] == frames[1..][..k] && frames[..k + 1][0] == frames[0];
  }

  lemma PartialFrame(body: string, rest: string, n: nat)
    requires PlainText(body) && n < |body| + 2
    ensures Init(Split((body + "\n\n" + rest)[..n])) == []
  {
    var s := (body + "\n\n" + rest)[..n];
    forall i | 0 <= i < |s| - 1 ensures s[i] != '\n' {
      assert s[i] == body[i];
    }
    SplitWithout(s);
  }
}
