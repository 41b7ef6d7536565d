/** The browser's side of the push stream (app.js 1020-1053): however the bytes are cut
    into chunks, the client merges exactly the events of the complete frames, in order. */
module NotificationClients {
  import opened Common
  import opened Json
  import opened Notifications
  import opened NotificationStreams
  import opened EventStreams

  // ---------- one line ----------

  /** What JavaScript's `trim` removes. */
  predicate IsJsBlank(c: char)
  {
    var n := c as int;
    9 <= n <= 13 || n == 32 || n == 0xA0 || n == 0x1680 || 0x2000 <= n <= 0x200A ||
    n == 0x2028 || n == 0x2029 || n == 0x202F || n == 0x205F || n == 0x3000 || n == 0xFEFF
  }

  function TrimStart(s: string): string
  {
    if s != "" && IsJsBlank(s[0]) then TrimStart(s[1..]) else s
  }

  function TrimEnd(s: string): string
  {
    if s != "" && IsJsBlank(s[|s| - 1]) then TrimEnd(s[..|s| - 1]) else s
  }

  function Trim(s: string): string { TrimEnd(TrimStart(s)) }

  /** `JSON.parse`: the value, or None where it throws. */
  ghost predicate IsParse(parse: string -> Option<Value>)
  {
    forall t :: parse(t) == Loads(t, Rfc8259)
  }

  function LineValue(parse: string -> Option<Value>, line: string): Option<Value>
  {
    if "data:" <= line then parse(Trim(line[5..])) else None
  }

  function LineValues(parse: string -> Option<Value>, lines: seq<string>): seq<Value>
  {
    if lines == [] then [] else
      var v := LineValue(parse, End(lines));
      LineValues(parse, Init(lines)) + if v.Some? then [v.value] else []
  }

  /** The values of a list of frames, in order. */
  function Received(parse: string -> Option<Value>, parts: seq<string>): seq<Value>
  {
    if parts == [] then [] else Received(parse, Init(parts)) + LineValues(parse, Lines(End(parts)))
  }

  lemma {:induction false} ReceivedConcat(parse: string -> Option<Value>, a: seq<string>, b: seq<string>)
    ensures Received(parse, a + b) == Received(parse, a) + Received(parse, b)
  {
    if b == [] {
      assert a + b == a;
    } else {
      assert Init(a + b) == a + Init(b) && End(a + b) == End(b);
      ReceivedConcat(parse, a, Init(b));
      ConcatAssociates(Received(parse, a), Received(parse, Init(b)), LineValues(parse, Lines(End(b))));
    }
  }

  // ---------- merging into the list ----------

  datatype Notice = Notice(id: Str, body: Value)

  /** `ev.id`, where the event has one. */
  function NoticeId(v: Value): Option<Str>
  {
    if !v.Object? then None else
      match Lookup(v.members, Name("id"))
      case Some(String(s)) => if s == [] then None else Some(s)
      case _ => None
  }

  function Replaced(list: seq<Notice>, n: Notice): (r: seq<Notice>)
    ensures |r| == |list|
    ensures forall i :: 0 <= i < |r| ==> r[i] == if list[i].id == n.id then n else list[i]
  {
    if list == [] then []
    else Replaced(Init(list), n) + [if End(list).id == n.id then n else End(list)]
  }

  function Merge(list: seq<Notice>, v: Value): seq<Notice>
  {
    match NoticeId(v)
    case None => list
    case Some(id) =>
      if exists n :: n in list && n.id == id then Replaced(list, Notice(id, v)) else [Notice(id, v)] + list
  }

  function MergeAll(list: seq<Notice>, values: seq<Value>): seq<Notice>
  {
    if values == [] then list else Merge(MergeAll(list, Init(values)), End(values))
  }

  lemma {:induction false} MergeAllConcat(list: seq<Notice>, a: seq<Value>, b: seq<Value>)
    ensures MergeAll(list, a + b) == MergeAll(MergeAll(list, a), b)
  {
    if b == [] {
      assert a + b == a;
    } else {
      assert Init(a + b) == a + Init(b) && End(a + b) == End(b);
      MergeAllConcat(list, a, Init(b));
    }
  }

  method MergeNotification(notifications0: seq<Notice>, ev: Value) returns (notifications: seq<Notice>)
    ensures notifications == Merge(notifications0, ev)
  {
    var id := NoticeId(ev);
    if id.None? {
      return notifications0;
    }
    var found, mapped := false, [];
    for i := 0 to |notifications0|
      invariant found <==> exists j :: 0 <= j < i && notifications0[j].id == id.value
      invariant mapped == Replaced(notifications0[..i], Notice(id.value, ev))
    {
      var n := notifications0[i];
      assert Init(notifications0[..i + 1]) == notifications0[..i] && End(notifications0[..i + 1]) == n;
      if n.id == id.value {
        found := true;
        mapped := mapped + [Notice(id.value, ev)];
      } else {
        mapped := mapped + [n];
      }
    }
    assert notifications0[..|notifications0|] == notifications0;
    notifications := mapped;
    if !found {
      NothingReplaced(notifications0, Notice(id.value, ev));
      notifications := [Notice(id.value, ev)] + notifications;
    }
  }

  lemma NothingReplaced(list: seq<Notice>, n: Notice)
    requires forall i :: 0 <= i < |list| ==> list[i].id != n.id
    ensures Replaced(list, n) == list
  {
  }

  // ---------- the read loop ----------

  function Concat(chunks: seq<string>): string
  {
    if chunks == [] then "" else Concat(Init(chunks)) + End(chunks)
  }

  lemma LineStep(parse: string -> Option<Value>, lines: seq<string>, i: nat, list: seq<Notice>)
    requires i < |lines|
    ensures var v, before := LineValue(parse, lines[i]), MergeAll(list, LineValues(parse, lines[..i]));
      MergeAll(list, LineValues(parse, lines[..i + 1])) == if v.Some? then Merge(before, v.value) else before
  {
    var before, v := LineValues(parse, lines[..i]), LineValue(parse, lines[i]);
    assert Init(lines[..i + 1]) == lines[..i] && End(lines[..i + 1]) == lines[i];
    if v.Some? {
      assert Init(before + [v.value]) == before;
    } else {
      assert before + [] == before;
    }
  }

  method ConsumeFrame(parse: string -> Option<Value>, frame: string, notifications0: seq<Notice>)
    returns (notifications: seq<Notice>)
    ensures notifications == MergeAll(notifications0, LineValues(parse, Lines(frame)))
  {
    notifications := notifications0;
    var lines := Lines(frame);
    for i := 0 to |lines|
      invariant notifications == MergeAll(notifications0, LineValues(parse, lines[..i]))
    {
      LineStep(parse, lines, i, notifications0);
      if "data:" <= lines[i] {
        var parsed := parse(Trim(lines[i][5..]));
        if parsed.Some? {
          notifications := MergeNotification(notifications, parsed.value);
        }
      }
    }
    assert lines[..|lines|] == lines;
  }

  method ConsumeFrames(parse: string -> Option<Value>, parts: seq<string>, notifications0: seq<Notice>)
    returns (notifications: seq<Notice>)
    ensures notifications == MergeAll(notifications0, Received(parse, parts))
  {
    notifications := notifications0;
    for j := 0 to |parts|
      invariant notifications == MergeAll(notifications0, Received(parse, parts[..j]))
    {
      assert Init(parts[..j + 1]) == parts[..j] && End(parts[..j + 1]) == parts[j];
      MergeAllConcat(notifications0, Received(parse, parts[..j]), LineValues(parse, Lines(parts[j])));
      notifications := ConsumeFrame(parse, parts[j], notifications);
    }
    assert parts[..|parts|] == parts;
  }

  /** What the list is once a text has arrived, however it came. */
  function AfterText(parse: string -> Option<Value>, text: string, list: seq<Notice>): seq<Notice>
  {
    MergeAll(list, Received(parse, Init(Split(text))))
  }

  lemma FeedStep(parse: string -> Option<Value>, text: string, chunk: string, list: seq<Notice>)
    ensures var parts := Split(End(Split(text)) + chunk);
      && End(Split(text + chunk)) == End(parts)
      && AfterText(parse, text + chunk, list) == MergeAll(AfterText(parse, text, list), Received(parse, Init(parts)))
  {
    var done, parts := Init(Split(text)), Split(End(Split(text)) + chunk);
    SplitResumes(text, chunk);
    assert Init(done + parts) == done + Init(parts) && End(done + parts) == End(parts);
    ReceivedConcat(parse, done, Init(parts));
    MergeAllConcat(list, Received(parse, done), Received(parse, Init(parts)));
  }

  /** One connection, from the first chunk to the last. */
  method StreamNotificationsOnce(
    parse: string -> Option<Value>, chunks: seq<string>, notifications0: seq<Notice>)
    returns (notifications: seq<Notice>)
    ensures notifications == AfterText(parse, Concat(chunks), notifications0)
  {
    notifications := notifications0;
    var buf := "";
    assert Init([""]) == [];
    for i := 0 to |chunks|
      invariant buf == End(Split(Concat(chunks[..i])))
      invariant notifications == AfterText(parse, Concat(chunks[..i]), notifications0)
    {
      assert Init(chunks[..i + 1]) == chunks[..i] && End(chunks[..i + 1]) == chunks[i];
      FeedStep(parse, Concat(chunks[..i]), chunks[i], notifications0);
      buf := buf + chunks[i];
      var parts := Split(buf);
      buf := End(parts);
      parts := Init(parts);
      notifications := ConsumeFrames(parse, parts, notifications);
    }
    assert chunks[..|chunks|] == chunks;
  }

  // ---------- a printed frame reads back ----------

  predicate EndsIn(s: string, c: char) { s != "" && s[|s| - 1] == c }

  lemma EmitEnds(n: Node, k: string, c: char)
    requires EndsIn(k, c)
    ensures EndsIn(Emit(n, k), c)
  {
    EmitAppend(n, "", k);
    assert "" + k == k;
  }

  lemma ItemsEnd(items: seq<Item>, k: string, c: char)
    requires EndsIn(k, c)
    ensures EndsIn(EmitItems(items, k), c)
  {
    EmitItemsAppend(items, "", k);
    assert "" + k == k;
  }

  lemma {:induction false} MembersEnd(ms: Members)
    ensures EndsIn(EmitMembers(ms, ""), '}')
  {
    var tail := AfterNode(ms, "");
    if ms.NextMember? {
      MembersEnd(ms.rest);
    }
    EmitEnds(ms.node, ms.trail + tail, '}');
    ItemsEnd(ms.key, AfterKey(ms, ""), '}');
  }

  lemma BracesTrim(text: string)
    requires EndsIn(text, '}') && text[0] == '{'
    ensures Trim(" " + text) == text
  {
    assert (" " + text)[0] == ' ' && (" " + text)[1..] == text;
    assert TrimStart(text) == text;
  }

  lemma DictTrims(e: Event)
    ensures Printable(ToApiDict(e)) && Trim(" " + Dumps(ToApiDict(e))) == Dumps(ToApiDict(e))
  {
    ApiDictPrints(e);
    var ms := PrintMembers(ToApiDict(e).members, "");
    var text := Dumps(ToApiDict(e));
    assert text == ['{'] + EmitMembers(ms, "");
    MembersEnd(ms);
    BracesTrim(text);
  }

  function Dicts(events: seq<Event>): (ds: seq<Value>)
    ensures |ds| == |events|
  {
    seq(|events|, i requires 0 <= i < |events| => ToApiDict(events[i]))
  }

  function FrameValues(f: Frame): seq<Value> { if f.Data? then [ToApiDict(f.event)] else [] }

  lemma FrameReads(parse: string -> Option<Value>, f: Frame)
    requires IsParse(parse)
    ensures LineValues(parse, Lines(Body(f))) == FrameValues(f)
  {
    BodyPlain(f);
    LinesWithout(Body(f));
    assert Init([Body(f)]) == [];
    if f.Data? {
      var dict := ToApiDict(f.event);
      DictTrims(f.event);
      assert "data:" <= Body(f) && Body(f)[5..] == " " + Dumps(dict);
      PrintThenParse(dict, "", "", Rfc8259);
      assert "" + Dumps(dict) == Dumps(dict);
    } else {
      assert Body(f)[0] != "data:"[0];
    }
  }

  lemma SentHead(frames: seq<Frame>)
    requires frames != []
    ensures Dicts(Sent(frames)) == FrameValues(frames[0]) + Dicts(Sent(frames[1..]))
  {
  }

  lemma {:induction false} BodiesRead(parse: string -> Option<Value>, frames: seq<Frame>)
    requires IsParse(parse)
    ensures Received(parse, Bodies(frames)) == Dicts(Sent(frames))
  {
    if frames != [] {
      var body, rest := Body(frames[0]), Bodies(frames[1..]);
      BodiesRead(parse, frames[1..]);
      FrameReads(parse, frames[0]);
      OneFrame(parse, body);
      ReceivedConcat(parse, [body], rest);
      SentHead(frames);
    }
  }

  lemma OneFrame(parse: string -> Option<Value>, body: string)
    ensures Received(parse, [body]) == LineValues(parse, Lines(body))
  {
    assert Init([body]) == [];
  }

  // ---------- what a received value says ----------

  /** The last member of a name is the one that is read. */
  lemma {:induction false} LookupAt(ms: seq<Member>, key: Str, i: nat)
    requires i < |ms| && ms[i].name == key && forall j :: i < j < |ms| ==> ms[j].name != key
    ensures Lookup(ms, key) == Some(ms[i].value)
  {
    if i < |ms| - 1 {
      LookupAt(ms[..|ms| - 1], key, i);
    }
  }

  /** The value tells the event's id, class, resource, creation time and read time, each under its
      own name, and whether it was read. */
  predicate Shows(v: Value, e: Event)
  {
    && v.Object?
    && Lookup(v.members, Name("id")) == Some(String(e.id))
    && Lookup(v.members, Name("event_class")) == Some(String(e.eventClass))
    && Lookup(v.members, Name("resource_id")) == Some(String(e.resourceId))
    && Lookup(v.members, Name("created_at")) == Some(String(e.createdAt))
    && Lookup(v.members, Name("read_at")) == Some(if e.readAt.Some? then String(e.readAt.value) else Null)
    && Lookup(v.members, Name("read")) == Some(Bool(e.readAt.Some?))
  }

  lemma FieldNames()
    ensures |Name("id")| == 2 && |Name("event_class")| == 11 && |Name("resource_id")| == 11
    ensures |Name("created_at")| == 10 && |Name("read_at")| == 7 && |Name("read")| == 4
    ensures Name("event_class") != Name("resource_id")
  {
    assert Name("event_class")[0] == 'e' as int && Name("resource_id")[0] == 'r' as int;
  }

  lemma DictShows(e: Event)
    ensures Shows(ToApiDict(e), e)
  {
    var ms := ToApiDict(e).members;
    FieldNames();
    LookupAt(ms, Name("id"), 0);
    LookupAt(ms, Name("event_class"), 1);
    LookupAt(ms, Name("resource_id"), 2);
    LookupAt(ms, Name("created_at"), 3);
    LookupAt(ms, Name("read_at"), 4);
    LookupAt(ms, Name("read"), 5);
  }

  /** A value shows one event, up to whose it is. */
  lemma ShownIsOne(v: Value, e: Event, e': Event)
    requires Shows(v, e) && Shows(v, e')
    ensures e == e'.(owner := e.owner)
  {
  }

  lemma DictId(e: Event)
    requires e.id != []
    ensures NoticeId(ToApiDict(e)) == Some(e.id)
  {
    DictShows(e);
  }

  /** Whatever part of a stream has arrived, cut into chunks in whatever way, the values the
      client reads are the events of the frames that are complete in it, in order. */
  lemma ChunksDoNotMatter(parse: string -> Option<Value>, frames: seq<Frame>, chunks: seq<string>)
    requires IsParse(parse) && Concat(chunks) <= Wire(frames)
    ensures Received(parse, Init(Split(Concat(chunks))))
         == Dicts(Sent(frames[..Complete(frames, |Concat(chunks)|)]))
    ensures var read, sent := Received(parse, Init(Split(Concat(chunks)))),
                              Sent(frames[..Complete(frames, |Concat(chunks)|)]);
      |read| == |sent| && forall i :: 0 <= i < |read| ==> Shows(read[i], sent[i])
  {
    var n := |Concat(chunks)|;
    assert Concat(chunks) == Wire(frames)[..n];
    PrefixParts(frames, n);
    BodiesRead(parse, frames[..Complete(frames, n)]);
    AllShow(Sent(frames[..Complete(frames, n)]));
  }

  lemma AllShow(events: seq<Event>)
    ensures forall i :: 0 <= i < |events| ==> Shows(Dicts(events)[i], events[i])
  {
    forall i | 0 <= i < |events| ensures Shows(Dicts(events)[i], events[i]) {
      DictShows(events[i]);
    }
  }

  lemma {:induction false} WholeStream(frames: seq<Frame>)
    ensures Complete(frames, |Wire(frames)|) == |frames|
  {
    if frames != [] {
      WholeStream(frames[1..]);
    }
  }

  /** End to end: a connection that ran to its close merges exactly what the server's ticks sent. */
  lemma PushReachesClient(
    parse: string -> Option<Value>, bucket: seq<Event>, owner: Owner, gaps: seq<seq<Op>>, limit: int,
    seen: set<Text>, chunks: seq<string>)
    requires IsParse(parse) && Concat(chunks) == Wire(StreamFrames(bucket, owner, gaps, limit, seen))
    ensures Received(parse, Init(Split(Concat(chunks)))) == Dicts(Emission(bucket, owner, gaps, limit, seen))
    ensures var read, sent := Received(parse, Init(Split(Concat(chunks)))), Emission(bucket, owner, gaps, limit, seen);
      |read| == |sent| && forall i :: 0 <= i < |read| ==> Shows(read[i], sent[i])
  {
    var frames := StreamFrames(bucket, owner, gaps, limit, seen);
    ChunksDoNotMatter(parse, frames, chunks);
    WholeStream(frames);
    assert frames[..|frames|] == frames;
    SentIsEmission(bucket, owner, gaps, limit, seen);
    AllShow(Emission(bucket, owner, gaps, limit, seen));
  }

  // ---------- what the user then sees ----------

  ghost predicate DistinctNotices(list: seq<Notice>)
  {
    forall i, j :: 0 <= i < j < |list| ==> list[i].id != list[j].id
  }

  lemma ReplacedShows(list: seq<Notice>, latest: Notice, n: Notice, i: nat)
    requires i < |list| && list[i].id == latest.id
    ensures n in Replaced(list, latest) <==> n == latest || (n in list && n.id != latest.id)
  {
    var r := Replaced(list, latest);
    assert r[i] == latest;
    if n in list && n.id != latest.id {
      var j :| 0 <= j < |list| && list[j] == n;
      assert r[j] == n;
    }
  }

  lemma ReplacedDistinct(list: seq<Notice>, latest: Notice)
    requires DistinctNotices(list)
    ensures DistinctNotices(Replaced(list, latest))
  {
  }

  lemma MergeShows(list: seq<Notice>, v: Value, n: Notice)
    requires NoticeId(v).Some?
    ensures n in Merge(list, v) <==> n == Notice(NoticeId(v).value, v) || (n in list && n.id != NoticeId(v).value)
    ensures DistinctNotices(list) ==> DistinctNotices(Merge(list, v))
  {
    var latest := Notice(NoticeId(v).value, v);
    if m: Notice :| m in list && m.id == latest.id {
      var i :| 0 <= i < |list| && list[i] == m;
      ReplacedShows(list, latest, n, i);
      if DistinctNotices(list) {
        ReplacedDistinct(list, latest);
      }
    }
  }

  ghost predicate Delivered(events: seq<Event>, n: Notice)
  {
    exists i :: 0 <= i < |events| && n == Notice(events[i].id, ToApiDict(events[i]))
  }

  ghost predicate Untouched(events: seq<Event>, n: Notice)
  {
    forall i :: 0 <= i < |events| ==> events[i].id != n.id
  }

  lemma DeliveredStep(before: seq<Event>, e: Event, n: Notice)
    requires DistinctIds(before + [e])
    ensures DistinctIds(before)
    ensures Delivered(before + [e], n) <==> n == Notice(e.id, ToApiDict(e)) || (Delivered(before, n) && n.id != e.id)
    ensures Untouched(before + [e], n) <==> Untouched(before, n) && n.id != e.id
  {
    var all := before + [e];
    forall i | 0 <= i < |before| ensures before[i] == all[i] && before[i].id != e.id {
      assert all[|before|] == e;
    }
    assert all[|before|] == e;
  }

  /** After a connection the list holds every event it sent, as it was sent, and besides them
      exactly the notices it held before under other ids. */
  lemma {:induction false} DeliveredAreShown(list: seq<Notice>, events: seq<Event>, n: Notice)
    requires DistinctIds(events) && forall i :: 0 <= i < |events| ==> events[i].id != []
    ensures n in MergeAll(list, Dicts(events)) <==> Delivered(events, n) || (n in list && Untouched(events, n))
    ensures DistinctNotices(list) ==> DistinctNotices(MergeAll(list, Dicts(events)))
  {
    if events != [] {
      var before, e := Init(events), End(events);
      assert events == before + [e];
      DeliveredStep(before, e, n);
      DeliveredAreShown(list, before, n);
      assert Init(Dicts(events)) == Dicts(before) && End(Dicts(events)) == ToApiDict(e);
      DictId(e);
      MergeShows(MergeAll(list, Dicts(before)), ToApiDict(e), n);
    }
  }

  /** Each event sent has one notice, which tells all of it; a notice under the id of a sent event
      tells that event. */
  lemma SentIsTold(list: seq<Notice>, events: seq<Event>, i: nat)
    requires DistinctIds(events) && (forall k :: 0 <= k < |events| ==> events[k].id != []) && i < |events|
    ensures exists n :: n in MergeAll(list, Dicts(events)) && n.id == events[i].id
    ensures forall n :: n in MergeAll(list, Dicts(events)) && n.id == events[i].id ==> Shows(n.body, events[i])
  {
    var own := Notice(events[i].id, ToApiDict(events[i]));
    DeliveredAreShown(list, events, own);
    assert Delivered(events, own);
    forall n | n in MergeAll(list, Dicts(events)) && n.id == events[i].id ensures Shows(n.body, events[i]) {
      DeliveredAreShown(list, events, n);
      var k :| 0 <= k < |events| && n == Notice(events[k].id, ToApiDict(events[k]));
      assert k == i;
      DictShows(events[i]);
    }
  }

  // ---------- where notices stand ----------

  /** A known id keeps its place and gets the new event; an unknown one goes first. */
  lemma MergeExactly(list: seq<Notice>, v: Value, id: Str)
    requires NoticeId(v) == Some(id)
    ensures var merged := Merge(list, v);
      if forall i :: 0 <= i < |list| ==> list[i].id != id then merged == [Notice(id, v)] + list
      else |merged| == |list| &&
           forall i :: 0 <= i < |list| ==> merged[i] == if list[i].id == id then Notice(id, v) else list[i]
  {
    if m: Notice :| m in list && m.id == id {
      var i :| 0 <= i < |list| && list[i] == m;
    }
  }

  /** The events as notices, the latest first. */
  function Newest(events: seq<Event>): seq<Notice>
  {
    if events == [] then [] else [Notice(End(events).id, ToApiDict(End(events)))] + Newest(Init(events))
  }

  lemma {:induction false} NewestIds(events: seq<Event>, i: nat)
    requires i < |Newest(events)|
    ensures exists k :: 0 <= k < |events| && Newest(events)[i].id == events[k].id
  {
    if i > 0 {
      NewestIds(Init(events), i - 1);
    }
  }

  /** New events end up on top, the latest first. */
  lemma {:induction false} NewestOnTop(list: seq<Notice>, events: seq<Event>)
    requires DistinctIds(events) && forall i :: 0 <= i < |events| ==> events[i].id != []
    requires forall i, j :: 0 <= i < |events| && 0 <= j < |list| ==> events[i].id != list[j].id
    ensures MergeAll(list, Dicts(events)) == Newest(events) + list
  {
    if events != [] {
      var before, e := Init(events), End(events);
      NewestOnTop(list, before);
      assert Init(Dicts(events)) == Dicts(before) && End(Dicts(events)) == ToApiDict(e);
      NewestStep(list, before, e);
    }
  }

  lemma {:induction false} NewestStep(list: seq<Notice>, before: seq<Event>, e: Event)
    requires e.id != [] && forall j :: 0 <= j < |list| ==> e.id != list[j].id
    requires forall k :: 0 <= k < |before| ==> e.id != before[k].id
    ensures Merge(Newest(before) + list, ToApiDict(e)) == [Notice(e.id, ToApiDict(e))] + Newest(before) + list
  {
    var shown := Newest(before) + list;
    forall i | 0 <= i < |shown| ensures shown[i].id != e.id {
      if i < |Newest(before)| {
        NewestIds(before, i);
      }
    }
    DictId(e);
    MergeExactly(shown, ToApiDict(e), e.id);
  }
}
