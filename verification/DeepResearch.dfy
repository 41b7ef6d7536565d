/** Hybrid retrieval for a research run (deep_research.py): two capped,
    deduplicating scans whose merge is the first twelve distinct passages. */
module DeepResearches {
  import opened Common

  const MAX_PASSAGES := 12

  datatype Passage = Passage(documentId: string, content: string, chunkId: string)

  datatype Hit = Hit(url: string, title: string, snippet: string)

  /** What the model, the index, the search client and the clock answer. A `None` is a
      raised exception; `Late(k)` is the k-th look at the wall clock. */
  datatype Surroundings = Surroundings(
    plan: Option<seq<string>>, corpus: string -> Option<seq<Passage>>, webEnabled: bool,
    web: string -> seq<Hit>, late: nat -> bool, synthesis: seq<Passage> -> Option<string>)
  {
    function Corpus(query: string): Option<seq<Passage>> { corpus(query) }
    function Web(query: string): seq<Hit> { web(query) }
    function Late(k: nat): bool { late(k) }
    function Synthesis(passages: seq<Passage>): Option<string> { synthesis(passages) }
  }

  // ---------- first occurrences ----------

  function ChunkId(p: Passage): string { p.chunkId }

  function Self(s: string): string { s }

  predicate IsFirst<T>(s: seq<T>, id: T -> string, i: nat)
    requires i < |s|
  {
    forall j :: 0 <= j < i ==> id(s[j]) != id(s[i])
  }

  /** The elements no earlier element of which has the same id, in order. */
  function Firsts<T>(s: seq<T>, id: T -> string): seq<T>
  {
    if s == [] then [] else
      var n := |s| - 1;
      Firsts(s[..n], id) + if IsFirst(s, id, n) then [s[n]] else []
  }

  function IdSet<T>(s: seq<T>, id: T -> string): set<string>
  {
    set i | 0 <= i < |s| :: id(s[i])
  }

  /** The elements whose ids are not already known, in order. */
  function Fresh<T>(s: seq<T>, id: T -> string, known: set<string>): seq<T>
  {
    if s == [] then [] else
      var n := |s| - 1;
      Fresh(s[..n], id, known) + if id(s[n]) in known then [] else [s[n]]
  }

  ghost predicate Distinct<T>(s: seq<T>, id: T -> string)
  {
    forall i, j :: 0 <= i < j < |s| ==> id(s[i]) != id(s[j])
  }

  lemma IdSetAppend<T>(s: seq<T>, x: T, id: T -> string)
    ensures IdSet(s + [x], id) == IdSet(s, id) + {id(x)}
  {
    var t := s + [x];
    forall k | k in IdSet(s, id) + {id(x)} ensures k in IdSet(t, id) {
      if k == id(x) {
        assert id(t[|s|]) == k;
      } else {
        var i :| 0 <= i < |s| && id(s[i]) == k;
        assert id(t[i]) == k;
      }
    }
  }

  /** One step of a scan: an element is kept exactly if its id was not seen. */
  lemma FirstsAppend<T>(s: seq<T>, x: T, id: T -> string)
    ensures Firsts(s + [x], id) == Firsts(s, id) + if id(x) in IdSet(s, id) then [] else [x]
  {
    var t := s + [x];
    assert t[..|s|] == s && t[|s|] == x;
    if id(x) in IdSet(s, id) {
      var i :| 0 <= i < |s| && id(s[i]) == id(x);
      assert id(t[i]) == id(x);
    } else {
      forall j | 0 <= j < |s| ensures id(t[j]) != id(x) {
        assert id(s[j]) in IdSet(s, id);
      }
    }
  }

  lemma FreshAppend<T>(s: seq<T>, x: T, id: T -> string, known: set<string>)
    ensures Fresh(s + [x], id, known) == Fresh(s, id, known) + if id(x) in known then [] else [x]
  {
    assert (s + [x])[..|s|] == s;
  }

  /** Distinct ids, and every id that occurs at all. */
  lemma {:induction false} FirstsAreDistinct<T>(s: seq<T>, id: T -> string)
    ensures Distinct(Firsts(s, id), id)
    ensures IdSet(Firsts(s, id), id) == IdSet(s, id)
  {
    if s == [] {
      assert Firsts(s, id) == s;
    } else {
      var before, x := s[..|s| - 1], s[|s| - 1];
      assert s == before + [x];
      FirstsAreDistinct(before, id);
      FirstsAppend(before, x, id);
      IdSetAppend(before, x, id);
      DistinctAppend(Firsts(before, id), x, id);
      if id(x) in IdSet(before, id) {
        assert Firsts(s, id) == Firsts(before, id);
      } else {
        assert Firsts(s, id) == Firsts(before, id) + [x];
      }
    }
  }

  lemma DistinctAppend<T>(s: seq<T>, x: T, id: T -> string)
    requires Distinct(s, id)
    ensures id(x) !in IdSet(s, id) ==> Distinct(s + [x], id)
    ensures IdSet(s + [x], id) == IdSet(s, id) + {id(x)}
  {
    IdSetAppend(s, x, id);
    if id(x) !in IdSet(s, id) {
      forall j | 0 <= j < |s| ensures id(s[j]) != id(x) {
        assert id(s[j]) in IdSet(s, id);
      }
    }
  }

  lemma {:induction false} IdSetConcat<T>(a: seq<T>, b: seq<T>, id: T -> string)
    ensures IdSet(a + b, id) == IdSet(a, id) + IdSet(b, id)
  {
    if b == [] {
      assert a + b == a;
    } else {
      var before, x := b[..|b| - 1], b[|b| - 1];
      assert b == before + [x] && a + b == (a + before) + [x];
      IdSetConcat(a, before, id);
      IdSetAppend(before, x, id);
      IdSetAppend(a + before, x, id);
    }
  }

  lemma {:induction false} FirstsConcat<T>(a: seq<T>, b: seq<T>, id: T -> string)
    ensures Firsts(a + b, id) == Firsts(a, id) + Fresh(Firsts(b, id), id, IdSet(a, id))
  {
    if b == [] {
      assert a + b == a;
    } else {
      var before, x := b[..|b| - 1], b[|b| - 1];
      assert b == before + [x] && a + b == (a + before) + [x];
      FirstsConcat(a, before, id);
      FirstsAppend(a + before, x, id);
      FirstsAppend(before, x, id);
      IdSetConcat(a, before, id);
      var known, kept := IdSet(a, id), Firsts(before, id);
      if id(x) in IdSet(before, id) {
        assert Firsts(b, id) == kept && Firsts(a + b, id) == Firsts(a + before, id);
      } else {
        FreshAppend(kept, x, id, known);
        assert Firsts(b, id) == kept + [x];
        ConcatAssociates(Firsts(a, id), Fresh(kept, id, known), if id(x) in known then [] else [x]);
      }
    }
  }

  lemma {:induction false} FreshConcat<T>(a: seq<T>, b: seq<T>, id: T -> string, known: set<string>)
    ensures Fresh(a + b, id, known) == Fresh(a, id, known) + Fresh(b, id, known)
  {
    if b == [] {
      assert a + b == a;
    } else {
      var before, x := b[..|b| - 1], b[|b| - 1];
      assert b == before + [x] && a + b == (a + before) + [x];
      FreshConcat(a, before, id, known);
      FreshAppend(a + before, x, id, known);
      FreshAppend(before, x, id, known);
    }
  }

  /** At most as many elements of a list with distinct ids are known as there are known ids. */
  lemma {:induction false} FreshAtLeast<T>(s: seq<T>, id: T -> string, known: set<string>)
    requires Distinct(s, id)
    ensures |s| <= |Fresh(s, id, known)| + |known|
  {
    if s != [] {
      var n := |s| - 1;
      if id(s[n]) in known {
        FreshAtLeast(s[..n], id, known - {id(s[n])});
        FreshSame(s[..n], id, known, id(s[n]));
      } else {
        FreshAtLeast(s[..n], id, known);
      }
    }
  }

  lemma {:induction false} FreshSame<T>(s: seq<T>, id: T -> string, known: set<string>, k: string)
    requires forall i :: 0 <= i < |s| ==> id(s[i]) != k
    ensures Fresh(s, id, known) == Fresh(s, id, known - {k})
  {
    if s != [] {
      FreshSame(s[..|s| - 1], id, known, k);
    }
  }

  lemma {:induction false} IdSetSize<T>(s: seq<T>, id: T -> string)
    ensures |IdSet(s, id)| <= |s|
  {
    if s == [] {
      assert IdSet(s, id) == {};
    } else {
      var n := |s| - 1;
      IdSetSize(s[..n], id);
      assert s == s[..n] + [s[n]];
      IdSetAppend(s[..n], s[n], id);
    }
  }

  // ---------- the merge is exact ----------

  function FirstTwelve(found: seq<Passage>): seq<Passage> { Take(Firsts(found, ChunkId), MAX_PASSAGES) }

  /** What the merge loop leaves: the corpus passages, then the web passages with new ids. */
  function Merged(corpus: seq<Passage>, web: seq<Passage>): seq<Passage>
  {
    Take(corpus + Fresh(web, ChunkId, IdSet(corpus, ChunkId)), MAX_PASSAGES)
  }

  lemma MergeOfShort(c: seq<Passage>, w: seq<Passage>)
    requires Distinct(w, ChunkId) && |c| < MAX_PASSAGES
    ensures Merged(c, Take(w, MAX_PASSAGES)) == Merged(c, w)
  {
    if |w| > MAX_PASSAGES {
      var known := IdSet(c, ChunkId);
      IdSetSize(c, ChunkId);
      var head, tail := w[..MAX_PASSAGES], w[MAX_PASSAGES..];
      assert w == head + tail;
      FreshConcat(head, tail, ChunkId, known);
      FreshAtLeast(head, ChunkId, known);
      var kept, beyond := Fresh(head, ChunkId, known), Fresh(tail, ChunkId, known);
      TakeOfLong(c + kept, beyond, MAX_PASSAGES);
      assert c + (kept + beyond) == (c + kept) + beyond;
    }
  }

  lemma MergeOfLong(c: seq<Passage>, w: seq<Passage>)
    requires |c| >= MAX_PASSAGES
    ensures Merged(c, w) == Take(c, MAX_PASSAGES)
  {
    TakeOfLong(c, Fresh(w, ChunkId, IdSet(c, ChunkId)), MAX_PASSAGES);
  }

  /** Although either side is cut to twelve before merging, nothing is lost: the merge is the
      first twelve distinct passages of everything both sides found. */
  lemma MergeIsExact(corpus: seq<Passage>, web: seq<Passage>)
    ensures Merged(FirstTwelve(corpus), FirstTwelve(web)) == FirstTwelve(corpus + web)
  {
    var c, w := Firsts(corpus, ChunkId), Firsts(web, ChunkId);
    FirstsConcat(corpus, web, ChunkId);
    FirstsAreDistinct(corpus, ChunkId);
    FirstsAreDistinct(web, ChunkId);
    assert FirstTwelve(corpus + web) == Merged(c, w);
    if |c| < MAX_PASSAGES {
      MergeOfShort(c, w);
    } else {
      MergeOfLong(c, w);
      MergeOfLong(Take(c, MAX_PASSAGES), Take(w, MAX_PASSAGES));
    }
  }

  lemma TakeOfLong<T>(a: seq<T>, b: seq<T>, n: nat)
    requires |a| >= n
    ensures Take(a + b, n) == Take(a, n)
  {
    assert (a + b)[..n] == a[..n];
  }

  // ---------- the code ----------

  /** The corpus hits up to the first query whose embedding or search raises. */
  function CorpusHits(m: Surroundings, queries: seq<string>): seq<Passage>
  {
    if queries == [] || m.Corpus(queries[0]).None? then []
    else m.Corpus(queries[0]).value + CorpusHits(m, queries[1..])
  }

  predicate CorpusRaises(m: Surroundings, queries: seq<string>)
  {
    exists i :: 0 <= i < |queries| && m.Corpus(queries[i]).None?
  }

  function Trimmed(s: string): string
  {
    if s == "" then ""
    else if s[0] in " \U{2014}" then Trimmed(s[1..])
    else if s[|s| - 1] in " \U{2014}" then Trimmed(s[..|s| - 1])
    else s
  }

  function Adapt(hit: Hit): Passage
  {
    Passage(hit.url, Trimmed(hit.title + " \U{2014} " + hit.snippet), hit.url)
  }

  function Adapted(hits: seq<Hit>): seq<Passage>
  {
    seq(|hits|, i requires 0 <= i < |hits| => Adapt(hits[i]))
  }

  function WebHits(m: Surroundings, queries: seq<string>): seq<Passage>
  {
    if queries == [] then [] else Adapted(m.Web(queries[0])) + WebHits(m, queries[1..])
  }

  /** A scan that has found twelve has found the first twelve. */
  lemma ScanCut(done: seq<Passage>, rest: seq<Passage>)
    requires |Firsts(done, ChunkId)| >= MAX_PASSAGES
    ensures FirstTwelve(done + rest) == FirstTwelve(done)
    ensures |Firsts(done + rest, ChunkId)| >= MAX_PASSAGES
  {
    FirstsConcat(done, rest, ChunkId);
    TakeOfLong(Firsts(done, ChunkId), Fresh(Firsts(rest, ChunkId), ChunkId, IdSet(done, ChunkId)), MAX_PASSAGES);
  }

  /** The loop state after scanning `done`. */
  ghost predicate Scanned(done: seq<Passage>, passages: seq<Passage>, seen: set<string>)
  {
    passages == Firsts(done, ChunkId) && seen == IdSet(done, ChunkId)
  }

  lemma ScanStep(done: seq<Passage>, p: Passage, passages: seq<Passage>, seen: set<string>)
    requires Scanned(done, passages, seen)
    ensures p.chunkId in seen ==> Scanned(done + [p], passages, seen)
    ensures p.chunkId !in seen ==> Scanned(done + [p], passages + [p], seen + {p.chunkId})
  {
    FirstsAppend(done, p, ChunkId);
    IdSetAppend(done, p, ChunkId);
  }

  /** Raises exactly if a query fails before twelve distinct passages are found. */
  function CorpusPassages(m: Surroundings, queries: seq<string>): Option<seq<Passage>>
  {
    var found := FirstTwelve(CorpusHits(m, queries));
    if CorpusRaises(m, queries) && |found| < MAX_PASSAGES then None else Some(found)
  }

  lemma PrefixStep<T>(done: seq<T>, hits: seq<T>, j: nat)
    requires j < |hits|
    ensures done + hits[..j + 1] == done + hits[..j] + [hits[j]]
    ensures done + hits == done + hits[..j + 1] + hits[j + 1..]
  {
    assert hits == hits[..j + 1] + hits[j + 1..] && hits[..j + 1] == hits[..j] + [hits[j]];
  }

  /** The inner loop of both scans; `full` is its early return. */
  method Scan(ghost done: seq<Passage>, hits: seq<Passage>, passages0: seq<Passage>, seen0: set<string>)
    returns (passages: seq<Passage>, seen: set<string>, full: bool)
    requires Scanned(done, passages0, seen0) && |passages0| < MAX_PASSAGES
    ensures full ==> passages == FirstTwelve(done + hits)
    ensures full <==> |Firsts(done + hits, ChunkId)| >= MAX_PASSAGES
    ensures !full ==> Scanned(done + hits, passages, seen)
  {
    passages, seen, full := passages0, seen0, false;
    assert done + hits[..0] == done;
    for j := 0 to |hits|
      invariant Scanned(done + hits[..j], passages, seen) && |passages| < MAX_PASSAGES
    {
      var p := hits[j];
      ScanStep(done + hits[..j], p, passages, seen);
      PrefixStep(done, hits, j);
      if p.chunkId !in seen {
        seen := seen + {p.chunkId};
        passages := passages + [p];
        if |passages| >= MAX_PASSAGES {
          ScanCut(done + hits[..j + 1], hits[j + 1..]);
          full := true;
          return;
        }
      }
    }
    assert hits[..|hits|] == hits;
  }

  lemma CorpusStep(m: Surroundings, queries: seq<string>, i: nat, done: seq<Passage>)
    requires i < |queries| && CorpusHits(m, queries) == done + CorpusHits(m, queries[i..])
    ensures m.Corpus(queries[i]).None? ==> CorpusHits(m, queries) == done
    ensures m.Corpus(queries[i]).Some? ==>
      CorpusHits(m, queries) == (done + m.Corpus(queries[i]).value) + CorpusHits(m, queries[i + 1..])
  {
    var rest := queries[i..];
    assert rest[0] == queries[i] && rest[1..] == queries[i + 1..];
    assert done + [] == done;
    if m.Corpus(queries[i]).Some? {
      ConcatAssociates(done, m.Corpus(queries[i]).value, CorpusHits(m, rest[1..]));
    }
  }

  lemma WebStep(m: Surroundings, queries: seq<string>, i: nat, done: seq<Passage>)
    requires i < |queries| && WebHits(m, queries) == done + WebHits(m, queries[i..])
    ensures WebHits(m, queries) == (done + Adapted(m.Web(queries[i]))) + WebHits(m, queries[i + 1..])
  {
    var rest := queries[i..];
    assert rest[0] == queries[i] && rest[1..] == queries[i + 1..];
    ConcatAssociates(done, Adapted(m.Web(queries[i])), WebHits(m, rest[1..]));
  }

  method Retrieve(m: Surroundings, queries: seq<string>) returns (r: Option<seq<Passage>>)
    ensures r == CorpusPassages(m, queries)
  {
    var seen: set<string>, passages: seq<Passage> := {}, [];
    ghost var done: seq<Passage> := [];
    for i := 0 to |queries|
      invariant CorpusHits(m, queries) == done + CorpusHits(m, queries[i..])
      invariant forall k :: 0 <= k < i ==> m.Corpus(queries[k]).Some?
      invariant Scanned(done, passages, seen) && |passages| < MAX_PASSAGES
    {
      var hits := m.Corpus(queries[i]);
      CorpusStep(m, queries, i, done);
      if hits.None? {
        return None;
      }
      var full;
      passages, seen, full := Scan(done, hits.value, passages, seen);
      done := done + hits.value;
      if full {
        ScanCut(done, CorpusHits(m, queries[i + 1..]));
        return Some(passages);
      }
    }
    assert CorpusHits(m, queries) == done;
    return Some(passages);
  }

  method RetrieveWeb(m: Surroundings, queries: seq<string>) returns (passages: seq<Passage>)
    ensures passages == FirstTwelve(WebHits(m, queries))
  {
    var seen: set<string> := {};
    passages := [];
    ghost var done: seq<Passage> := [];
    for i := 0 to |queries|
      invariant WebHits(m, queries) == done + WebHits(m, queries[i..])
      invariant Scanned(done, passages, seen) && |passages| < MAX_PASSAGES
    {
      var hits := Adapted(m.Web(queries[i]));
      WebStep(m, queries, i, done);
      var full;
      passages, seen, full := Scan(done, hits, passages, seen);
      done := done + hits;
      if full {
        ScanCut(done, WebHits(m, queries[i + 1..]));
        return;
      }
    }
    assert WebHits(m, queries) == done;
  }

  /** The merge loop's state after the web passages `web[..i]`. */
  ghost predicate MergedUpTo(
    corpus: seq<Passage>, web: seq<Passage>, passages: seq<Passage>, existing: set<string>)
  {
    && passages == Merged(corpus, web)
    && IdSet(corpus, ChunkId) <= existing <= IdSet(corpus, ChunkId) + IdSet(web, ChunkId)
  }

  lemma MergeStep(corpus: seq<Passage>, web: seq<Passage>, wp: Passage, passages: seq<Passage>, existing: set<string>)
    requires MergedUpTo(corpus, web, passages, existing) && wp.chunkId !in IdSet(web, ChunkId)
    requires |corpus| <= MAX_PASSAGES
    ensures if wp.chunkId !in existing && |passages| < MAX_PASSAGES
      then MergedUpTo(corpus, web + [wp], passages + [wp], existing + {wp.chunkId})
      else MergedUpTo(corpus, web + [wp], passages, existing)
  {
    var known := IdSet(corpus, ChunkId);
    var kept := corpus + Fresh(web, ChunkId, known);
    FreshAppend(web, wp, ChunkId, known);
    IdSetAppend(web, wp, ChunkId);
    if wp.chunkId in existing {
      assert corpus + Fresh(web + [wp], ChunkId, known) == kept;
    } else {
      assert corpus + Fresh(web + [wp], ChunkId, known) == kept + [wp];
    }
  }

  method Merge(corpus: seq<Passage>, web: seq<Passage>) returns (passages: seq<Passage>)
    requires Distinct(web, ChunkId) && |corpus| <= MAX_PASSAGES
    ensures passages == Merged(corpus, web)
  {
    passages := corpus;
    var existing := set p | p in corpus :: p.chunkId;
    assert existing == IdSet(corpus, ChunkId);
    for i := 0 to |web|
      invariant MergedUpTo(corpus, web[..i], passages, existing)
    {
      var wp := web[i];
      MergeStep(corpus, web[..i], wp, passages, existing);
      assert web[..i + 1] == web[..i] + [wp];
      if wp.chunkId !in existing && |passages| < MAX_PASSAGES {
        passages := passages + [wp];
        existing := existing + {wp.chunkId};
      }
    }
    assert web[..|web|] == web;
  }

  /** The cited documents, each once, in the order of their first passage. */
  method CitedSources(passages: seq<Passage>) returns (sources: seq<string>)
    ensures sources == Firsts(DocumentIds(passages), Self)
  {
    sources := [];
    ghost var ids := DocumentIds(passages);
    for i := 0 to |passages|
      invariant sources == Firsts(ids[..i], Self)
    {
      SourceKnown(ids[..i], ids[i]);
      FirstsAppend(ids[..i], ids[i], Self);
      assert ids[..i + 1] == ids[..i] + [ids[i]];
      if passages[i].documentId !in sources {
        sources := sources + [passages[i].documentId];
      }
    }
    assert ids[..|ids|] == ids;
  }

  function DocumentIds(passages: seq<Passage>): (ids: seq<string>)
    ensures |ids| == |passages| && forall i :: 0 <= i < |ids| ==> ids[i] == passages[i].documentId
  {
    seq(|passages|, i requires 0 <= i < |passages| => passages[i].documentId)
  }

  lemma SourceKnown(ids: seq<string>, id: string)
    ensures id in Firsts(ids, Self) <==> id in IdSet(ids, Self)
  {
    FirstsAreDistinct(ids, Self);
    var f := Firsts(ids, Self);
    if id in f {
      var i :| 0 <= i < |f| && f[i] == id;
      assert Self(f[i]) in IdSet(f, Self);
    }
  }

  // ---------- the whole run ----------

  /** Everything both sides found, in the order found. */
  function AllHits(m: Surroundings, queries: seq<string>): seq<Passage>
  {
    CorpusHits(m, queries) + if m.webEnabled then WebHits(m, queries) else []
  }

  datatype Outcome =
    | Completed(answer: string, sources: seq<string>, subqueries: nat)
    | Failed(detail: string, subqueries: nat)

  /** The run as a reader would specify it: the first twelve distinct passages of everything
      found go to the model, and their documents are cited in order. */
  function Research(m: Surroundings): Outcome
  {
    if m.plan.None? then Failed("inference_unavailable", 0)
    else
      var queries := m.plan.value;
      var passages := FirstTwelve(AllHits(m, queries));
      if m.Late(0) then Failed("wall_clock", |queries|)
      else if CorpusPassages(m, queries).None? then Failed("inference_unavailable", 0)
      else if m.Late(1) || (m.webEnabled && m.Late(2)) then Failed("wall_clock", |queries|)
      else if m.Synthesis(passages).None? then Failed("inference_unavailable", 0)
      else Completed(m.Synthesis(passages).value, Firsts(DocumentIds(passages), Self), |queries|)
  }

  /** The events announce the start and then, exactly once, how the run ended. */
  method RunDeepResearch(m: Surroundings) returns (outcome: Outcome, events: seq<string>)
    ensures outcome == Research(m)
    ensures events ==
      ["agent_task_progress", if outcome.Completed? then "agent_task_completed" else "agent_task_failed"]
  {
    events := ["agent_task_progress"];
    if m.plan.None? {
      return Failed("inference_unavailable", 0), events + ["agent_task_failed"];
    }
    var queries := m.plan.value;
    if m.Late(0) {
      return Failed("wall_clock", |queries|), events + ["agent_task_failed"];
    }
    var retrieved := Retrieve(m, queries);
    if retrieved.None? {
      return Failed("inference_unavailable", 0), events + ["agent_task_failed"];
    }
    var passages := retrieved.value;
    if m.Late(1) {
      return Failed("wall_clock", |queries|), events + ["agent_task_failed"];
    }
    if m.webEnabled {
      var found := RetrieveWeb(m, queries);
      FirstsAreDistinct(WebHits(m, queries), ChunkId);
      passages := Merge(passages, found);
      MergeIsExact(CorpusHits(m, queries), WebHits(m, queries));
      if m.Late(2) {
        return Failed("wall_clock", |queries|), events + ["agent_task_failed"];
      }
    } else {
      assert AllHits(m, queries) == CorpusHits(m, queries);
    }
    var answer := m.Synthesis(passages);
    if answer.None? {
      return Failed("inference_unavailable", 0), events + ["agent_task_failed"];
    }
    var sources := CitedSources(passages);
    return Completed(answer.value, sources, |queries|), events + ["agent_task_completed"];
  }

  /** A completed run cites exactly the documents of its passages, each once. */
  lemma CitedOnce(passages: seq<Passage>)
    ensures var sources := Firsts(DocumentIds(passages), Self);
      && Distinct(sources, Self)
      && (forall d: string :: d in sources <==> exists i :: 0 <= i < |passages| && passages[i].documentId == d)
  {
    var ids := DocumentIds(passages);
    FirstsAreDistinct(ids, Self);
    forall d: string
      ensures d in Firsts(ids, Self) <==> exists i :: 0 <= i < |passages| && passages[i].documentId == d
    {
      SourceKnown(ids, d);
      assert d in IdSet(ids, Self) <==> exists i :: 0 <= i < |ids| && ids[i] == d;
    }
  }
}
