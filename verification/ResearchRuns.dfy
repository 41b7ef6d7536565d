/** What a research run comes to, in terms of what the plan, the corpus, the web search, the
    clock and the model answered (deep_research.py 96-246). */
module ResearchRuns {
  import opened Common
  import opened DeepResearches

  // ---------- web hits as passages ----------

  predicate IsRim(c: char) { c == ' ' || c == '\U{2014}' }

  predicate AllRim(s: string) { forall i :: 0 <= i < |s| ==> IsRim(s[i]) }

  lemma {:induction false} TrimmedLeft(a: string, t: string)
    requires AllRim(a)
    ensures Trimmed(a + t) == Trimmed(t)
  {
    if a == "" {
      assert a + t == t;
    } else {
      assert (a + t)[0] == a[0] && (a + t)[1..] == a[1..] + t;
      TrimmedLeft(a[1..], t);
    }
  }

  lemma {:induction false} TrimmedRight(r: string, b: string)
    requires AllRim(b) && r != "" && !IsRim(r[0]) && !IsRim(r[|r| - 1])
    ensures Trimmed(r + b) == r
    decreases |b|
  {
    var n, s := |b| - 1, r + b;
    if b == "" {
      assert s == r;
    } else {
      assert s[0] == r[0] && s[|s| - 1] == b[n] && s[..|s| - 1] == r + b[..n];
      TrimmedRight(r, b[..n]);
    }
  }

  /** Blanks and dashes go from both ends, and nothing else. */
  lemma TrimmedOf(a: string, r: string, b: string)
    requires AllRim(a) && AllRim(b) && (r == "" || (!IsRim(r[0]) && !IsRim(r[|r| - 1])))
    ensures Trimmed(a + r + b) == r
  {
    if r == "" {
      TrimmedLeft(a + b, "");
      assert a + r + b == (a + b) + "";
    } else {
      TrimmedLeft(a, r + b);
      assert a + r + b == a + (r + b);
      TrimmedRight(r, b);
    }
  }

  /** A web hit is cited and told apart by its address, and reads as its title, a dash and its
      snippet; where these do not end in a blank or a dash, exactly so. */
  lemma AdaptedHit(hit: Hit)
    ensures Adapt(hit).documentId == hit.url && Adapt(hit).chunkId == hit.url
    ensures hit.title != "" && hit.snippet != "" && !IsRim(hit.title[0]) && !IsRim(hit.snippet[|hit.snippet| - 1])
      ==> Adapt(hit).content == hit.title + " \U{2014} " + hit.snippet
  {
    var r := hit.title + " \U{2014} " + hit.snippet;
    assert "" + r + "" == r;
    if hit.title != "" && hit.snippet != "" && !IsRim(hit.title[0]) && !IsRim(hit.snippet[|hit.snippet| - 1]) {
      assert r[0] == hit.title[0] && r[|r| - 1] == hit.snippet[|hit.snippet| - 1];
      TrimmedOf("", r, "");
    }
  }

  // ---------- what was found ----------

  predicate CorpusFound(m: Surroundings, queries: seq<string>, p: Passage)
  {
    exists i :: 0 <= i < |queries| && m.Corpus(queries[i]).Some? && p in m.Corpus(queries[i]).value
  }

  predicate WebFound(m: Surroundings, queries: seq<string>, p: Passage)
  {
    exists i, k :: 0 <= i < |queries| && 0 <= k < |m.Web(queries[i])| && p == Adapt(m.Web(queries[i])[k])
  }

  lemma {:induction false} InWebHits(m: Surroundings, queries: seq<string>, p: Passage)
    ensures p in WebHits(m, queries) <==> WebFound(m, queries, p)
  {
    if queries != [] {
      var first, rest := Adapted(m.Web(queries[0])), queries[1..];
      InWebHits(m, rest, p);
      if p in first {
        var k :| 0 <= k < |first| && first[k] == p;
        assert p == Adapt(m.Web(queries[0])[k]);
      }
      if WebFound(m, rest, p) {
        var i, k :| 0 <= i < |rest| && 0 <= k < |m.Web(rest[i])| && p == Adapt(m.Web(rest[i])[k]);
        assert queries[i + 1] == rest[i];
      }
      if WebFound(m, queries, p) {
        var i, k :| 0 <= i < |queries| && 0 <= k < |m.Web(queries[i])| && p == Adapt(m.Web(queries[i])[k]);
        if i == 0 {
          assert first[k] == p;
        } else {
          assert rest[i - 1] == queries[i];
        }
      }
    }
  }

  lemma {:induction false} InCorpusHits(m: Surroundings, queries: seq<string>, p: Passage)
    ensures p in CorpusHits(m, queries) ==> CorpusFound(m, queries, p)
    ensures CorpusFound(m, queries, p) && !CorpusRaises(m, queries) ==> p in CorpusHits(m, queries)
  {
    if queries != [] {
      var rest := queries[1..];
      InCorpusHits(m, rest, p);
      if CorpusFound(m, rest, p) {
        var i :| 0 <= i < |rest| && m.Corpus(rest[i]).Some? && p in m.Corpus(rest[i]).value;
        assert queries[i + 1] == rest[i];
      }
      if CorpusRaises(m, rest) {
        var i :| 0 <= i < |rest| && m.Corpus(rest[i]).None?;
        assert queries[i + 1] == rest[i];
      }
      if CorpusFound(m, queries, p) {
        var i :| 0 <= i < |queries| && m.Corpus(queries[i]).Some? && p in m.Corpus(queries[i]).value;
        assert i > 0 ==> rest[i - 1] == queries[i];
      }
      if m.Corpus(queries[0]).None? {
        assert CorpusRaises(m, queries);
      }
    }
  }

  lemma {:induction false} FirstsAmong<T>(s: seq<T>, id: T -> string, x: T)
    requires x in Firsts(s, id)
    ensures x in s
  {
    var n := |s| - 1;
    if x in Firsts(s[..n], id) {
      FirstsAmong(s[..n], id, x);
    }
  }

  /** The first place of an id, or the length if it does not occur. */
  function Place<T>(s: seq<T>, id: T -> string, x: string): (r: nat)
    ensures r <= |s| && (r < |s| ==> id(s[r]) == x) && forall j :: 0 <= j < r ==> id(s[j]) != x
  {
    if s == [] || id(s[0]) == x then 0 else 1 + Place(s[1..], id, x)
  }

  lemma PlaceKept<T>(s: seq<T>, id: T -> string, x: string, n: nat)
    requires n <= |s|
    ensures Place(s[..n], id, x) < n ==> Place(s, id, x) == Place(s[..n], id, x)
    ensures Place(s[..n], id, x) == n ==> Place(s, id, x) >= n
  {
    var k, l := Place(s[..n], id, x), Place(s, id, x);
    assert k < n ==> id(s[k]) == x;
    assert l < n ==> id(s[..n][l]) == x;
  }

  /** Among the first occurrences, what comes earlier occurs earlier. */
  lemma {:induction false} FirstsRise<T>(s: seq<T>, id: T -> string, i: nat, j: nat)
    requires i < j < |Firsts(s, id)|
    ensures Place(s, id, id(Firsts(s, id)[i])) < Place(s, id, id(Firsts(s, id)[j])) < |s|
  {
    var n := |s| - 1;
    var before := Firsts(s[..n], id);
    var x, y := id(Firsts(s, id)[i]), id(Firsts(s, id)[j]);
    PlaceKept(s, id, x, n);
    PlaceKept(s, id, y, n);
    if j < |before| {
      FirstsRise(s[..n], id, i, j);
    } else {
      FirstsOccur(s[..n], id, i);
      assert IsFirst(s, id, n) && y == id(s[n]);
    }
  }

  lemma FirstsOccur<T>(s: seq<T>, id: T -> string, i: nat)
    requires i < |Firsts(s, id)|
    ensures Place(s, id, id(Firsts(s, id)[i])) < |s|
  {
    var x := Firsts(s, id)[i];
    FirstsAmong(s, id, x);
    var k :| 0 <= k < |s| && s[k] == x;
    assert id(s[k]) == id(x);
  }

  // ---------- the outcome ----------

  /** What the model was given: at most twelve passages with different ids, each found by a planned
      query, and all that was found, up to repeated ids, if there are fewer than twelve. */
  ghost predicate Gathered(m: Surroundings, queries: seq<string>, passages: seq<Passage>)
  {
    && |passages| <= 12
    && (forall i, j :: 0 <= i < j < |passages| ==> passages[i].chunkId != passages[j].chunkId)
    && (forall p <- passages :: CorpusFound(m, queries, p) || (m.webEnabled && WebFound(m, queries, p)))
    && (|passages| < 12 ==>
          forall p :: CorpusFound(m, queries, p) || (m.webEnabled && WebFound(m, queries, p)) ==>
            exists k :: 0 <= k < |passages| && passages[k].chunkId == p.chunkId)
  }

  /** The passages come in the order in which they were first found, the corpus before the web. */
  ghost predicate AsFound(m: Surroundings, queries: seq<string>, passages: seq<Passage>)
  {
    var hits := CorpusHits(m, queries) + if m.webEnabled then WebHits(m, queries) else [];
    forall i, j :: 0 <= i < j < |passages| ==>
      Place(hits, ChunkId, passages[i].chunkId) < Place(hits, ChunkId, passages[j].chunkId) < |hits|
  }

  lemma FoundInOrder(m: Surroundings, queries: seq<string>)
    ensures AsFound(m, queries, FirstTwelve(AllHits(m, queries)))
  {
    var hits, passages := AllHits(m, queries), FirstTwelve(AllHits(m, queries));
    forall i, j | 0 <= i < j < |passages|
      ensures Place(hits, ChunkId, passages[i].chunkId) < Place(hits, ChunkId, passages[j].chunkId) < |hits|
    {
      FirstsRise(hits, ChunkId, i, j);
    }
  }

  /** Hits come query by query. */
  lemma {:induction false} HitsByQuery(m: Surroundings, queries: seq<string>, q: string)
    ensures WebHits(m, queries + [q]) == WebHits(m, queries) + Adapted(m.Web(q))
    ensures !CorpusRaises(m, queries) ==>
      CorpusHits(m, queries + [q]) == CorpusHits(m, queries) + (if m.Corpus(q).Some? then m.Corpus(q).value else [])
  {
    var all := queries + [q];
    if queries == [] {
      assert all == [q] && all[1..] == [];
    } else {
      var rest := queries[1..];
      assert all[0] == queries[0] && all[1..] == rest + [q];
      HitsByQuery(m, rest, q);
      assert forall j :: 0 <= j < |rest| ==> rest[j] == queries[j + 1];
    }
  }

  lemma FoundIsGathered(m: Surroundings, queries: seq<string>)
    requires CorpusPassages(m, queries).Some?
    ensures Gathered(m, queries, FirstTwelve(AllHits(m, queries)))
  {
    var all := AllHits(m, queries);
    var firsts, passages := Firsts(all, ChunkId), FirstTwelve(all);
    FirstsAreDistinct(all, ChunkId);
    forall i, j | 0 <= i < j < |passages| ensures passages[i].chunkId != passages[j].chunkId {
      assert ChunkId(firsts[i]) != ChunkId(firsts[j]);
    }
    forall p | p in passages ensures CorpusFound(m, queries, p) || (m.webEnabled && WebFound(m, queries, p)) {
      FirstsAmong(all, ChunkId, p);
      InCorpusHits(m, queries, p);
      InWebHits(m, queries, p);
    }
    if |passages| < 12 {
      FewAreAll(m, queries);
      forall p | CorpusFound(m, queries, p) || (m.webEnabled && WebFound(m, queries, p))
        ensures exists k :: 0 <= k < |passages| && passages[k].chunkId == p.chunkId
      {
        InCorpusHits(m, queries, p);
        InWebHits(m, queries, p);
        IdAmong(all, p);
      }
    }
  }

  lemma IdAmong(all: seq<Passage>, p: Passage)
    requires p in all
    ensures exists k :: 0 <= k < |Firsts(all, ChunkId)| && Firsts(all, ChunkId)[k].chunkId == p.chunkId
  {
    FirstsAreDistinct(all, ChunkId);
    var firsts := Firsts(all, ChunkId);
    var i :| 0 <= i < |all| && all[i] == p;
    assert ChunkId(all[i]) in IdSet(all, ChunkId);
    assert p.chunkId in IdSet(firsts, ChunkId);
    var k :| 0 <= k < |firsts| && ChunkId(firsts[k]) == p.chunkId;
  }

  /** Fewer than twelve in all means that no query of the corpus raised. */
  lemma FewAreAll(m: Surroundings, queries: seq<string>)
    requires CorpusPassages(m, queries).Some? && |FirstTwelve(AllHits(m, queries))| < 12
    ensures !CorpusRaises(m, queries)
  {
    var c, w := CorpusHits(m, queries), if m.webEnabled then WebHits(m, queries) else [];
    FirstsConcat(c, w, ChunkId);
    assert |Firsts(c, ChunkId)| <= |Firsts(c + w, ChunkId)|;
  }

  /** The documents of the passages, each once, in the order in which they come up. */
  ghost predicate Cites(sources: seq<string>, passages: seq<Passage>)
  {
    && (forall i, j :: 0 <= i < j < |sources| ==> sources[i] != sources[j])
    && (forall d: string :: d in sources <==> exists i :: 0 <= i < |passages| && passages[i].documentId == d)
    && (forall i, j :: 0 <= i < j < |sources| ==>
          Place(passages, DocumentId, sources[i]) < Place(passages, DocumentId, sources[j]))
  }

  function DocumentId(p: Passage): string { p.documentId }

  lemma PlaceOfDocument(passages: seq<Passage>, d: string)
    ensures Place(passages, DocumentId, d) == Place(DocumentIds(passages), Self, d)
  {
    var ids := DocumentIds(passages);
    var k, l := Place(passages, DocumentId, d), Place(ids, Self, d);
    assert k < |passages| ==> Self(ids[k]) == DocumentId(passages[k]);
    assert l < |ids| ==> Self(ids[l]) == DocumentId(passages[l]);
  }

  lemma SourcesCite(passages: seq<Passage>)
    ensures Cites(Firsts(DocumentIds(passages), Self), passages)
  {
    var ids := DocumentIds(passages);
    var sources := Firsts(ids, Self);
    CitedOnce(passages);
    forall i, j | 0 <= i < j < |sources| ensures sources[i] != sources[j] {
      assert Self(sources[i]) != Self(sources[j]);
    }
    forall i, j | 0 <= i < j < |sources|
      ensures Place(passages, DocumentId, sources[i]) < Place(passages, DocumentId, sources[j])
    {
      FirstsRise(ids, Self, i, j);
      PlaceOfDocument(passages, sources[i]);
      PlaceOfDocument(passages, sources[j]);
    }
  }

  /** A completed run was never late, and its answer and sources are those of what was gathered. */
  lemma CompletedMeans(m: Surroundings)
    requires Research(m).Completed?
    ensures m.plan.Some? && Research(m).subqueries == |m.plan.value|
    ensures !m.Late(0) && !m.Late(1) && (m.webEnabled ==> !m.Late(2))
    ensures exists passages: seq<Passage> ::
              && Gathered(m, m.plan.value, passages) && AsFound(m, m.plan.value, passages)
              && m.Synthesis(passages) == Some(Research(m).answer) && Cites(Research(m).sources, passages)
  {
    var queries := m.plan.value;
    var passages := FirstTwelve(AllHits(m, queries));
    FoundIsGathered(m, queries);
    FoundInOrder(m, queries);
    SourcesCite(passages);
  }

  /** A run fails for one of two reasons, each of which has its cause. */
  lemma FailedMeans(m: Surroundings)
    requires Research(m).Failed?
    ensures Research(m).detail == "wall_clock" || Research(m).detail == "inference_unavailable"
    ensures Research(m).detail == "wall_clock" ==>
      m.plan.Some? && Research(m).subqueries == |m.plan.value| && (m.Late(0) || m.Late(1) || (m.webEnabled && m.Late(2)))
    ensures Research(m).detail == "inference_unavailable" ==>
      Research(m).subqueries == 0 &&
      (m.plan.None? || CorpusRaises(m, m.plan.value) ||
       exists passages: seq<Passage> :: Gathered(m, m.plan.value, passages) && m.Synthesis(passages).None?)
  {
    if m.plan.Some? && CorpusPassages(m, m.plan.value).Some? {
      FoundIsGathered(m, m.plan.value);
    }
  }

  /** A run that is never late and in which nothing raises completes. */
  lemma CalmRunsComplete(m: Surroundings)
    requires m.plan.Some? && !m.Late(0) && !m.Late(1) && !m.Late(2) && !CorpusRaises(m, m.plan.value)
    requires forall passages :: m.Synthesis(passages).Some?
    ensures Research(m).Completed?
  {
  }

  /** A query of the corpus that raises fails the run exactly if the queries before it did not find
      twelve passages with different ids. */
  lemma RaisingQueryFails(m: Surroundings, queries: seq<string>, i: nat)
    requires i < |queries| && m.Corpus(queries[i]).None? && !CorpusRaises(m, queries[..i])
    ensures CorpusPassages(m, queries).None? <==> |Firsts(CorpusHits(m, queries[..i]), ChunkId)| < 12
  {
    HitsBefore(m, queries, i);
  }

  lemma {:induction false} HitsBefore(m: Surroundings, queries: seq<string>, i: nat)
    requires i < |queries| && m.Corpus(queries[i]).None? && !CorpusRaises(m, queries[..i])
    ensures CorpusHits(m, queries) == CorpusHits(m, queries[..i]) && CorpusRaises(m, queries)
  {
    if i > 0 {
      var head := queries[..i];
      assert head[0] == queries[0] && head[1..] == queries[1..][..i - 1];
      assert m.Corpus(head[0]).Some?;
      assert forall j :: 0 <= j < |head[1..]| ==> head[1..][j] == head[j + 1];
      HitsBefore(m, queries[1..], i - 1);
    }
  }
}
