/** The tenant-isolated index and its similarity ranking (retrieval.py). */
module Retrieval {
  import opened Common
  import opened RateLimits
  import opened Embeddings

  datatype Chunk = Chunk(documentId: string, id: string, index: nat, content: string, embedding: Vector)

  datatype Passage = Passage(chunk: Chunk, score: real)

  function Score(query: Vector, c: Chunk): Passage { Passage(c, Dot(query, c.embedding)) }

  function ScoreAll(query: Vector, chunks: seq<Chunk>): (ps: seq<Passage>)
    ensures |ps| == |chunks|
    ensures forall i :: 0 <= i < |ps| ==> ps[i] == Score(query, chunks[i])
  {
    if chunks == [] then [] else [Score(query, chunks[0])] + ScoreAll(query, chunks[1..])
  }

  /** `sort(reverse=True)` keeps the order of equal scores, as the sort by the negated score does. */
  function Badness(p: Passage): real { -p.score }

  function Ranking(query: Vector, chunks: seq<Chunk>, topK: int): seq<Passage>
  {
    Prefix(StableSort(ScoreAll(query, chunks), Badness), topK)
  }

  // ---------- the store ----------

  class RetrievalStore {
    var chunks: map<Tenant, seq<Chunk>>

    function Bucket(tenant: Tenant): seq<Chunk>
      reads this
    {
      if tenant in chunks then chunks[tenant] else []
    }

    constructor ()
      ensures forall t :: Bucket(t) == []
    {
      chunks := map[];
    }

    method IndexDocument(tenant: Tenant, added: seq<Chunk>)
      modifies this
      ensures Bucket(tenant) == old(Bucket(tenant)) + added
      ensures forall t :: t != tenant ==> Bucket(t) == old(Bucket(t))
    {
      chunks := chunks[tenant := Bucket(tenant) + added];
    }

    /** The answer depends on the tenant's own bucket and on nothing else. */
    method Query(tenant: Tenant, embedding: Vector, topK: int) returns (r: seq<Passage>)
      ensures r == Ranking(embedding, Bucket(tenant), topK)
    {
      var candidates := Bucket(tenant);
      var scored := [];
      assert candidates[..0] == [];
      for i := 0 to |candidates|
        invariant scored == ScoreAll(embedding, candidates[..i])
      {
        ScoreAllAppends(embedding, candidates[..i], candidates[i]);
        assert candidates[..i + 1] == candidates[..i] + [candidates[i]];
        scored := scored + [Score(embedding, candidates[i])];
      }
      assert candidates[..|candidates|] == candidates;
      return Prefix(StableSort(scored, Badness), topK);
    }
  }

  lemma {:induction false} ScoreAllAppends(query: Vector, chunks: seq<Chunk>, c: Chunk)
    ensures ScoreAll(query, chunks + [c]) == ScoreAll(query, chunks) + [Score(query, c)]
  {
    assert |ScoreAll(query, chunks + [c])| == |chunks| + 1;
  }

  // ---------- the true top k ----------

  ghost predicate BestFirst(r: seq<Passage>)
  {
    forall i, j :: 0 <= i < j < |r| ==> r[i].score >= r[j].score
  }

  /** `all` is made of `r` and `rest`, and nothing in `rest` scores above anything in `r`. */
  ghost predicate BestOf(r: seq<Passage>, rest: seq<Passage>, all: seq<Passage>)
  {
    && multiset(r) + multiset(rest) == multiset(all)
    && forall i, j :: 0 <= i < |r| && 0 <= j < |rest| ==> r[i].score >= rest[j].score
  }

  lemma PrefixIsBest(sorted: seq<Passage>, n: nat, all: seq<Passage>)
    requires Sorted(sorted, Badness) && n <= |sorted| && multiset(sorted) == multiset(all)
    ensures BestOf(sorted[..n], sorted[n..], all) && BestFirst(sorted[..n])
  {
    assert sorted == sorted[..n] + sorted[n..];
    forall i, j | 0 <= i < j < |sorted| ensures sorted[i].score >= sorted[j].score {
      assert Badness(sorted[i]) <= Badness(sorted[j]);
    }
  }

  /** The result is the k best-scored chunks of the bucket, best first. */
  lemma RankingIsTopK(query: Vector, chunks: seq<Chunk>, topK: nat)
    ensures |Ranking(query, chunks, topK)| == Min(topK, |chunks|)
    ensures BestFirst(Ranking(query, chunks, topK))
    ensures exists rest :: BestOf(Ranking(query, chunks, topK), rest, ScoreAll(query, chunks))
  {
    var all := ScoreAll(query, chunks);
    var sorted := StableSort(all, Badness);
    StableSortSorts(all, Badness);
    assert |sorted| == |multiset(sorted)| == |multiset(all)| == |all|;
    var n := Min(topK, |chunks|);
    PrefixIsBest(sorted, n, all);
    assert Ranking(query, chunks, topK) == sorted[..n];
  }

  /** Every listed passage is a chunk of the bucket, with its scalar product as its score. */
  lemma RankingScores(query: Vector, chunks: seq<Chunk>, topK: int, i: nat)
    requires i < |Ranking(query, chunks, topK)|
    ensures var p := Ranking(query, chunks, topK)[i];
      p.chunk in chunks && p.score == Dot(query, p.chunk.embedding)
  {
    var all := ScoreAll(query, chunks);
    var sorted := StableSort(all, Badness);
    StableSortSorts(all, Badness);
    PrefixExactly(sorted, topK);
    assert sorted[i] in multiset(all);
    var k :| 0 <= k < |all| && all[k] == sorted[i];
    assert all[k] == Score(query, chunks[k]);
  }

  /** Passages with equal scores are listed in the order in which they were indexed. */
  lemma TiesKeepOrder(query: Vector, chunks: seq<Chunk>, topK: int, score: real)
    ensures var tied := (p: Passage) => p.score == score;
      Filter(Ranking(query, chunks, topK), tied) <= Filter(ScoreAll(query, chunks), tied)
  {
    var all, top, tied := ScoreAll(query, chunks), Ranking(query, chunks, topK), (p: Passage) => p.score == score;
    var sorted := StableSort(all, Badness);
    PrefixExactly(sorted, topK);
    assert sorted == top + sorted[|top|..];
    FilterConcat(top, sorted[|top|..], tied);
    StableSortStable(all, Badness, -score, tied);
  }

  /** Asking with the tokens of an indexed chunk, in any order, gives that chunk's own
      score as the best one. */
  lemma OwnTextRanksFirst(m: Embedder, chunks: seq<Chunk>, text: string, k: nat, topK: nat)
    requires m.Valid() && topK >= 1 && k < |chunks|
    requires forall i :: 0 <= i < |chunks| ==> chunks[i].embedding == Embed(m, chunks[i].content)
    requires multiset(m.Tokens(text)) == multiset(m.Tokens(chunks[k].content))
    ensures var r := Ranking(Embed(m, text), chunks, topK);
      && |r| >= 1 && r[0].score == Dot(chunks[k].embedding, chunks[k].embedding)
      && (r[0].score == 1.0 || r[0].score == 0.0)
  {
    var q := Embed(m, text);
    EmbeddingOfMultiset(m, text, chunks[k].content);
    var all := ScoreAll(q, chunks);
    forall i | 0 <= i < |chunks| ensures all[i].score <= Dot(q, q) {
      EmbeddingUnit(m, text);
      EmbeddingUnit(m, chunks[i].content);
      OwnScoreIsBest(q, chunks[i].embedding);
    }
    StableSortHead(all, Badness, k);
    EmbeddingUnit(m, text);
    if Dot(q, q) != 1.0 {
      DotZero(q, q);
    }
  }

  lemma EmbeddingUnit(m: Embedder, text: string)
    requires m.Valid()
    ensures UnitOrZero(Embed(m, text))
  {
    NormaliseIsUnitOrZero(m, Loads(m, m.Tokens(text)));
  }
}
