/** Greedy packing of words into chunks (retrieval.py): it loses nothing, keeps the
    order, uses the fewest chunks possible, and bounds their number. */
module Chunking {
  import opened Text

  const CHUNK_CHARS := 512
  const MAX_TITLE_LEN := 256
  const MAX_DOCUMENT_CHARS := 100_000
  const MAX_CHUNKS_PER_DOCUMENT := 400

  function JoinAll(groups: seq<seq<string>>): seq<string>
  {
    if groups == [] then [] else [Join(groups[0])] + JoinAll(groups[1..])
  }

  function Flatten(groups: seq<seq<string>>): seq<string>
  {
    if groups == [] then [] else groups[0] + Flatten(groups[1..])
  }

  // ---------- the greedy packing as a function ----------

  /** The groups packed from `words` when `current` is the group being filled. */
  function Pack(current: seq<string>, words: seq<string>, limit: int): seq<seq<string>>
    decreases |words|
  {
    if words == [] then [current]
    else if |Join(current)| + |words[0]| + 1 > limit then [current] + Pack([words[0]], words[1..], limit)
    else Pack(current + [words[0]], words[1..], limit)
  }

  function Greedy(words: seq<string>, limit: int): seq<seq<string>>
  {
    if words == [] then [] else Pack([words[0]], words[1..], limit)
  }

  function Chunks(content: string, limit: int): seq<string>
  {
    JoinAll(Greedy(Words(content), limit))
  }

  // ---------- the code ----------

  method ChunkText(content: string, chunkChars: int := CHUNK_CHARS) returns (chunks: seq<string>)
    ensures chunks == Chunks(content, chunkChars)
  {
    var words := Words(content);
    chunks := [];
    var current: seq<string> := [];
    var length := 0;
    ghost var closed: seq<seq<string>> := [];
    for i := 0 to |words|
      invariant i == 0 <==> current == []
      invariant length == |Join(current)|
      invariant i == 0 ==> closed == []
      invariant i > 0 ==> closed + Pack(current, words[i..], chunkChars) == Greedy(words, chunkChars)
      invariant chunks == JoinAll(closed)
    {
      var word := words[i];
      assert words[i..][1..] == words[i + 1..];
      var added := |word| + (if current != [] then 1 else 0);
      JoinGrows(current, word);
      if current != [] && length + added > chunkChars {
        JoinAllAppends(closed, current);
        assert closed + ([current] + Pack([word], words[i + 1..], chunkChars))
            == closed + [current] + Pack([word], words[i + 1..], chunkChars);
        closed := closed + [current];
        chunks := chunks + [Join(current)];
        current := [word];
        length := |word|;
      } else {
        assert i == 0 ==> [] + Greedy(words, chunkChars) == Greedy(words, chunkChars) && [] + [word] == [word];
        current := current + [word];
        length := length + added;
      }
    }
    if current != [] {
      JoinAllAppends(closed, current);
      assert words[|words|..] == [];
      chunks := chunks + [Join(current)];
    }
  }

  lemma JoinGrows(current: seq<string>, word: string)
    ensures |Join(current + [word])| == |Join(current)| + |word| + (if current != [] then 1 else 0)
  {
    JoinLength(current);
    JoinLength(current + [word]);
    WeightConcat(current, [word]);
  }

  lemma {:induction false} JoinAllAppends(groups: seq<seq<string>>, g: seq<string>)
    ensures JoinAll(groups + [g]) == JoinAll(groups) + [Join(g)]
  {
    if groups != [] {
      assert (groups + [g])[1..] == groups[1..] + [g];
      JoinAllAppends(groups[1..], g);
    }
  }

  // ---------- nothing lost, nothing too long ----------

  ghost predicate Fits(g: seq<string>, limit: int)
  {
    |g| == 1 || (g != [] && |Join(g)| <= limit)
  }

  /** The words in order, cut into groups that fit. */
  ghost predicate IsPartition(groups: seq<seq<string>>, words: seq<string>, limit: int)
  {
    Flatten(groups) == words && forall i :: 0 <= i < |groups| ==> Fits(groups[i], limit)
  }

  lemma {:induction false} PackPartitions(current: seq<string>, words: seq<string>, limit: int)
    requires Fits(current, limit)
    ensures IsPartition(Pack(current, words, limit), current + words, limit)
    decreases |words|
  {
    if words == [] {
      assert Pack(current, words, limit)[1..] == [];
      assert current + words == current;
    } else {
      assert [words[0]] + words[1..] == words;
      JoinGrows(current, words[0]);
      if |Join(current)| + |words[0]| + 1 > limit {
        PackPartitions([words[0]], words[1..], limit);
        assert Pack(current, words, limit)[1..] == Pack([words[0]], words[1..], limit);
      } else {
        PackPartitions(current + [words[0]], words[1..], limit);
        assert current + [words[0]] + words[1..] == current + words;
      }
    }
  }

  // ---------- no partition has fewer groups ----------

  lemma PartWeighsLess(before: seq<string>, part: seq<string>, after: seq<string>)
    requires part != []
    ensures |Join(part)| <= |Join(before + part + after)|
  {
    WeightConcat(before, part);
    WeightConcat(before + part, after);
    JoinLength(part);
    JoinLength(before + part + after);
  }

  lemma OverfullGroup(before: seq<string>, current: seq<string>, word: string, after: seq<string>, limit: int)
    requires current != [] && |Join(current)| + |word| + 1 > limit
    ensures !Fits(before + (current + [word]) + after, limit)
  {
    PartWeighsLess(before, current + [word], after);
    JoinGrows(current, word);
  }

  /** A group that fits cannot reach past a group that was closed. */
  lemma FirstGroup(before: seq<string>, current: seq<string>, words: seq<string>,
        g: seq<string>, rest: seq<string>, limit: int)
    requires current != [] && words != [] && |Join(current)| + |words[0]| + 1 > limit
    requires Fits(g, limit) && g + rest == before + current + words
    ensures |g| <= |before| + |current| && rest == (before + current)[|g|..] + words
  {
    var all, filled := before + current + words, |before| + |current|;
    assert g == all[..|g|] && rest == all[|g|..];
    if |g| > filled {
      assert g == before + (current + [words[0]]) + all[filled + 1..|g|];
      OverfullGroup(before, current, words[0], all[filled + 1..|g|], limit);
    }
  }

  /** Greedy stays ahead: a partition that starts no later needs at least as many groups. */
  lemma {:induction false} PackIsShortest(before: seq<string>, current: seq<string>, words: seq<string>, limit: int,
                                          other: seq<seq<string>>)
    requires current != [] && IsPartition(other, before + current + words, limit)
    ensures |Pack(current, words, limit)| <= |other|
    decreases |words|
  {
    var all := before + current + words;
    assert other != [] by { assert all != []; }
    if words != [] {
      assert [words[0]] + words[1..] == words;
      if |Join(current)| + |words[0]| + 1 > limit {
        FirstGroup(before, current, words, other[0], Flatten(other[1..]), limit);
        var skipped := (before + current)[|other[0]|..];
        assert skipped + [words[0]] + words[1..] == skipped + words;
        PackIsShortest(skipped, [words[0]], words[1..], limit, other[1..]);
      } else {
        assert before + (current + [words[0]]) + words[1..] == all;
        PackIsShortest(before, current + [words[0]], words[1..], limit, other);
      }
    }
  }

  // ---------- the same on texts ----------

  /** All the words of a list of chunks. */
  function WordsOf(chunks: seq<string>): seq<string>
  {
    if chunks == [] then [] else Words(chunks[0]) + WordsOf(chunks[1..])
  }

  /** Chunks of one or more words joined by blanks, multi-word ones within the limit. */
  ghost predicate AreChunks(chunks: seq<string>, limit: int)
  {
    forall i :: 0 <= i < |chunks| ==>
      && Words(chunks[i]) != [] && chunks[i] == Join(Words(chunks[i]))
      && (|chunks[i]| <= limit || |Words(chunks[i])| == 1)
  }

  function SplitAll(chunks: seq<string>): (groups: seq<seq<string>>)
    ensures |groups| == |chunks|
    ensures forall i :: 0 <= i < |chunks| ==> groups[i] == Words(chunks[i])
  {
    if chunks == [] then [] else [Words(chunks[0])] + SplitAll(chunks[1..])
  }

  lemma {:induction false} SplitAllFlattens(chunks: seq<string>)
    ensures Flatten(SplitAll(chunks)) == WordsOf(chunks)
  {
    if chunks != [] {
      SplitAllFlattens(chunks[1..]);
    }
  }

  lemma {:induction false} JoinedGroups(groups: seq<seq<string>>, limit: int)
    requires forall i :: 0 <= i < |groups| ==> Fits(groups[i], limit) && AreWords(groups[i])
    ensures AreChunks(JoinAll(groups), limit) && WordsOf(JoinAll(groups)) == Flatten(groups)
    ensures |JoinAll(groups)| == |groups|
  {
    if groups != [] {
      WordsOfJoin(groups[0]);
      JoinedGroups(groups[1..], limit);
    }
  }

  lemma {:induction false} GroupsAreWords(groups: seq<seq<string>>)
    requires AreWords(Flatten(groups))
    ensures forall i :: 0 <= i < |groups| ==> AreWords(groups[i])
  {
    if groups != [] {
      var all := Flatten(groups);
      assert groups[0] == all[..|groups[0]|] && Flatten(groups[1..]) == all[|groups[0]|..];
      GroupsAreWords(groups[1..]);
    }
  }

  lemma GreedyPartitions(words: seq<string>, limit: int)
    ensures IsPartition(Greedy(words, limit), words, limit)
  {
    if words != [] {
      PackPartitions([words[0]], words[1..], limit);
      assert [words[0]] + words[1..] == words;
    }
  }

  /** The chunks hold the words of the content in order, only a single word can exceed the
      limit, and no other way to cut the content into such chunks needs fewer. */
  lemma ChunksAreOptimal(content: string, limit: int, other: seq<string>)
    ensures var chunks := Chunks(content, limit);
      && WordsOf(chunks) == Words(content) && AreChunks(chunks, limit)
      && (WordsOf(other) == Words(content) && AreChunks(other, limit) ==> |chunks| <= |other|)
  {
    var words := Words(content);
    GreedyPartitions(words, limit);
    GroupsAreWords(Greedy(words, limit));
    JoinedGroups(Greedy(words, limit), limit);
    if WordsOf(other) == words && AreChunks(other, limit) && words != [] {
      SplitAllFlattens(other);
      assert [] + [words[0]] + words[1..] == words;
      PackIsShortest([], [words[0]], words[1..], limit, SplitAll(other));
    }
  }

  lemma {:induction false} GlueOfWords(chunks: seq<string>)
    ensures Glue(WordsOf(chunks)) == Letters(Glue(chunks))
  {
    if chunks != [] {
      GlueOfWords(chunks[1..]);
      GlueConcat(Words(chunks[0]), WordsOf(chunks[1..]));
      LettersOfWords(chunks[0]);
      LettersConcat(chunks[0], Glue(chunks[1..]));
    }
  }

  /** The chunks have the characters of the content that are not blank, in order, and no others. */
  lemma ChunksKeepLetters(content: string, limit: int)
    ensures Letters(Glue(Chunks(content, limit))) == Letters(content)
  {
    ChunksAreOptimal(content, limit, []);
    GlueOfWords(Chunks(content, limit));
    LettersOfWords(content);
  }

  /** A chunk is its words with single spaces between, and its words are words of the content. */
  lemma ChunksAreSpaced(content: string, limit: int, i: nat)
    requires i < |Chunks(content, limit)|
    ensures var ws := Words(Chunks(content, limit)[i]);
      ws != [] && Chunks(content, limit)[i] == Spaced(ws)
  {
    ChunksAreOptimal(content, limit, []);
    JoinIsSpaced(Words(Chunks(content, limit)[i]));
  }

  /** Words in order, a space before every one but the first. */
  function Spaced(ws: seq<string>): string
  {
    if |ws| <= 1 then Glue(ws) else Spaced(ws[..|ws| - 1]) + " " + ws[|ws| - 1]
  }

  lemma {:induction false} JoinIsSpaced(ws: seq<string>)
    ensures Join(ws) == Spaced(ws)
  {
    if |ws| == 1 {
      assert ws[1..] == [] && Glue(ws) == ws[0] + "" == ws[0];
    } else if |ws| > 1 {
      var n := |ws| - 1;
      assert ws == ws[..n] + [ws[n]];
      JoinAppends(ws[..n], ws[n]);
      JoinIsSpaced(ws[..n]);
    }
  }

  // ---------- how many chunks a document can have ----------

  /** Neighbouring groups do not fit together. */
  ghost predicate Crowded(groups: seq<seq<string>>, limit: int)
  {
    |groups| < 2 ||
    (groups[0] != [] && groups[1] != [] && Weight(groups[0]) + |groups[1][0]| > limit && Crowded(groups[1..], limit))
  }

  lemma {:induction false} PackCrowds(current: seq<string>, words: seq<string>, limit: int)
    requires current != []
    ensures Crowded(Pack(current, words, limit), limit)
    ensures Pack(current, words, limit) != [] && current <= Pack(current, words, limit)[0]
    decreases |words|
  {
    if words != [] {
      if |Join(current)| + |words[0]| + 1 > limit {
        JoinLength(current);
        PackCrowds([words[0]], words[1..], limit);
        assert Pack(current, words, limit)[1..] == Pack([words[0]], words[1..], limit);
      } else {
        PackCrowds(current + [words[0]], words[1..], limit);
      }
    }
  }

  lemma {:induction false} CrowdedWeight(groups: seq<seq<string>>, limit: int)
    requires Crowded(groups, limit) && limit >= 0
    requires forall i :: 0 <= i < |groups| ==> groups[i] != [] && AreWords(groups[i])
    ensures (|groups| / 2) * (limit + 2) + 2 * (|groups| % 2) <= Weight(Flatten(groups))
  {
    if |groups| == 1 {
      assert groups[1..] == [] && Flatten(groups) == groups[0];
      assert IsWord(groups[0][0]);
    } else if |groups| > 1 {
      var rest := groups[2..];
      assert groups[1..][1..] == rest;
      assert Crowded(groups[1..], limit) && (|rest| < 2 || Crowded(rest, limit));
      CrowdedWeight(rest, limit);
      WeightConcat(groups[0], Flatten(groups[1..]));
      WeightConcat(groups[1], Flatten(rest));
      assert Weight(groups[1]) >= |groups[1][0]| + 1;
      HalfStep(|rest|, limit + 2);
    }
  }

  lemma HalfStep(n: nat, d: int)
    ensures ((n + 2) / 2) * d + 2 * ((n + 2) % 2) == (n / 2) * d + 2 * (n % 2) + d
  {
    assert (n + 2) / 2 == n / 2 + 1 && (n + 2) % 2 == n % 2;
    assert (n / 2 + 1) * d == (n / 2) * d + d;
  }

  lemma ChunkCount(content: string, limit: nat)
    ensures var n := |Chunks(content, limit)|;
      (n / 2) * (limit + 2) + 2 * (n % 2) <= |content| + 1
  {
    var words := Words(content);
    var groups := Greedy(words, limit);
    GreedyPartitions(words, limit);
    GroupsAreWords(groups);
    JoinedGroups(groups, limit);
    if words != [] {
      PackCrowds([words[0]], words[1..], limit);
    }
    CrowdedWeight(groups, limit);
    WordsFit(content);
  }

  /** A document within the size limit has at most 389 chunks. */
  lemma DocumentChunkBound(content: string)
    requires |content| <= 100_000
    ensures |Chunks(content, 512)| <= 389
  {
    ChunkCount(content, CHUNK_CHARS);
  }

  /** Words of one and of 511 characters in turn: no two of them share a chunk. */
  function Alternating(n: nat): (ws: seq<string>)
    ensures |ws| == n && AreWords(ws)
    ensures forall i :: 0 <= i < n ==> |ws[i]| == if (n - i) % 2 == 1 then 1 else 511
  {
    if n == 0 then []
    else [seq(if n % 2 == 1 then 1 else 511, _ => 'a')] + Alternating(n - 1)
  }

  lemma {:induction false} AlternatingSeparate(n: nat)
    requires n >= 1
    ensures |Pack([Alternating(n)[0]], Alternating(n)[1..], CHUNK_CHARS)| == n
    ensures Weight(Alternating(n)) == 512 * (n / 2) + 2 * ((n + 1) / 2)
  {
    var ws := Alternating(n);
    assert ws[1..] == Alternating(n - 1);
    if n > 1 {
      AlternatingSeparate(n - 1);
      assert |Join([ws[0]])| + |ws[1]| + 1 == 513;
      assert ws[1..][1..] == Alternating(n - 1)[1..];
    }
  }

  /** 389 chunks are possible. */
  lemma DocumentChunkBoundAttained()
    ensures var content := Join(Alternating(389));
      |content| <= 100_000 && |Chunks(content, 512)| == 389
  {
    var ws := Alternating(389);
    AlternatingSeparate(389);
    JoinLength(ws);
    WordsOfJoin(ws);
    GreedyPartitions(ws, CHUNK_CHARS);
    GroupsAreWords(Greedy(ws, CHUNK_CHARS));
    JoinedGroups(Greedy(ws, CHUNK_CHARS), CHUNK_CHARS);
  }

  datatype IndexCheck = BadRequest | ContentTooLong | TooManyChunks | Accepted(title: string, chunks: seq<string>)

  /** The size checks of the index handler; the refusal for too many chunks never happens. */
  method CheckDocument(title: string, content: string) returns (r: IndexCheck)
    ensures r != TooManyChunks
    ensures r.Accepted? <==> Strip(title) != [] && |title| <= 256 && Strip(content) != [] && |content| <= 100_000
    ensures r.Accepted? ==> r.title == Strip(title) && r.chunks == Chunks(content, 512)
    ensures r.ContentTooLong? <==>
      Strip(title) != [] && |title| <= 256 && Strip(content) != [] && |content| > 100_000
  {
    if Strip(title) == [] || |title| > MAX_TITLE_LEN || Strip(content) == [] {
      return BadRequest;
    }
    if |content| > MAX_DOCUMENT_CHARS {
      return ContentTooLong;
    }
    var chunks := ChunkText(content);
    if |chunks| > MAX_CHUNKS_PER_DOCUMENT {
      DocumentChunkBound(content);
      return TooManyChunks;
    }
    return Accepted(Strip(title), chunks);
  }
}
