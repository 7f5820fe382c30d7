/** The word chunker shared by both versions of `read_and_chunk_files`
    (Backend/Processing/read_and_chunk.py and Backend/read_and_chunk.py):
    the word list is cut into chunks of at most `chunk_size` words, and a
    chunk whose text is longer than the character limit loses its last 10
    words at a time for as long as it has more than 10. */
module Chunking {
  import opened Text

  /** Words removed from an over-long chunk per inner iteration. */
  const TrimStep: nat := 10

  /** The text of a chunk: its words joined by single spaces. */
  function ChunkText(ws: seq<string>): string { Join(ws, " ") }

  function Min(a: int, b: int): int { if a <= b then a else b }

  /** The inner loop: while the text is longer than `limit` and more than 10
      words remain, the last 10 words are dropped. */
  function TrimChunk(ws: seq<string>, limit: nat): (r: seq<string>)
    ensures |r| <= |ws| && r == ws[..|r|]
    ensures (|ws| - |r|) % TrimStep == 0
    ensures |ChunkText(r)| <= limit || |r| <= TrimStep
    ensures ws != [] ==> r != []
    decreases |ws|
  {
    if |ChunkText(ws)| > limit && |ws| > TrimStep then TrimChunk(ws[..|ws| - TrimStep], limit) else ws
  }

  /** The trim stops at the first cut that fits: every longer cut the loop
      passed through was over the limit with more than 10 words. Together
      with the contract of `TrimChunk` this pins the result down. */
  lemma {:induction false} TrimChunkFirstFit(ws: seq<string>, limit: nat, m: nat)
    requires |TrimChunk(ws, limit)| < m <= |ws|
    requires (|ws| - m) % TrimStep == 0
    ensures |ChunkText(ws[..m])| > limit && m > TrimStep
    decreases |ws|
  {
    if |ChunkText(ws)| > limit && |ws| > TrimStep {
      if m < |ws| {
        var shorter := ws[..|ws| - TrimStep];
        assert shorter[..m] == ws[..m];
        TrimChunkFirstFit(shorter, limit, m);
      } else {
        assert ws[..m] == ws;
      }
    }
  }

  /** Python's reading of a slice's stop bound on a list of length `n`: a
      negative stop counts from the end, and the bound is clamped to [0, n]. */
  function SliceStop(stop: int, n: nat): (e: nat)
    ensures e <= n
    ensures stop >= 0 ==> e == Min(stop, n)
    ensures stop < 0 && n > 0 ==> e < n
  {
    if stop < 0 then (if stop + n < 0 then 0 else stop + n) else Min(stop, n)
  }

  /** The chunk the outer loop takes at position `i`: `words[i:i+size]`,
      trimmed. `chunk_size` is any integer; a stop bound at or before `i`
      gives an empty slice. */
  function ChunkAt(words: seq<string>, i: nat, size: int, limit: nat): (c: seq<string>)
    requires i <= |words|
    ensures size >= 0 ==> |c| <= size
    ensures i + |c| <= |words| && c == words[i..i + |c|]
    ensures i < |words| && size >= 1 ==> c != []
  {
    var stop := SliceStop(i + size, |words|);
    var window := if stop <= i then [] else words[i..stop];
    assert |window| == if stop <= i then 0 else stop - i;
    var t := TrimChunk(window, limit);
    assert forall k :: 0 <= k < |t| ==> t[k] == window[k] == words[i + k];
    t
  }

  /** With a size of 0 or less the chunk never reaches the last word,
      because the slice stops before the end of the list. */
  lemma NonPositiveChunkStopsShort(words: seq<string>, i: nat, size: int, limit: nat)
    requires i < |words| && size <= 0
    ensures i + |ChunkAt(words, i, size, limit)| < |words|
  {
    var stop := SliceStop(i + size, |words|);
    var window := if stop <= i then [] else words[i..stop];
    assert ChunkAt(words, i, size, limit) == TrimChunk(window, limit);
  }

  /** A chunk size of 0 takes an empty chunk, so `i` never advances. */
  lemma ZeroSizeMakesNoProgress(words: seq<string>, i: nat, limit: nat)
    requires i < |words|
    ensures |ChunkAt(words, i, 0, limit)| == 0
  {
  }

  /** Where the outer loop's `i` stands after at most `steps` iterations
      from `i`; the loop stops once `i == len(words)`. */
  function PositionAfter(words: seq<string>, i: nat, size: int, limit: nat, steps: nat): (j: nat)
    requires i <= |words|
    ensures i <= j <= |words|
    decreases steps
  {
    if steps == 0 || i == |words| then i
    else PositionAfter(words, i + |ChunkAt(words, i, size, limit)|, size, limit, steps - 1)
  }

  /** With a chunk size of 0 or less the loop never reaches the end of a
      non-empty word list: `i < len(words)` still holds after any number of
      iterations, so the request never returns. Every model below therefore
      takes a size of at least 1. */
  lemma {:induction false} NonPositiveSizeNeverFinishes(words: seq<string>, i: nat, size: int, limit: nat, steps: nat)
    requires i < |words| && size <= 0
    ensures PositionAfter(words, i, size, limit, steps) < |words|
    decreases steps
  {
    if steps > 0 {
      NonPositiveChunkStopsShort(words, i, size, limit);
      NonPositiveSizeNeverFinishes(words, i + |ChunkAt(words, i, size, limit)|, size, limit, steps - 1);
    }
  }

  /** With a chunk size of at least 1 every chunk is non-empty, so the loop
      reaches the end within one iteration per remaining word. */
  lemma {:induction false} PositiveSizeFinishes(words: seq<string>, i: nat, size: int, limit: nat, steps: nat)
    requires i <= |words| && size >= 1 && steps >= |words| - i
    ensures PositionAfter(words, i, size, limit, steps) == |words|
    decreases steps
  {
    if i < |words| {
      PositiveSizeFinishes(words, i + |ChunkAt(words, i, size, limit)|, size, limit, steps - 1);
    }
  }

  /** The outer loop from position `i`: the chunk there, then the chunks after it. */
  function ChunksFrom(words: seq<string>, i: nat, size: nat, limit: nat): (cs: seq<seq<string>>)
    requires size >= 1 && i <= |words|
    decreases |words| - i
  {
    if i == |words| then []
    else
      var c := ChunkAt(words, i, size, limit);
      [c] + ChunksFrom(words, i + |c|, size, limit)
  }

  function Chunks(words: seq<string>, size: nat, limit: nat): seq<seq<string>>
    requires size >= 1
  {
    ChunksFrom(words, 0, size, limit)
  }

  /** Every chunk has between 1 and `size` words, and fits the character
      limit unless it is down to 10 words or fewer. */
  lemma {:induction false} ChunksFromBounded(words: seq<string>, i: nat, size: nat, limit: nat)
    requires size >= 1 && i <= |words|
    ensures var cs := ChunksFrom(words, i, size, limit);
      forall k :: 0 <= k < |cs| ==> 1 <= |cs[k]| <= size && (|ChunkText(cs[k])| <= limit || |cs[k]| <= TrimStep)
    decreases |words| - i
  {
    if i < |words| {
      var c := ChunkAt(words, i, size, limit);
      ChunksFromBounded(words, i + |c|, size, limit);
      var cs := ChunksFrom(words, i, size, limit);
      assert cs == [c] + ChunksFrom(words, i + |c|, size, limit);
      forall k | 1 <= k < |cs| ensures cs[k] == ChunksFrom(words, i + |c|, size, limit)[k - 1] {
      }
    }
  }

  lemma ChunksBounded(words: seq<string>, size: nat, limit: nat)
    requires size >= 1
    ensures var cs := Chunks(words, size, limit);
      forall k :: 0 <= k < |cs| ==> 1 <= |cs[k]| <= size && (|ChunkText(cs[k])| <= limit || |cs[k]| <= TrimStep)
  {
    ChunksFromBounded(words, 0, size, limit);
    assert Chunks(words, size, limit) == ChunksFrom(words, 0, size, limit);
  }

  /** Concatenation of a list of word lists. */
  function Flatten(cs: seq<seq<string>>): seq<string> {
    if cs == [] then [] else cs[0] + Flatten(cs[1..])
  }

  /** The chunks are contiguous, in order and non-overlapping: concatenated
      they give back the words from `i` on. */
  lemma {:induction false} ChunksFromCover(words: seq<string>, i: nat, size: nat, limit: nat)
    requires size >= 1 && i <= |words|
    ensures Flatten(ChunksFrom(words, i, size, limit)) == words[i..]
    decreases |words| - i
  {
    if i < |words| {
      var c := ChunkAt(words, i, size, limit);
      ChunksFromCover(words, i + |c|, size, limit);
      var cs := ChunksFrom(words, i, size, limit);
      assert cs == [c] + ChunksFrom(words, i + |c|, size, limit);
      FlattenCons(c, ChunksFrom(words, i + |c|, size, limit));
      SuffixSplit(words, i, i + |c|);
    }
  }

  lemma FlattenCons(c: seq<string>, cs: seq<seq<string>>)
    ensures Flatten([c] + cs) == c + Flatten(cs)
  {
    assert ([c] + cs)[1..] == cs;
  }

  lemma SuffixSplit<T>(s: seq<T>, i: nat, j: nat)
    requires i <= j <= |s|
    ensures s[i..] == s[i..j] + s[j..]
  {
  }

  lemma ChunksCover(words: seq<string>, size: nat, limit: nat)
    requires size >= 1
    ensures Flatten(Chunks(words, size, limit)) == words
  {
    ChunksFromCover(words, 0, size, limit);
    assert words[0..] == words;
  }

  lemma {:induction false} InFlatten(cs: seq<seq<string>>, k: nat, w: string)
    requires k < |cs| && w in cs[k]
    ensures w in Flatten(cs)
    decreases |cs|
  {
    if k > 0 {
      InFlatten(cs[1..], k - 1, w);
    }
  }

  // ---------------------------------------------------------------- numbering

  /** The records of one file as (chunk id, text): `chunk_id` counts every
      chunk, and a chunk is recorded only when its text has a non-space
      character. */
  function Numbered(cs: seq<seq<string>>, id: nat): (r: seq<(nat, string)>)
    ensures |r| <= |cs|
  {
    if cs == [] then [] else Recorded(id, ChunkText(cs[0])) + Numbered(cs[1..], id + 1)
  }

  lemma NumberedCons(c: seq<string>, rest: seq<seq<string>>, id: nat)
    ensures Numbered([c] + rest, id) == Recorded(id, ChunkText(c)) + Numbered(rest, id + 1)
  {
    assert ([c] + rest)[0] == c && ([c] + rest)[1..] == rest;
  }

  /** The `if chunk_text.strip()` guard: the record, or nothing. */
  function Recorded(id: nat, t: string): (r: seq<(nat, string)>)
    ensures |r| <= 1
  {
    if HasNonSpace(t, IsPySpace) then [(id, t)] else []
  }

  /** A non-empty chunk of words always has a non-space character. */
  lemma JoinedWordsHaveText(ws: seq<string>)
    requires ws != [] && IsWord(ws[0])
    ensures HasNonSpace(ChunkText(ws), IsPySpace)
  {
    var t := ChunkText(ws);
    if |ws| == 1 {
      assert t == ws[0];
    } else {
      JoinCons(ws[0], ws[1..], " ");
      assert [ws[0]] + ws[1..] == ws;
      assert t[0] == ws[0][0];
    }
    assert !IsPySpace(t[0]);
  }

  /** A chunk of words from `str.split()` always passes the emptiness test,
      so ids run 0, 1, 2, ... without gaps, one record per chunk. */
  lemma {:induction false} NumberedAll(cs: seq<seq<string>>, id: nat)
    requires forall k :: 0 <= k < |cs| ==> cs[k] != [] && IsWord(cs[k][0])
    ensures |Numbered(cs, id)| == |cs|
    ensures forall k :: 0 <= k < |cs| ==> Numbered(cs, id)[k] == (id + k, ChunkText(cs[k]))
    decreases |cs|
  {
    if cs != [] {
      JoinedWordsHaveText(cs[0]);
      NumberedAll(cs[1..], id + 1);
      var r, rest := Numbered(cs, id), Numbered(cs[1..], id + 1);
      assert r == [(id, ChunkText(cs[0]))] + rest;
      forall k | 1 <= k < |cs| ensures r[k] == (id + k, ChunkText(cs[k])) {
        assert r[k] == rest[k - 1] && cs[1..][k - 1] == cs[k];
      }
    }
  }

  /** Every chunk of a list of words starts with a word. */
  lemma ChunksStartWithWords(words: seq<string>, size: nat, limit: nat)
    requires size >= 1
    requires forall w :: w in words ==> IsWord(w)
    ensures forall k :: 0 <= k < |Chunks(words, size, limit)| ==>
      Chunks(words, size, limit)[k] != [] && IsWord(Chunks(words, size, limit)[k][0])
  {
    var cs := Chunks(words, size, limit);
    ChunksCover(words, size, limit);
    ChunksBounded(words, size, limit);
    forall k | 0 <= k < |cs| ensures cs[k] != [] && IsWord(cs[k][0]) {
      assert cs[k][0] in cs[k];
      InFlatten(cs, k, cs[k][0]);
    }
  }

  /** The chunk records of a word list: one per chunk, ids from 0. */
  lemma ChunkRecordsConsecutive(words: seq<string>, size: nat, limit: nat)
    requires size >= 1
    requires forall w :: w in words ==> IsWord(w)
    ensures var cs := Chunks(words, size, limit);
      |Numbered(cs, 0)| == |cs|
      && forall k :: 0 <= k < |cs| ==> Numbered(cs, 0)[k] == (k, ChunkText(cs[k]))
  {
    ChunksStartWithWords(words, size, limit);
    NumberedAll(Chunks(words, size, limit), 0);
  }

  /** The inner loop of `read_and_chunk_files` as the source writes it. */
  method TrimLoop(ws: seq<string>, limit: nat) returns (chunkWords: seq<string>, chunkText: string)
    ensures chunkWords == TrimChunk(ws, limit)
    ensures chunkText == ChunkText(chunkWords)
  {
    chunkWords := ws;
    chunkText := ChunkText(chunkWords);
    while |chunkText| > limit && |chunkWords| > TrimStep
      invariant TrimChunk(chunkWords, limit) == TrimChunk(ws, limit)
      invariant chunkText == ChunkText(chunkWords)
      decreases |chunkWords|
    {
      chunkWords := chunkWords[..|chunkWords| - TrimStep];
      chunkText := ChunkText(chunkWords);
    }
  }

  /** One outer iteration: the record of the chunk at `i` (if any) comes
      before the records of the chunks after it. */
  lemma NumberedStep(words: seq<string>, i: nat, size: nat, limit: nat, id: nat, c: seq<string>)
    requires size >= 1 && i < |words|
    requires c == ChunkAt(words, i, size, limit)
    ensures Numbered(ChunksFrom(words, i, size, limit), id)
         == Recorded(id, ChunkText(c)) + Numbered(ChunksFrom(words, i + |c|, size, limit), id + 1)
  {
    var rest := ChunksFrom(words, i + |c|, size, limit);
    assert ChunksFrom(words, i, size, limit) == [c] + rest;
    NumberedCons(c, rest, id);
  }

  /** The outer loop invariant survives one iteration: the records so far
      followed by the records of the chunks from `i` on are all the records. */
  lemma LoopStep(words: seq<string>, i: nat, size: nat, limit: nat, id: nat, c: seq<string>, t: string,
                 records: seq<(nat, string)>, whole: seq<(nat, string)>, next: seq<(nat, string)>, j: nat)
    requires i < |words| && size >= 1
    requires c == TrimChunk(words[i..Min(i + size, |words|)], limit) && t == ChunkText(c)
    requires records + Numbered(ChunksFrom(words, i, size, limit), id) == whole
    requires next == records + Recorded(id, t) && j == i + |c|
    ensures i < j <= |words|
    ensures next + Numbered(ChunksFrom(words, j, size, limit), id + 1) == whole
  {
    ChunkAtPositive(words, i, size, limit);
    NumberedStep(words, i, size, limit, id, c);
    var rest := Numbered(ChunksFrom(words, j, size, limit), id + 1);
    assert Numbered(ChunksFrom(words, i, size, limit), id) == Recorded(id, t) + rest;
    AppendAssoc(records, Recorded(id, t), rest);
  }

  lemma AppendAssoc<T>(a: seq<T>, b: seq<T>, c: seq<T>)
    ensures (a + b) + c == a + (b + c)
  {
  }

  /** For a size of at least 1 the slice bound is `min(i + size, len)`. */
  lemma ChunkAtPositive(words: seq<string>, i: nat, size: nat, limit: nat)
    requires i < |words| && size >= 1
    ensures ChunkAt(words, i, size, limit) == TrimChunk(words[i..Min(i + size, |words|)], limit)
  {
    assert SliceStop(i + size, |words|) == Min(i + size, |words|);
  }

  /** One iteration of the outer loop: trim the window at `i`, record the
      chunk, and move past it. The records so far followed by the records
      of the chunks still to come stay equal to all the records. */
  method LoopBody(words: seq<string>, i: nat, size: nat, limit: nat, chunkId: nat,
                  records: seq<(nat, string)>, ghost whole: seq<(nat, string)>)
    returns (next: seq<(nat, string)>, j: nat)
    requires i < |words| && size >= 1
    requires records + Numbered(ChunksFrom(words, i, size, limit), chunkId) == whole
    ensures i < j <= |words|
    ensures next + Numbered(ChunksFrom(words, j, size, limit), chunkId + 1) == whole
  {
    var chunkWords, chunkText := TrimLoop(words[i..Min(i + size, |words|)], limit);
    next := records + Recorded(chunkId, chunkText);
    j := i + |chunkWords|;
    LoopStep(words, i, size, limit, chunkId, chunkWords, chunkText, records, whole, next, j);
  }

  /** The outer loop of `read_and_chunk_files` for one word list, as the
      source writes it. */
  method ChunkLoop(words: seq<string>, size: nat, limit: nat) returns (records: seq<(nat, string)>)
    requires size >= 1
    ensures records == Numbered(Chunks(words, size, limit), 0)
  {
    ghost var whole := Numbered(Chunks(words, size, limit), 0);
    records := [];
    var i: nat := 0;
    var chunkId: nat := 0;
    assert whole == [] + Numbered(ChunksFrom(words, 0, size, limit), 0);
    while i < |words|
      invariant i <= |words|
      invariant records + Numbered(ChunksFrom(words, i, size, limit), chunkId) == whole
      decreases |words| - i
    {
      records, i := LoopBody(words, i, size, limit, chunkId, records, whole);
      chunkId := chunkId + 1;
    }
    assert ChunksFrom(words, i, size, limit) == [];
  }
}
