/** The older `read_and_chunk_files` of Backend/read_and_chunk.py: each
    `.txt` file is read whole, whitespace-normalised and chunked with the
    shared word chunker; there is no header parsing, so `###` lines are
    chunked like any other text, and a record holds only the file name, the
    chunk id and the text. The directory listing and the reads are I/O: the
    model takes the listed files, in listing order, with their contents. */
module LegacyReadAndChunk {
  import opened Text
  import opened Sorting
  import opened Chunking

  /** `{"filename", "chunk_id", "text"}`. */
  datatype LegacyRecord = LegacyRecord(filename: string, chunkId: nat, text: string)

  /** `" ".join(text.split()).split()`. */
  function LegacyWords(text: string): seq<string> {
    SplitWhitespace(Join(SplitWhitespace(text), " "))
  }

  function ToRecords(filename: string, entries: seq<(nat, string)>): (rs: seq<LegacyRecord>)
    ensures |rs| == |entries|
    ensures forall k :: 0 <= k < |rs| ==> rs[k] == LegacyRecord(filename, entries[k].0, entries[k].1)
  {
    if entries == [] then []
    else [LegacyRecord(filename, entries[0].0, entries[0].1)] + ToRecords(filename, entries[1..])
  }

  function LegacyFileRecords(filename: string, text: string, size: nat, limit: nat): seq<LegacyRecord>
    requires size >= 1
  {
    ToRecords(filename, Numbered(Chunks(LegacyWords(text), size, limit), 0))
  }

  /** All files in listing order; only names ending in ".txt" are read. */
  function LegacyReadAndChunkFiles(files: seq<(string, string)>, size: nat, limit: nat): seq<LegacyRecord>
    requires size >= 1
  {
    if files == [] then []
    else
      var (name, text) := files[0];
      (if EndsWith(name, ".txt") then LegacyFileRecords(name, text, size, limit) else [])
      + LegacyReadAndChunkFiles(files[1..], size, limit)
  }

  /** The normalisation changes no word: the chunked words are exactly the
      whitespace-separated words of the whole file. */
  lemma LegacyWordsAreFileWords(text: string)
    ensures LegacyWords(text) == SplitWhitespace(text)
  {
    NormaliseThenSplit(text);
  }

  /** A `### SOURCE:` line is not treated specially: its marker and tag are
      the first two words chunked. */
  lemma LegacyKeepsHeaderLines(value: string, rest: string)
    ensures var words := LegacyWords("### SOURCE: " + value + "\n" + rest);
      |words| >= 2 && words[0] == "###" && words[1] == "SOURCE:"
  {
    var tail := value + "\n" + rest;
    HeaderLineShape(tail);
    assert "### SOURCE: " + value + "\n" + rest == "### SOURCE: " + tail;
    TwoWords("###", "SOURCE:", tail);
    LegacyWordsAreFileWords("### SOURCE: " + tail);
  }

  lemma HeaderLineShape(tail: string)
    ensures "### SOURCE: " + tail == "###" + [' '] + ("SOURCE:" + [' '] + tail)
  {
  }

  /** Two words, each followed by a space, are the first two words. */
  lemma TwoWords(a: string, b: string, tail: string)
    requires IsWord(a) && IsWord(b)
    ensures SplitWhitespace(a + [' '] + (b + [' '] + tail)) == [a, b] + SplitWhitespace(tail)
  {
    var rest := b + [' '] + tail;
    assert SplitWhitespace(rest) == [b] + SplitWhitespace(tail) by {
      SplitAround(b, ' ', tail);
      SplitWord(b);
    }
    assert SplitWhitespace(a + [' '] + rest) == [a] + SplitWhitespace(rest) by {
      SplitAround(a, ' ', rest);
      SplitWord(a);
    }
  }

  /** A file's records: one per chunk, ids 0, 1, 2, ..., and record k's
      text splits back into chunk k. */
  lemma LegacyRecordsNumbered(filename: string, text: string, size: nat, limit: nat)
    requires size >= 1
    ensures var cs := Chunks(LegacyWords(text), size, limit);
      var rs := LegacyFileRecords(filename, text, size, limit);
      |rs| == |cs|
      && forall k :: 0 <= k < |rs| ==>
        rs[k].chunkId == k && rs[k].filename == filename && SplitWhitespace(rs[k].text) == cs[k]
  {
    var words := LegacyWords(text);
    var cs := Chunks(words, size, limit);
    ChunkRecordsConsecutive(words, size, limit);
    ChunksCover(words, size, limit);
    forall k | 0 <= k < |cs| ensures SplitWhitespace(ChunkText(cs[k])) == cs[k] {
      forall w | w in cs[k] ensures IsWord(w) {
        InFlatten(cs, k, w);
      }
      SplitJoinRoundTrip(cs[k]);
    }
  }

  /** The record texts, split and concatenated in order, give back the
      file's words. */
  lemma LegacyRecordsCoverWords(filename: string, text: string, size: nat, limit: nat)
    requires size >= 1
    ensures Flatten(Map((r: LegacyRecord) => SplitWhitespace(r.text), LegacyFileRecords(filename, text, size, limit)))
         == SplitWhitespace(text)
  {
    var cs := Chunks(LegacyWords(text), size, limit);
    LegacyRecordsNumbered(filename, text, size, limit);
    assert Map((r: LegacyRecord) => SplitWhitespace(r.text), LegacyFileRecords(filename, text, size, limit)) == cs;
    ChunksCover(LegacyWords(text), size, limit);
    LegacyWordsAreFileWords(text);
  }

  /** Every record comes from a ".txt" file. */
  lemma {:induction false} LegacyOnlyTxt(files: seq<(string, string)>, size: nat, limit: nat)
    requires size >= 1
    ensures forall k :: 0 <= k < |LegacyReadAndChunkFiles(files, size, limit)| ==>
      EndsWith(LegacyReadAndChunkFiles(files, size, limit)[k].filename, ".txt")
    decreases |files|
  {
    if files != [] {
      var (name, text) := files[0];
      var here: seq<LegacyRecord> := if EndsWith(name, ".txt") then LegacyFileRecords(name, text, size, limit) else [];
      var rest := LegacyReadAndChunkFiles(files[1..], size, limit);
      LegacyOnlyTxt(files[1..], size, limit);
      if EndsWith(name, ".txt") {
        LegacyFileRecordsNamed(name, text, size, limit);
      }
      assert LegacyReadAndChunkFiles(files, size, limit) == here + rest;
      forall k | 0 <= k < |here + rest| ensures EndsWith((here + rest)[k].filename, ".txt") {
        if k >= |here| {
          assert (here + rest)[k] == rest[k - |here|];
        } else {
          assert (here + rest)[k] == here[k];
        }
      }
    }
  }

  /** Every record of a file carries that file's name. */
  lemma LegacyFileRecordsNamed(filename: string, text: string, size: nat, limit: nat)
    requires size >= 1
    ensures forall k :: 0 <= k < |LegacyFileRecords(filename, text, size, limit)| ==>
      LegacyFileRecords(filename, text, size, limit)[k].filename == filename
  {
  }
}
