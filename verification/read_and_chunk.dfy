/** `read_and_chunk_files` of Backend/Processing/read_and_chunk.py: each
    `.txt` file is scanned line by line for `### KEY:` header lines, the
    remaining non-blank lines become the content, the content's words are
    cut into chunks by the shared word chunker, and every chunk becomes a
    record carrying the header's metadata. The directory listing and the
    file reads are I/O: the model takes the listed files, in listing order,
    each as its name and the lines `readlines` returned. */
module ReadAndChunk {
  import opened Wrappers
  import opened Text
  import opened Sorting
  import opened Chunking

  const SourceTag: string := "### SOURCE:"
  const UrlTag: string := "### URL:"
  const FilenameTag: string := "### FILENAME:"
  const OriginalPathTag: string := "### ORIGINAL_PATH:"
  const UserIdTag: string := "### USER_ID:"

  /** Lines starting with this are never content. */
  const HeaderMark: string := "###"

  /** The header fields a file can set. */
  datatype Field = Source | Url | OriginalFilename | OriginalPath | UserId

  function Tag(f: Field): (t: string)
    ensures StartsWith(t, HeaderMark) && t[|t| - 1] == ':'
    ensures forall j :: 0 <= j < |t| - 1 ==> t[j] != ':'
  {
    match f
    case Source => SourceTag
    case Url => UrlTag
    case OriginalFilename => FilenameTag
    case OriginalPath => OriginalPathTag
    case UserId => UserIdTag
  }

  /** No line starts with two different tags: they differ at index 4 or 5. */
  lemma TagsExclusive(line: string, f: Field, g: Field)
    requires StartsWith(line, Tag(f)) && StartsWith(line, Tag(g))
    ensures f == g
  {
    assert line[4] == Tag(f)[4] == Tag(g)[4];
    assert line[5] == Tag(f)[5] == Tag(g)[5];
  }

  /** The header values of a file; every field starts out as "". */
  datatype Header = Header(source: string, url: string, originalFilename: string,
                           originalPath: string, userId: string)
  {
    function Get(f: Field): string {
      match f
      case Source => source
      case Url => url
      case OriginalFilename => originalFilename
      case OriginalPath => originalPath
      case UserId => userId
    }

    function Set(f: Field, v: string): (h: Header)
      ensures h.Get(f) == v
      ensures forall g :: g != f ==> h.Get(g) == Get(g)
    {
      match f
      case Source => this.(source := v)
      case Url => this.(url := v)
      case OriginalFilename => this.(originalFilename := v)
      case OriginalPath => this.(originalPath := v)
      case UserId => this.(userId := v)
    }
  }

  const EmptyHeader: Header := Header("", "", "", "", "")

  /** What one iteration of the header loop does with a line. */
  datatype LineKind = HeaderLine(field: Field) | ContentLine | Skipped

  /** The `if`/`elif` chain: the five tags in order, then "non-blank and not
      starting with ###" (`line.strip()` is non-empty exactly when the line
      has a non-space character, see `Text.TrimEmptyIff`). */
  function Classify(line: string): LineKind {
    if StartsWith(line, Tag(Source)) then HeaderLine(Source)
    else if StartsWith(line, Tag(Url)) then HeaderLine(Url)
    else if StartsWith(line, Tag(OriginalFilename)) then HeaderLine(OriginalFilename)
    else if StartsWith(line, Tag(OriginalPath)) then HeaderLine(OriginalPath)
    else if StartsWith(line, Tag(UserId)) then HeaderLine(UserId)
    else if HasNonSpace(line, IsPySpace) && !StartsWith(line, HeaderMark) then ContentLine
    else Skipped
  }

  /** Because the tags exclude each other, the order of the tests does not
      matter: a line is a header line for a field exactly when it starts
      with that field's tag. */
  lemma ClassifyHeader(line: string, f: Field)
    ensures Classify(line) == HeaderLine(f) <==> StartsWith(line, Tag(f))
  {
    if StartsWith(line, Tag(f)) {
      forall g | StartsWith(line, Tag(g)) ensures g == f {
        TagsExclusive(line, f, g);
      }
    }
  }

  /** A line is content exactly when it is not blank and does not start with `###`. */
  lemma ClassifyContent(line: string)
    ensures Classify(line) == ContentLine <==> HasNonSpace(line, IsPySpace) && !StartsWith(line, HeaderMark)
  {
    if !StartsWith(line, HeaderMark) {
      forall f ensures !StartsWith(line, Tag(f)) {
        TagMarked(line, f);
      }
    }
  }

  /** A tagged line starts with `###`. */
  lemma TagMarked(line: string, f: Field)
    ensures StartsWith(line, Tag(f)) ==> StartsWith(line, HeaderMark)
  {
    if StartsWith(line, Tag(f)) {
      assert line[..3] == Tag(f)[..3];
    }
  }

  /** In a tagged line the first ':' is the tag's own. */
  lemma FirstColon(line: string, f: Field)
    requires StartsWith(line, Tag(f))
    ensures IndexOfChar(line, ':') == |Tag(f)| - 1
  {
    var t := Tag(f);
    assert line[|t| - 1] == t[|t| - 1];
    forall j | 0 <= j < |t| - 1 ensures line[j] != ':' {
      assert line[j] == t[j];
    }
  }

  /** `line.split(":", 1)[1].strip()`: the stripped text after the first ':'. */
  function HeaderValue(line: string): string
    requires IndexOfChar(line, ':') >= 0
  {
    PyStrip(line[IndexOfChar(line, ':') + 1..])
  }

  /** For a tagged line that is the stripped text after the tag. */
  lemma HeaderValueAfterTag(line: string, f: Field)
    requires StartsWith(line, Tag(f))
    ensures IndexOfChar(line, ':') >= 0
    ensures HeaderValue(line) == PyStrip(line[|Tag(f)|..])
  {
    FirstColon(line, f);
    var n := |Tag(f)|;
    assert IndexOfChar(line, ':') + 1 == n;
    assert HeaderValue(line) == PyStrip(line[n..]);
  }

  /** Reference for a header field: the value of the LAST line with its tag,
      or "" when no line has it. */
  function LastValue(lines: seq<string>, f: Field): string
    decreases |lines|
  {
    if lines == [] then ""
    else
      var line := lines[|lines| - 1];
      if StartsWith(line, Tag(f)) then FirstColon(line, f); HeaderValue(line)
      else LastValue(lines[..|lines| - 1], f)
  }

  /** Reference for the content: every content line, stripped, in order. */
  predicate IsContent(line: string) { Classify(line) == ContentLine }

  function ContentOf(lines: seq<string>): seq<string> {
    Map(PyStrip, Filter(IsContent, lines))
  }

  function HeaderOf(lines: seq<string>): Header {
    Header(LastValue(lines, Source), LastValue(lines, Url), LastValue(lines, OriginalFilename),
           LastValue(lines, OriginalPath), LastValue(lines, UserId))
  }

  /** A later line with the same tag overwrites an earlier one: the value is
      the one from the last line carrying the tag. */
  lemma {:induction false} LastWriterWins(before: seq<string>, line: string, after: seq<string>, f: Field)
    requires StartsWith(line, Tag(f))
    requires forall k :: 0 <= k < |after| ==> !StartsWith(after[k], Tag(f))
    ensures IndexOfChar(line, ':') >= 0
    ensures LastValue(before + [line] + after, f) == HeaderValue(line)
    decreases |after|
  {
    FirstColon(line, f);
    if after == [] {
      assert before + [line] + after == before + [line];
      LastValueHit(before, line, f);
    } else {
      var shorter := after[..|after| - 1];
      var last := after[|after| - 1];
      assert before + [line] + after == (before + [line] + shorter) + [last] by {
        DropLast(before + [line], after);
      }
      LastValueSkip(before + [line] + shorter, last, f);
      LastWriterWins(before, line, shorter, f);
    }
  }

  /** A tagged last line decides the field. */
  lemma LastValueHit(init: seq<string>, line: string, f: Field)
    requires StartsWith(line, Tag(f))
    ensures IndexOfChar(line, ':') >= 0
    ensures LastValue(init + [line], f) == HeaderValue(line)
  {
    FirstColon(line, f);
    assert (init + [line])[..|init|] == init;
  }

  /** An untagged last line leaves the field to the lines before it. */
  lemma LastValueSkip(init: seq<string>, line: string, f: Field)
    requires !StartsWith(line, Tag(f))
    ensures LastValue(init + [line], f) == LastValue(init, f)
  {
    assert (init + [line])[..|init|] == init;
  }

  lemma DropLast<T>(front: seq<T>, after: seq<T>)
    requires after != []
    ensures front + after == (front + after[..|after| - 1]) + [after[|after| - 1]]
  {
    assert after == after[..|after| - 1] + [after[|after| - 1]];
  }

  /** A field no line sets keeps its initial "". */
  lemma {:induction false} UnsetFieldEmpty(lines: seq<string>, f: Field)
    requires forall k :: 0 <= k < |lines| ==> !StartsWith(lines[k], Tag(f))
    ensures LastValue(lines, f) == ""
    decreases |lines|
  {
    if lines != [] {
      assert !StartsWith(lines[|lines| - 1], Tag(f));
      UnsetFieldEmpty(lines[..|lines| - 1], f);
    }
  }

  /** No content line carries a header tag or the `###` mark, and none is blank. */
  lemma ContentExcludesHeaders(lines: seq<string>, k: nat)
    requires k < |ContentOf(lines)|
    ensures exists j :: (0 <= j < |lines| && ContentOf(lines)[k] == PyStrip(lines[j])
      && !StartsWith(lines[j], HeaderMark) && HasNonSpace(lines[j], IsPySpace))
  {
    var kept := Filter(IsContent, lines);
    assert ContentOf(lines)[k] == PyStrip(kept[k]);
    FilterSubsequence(IsContent, lines);
    ClassifyContent(kept[k]);
    SubsequenceMember(kept, lines, k);
  }

  lemma {:induction false} SubsequenceMember<T>(sub: seq<T>, s: seq<T>, k: nat)
    requires IsSubsequence(sub, s) && k < |sub|
    ensures exists j :: 0 <= j < |s| && s[j] == sub[k]
    decreases |s|
  {
    if sub[0] == s[0] && IsSubsequence(sub[1..], s[1..]) {
      if k > 0 {
        SubsequenceMember(sub[1..], s[1..], k - 1);
        var j :| 0 <= j < |s[1..]| && s[1..][j] == sub[1..][k - 1];
        assert s[j + 1] == sub[k];
      }
    } else {
      SubsequenceMember(sub, s[1..], k);
      var j :| 0 <= j < |s[1..]| && s[1..][j] == sub[k];
      assert s[j + 1] == sub[k];
    }
  }

  /** The state of the header loop: the header so far and the content lines so far. */
  datatype Scanned = Scanned(header: Header, content: seq<string>)

  /** One iteration of the header loop: a tagged line sets its field, a
      content line is appended stripped, anything else is skipped. */
  function ScanLine(st: Scanned, line: string): Scanned {
    match Classify(line)
    case HeaderLine(f) =>
      ClassifyHeader(line, f);
      FirstColon(line, f);
      st.(header := st.header.Set(f, HeaderValue(line)))
    case ContentLine => st.(content := st.content + [PyStrip(line)])
    case Skipped => st
  }

  /** The header loop over all lines, from the initial empty header. */
  function Scan(lines: seq<string>): Scanned
    decreases |lines|
  {
    if lines == [] then Scanned(EmptyHeader, [])
    else ScanLine(Scan(lines[..|lines| - 1]), lines[|lines| - 1])
  }

  /** The header the loop ends with holds, for every field, the value of the
      last line with that field's tag. */
  lemma {:induction false} ScanHeader(lines: seq<string>, f: Field)
    ensures Scan(lines).header.Get(f) == LastValue(lines, f)
    decreases |lines|
  {
    if lines != [] {
      var init, line := lines[..|lines| - 1], lines[|lines| - 1];
      ScanHeader(init, f);
      ClassifyHeader(line, f);
    }
  }

  /** The content the loop ends with is every content line, stripped, in order. */
  lemma {:induction false} ScanContent(lines: seq<string>)
    ensures Scan(lines).content == ContentOf(lines)
    decreases |lines|
  {
    if lines != [] {
      var init, line := lines[..|lines| - 1], lines[|lines| - 1];
      ScanContent(init);
      InitLast(lines);
      ContentStep(init, line);
      ScanLineContent(Scan(init), line);
    }
  }

  /** Both halves: the loop's header is `HeaderOf` and its content `ContentOf`. */
  lemma ScanIsReference(lines: seq<string>)
    ensures Scan(lines) == Scanned(HeaderOf(lines), ContentOf(lines))
  {
    forall f ensures Scan(lines).header.Get(f) == LastValue(lines, f) {
      ScanHeader(lines, f);
    }
    HeaderOfFields(lines, Scan(lines).header);
    ScanContent(lines);
  }

  /** What a line adds to the content. */
  function Extra(line: string): seq<string> {
    if IsContent(line) then [PyStrip(line)] else []
  }

  lemma ScanLineContent(st: Scanned, line: string)
    ensures ScanLine(st, line).content == st.content + Extra(line)
  {
  }

  lemma InitLast<T>(s: seq<T>)
    requires s != []
    ensures s[..|s| - 1] + [s[|s| - 1]] == s
  {
  }

  lemma ContentStep(lines: seq<string>, line: string)
    ensures ContentOf(lines + [line]) == ContentOf(lines) + Extra(line)
  {
    FilterMapStep(IsContent, PyStrip, lines, line);
  }

  /** Filtering then mapping a list extended by one element. */
  lemma FilterMapStep<T, U>(p: T -> bool, f: T -> U, s: seq<T>, x: T)
    ensures Map(f, Filter(p, s + [x])) == Map(f, Filter(p, s)) + (if p(x) then [f(x)] else [])
  {
    FilterAppend(p, s, [x]);
    assert Filter(p, [x]) == if p(x) then [x] else [];
    MapAppend(f, Filter(p, s), Filter(p, [x]));
  }

  lemma HeaderOfFields(lines: seq<string>, h: Header)
    requires forall f :: h.Get(f) == LastValue(lines, f)
    ensures h == HeaderOf(lines)
  {
    assert h.source == h.Get(Source) && h.url == h.Get(Url) && h.userId == h.Get(UserId);
    assert h.originalFilename == h.Get(OriginalFilename) && h.originalPath == h.Get(OriginalPath);
  }

  // ---------------------------------------------------------------- words

  /** `" ".join(" ".join(content_lines).split()).split()`. */
  function WordsOf(content: seq<string>): seq<string> {
    SplitWhitespace(Join(SplitWhitespace(Join(content, " ")), " "))
  }

  /** Splitting the space-joined lines gives the words of each line in turn. */
  lemma {:induction false} SplitJoinFlatten(xs: seq<string>)
    ensures SplitWhitespace(Join(xs, " ")) == Flatten(Map(SplitWhitespace, xs))
    decreases |xs|
  {
    if xs == [] {
    } else {
      var m := Map(SplitWhitespace, xs);
      assert m == [SplitWhitespace(xs[0])] + Map(SplitWhitespace, xs[1..]);
      FlattenCons(SplitWhitespace(xs[0]), Map(SplitWhitespace, xs[1..]));
      SplitJoinFlatten(xs[1..]);
      if |xs| == 1 {
        assert Map(SplitWhitespace, xs[1..]) == [];
        assert SplitWhitespace(xs[0]) + [] == SplitWhitespace(xs[0]);
      } else {
        JoinCons(xs[0], xs[1..], " ");
        assert [xs[0]] + xs[1..] == xs;
        assert xs[0] + " " + Join(xs[1..], " ") == xs[0] + [' '] + Join(xs[1..], " ");
        SplitAround(xs[0], ' ', Join(xs[1..], " "));
      }
    }
  }

  lemma {:induction false} MapSplitStrip(ls: seq<string>)
    ensures Map(SplitWhitespace, Map(PyStrip, ls)) == Map(SplitWhitespace, ls)
  {
    forall k | 0 <= k < |ls| ensures Map(SplitWhitespace, Map(PyStrip, ls))[k] == Map(SplitWhitespace, ls)[k] {
      StripThenSplit(ls[k]);
    }
  }

  /** The words of a file are the words of its content lines, in order:
      header lines, other `###` lines and blank lines contribute nothing,
      and the double normalisation changes nothing. */
  lemma WordsAreContentWords(lines: seq<string>)
    ensures FileWords(lines) == Flatten(Map(SplitWhitespace, Filter(IsContent, lines)))
  {
    ScanContent(lines);
    var content := ContentOf(lines);
    NormaliseThenSplit(Join(content, " "));
    SplitJoinFlatten(content);
    MapSplitStrip(Filter(IsContent, lines));
  }

  /** A file of header lines only has no words, hence no chunks. */
  lemma HeaderOnlyFileIsEmpty(lines: seq<string>)
    requires forall k :: 0 <= k < |lines| ==> StartsWith(lines[k], HeaderMark)
    ensures FileWords(lines) == []
  {
    WordsAreContentWords(lines);
    NoContent(lines);
  }

  lemma {:induction false} NoContent(lines: seq<string>)
    requires forall k :: 0 <= k < |lines| ==> StartsWith(lines[k], HeaderMark)
    ensures Filter(IsContent, lines) == []
    decreases |lines|
  {
    if lines != [] {
      assert !IsContent(lines[0]);
      NoContent(lines[1..]);
    }
  }

  // ---------------------------------------------------------------- records

  /** One chunk's metadata dictionary; keys the source does not add are `None`. */
  datatype ChunkRecord = ChunkRecord(
    filename: string, chunkId: nat, text: string, source: string, recordType: string,
    userId: string, url: Option<string>, originalFilename: Option<string>, originalPath: Option<string>)

  function MakeRecord(filename: string, h: Header, entry: (nat, string)): ChunkRecord {
    var isYoutube := h.source == "youtube";
    var isPdf := !isYoutube && h.source == "pdf";
    ChunkRecord(filename, entry.0, entry.1, h.source, "data", h.userId,
      if isYoutube then Some(h.url) else None,
      if isPdf then Some(h.originalFilename) else None,
      if isPdf then Some(h.originalPath) else None)
  }

  function MakeRecords(filename: string, h: Header, entries: seq<(nat, string)>): (rs: seq<ChunkRecord>)
    ensures |rs| == |entries|
    ensures forall k :: 0 <= k < |rs| ==> rs[k] == MakeRecord(filename, h, entries[k])
  {
    if entries == [] then [] else [MakeRecord(filename, h, entries[0])] + MakeRecords(filename, h, entries[1..])
  }

  /** The words of a file: its scanned content, normalised and split. */
  function FileWords(lines: seq<string>): seq<string> { WordsOf(Scan(lines).content) }

  /** The records of one file: the chunks of its words, numbered, each
      carrying the scanned header. */
  function FileRecords(filename: string, lines: seq<string>, size: nat, limit: nat): seq<ChunkRecord>
    requires size >= 1
  {
    MakeRecords(filename, Scan(lines).header, Numbered(Chunks(FileWords(lines), size, limit), 0))
  }

  const TxtSuffix: string := ".txt"

  /** `name` is the name of a listed ".txt" file. */
  predicate ListedTxt(files: seq<(string, seq<string>)>, name: string) {
    exists i :: 0 <= i < |files| && files[i].0 == name && EndsWith(files[i].0, TxtSuffix)
  }

  /** All files in listing order; only names ending in ".txt" are read, so
      every record names a listed ".txt" file. */
  function ReadAndChunkFiles(files: seq<(string, seq<string>)>, size: nat, limit: nat): (rs: seq<ChunkRecord>)
    requires size >= 1
    ensures forall k :: 0 <= k < |rs| ==> ListedTxt(files, rs[k].filename)
  {
    if files == [] then []
    else
      var (name, lines) := files[0];
      var here := if EndsWith(name, TxtSuffix) then FileRecords(name, lines, size, limit) else [];
      var rest := ReadAndChunkFiles(files[1..], size, limit);
      HereFromTxt(files, size, limit);
      ListedInTail(files, rest);
      ListedAppend(files, here, rest);
      here + rest
  }

  /** Every record of a file carries that file's name. */
  lemma FileRecordsNamed(filename: string, lines: seq<string>, size: nat, limit: nat)
    requires size >= 1
    ensures forall k :: 0 <= k < |FileRecords(filename, lines, size, limit)| ==>
      FileRecords(filename, lines, size, limit)[k].filename == filename
  {
  }

  lemma HereFromTxt(files: seq<(string, seq<string>)>, size: nat, limit: nat)
    requires size >= 1 && files != []
    ensures var (name, lines) := files[0];
      var here := if EndsWith(name, TxtSuffix) then FileRecords(name, lines, size, limit) else [];
      forall k :: 0 <= k < |here| ==> ListedTxt(files, here[k].filename)
  {
    var (name, lines) := files[0];
    if EndsWith(name, TxtSuffix) {
      FileRecordsNamed(name, lines, size, limit);
      assert ListedTxt(files, name) by {
        assert files[0].0 == name;
      }
    }
  }

  /** A name listed after the first file is listed. */
  lemma ListedInTail(files: seq<(string, seq<string>)>, rs: seq<ChunkRecord>)
    requires files != []
    requires forall k :: 0 <= k < |rs| ==> ListedTxt(files[1..], rs[k].filename)
    ensures forall k :: 0 <= k < |rs| ==> ListedTxt(files, rs[k].filename)
  {
    forall k | 0 <= k < |rs| ensures ListedTxt(files, rs[k].filename) {
      var i :| 0 <= i < |files[1..]| && files[1..][i].0 == rs[k].filename && EndsWith(files[1..][i].0, TxtSuffix);
      assert files[i + 1] == files[1..][i];
    }
  }

  lemma ListedAppend(files: seq<(string, seq<string>)>, a: seq<ChunkRecord>, b: seq<ChunkRecord>)
    requires forall k :: 0 <= k < |a| ==> ListedTxt(files, a[k].filename)
    requires forall k :: 0 <= k < |b| ==> ListedTxt(files, b[k].filename)
    ensures forall k :: 0 <= k < |a + b| ==> ListedTxt(files, (a + b)[k].filename)
  {
    forall k | 0 <= k < |a + b| ensures ListedTxt(files, (a + b)[k].filename) {
      if k >= |a| {
        assert (a + b)[k] == b[k - |a|];
      } else {
        assert (a + b)[k] == a[k];
      }
    }
  }

  /** The shape every record has: type "data"; `url` exactly for youtube;
      `original_filename` and `original_path` exactly for pdf. */
  predicate WellShaped(r: ChunkRecord) {
    r.recordType == "data"
    && (r.url.Some? <==> r.source == "youtube")
    && (r.originalFilename.Some? <==> r.source == "pdf")
    && (r.originalPath.Some? <==> r.source == "pdf")
    && EndsWith(r.filename, TxtSuffix)
  }

  lemma {:induction false} RecordsWellShaped(files: seq<(string, seq<string>)>, size: nat, limit: nat)
    requires size >= 1
    ensures forall k :: 0 <= k < |ReadAndChunkFiles(files, size, limit)| ==>
      WellShaped(ReadAndChunkFiles(files, size, limit)[k])
    decreases |files|
  {
    if files != [] {
      var (name, lines) := files[0];
      var here := if EndsWith(name, TxtSuffix) then FileRecords(name, lines, size, limit) else [];
      var rest := ReadAndChunkFiles(files[1..], size, limit);
      RecordsWellShaped(files[1..], size, limit);
      var all := ReadAndChunkFiles(files, size, limit);
      assert all == here + rest;
      forall k | 0 <= k < |all| ensures WellShaped(all[k]) {
        if k >= |here| {
          assert all[k] == rest[k - |here|];
        }
      }
    }
  }

  /** A file's records: one per chunk, ids 0, 1, 2, ..., each carrying the
      header values, and record k's text splits back into chunk k. */
  lemma FileRecordsNumbered(filename: string, lines: seq<string>, size: nat, limit: nat)
    requires size >= 1
    ensures var cs := Chunks(FileWords(lines), size, limit);
      var rs := FileRecords(filename, lines, size, limit);
      |rs| == |cs|
      && forall k :: 0 <= k < |rs| ==>
        rs[k].chunkId == k && rs[k].filename == filename
        && rs[k].source == LastValue(lines, Source) && rs[k].userId == LastValue(lines, UserId)
        && SplitWhitespace(rs[k].text) == cs[k]
  {
    var h := Scan(lines).header;
    assert h.source == LastValue(lines, Source) by {
      ScanHeader(lines, Source);
    }
    assert h.userId == LastValue(lines, UserId) by {
      ScanHeader(lines, UserId);
    }
    NumberedRecords(filename, h, FileWords(lines), size, limit);
  }

  /** The records made from the numbered chunks of any word list. */
  lemma NumberedRecords(filename: string, h: Header, words: seq<string>, size: nat, limit: nat)
    requires size >= 1
    requires forall w :: w in words ==> IsWord(w)
    ensures var cs := Chunks(words, size, limit);
      var rs := MakeRecords(filename, h, Numbered(cs, 0));
      |rs| == |cs|
      && forall k :: 0 <= k < |rs| ==>
        rs[k].chunkId == k && rs[k].filename == filename && rs[k].source == h.source
        && rs[k].userId == h.userId && SplitWhitespace(rs[k].text) == cs[k]
  {
    ChunkRecordsConsecutive(words, size, limit);
    ChunkTextsSplit(words, size, limit);
  }

  /** Each chunk's text splits back into the chunk. */
  lemma ChunkTextsSplit(words: seq<string>, size: nat, limit: nat)
    requires size >= 1
    requires forall w :: w in words ==> IsWord(w)
    ensures var cs := Chunks(words, size, limit);
      forall k :: 0 <= k < |cs| ==> SplitWhitespace(ChunkText(cs[k])) == cs[k]
  {
    var cs := Chunks(words, size, limit);
    ChunksCover(words, size, limit);
    forall k | 0 <= k < |cs| ensures SplitWhitespace(ChunkText(cs[k])) == cs[k] {
      forall w | w in cs[k] ensures IsWord(w) {
        InFlatten(cs, k, w);
      }
      SplitJoinRoundTrip(cs[k]);
    }
  }

  /** The record texts, split and concatenated in order, give back the
      file's words: chunks are contiguous, in order and non-overlapping. */
  lemma FileRecordsCoverWords(filename: string, lines: seq<string>, size: nat, limit: nat)
    requires size >= 1
    ensures Flatten(Map((r: ChunkRecord) => SplitWhitespace(r.text), FileRecords(filename, lines, size, limit)))
         == FileWords(lines)
  {
    var cs := Chunks(FileWords(lines), size, limit);
    FileRecordsNumbered(filename, lines, size, limit);
    assert Map((r: ChunkRecord) => SplitWhitespace(r.text), FileRecords(filename, lines, size, limit)) == cs;
    ChunksCover(FileWords(lines), size, limit);
  }
}
