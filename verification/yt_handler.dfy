/** YouTube ingestion: the caption (WebVTT) cleaner, its 5-word phrase
    deduplicator with a bounded window, the transcript retry policy and the
    file the transcript is saved as (Backend/Ingestion/yt_handler.py). */
module YtHandler {
  import opened Wrappers
  import opened Text
  import Sorting

  // ---------------------------------------------------------------- splitlines

  /** The line boundaries of Python's `str.splitlines`. */
  predicate IsLineBoundary(c: char) {
    var n := c as int;
    (10 <= n <= 13) || (28 <= n <= 30) || n == 0x85 || n == 0x2028 || n == 0x2029
  }

  function BoundaryIndex(s: string): (k: nat)
    ensures k <= |s|
    ensures forall j :: 0 <= j < k ==> !IsLineBoundary(s[j])
    ensures k < |s| ==> IsLineBoundary(s[k])
  {
    if s == [] || IsLineBoundary(s[0]) then 0 else 1 + BoundaryIndex(s[1..])
  }

  /** Python `s.splitlines()`: "\r\n" is one boundary, no trailing empty line. */
  function SplitLines(s: string): (lines: seq<string>)
    ensures forall i, j :: 0 <= i < |lines| && 0 <= j < |lines[i]| ==> !IsLineBoundary(lines[i][j])
    ensures s == [] <==> lines == []
    decreases |s|
  {
    if s == [] then []
    else
      var k := BoundaryIndex(s);
      if k == |s| then [s]
      else
        var next := if s[k] == '\r' && k + 1 < |s| && s[k + 1] == '\n' then k + 2 else k + 1;
        [s[..k]] + SplitLines(s[next..])
  }

  // ---------------------------------------------------------------- caption filter

  /** Python `str.isdigit()` restricted to ASCII digits: non-empty, all digits. */
  predicate IsDigits(s: string) {
    s != [] && forall i :: 0 <= i < |s| ==> IsAsciiDigit(s[i])
  }

  /** The header test applies to the raw line: cue timings, cue numbers,
      the WEBVTT header, NOTE blocks and blank lines are skipped. */
  predicate IsSkipped(line: string) {
    Contains(line, "-->")
    || IsDigits(PyStrip(line))
    || StartsWith(line, "WEBVTT")
    || StartsWith(line, "NOTE")
    || !HasNonSpace(line, IsPySpace)
  }

  /** `re.sub(r"<[^>]+>", "", s)`: every '<' followed by at least one
      character other than '>' and then a '>' is removed with that tag. */
  function StripTags(s: string): (r: string)
    ensures |r| <= |s|
    ensures (forall i :: 0 <= i < |s| ==> s[i] != '<') ==> r == s
    decreases |s|
  {
    if s == [] then ""
    else if s[0] == '<' then
      var j := IndexOfChar(s[1..], '>');
      if j >= 1 then StripTags(s[j + 2..]) else [s[0]] + StripTags(s[1..])
    else [s[0]] + StripTags(s[1..])
  }

  /** What a line that passed the header test is reduced to. */
  function Cleaned(line: string): string {
    PyStrip(StripTags(line))
  }

  /** The filter loop, given the header test and the cleaning step: skipped
      lines are dropped, the rest are cleaned and kept when non-empty and
      different from the previously kept line. */
  function FilterLines(lines: seq<string>, last: string, skip: string -> bool, clean: string -> string): (kept: seq<string>)
    ensures |kept| <= |lines|
    ensures forall k :: 0 <= k < |kept| ==> kept[k] != ""
    ensures kept != [] ==> kept[0] != last
    ensures forall k :: 0 <= k < |kept| - 1 ==> kept[k] != kept[k + 1]
  {
    if lines == [] then []
    else if skip(lines[0]) then FilterLines(lines[1..], last, skip, clean)
    else
      var c := clean(lines[0]);
      if c != "" && c != last then [c] + FilterLines(lines[1..], c, skip, clean)
      else FilterLines(lines[1..], last, skip, clean)
  }

  /** The caption filter of `clean_vtt`. */
  function FilterCaptions(lines: seq<string>, last: string): (kept: seq<string>)
    ensures kept == DropRepeats(Candidates(lines, IsSkipped, Cleaned), last)
    ensures forall k :: 0 <= k < |kept| - 1 ==> kept[k] != kept[k + 1]
  {
    FilterLinesIsCollapse(lines, last, IsSkipped, Cleaned);
    FilterLines(lines, last, IsSkipped, Cleaned)
  }

  /** Reference definition, stage one: the cleaned form of every line that
      survives the header test and is not empty once cleaned. */
  function Candidates(lines: seq<string>, skip: string -> bool, clean: string -> string): seq<string> {
    if lines == [] then []
    else if !skip(lines[0]) && clean(lines[0]) != "" then [clean(lines[0])] + Candidates(lines[1..], skip, clean)
    else Candidates(lines[1..], skip, clean)
  }

  /** Reference definition, stage two: collapse runs of equal entries,
      treating `last` as the entry before the first. */
  function DropRepeats(s: seq<string>, last: string): seq<string> {
    if s == [] then []
    else if s[0] == last then DropRepeats(s[1..], last)
    else [s[0]] + DropRepeats(s[1..], s[0])
  }

  /** The filter loop is exactly "clean, drop empties, collapse adjacent repeats". */
  lemma {:induction false} FilterLinesIsCollapse(lines: seq<string>, last: string, skip: string -> bool, clean: string -> string)
    ensures FilterLines(lines, last, skip, clean) == DropRepeats(Candidates(lines, skip, clean), last)
    decreases |lines|
  {
    if lines != [] {
      FilterLinesIsCollapse(lines[1..], last, skip, clean);
      if !skip(lines[0]) {
        var c := clean(lines[0]);
        if c != "" && c != last {
          FilterLinesIsCollapse(lines[1..], c, skip, clean);
        }
      }
    }
  }

  /** The same for the caption filter. */
  lemma FilterCaptionsIsCollapse(lines: seq<string>, last: string)
    ensures FilterCaptions(lines, last) == DropRepeats(Candidates(lines, IsSkipped, Cleaned), last)
  {
    FilterLinesIsCollapse(lines, last, IsSkipped, Cleaned);
  }

  /** A line is dropped only as a repeat of the last kept line: when no
      cleaned candidate equals its predecessor, every candidate is kept. */
  lemma {:induction false} NoRepeatsKeepsAll(s: seq<string>, last: string)
    requires s != [] ==> s[0] != last
    requires forall k :: 0 <= k < |s| - 1 ==> s[k] != s[k + 1]
    ensures DropRepeats(s, last) == s
    decreases |s|
  {
    if s != [] {
      NoRepeatsKeepsAll(s[1..], s[0]);
    }
  }

  lemma NoArrowInTaggedLine()
    ensures !Contains("-<b>->", "-->")
  {
    var line := "-<b>->";
    forall i | 0 <= i <= |line| ensures !StartsWith(line[i..], "-->") {
      if i == 0 {
        assert line[i..][1] == '<';
      } else if i == 1 {
        assert line[i..][0] == '<';
      } else if i == 2 {
        assert line[i..][0] == 'b';
      } else if i == 3 {
        assert line[i..][0] == '>';
      } else {
        assert |line[i..]| < 3;
      }
    }
  }

  lemma StripTagsExample()
    ensures StripTags("-<b>->") == "-->"
  {
    assert IndexOfChar("b>->", '>') == 1;
    assert StripTags("->") == "->";
    assert "-<b>->"[1..] == "<b>->";
    assert "<b>->"[1..] == "b>->";
    assert "<b>->"[3..] == "->";
    assert StripTags("<b>->") == "->";
  }

  lemma ExampleLineStripped()
    ensures PyStrip("-<b>->") == "-<b>->"
  {
    var line := "-<b>->";
    assert !IsPySpace(line[0]);
    assert TrimStart(line, IsPySpace) == line;
    assert !IsPySpace(line[|line| - 1]);
    assert TrimEnd(line, IsPySpace) == line;
  }

  lemma ExampleLineNotSkipped()
    ensures !IsSkipped("-<b>->")
  {
    var line := "-<b>->";
    NoArrowInTaggedLine();
    ExampleLineStripped();
    assert !IsAsciiDigit(line[0]);
    assert !StartsWith(line, "WEBVTT") by { assert line[..6][0] != 'W'; }
    assert !StartsWith(line, "NOTE") by { assert line[..4][0] != 'N'; }
    assert !IsPySpace(line[0]);
  }

  lemma ExampleLineCleaned()
    ensures Cleaned("-<b>->") == "-->"
  {
    StripTagsExample();
    var arrow := "-->";
    assert !IsPySpace(arrow[0]) && !IsPySpace(arrow[2]);
    assert TrimStart(arrow, IsPySpace) == arrow;
    assert TrimEnd(arrow, IsPySpace) == arrow;
  }

  /** The header test looks at the raw line, so a tag can hide a cue arrow:
      "-<b>->" passes the test and is kept as "-->". */
  lemma ArrowCanSurviveTagRemoval()
    ensures !IsSkipped("-<b>->")
    ensures FilterCaptions(["-<b>->"], "") == ["-->"]
  {
    var lines := ["-<b>->"];
    ExampleLineNotSkipped();
    ExampleLineCleaned();
    assert lines[0] == "-<b>->" && lines[1..] == [];
    assert FilterCaptions(lines[1..], "-->") == [];
  }

  // ---------------------------------------------------------------- phrase deduplication

  const PhraseWords: nat := 5
  const WindowLimit: nat := 50

  function Min(a: int, b: int): int { if a <= b then a else b }

  /** `' '.join(words[i:i+5])`. */
  function PhraseAt(words: seq<string>, i: nat): string
    requires i <= |words|
  {
    Join(words[i..Min(i + PhraseWords, |words|)], " ")
  }

  /** `window.pop()` removes an element Python does not specify. The choice
      is a parameter: at step `i` it picks some member of the (non-empty)
      window. Every property below holds for every such choice. */
  ghost predicate ChoosesMember(evict: (nat, set<string>) -> string) {
    forall i, w :: w != {} ==> evict(i, w) in w
  }

  /** The window after a miss at position `i`: the phrase is added, and one
      element is evicted when the window then exceeds 50 entries. */
  function Admit(window: set<string>, phrase: string, i: nat, evict: (nat, set<string>) -> string): (w: set<string>)
    requires ChoosesMember(evict)
    requires |window| <= WindowLimit
    ensures |w| <= WindowLimit
    ensures w <= window + {phrase}
  {
    var added := window + {phrase};
    if |added| > WindowLimit then added - {evict(i, added)} else added
  }

  /** The dedup loop from position `i` with the given window. The window
      bound of the loop head is this function's precondition; a hit skips 5
      positions, a miss emits `words[i]` and moves on by one. */
  function DedupFrom(words: seq<string>, i: nat, window: set<string>, evict: (nat, set<string>) -> string): (r: seq<string>)
    requires ChoosesMember(evict)
    requires |window| <= WindowLimit
    ensures |r| <= if i <= |words| then |words| - i else 0
    decreases if i <= |words| then |words| - i else 0
  {
    if i >= |words| then []
    else
      var phrase := PhraseAt(words, i);
      if phrase in window then DedupFrom(words, i + PhraseWords, window, evict)
      else [words[i]] + DedupFrom(words, i + 1, Admit(window, phrase, i, evict), evict)
  }

  /** The deduplicated word list of `clean_vtt`. */
  function Dedup(words: seq<string>, evict: (nat, set<string>) -> string): (r: seq<string>)
    requires ChoosesMember(evict)
    ensures words != [] ==> r != [] && r[0] == words[0]
  {
    DedupFrom(words, 0, {}, evict)
  }

  /** The loop of `clean_vtt` written as the source writes it. */
  method DedupLoop(words: seq<string>, evict: (nat, set<string>) -> string) returns (result: seq<string>)
    requires ChoosesMember(evict)
    ensures result == Dedup(words, evict)
  {
    result := [];
    var window: set<string> := {};
    var i: nat := 0;
    while i < |words|
      invariant |window| <= WindowLimit
      invariant result + DedupFrom(words, i, window, evict) == Dedup(words, evict)
      decreases |words| - i
    {
      var phrase := PhraseAt(words, i);
      if phrase in window {
        i := i + PhraseWords;
        continue;
      }
      result := result + [words[i]];
      window := Admit(window, phrase, i, evict);
      i := i + 1;
    }
  }

  lemma {:induction false} SubsequenceOfSuffix(sub: seq<string>, s: seq<string>, k: nat)
    requires k <= |s|
    requires Sorting.IsSubsequence(sub, s[k..])
    ensures Sorting.IsSubsequence(sub, s)
    decreases k
  {
    if k > 0 {
      assert s[k - 1..][1..] == s[k..];
      SubsequenceOfSuffix(sub, s, k - 1);
    }
  }

  /** Only whole words are emitted, in their original order. */
  lemma {:induction false} DedupFromSubsequence(words: seq<string>, i: nat, window: set<string>, evict: (nat, set<string>) -> string)
    requires ChoosesMember(evict)
    requires |window| <= WindowLimit
    requires i <= |words|
    ensures Sorting.IsSubsequence(DedupFrom(words, i, window, evict), words[i..])
    decreases |words| - i
  {
    if i < |words| {
      var phrase := PhraseAt(words, i);
      if phrase in window {
        if i + PhraseWords <= |words| {
          DedupFromSubsequence(words, i + PhraseWords, window, evict);
          assert words[i..][PhraseWords..] == words[i + PhraseWords..];
          SubsequenceOfSuffix(DedupFrom(words, i + PhraseWords, window, evict), words[i..], PhraseWords);
        }
      } else {
        var w := Admit(window, phrase, i, evict);
        DedupFromSubsequence(words, i + 1, w, evict);
        assert words[i..][1..] == words[i + 1..];
      }
    }
  }

  lemma {:induction false} SubsequenceLength(sub: seq<string>, s: seq<string>)
    requires Sorting.IsSubsequence(sub, s)
    ensures |sub| <= |s|
    decreases |s|
  {
    if sub != [] {
      if sub[0] == s[0] && Sorting.IsSubsequence(sub[1..], s[1..]) {
        SubsequenceLength(sub[1..], s[1..]);
      } else {
        SubsequenceLength(sub, s[1..]);
      }
    }
  }

  /** The output is a subsequence of the input words, hence never longer. */
  lemma DedupSubsequence(words: seq<string>, evict: (nat, set<string>) -> string)
    requires ChoosesMember(evict)
    ensures Sorting.IsSubsequence(Dedup(words, evict), words)
    ensures |Dedup(words, evict)| <= |words|
  {
    DedupFromSubsequence(words, 0, {}, evict);
    assert words[0..] == words;
    SubsequenceLength(Dedup(words, evict), words);
  }

  /** No phrase equals the phrase at an earlier position. */
  predicate NoEarlierRepeat(words: seq<string>) {
    forall i, j :: 0 <= j < i < |words| ==> PhraseAt(words, i) != PhraseAt(words, j)
  }

  /** A miss emits the word and continues with the admitted window. */
  lemma MissUnfold(words: seq<string>, i: nat, window: set<string>, evict: (nat, set<string>) -> string)
    requires ChoosesMember(evict)
    requires |window| <= WindowLimit
    requires i < |words|
    requires PhraseAt(words, i) !in window
    ensures DedupFrom(words, i, window, evict)
         == [words[i]] + DedupFrom(words, i + 1, Admit(window, PhraseAt(words, i), i, evict), evict)
  {
  }

  lemma SuffixCons<T>(s: seq<T>, i: nat)
    requires i < |s|
    ensures s[i..] == [s[i]] + s[i + 1..]
  {
  }

  /** Emitting `ws[k]` ahead of `ws[k+1..n] + rest` gives `ws[k..n] + rest`. */
  lemma ConsRun<T>(d: seq<T>, d1: seq<T>, ws: seq<T>, k: nat, n: nat, rest: seq<T>)
    requires k < n <= |ws|
    requires d == [ws[k]] + d1 && d1 == ws[k + 1..n] + rest
    ensures d == ws[k..n] + rest
  {
    assert ws[k..n] == [ws[k]] + ws[k + 1..n];
  }

  /** From position `i` on, with a window drawn from the phrases before `i`
      and no phrase seen before its position, every word is emitted. */
  lemma {:induction false} NoRepeatDedupFrom(words: seq<string>, i: nat, window: set<string>, evict: (nat, set<string>) -> string)
    requires ChoosesMember(evict)
    requires |window| <= WindowLimit
    requires i <= |words|
    requires forall k :: i <= k < |words| ==> IsNewAt(words, k)
    requires window <= WindowUpTo(words, i)
    ensures DedupFrom(words, i, window, evict) == words[i..]
    decreases |words| - i
  {
    if i < |words| {
      var phrase := PhraseAt(words, i);
      assert IsNewAt(words, i);
      var w := Admit(window, phrase, i, evict);
      MissUnfold(words, i, window, evict);
      NoRepeatDedupFrom(words, i + 1, w, evict);
      SuffixCons(words, i);
    }
  }

  /** Without an earlier repeat of any phrase, nothing is removed. */
  lemma NoRepeatKeepsAllWords(words: seq<string>, evict: (nat, set<string>) -> string)
    requires ChoosesMember(evict)
    requires NoEarlierRepeat(words)
    ensures Dedup(words, evict) == words
  {
    forall k | 0 <= k < |words| ensures IsNewAt(words, k) {
      WindowUpToMembers(words, k);
    }
    NoRepeatDedupFrom(words, 0, {}, evict);
    assert words[0..] == words;
  }

  /** Joining words with single spaces loses nothing: different word lists
      give different phrases, so comparing joined phrases compares words. */
  lemma JoinWordsInjective(p: seq<string>, q: seq<string>)
    requires forall w :: w in p ==> IsWord(w)
    requires forall w :: w in q ==> IsWord(w)
    requires Join(p, " ") == Join(q, " ")
    ensures p == q
  {
    SplitJoinRoundTrip(p);
    SplitJoinRoundTrip(q);
  }

  /** Three copies of a five-word phrase followed by a sixth word. */
  function Tripled(a: string, b: string, c: string, d: string, e: string, f: string): seq<string> {
    [a, b, c, d, e, a, b, c, d, e, a, b, c, d, e, f]
  }

  predicate SixDistinctWords(a: string, b: string, c: string, d: string, e: string, f: string) {
    IsWord(a) && IsWord(b) && IsWord(c) && IsWord(d) && IsWord(e) && IsWord(f)
    && a != b && a != c && a != d && a != e && a != f
    && b != c && b != d && b != e && b != f
    && c != d && c != e && c != f
    && d != e && d != f
    && e != f
  }

  /** The window after the first `n` misses: the phrases at 0 .. n-1. */
  function WindowUpTo(ws: seq<string>, n: nat): (w: set<string>)
    requires n <= |ws|
    ensures |w| <= n
  {
    if n == 0 then {} else WindowUpTo(ws, n - 1) + {PhraseAt(ws, n - 1)}
  }

  /** The phrase at `j` is not among the phrases at earlier positions. */
  predicate IsNewAt(ws: seq<string>, j: nat)
    requires j < |ws|
  {
    PhraseAt(ws, j) !in WindowUpTo(ws, j)
  }

  /** Phrases starting with different words differ. */
  lemma PhrasesDiffer(ws: seq<string>, i: nat, j: nat)
    requires i < |ws| && j < |ws|
    requires forall w :: w in ws ==> IsWord(w)
    requires ws[i] != ws[j]
    ensures PhraseAt(ws, i) != PhraseAt(ws, j)
  {
    var si, sj := ws[i..Min(i + PhraseWords, |ws|)], ws[j..Min(j + PhraseWords, |ws|)];
    assert si[0] == ws[i] && sj[0] == ws[j];
    assert forall w :: w in si ==> w in ws;
    assert forall w :: w in sj ==> w in ws;
    if PhraseAt(ws, i) == PhraseAt(ws, j) {
      JoinWordsInjective(si, sj);
    }
  }

  lemma TripledHeadsDiffer(a: string, b: string, c: string, d: string, e: string, f: string, i: nat, j: nat)
    requires SixDistinctWords(a, b, c, d, e, f)
    requires (i < 5 || i == 15) && j < 5 && i != j
    ensures PhraseAt(Tripled(a, b, c, d, e, f), i) != PhraseAt(Tripled(a, b, c, d, e, f), j)
  {
    var ws := Tripled(a, b, c, d, e, f);
    assert forall w :: w in ws ==> IsWord(w);
    assert ws[i] != ws[j];
    PhrasesDiffer(ws, i, j);
  }

  lemma {:induction false} WindowUpToMembers(ws: seq<string>, n: nat)
    requires n <= |ws|
    ensures forall p :: p in WindowUpTo(ws, n) ==> exists j :: 0 <= j < n && p == PhraseAt(ws, j)
    decreases n
  {
    if n > 0 {
      WindowUpToMembers(ws, n - 1);
    }
  }

  lemma {:induction false} WindowUpToContains(ws: seq<string>, n: nat, j: nat)
    requires j < n <= |ws|
    ensures PhraseAt(ws, j) in WindowUpTo(ws, n)
    decreases n
  {
    if j < n - 1 {
      WindowUpToContains(ws, n - 1, j);
    }
  }

  /** A miss with room in the window emits the word and records the phrase. */
  lemma MissStep(ws: seq<string>, i: nat, w: set<string>, evict: (nat, set<string>) -> string)
    requires ChoosesMember(evict)
    requires i < |ws| && |w| < WindowLimit
    requires PhraseAt(ws, i) !in w
    ensures DedupFrom(ws, i, w, evict) == [ws[i]] + DedupFrom(ws, i + 1, w + {PhraseAt(ws, i)}, evict)
  {
    assert Admit(w, PhraseAt(ws, i), i, evict) == w + {PhraseAt(ws, i)};
  }

  /** The phrase at `i` is new when the window holds the phrases before `i`
      (and, for the final word, the five phrases of the first copy). */
  lemma TripledFresh(a: string, b: string, c: string, d: string, e: string, f: string, i: nat)
    requires SixDistinctWords(a, b, c, d, e, f)
    requires i < 5 || i == 15
    ensures PhraseAt(Tripled(a, b, c, d, e, f), i) !in WindowUpTo(Tripled(a, b, c, d, e, f), if i == 15 then 5 else i)
  {
    var ws := Tripled(a, b, c, d, e, f);
    var n := if i == 15 then 5 else i;
    WindowUpToMembers(ws, n);
    forall p | p in WindowUpTo(ws, n) ensures p != PhraseAt(ws, i) {
      var j :| 0 <= j < n && p == PhraseAt(ws, j);
      TripledHeadsDiffer(a, b, c, d, e, f, i, j);
    }
  }

  /** Positions 5 .. 15: two hits on the first phrase, then the new word. */
  lemma TripledTail(a: string, b: string, c: string, d: string, e: string, f: string, evict: (nat, set<string>) -> string)
    requires ChoosesMember(evict)
    requires SixDistinctWords(a, b, c, d, e, f)
    ensures var ws := Tripled(a, b, c, d, e, f);
      DedupFrom(ws, 5, WindowUpTo(ws, 5), evict) == [f]
  {
    var ws := Tripled(a, b, c, d, e, f);
    var w := WindowUpTo(ws, 5);
    assert ws[5..10] == ws[0..5] && ws[10..15] == ws[0..5];
    WindowUpToContains(ws, 5, 0);
    TripledFresh(a, b, c, d, e, f, 15);
    MissStep(ws, 15, w, evict);
    assert DedupFrom(ws, 15, w, evict) == [f];
    assert DedupFrom(ws, 10, w, evict) == [f];
  }

  lemma EmitStep(ws: seq<string>, i: nat, evict: (nat, set<string>) -> string)
    requires ChoosesMember(evict)
    requires i < |ws| && i < WindowLimit
    requires IsNewAt(ws, i)
    ensures DedupFrom(ws, i, WindowUpTo(ws, i), evict) == [ws[i]] + DedupFrom(ws, i + 1, WindowUpTo(ws, i + 1), evict)
  {
    MissStep(ws, i, WindowUpTo(ws, i), evict);
  }

  /** Positions `k` .. `n`-1 are all misses when each phrase is new to the
      window of the phrases before it: they are emitted ahead of the rest. */
  lemma {:induction false} EmitRun(ws: seq<string>, k: nat, n: nat, rest: seq<string>, evict: (nat, set<string>) -> string)
    requires ChoosesMember(evict)
    requires k <= n < |ws| && n < WindowLimit
    requires forall j :: k <= j < n ==> IsNewAt(ws, j)
    requires DedupFrom(ws, n, WindowUpTo(ws, n), evict) == rest
    ensures DedupFrom(ws, k, WindowUpTo(ws, k), evict) == ws[k..n] + rest
    decreases n - k
  {
    if k < n {
      EmitRun(ws, k + 1, n, rest, evict);
      assert IsNewAt(ws, k);
      EmitStep(ws, k, evict);
      ConsRun(DedupFrom(ws, k, WindowUpTo(ws, k), evict), DedupFrom(ws, k + 1, WindowUpTo(ws, k + 1), evict), ws, k, n, rest);
    }
  }

  /** A phrase repeated three times and then a new word keeps one copy and
      the new word, whatever the eviction choice. */
  lemma RepeatedPhraseExample(a: string, b: string, c: string, d: string, e: string, f: string,
                              evict: (nat, set<string>) -> string)
    requires ChoosesMember(evict)
    requires SixDistinctWords(a, b, c, d, e, f)
    ensures Dedup(Tripled(a, b, c, d, e, f), evict) == [a, b, c, d, e, f]
  {
    var ws := Tripled(a, b, c, d, e, f);
    TripledTail(a, b, c, d, e, f, evict);
    forall j | 0 <= j < 5 ensures IsNewAt(ws, j) {
      TripledFresh(a, b, c, d, e, f, j);
    }
    EmitRun(ws, 0, 5, [f], evict);
    assert ws[0..5] == [a, b, c, d, e];
  }

  /** Concretely, "a b c d e a b c d e a b c d e f" becomes "a b c d e f". */
  lemma LetterExample(evict: (nat, set<string>) -> string)
    requires ChoosesMember(evict)
    ensures Dedup(["a", "b", "c", "d", "e", "a", "b", "c", "d", "e", "a", "b", "c", "d", "e", "f"], evict)
         == ["a", "b", "c", "d", "e", "f"]
  {
    assert "a"[0] != "b"[0];
    RepeatedPhraseExample("a", "b", "c", "d", "e", "f", evict);
  }

  // ---------------------------------------------------------------- clean_vtt

  /** `clean_vtt` given the outcome of fetching the caption URL; a failed
      fetch, like any other exception in the function, yields "". */
  function CleanVtt(body: Result<string>, evict: (nat, set<string>) -> string): (r: string)
    requires ChoosesMember(evict)
    ensures body.Err? ==> r == ""
    ensures body.Ok? && StartsWith(body.value, "#EXTM3U") ==> r == ""
  {
    match body
    case Err(_) => ""
    case Ok(content) =>
      if StartsWith(content, "#EXTM3U") then ""
      else
        var text := Join(FilterCaptions(SplitLines(content), ""), " ");
        Join(Dedup(SplitWhitespace(text), evict), " ")
  }

  /** The words of the cleaned transcript are a subsequence of the words of
      the kept caption lines, in order. */
  lemma CleanVttWords(content: string, evict: (nat, set<string>) -> string)
    requires ChoosesMember(evict)
    requires !StartsWith(content, "#EXTM3U")
    ensures var words := SplitWhitespace(Join(FilterCaptions(SplitLines(content), ""), " "));
            Sorting.IsSubsequence(SplitWhitespace(CleanVtt(Ok(content), evict)), words)
  {
    var words := SplitWhitespace(Join(FilterCaptions(SplitLines(content), ""), " "));
    var d := Dedup(words, evict);
    DedupSubsequence(words, evict);
    SubsequenceWords(d, words);
    SplitJoinRoundTrip(d);
  }

  lemma {:induction false} SubsequenceWords(sub: seq<string>, s: seq<string>)
    requires Sorting.IsSubsequence(sub, s)
    requires forall w :: w in s ==> IsWord(w)
    ensures forall w :: w in sub ==> IsWord(w)
    decreases |s|
  {
    if sub != [] {
      if sub[0] == s[0] && Sorting.IsSubsequence(sub[1..], s[1..]) {
        SubsequenceWords(sub[1..], s[1..]);
        assert forall w :: w in sub ==> w == sub[0] || w in sub[1..];
      } else {
        SubsequenceWords(sub, s[1..]);
      }
    }
  }

  // ---------------------------------------------------------------- process_youtube_video

  const MaxRetries: nat := 2

  /** Python truthiness of the transcript API's answer (`None` or a string). */
  predicate IsTruthy(t: Option<string>) { t.Some? && t.value != "" }

  /** What processing one video did: the transcript (also the return value),
      the transcript API attempts, the back-off delays slept before retries,
      and the saved file's name and content. */
  datatype Processed = Processed(transcript: string, apiAttempts: nat, delays: seq<nat>, fileName: string, fileContent: string)

  /** The header written above every saved transcript. */
  function TranscriptFile(url: string, transcript: string): string {
    "### SOURCE: youtube\n### URL: " + url + "\n\n" + transcript
  }

  /** `process_youtube_video`. External calls are inputs:
      `videoId` (`Err` when the id cannot be extracted, which propagates),
      `api(attempt)` (the transcript API on that attempt),
      `captionUrl` (`get_auto_caption_url`, `Err` when it raises) and
      `captionFetch` (the caption download inside `clean_vtt`) and
      `write` (creating the directory and writing the file, `Err` when
      either raises, which propagates as well). */
  function ProcessVideo(url: string, videoId: Result<string>, api: nat -> Option<string>,
                        captionUrl: Result<Option<string>>, captionFetch: string -> Result<string>,
                        evict: (nat, set<string>) -> string, write: Result<()>): (r: Result<Processed>)
    requires ChoosesMember(evict)
    ensures r.Err? <==> videoId.Err? || write.Err?
    ensures videoId.Err? ==> r == Err(videoId.message)
    ensures videoId.Ok? && write.Err? ==> r == Err(write.message)
    ensures r.Ok? ==> 1 <= r.value.apiAttempts <= MaxRetries
    ensures r.Ok? ==> (r.value.apiAttempts == 1 <==> IsTruthy(api(0)))
    ensures r.Ok? && IsTruthy(api(0)) ==> r.value.transcript == api(0).value
    ensures r.Ok? && !IsTruthy(api(0)) && IsTruthy(api(1)) ==> r.value.transcript == api(1).value
    ensures r.Ok? ==> |r.value.delays| == r.value.apiAttempts - 1
    ensures r.Ok? ==> r.value.fileContent == TranscriptFile(url, r.value.transcript)
    ensures r.Ok? ==> r.value.fileName == videoId.value + ".txt"
    ensures r.Ok? && r.value.apiAttempts == 2 ==> r.value.delays == [2]
    ensures r.Ok? && !IsTruthy(api(0)) && !IsTruthy(api(1)) && (captionUrl.Err? || captionUrl == Ok(None)) ==>
      r.value.transcript == ""
    ensures (r.Ok? && !IsTruthy(api(0)) && !IsTruthy(api(1)) && captionUrl.Ok? && captionUrl.value.Some?
             && captionUrl.value.value != "") ==>
      r.value.transcript == CleanVtt(captionFetch(captionUrl.value.value), evict)
  {
    match videoId
    case Err(e) => Err(e)
    case Ok(id) =>
      var first := api(0);
      var attempts := if IsTruthy(first) then 1 else 2;
      var fromApi := if IsTruthy(first) then first else api(1);
      var transcript :=
        if IsTruthy(fromApi) then fromApi.value
        else match captionUrl
          case Err(_) => ""
          case Ok(None) => ""
          case Ok(Some(u)) => if u == "" then "" else CleanVtt(captionFetch(u), evict);
      var delays := if attempts == 2 then [Pow(2, 1)] else [];
      if write.Err? then Err(write.message) else
      Ok(Processed(transcript, attempts, delays, id + ".txt", TranscriptFile(url, transcript)))
  }
}
