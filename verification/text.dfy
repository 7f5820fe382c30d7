/** String operations of Python's `str` and JavaScript's `String` that the
    models rely on: whitespace classes, strip/trim, whitespace split, single
    character split, joins, substring search, ASCII case mapping, slices and
    number formatting. */
module Text {

  /** The characters Python's `str.isspace()` accepts; `str.split()` and
      `str.strip()` with no argument use this class. */
  predicate IsPySpace(c: char) {
    var n := c as int;
    (9 <= n <= 13) || (28 <= n <= 32) || n == 0x85 || n == 0xA0 || n == 0x1680
    || (0x2000 <= n <= 0x200A) || n == 0x2028 || n == 0x2029 || n == 0x202F
    || n == 0x205F || n == 0x3000
  }

  /** ECMAScript WhiteSpace and LineTerminator: what `String.prototype.trim`
      removes and what the regular-expression class `\s` matches. */
  predicate IsJsSpace(c: char) {
    var n := c as int;
    (9 <= n <= 13) || n == 32 || n == 0xA0 || n == 0x1680
    || (0x2000 <= n <= 0x200A) || n == 0x2028 || n == 0x2029 || n == 0x202F
    || n == 0x205F || n == 0x3000 || n == 0xFEFF
  }

  predicate IsAsciiDigit(c: char) { '0' <= c <= '9' }
  predicate IsAsciiUpper(c: char) { 'A' <= c <= 'Z' }
  predicate IsAsciiLower(c: char) { 'a' <= c <= 'z' }
  predicate IsAsciiLetter(c: char) { IsAsciiUpper(c) || IsAsciiLower(c) }

  /** A character outside the Basic Multilingual Plane: JavaScript stores it
      as a surrogate pair. */
  predicate IsAstral(c: char) { c as int >= 0x1_0000 }

  /** JavaScript's `s.length`: the number of UTF-16 code units, two for an
      astral character and one for any other. */
  function JsLength(s: string): (n: nat)
    ensures |s| <= n <= 2 * |s|
    ensures n == |s| <==> forall i :: 0 <= i < |s| ==> !IsAstral(s[i])
  {
    if s == [] then 0
    else
      var rest := JsLength(s[1..]);
      assert forall i :: 1 <= i < |s| ==> s[i] == s[1..][i - 1];
      (if IsAstral(s[0]) then 2 else 1) + rest
  }

  /** Some character of `s` is outside the whitespace class. */
  predicate HasNonSpace(s: string, isSpace: char -> bool) {
    exists i :: 0 <= i < |s| && !isSpace(s[i])
  }

  // ---------------------------------------------------------------- strip

  function TrimStart(s: string, isSpace: char -> bool): (r: string)
    ensures |r| <= |s| && r == s[|s| - |r|..]
    ensures forall i :: 0 <= i < |s| - |r| ==> isSpace(s[i])
    ensures r == [] || !isSpace(r[0])
    decreases |s|
  {
    if s == [] || !isSpace(s[0]) then s else TrimStart(s[1..], isSpace)
  }

  function TrimEnd(s: string, isSpace: char -> bool): (r: string)
    ensures |r| <= |s| && r == s[..|r|]
    ensures forall i :: |r| <= i < |s| ==> isSpace(s[i])
    ensures r == [] || !isSpace(r[|r| - 1])
    decreases |s|
  {
    if s == [] || !isSpace(s[|s| - 1]) then s else TrimEnd(s[..|s| - 1], isSpace)
  }

  /** Both ends stripped of the whitespace class. */
  function Trim(s: string, isSpace: char -> bool): string {
    TrimEnd(TrimStart(s, isSpace), isSpace)
  }

  /** Python `s.strip()`. */
  function PyStrip(s: string): string { Trim(s, IsPySpace) }

  /** JavaScript `s.trim()`. */
  function JsTrim(s: string): string { Trim(s, IsJsSpace) }

  /** Stripping leaves the empty string exactly when every character is whitespace. */
  lemma TrimEmptyIff(s: string, isSpace: char -> bool)
    ensures Trim(s, isSpace) == [] <==> !HasNonSpace(s, isSpace)
  {
    var t := TrimStart(s, isSpace);
    var r := TrimEnd(t, isSpace);
    if r == [] {
      forall i | 0 <= i < |s| ensures isSpace(s[i]) {
        if i >= |s| - |t| {
          assert s[i] == t[i - (|s| - |t|)];
        }
      }
    } else {
      var k := |s| - |t|;
      assert t[0] == s[k];
      assert !isSpace(s[k]);
    }
  }

  // ---------------------------------------------------------------- prefixes and search

  predicate StartsWith(s: string, p: string) { |p| <= |s| && s[..|p|] == p }

  predicate EndsWith(s: string, p: string) { |p| <= |s| && s[|s| - |p|..] == p }

  /** `p` occurs in `s` (Python `p in s`, JavaScript `s.includes(p)`). */
  predicate Contains(s: string, p: string) {
    exists i :: 0 <= i <= |s| && StartsWith(s[i..], p)
  }

  /** The stripped string is a contiguous piece of the input. */
  lemma TrimIsInfix(s: string, isSpace: char -> bool)
    ensures Contains(s, Trim(s, isSpace))
  {
    var t := TrimStart(s, isSpace);
    var r := TrimEnd(t, isSpace);
    var i := |s| - |t|;
    assert s[i..] == t;
    assert StartsWith(s[i..], r);
  }

  function IndexOfFrom(s: string, p: string, k: nat): (r: int)
    requires k <= |s|
    ensures r == -1 || (k <= r <= |s| && StartsWith(s[r..], p))
    ensures r == -1 ==> forall j :: k <= j <= |s| ==> !StartsWith(s[j..], p)
    ensures r >= 0 ==> forall j :: k <= j < r ==> !StartsWith(s[j..], p)
    decreases |s| - k
  {
    if StartsWith(s[k..], p) then k
    else if k == |s| then -1
    else IndexOfFrom(s, p, k + 1)
  }

  /** JavaScript `s.indexOf(p)`: the first occurrence, or -1. */
  function IndexOf(s: string, p: string): (r: int)
    ensures r == -1 <==> !Contains(s, p)
    ensures r >= 0 ==> r <= |s| && StartsWith(s[r..], p)
    ensures r >= 0 ==> forall j :: 0 <= j < r ==> !StartsWith(s[j..], p)
  {
    IndexOfFrom(s, p, 0)
  }

  /** JavaScript `s.lastIndexOf(c, from)` for a single character: the last
      position at or before `from` that holds `c`, or -1. */
  function LastIndexOfChar(s: string, c: char, from: int): (r: int)
    ensures -1 <= r < |s|
    ensures r >= 0 ==> r <= from && s[r] == c
    ensures forall j :: r < j <= from && 0 <= j < |s| ==> s[j] != c
    decreases if from < 0 then 0 else from + 1
  {
    if from < 0 || |s| == 0 then -1
    else if from >= |s| then LastIndexOfChar(s, c, |s| - 1)
    else if s[from] == c then from
    else LastIndexOfChar(s, c, from - 1)
  }

  // ---------------------------------------------------------------- case mapping (ASCII)

  function LowerChar(c: char): char {
    if IsAsciiUpper(c) then (c as int + 32) as char else c
  }

  function UpperChar(c: char): char {
    if IsAsciiLower(c) then (c as int - 32) as char else c
  }

  function ToLower(s: string): (r: string)
    ensures |r| == |s|
    ensures forall i :: 0 <= i < |s| ==> r[i] == LowerChar(s[i])
  {
    seq(|s|, i requires 0 <= i < |s| => LowerChar(s[i]))
  }

  function ToUpper(s: string): (r: string)
    ensures |r| == |s|
    ensures forall i :: 0 <= i < |s| ==> r[i] == UpperChar(s[i])
  {
    seq(|s|, i requires 0 <= i < |s| => UpperChar(s[i]))
  }

  lemma ToLowerIdempotent(s: string)
    ensures ToLower(ToLower(s)) == ToLower(s)
  {
  }

  lemma ToLowerAppend(a: string, b: string)
    ensures ToLower(a + b) == ToLower(a) + ToLower(b)
  {
  }

  // ---------------------------------------------------------------- join and split

  /** Python `sep.join(parts)` and JavaScript `parts.join(sep)`. */
  function Join(parts: seq<string>, sep: string): string
    decreases |parts|
  {
    if parts == [] then ""
    else if |parts| == 1 then parts[0]
    else parts[0] + sep + Join(parts[1..], sep)
  }

  /** A join starts with the first part and ends with the last. */
  lemma {:induction false} JoinEnds(parts: seq<string>, sep: string)
    requires parts != []
    ensures StartsWith(Join(parts, sep), parts[0])
    ensures EndsWith(Join(parts, sep), parts[|parts| - 1])
    decreases |parts|
  {
    if |parts| > 1 {
      JoinEnds(parts[1..], sep);
      var j := Join(parts, sep);
      assert j == parts[0] + sep + Join(parts[1..], sep);
      assert j[..|parts[0]|] == parts[0];
      assert j[|j| - |parts[|parts| - 1]|..] == Join(parts[1..], sep)[|Join(parts[1..], sep)| - |parts[|parts| - 1]|..];
    }
  }

  lemma JoinAppendOne(parts: seq<string>, last: string, sep: string)
    requires parts != []
    ensures Join(parts + [last], sep) == Join(parts, sep) + sep + last
    decreases |parts|
  {
    if |parts| == 1 {
      assert parts + [last] == [parts[0], last];
    } else {
      assert (parts + [last])[1..] == parts[1..] + [last];
      JoinAppendOne(parts[1..], last, sep);
    }
  }

  /** A token of Python's `str.split()`: non-empty and free of whitespace. */
  predicate IsWord(w: string) {
    w != [] && forall i :: 0 <= i < |w| ==> !IsPySpace(w[i])
  }

  /** Length of the leading run of non-whitespace characters. */
  function WordLength(s: string): (n: nat)
    ensures n <= |s|
    ensures forall i :: 0 <= i < n ==> !IsPySpace(s[i])
    ensures n == |s| || IsPySpace(s[n])
  {
    if s == [] || IsPySpace(s[0]) then 0 else 1 + WordLength(s[1..])
  }

  /** Python `s.split()` with no argument: the maximal runs of non-whitespace. */
  function SplitWhitespace(s: string): (words: seq<string>)
    ensures forall w :: w in words ==> IsWord(w)
    decreases |s|
  {
    if s == [] then []
    else if IsPySpace(s[0]) then SplitWhitespace(s[1..])
    else
      var n := WordLength(s);
      [s[..n]] + SplitWhitespace(s[n..])
  }

  lemma WordLengthOfWord(a: string, b: string)
    requires forall i :: 0 <= i < |a| ==> !IsPySpace(a[i])
    requires b == [] || IsPySpace(b[0])
    ensures WordLength(a + b) == |a|
    decreases |a|
  {
    if a != [] {
      assert (a + b)[1..] == a[1..] + b;
      WordLengthOfWord(a[1..], b);
    }
  }

  /** Splitting the space-joined words gives the words back. */
  lemma {:induction false} SplitJoinRoundTrip(words: seq<string>)
    requires forall w :: w in words ==> IsWord(w)
    ensures SplitWhitespace(Join(words, " ")) == words
    decreases |words|
  {
    if words == [] {
    } else if |words| == 1 {
      var w := words[0];
      assert w in words;
      assert w + "" == w;
      WordLengthOfWord(w, "");
      assert w[..|w|] == w;
      assert w[|w|..] == "";
    } else {
      var w := words[0];
      assert w in words;
      var rest := Join(words[1..], " ");
      var s := w + " " + rest;
      assert s == w + (" " + rest);
      WordLengthOfWord(w, " " + rest);
      assert s[..|w|] == w;
      assert s[|w|..] == " " + rest;
      assert (" " + rest)[1..] == rest;
      SplitJoinRoundTrip(words[1..]);
      assert [w] + words[1..] == words;
    }
  }

  /** Whitespace normalisation `" ".join(s.split())` is invisible to a second split. */
  lemma NormaliseThenSplit(s: string)
    ensures SplitWhitespace(Join(SplitWhitespace(s), " ")) == SplitWhitespace(s)
  {
    SplitJoinRoundTrip(SplitWhitespace(s));
  }

  /** A whitespace character separates: splitting around it splits each side. */
  lemma {:induction false} SplitAround(a: string, c: char, b: string)
    requires IsPySpace(c)
    ensures SplitWhitespace(a + [c] + b) == SplitWhitespace(a) + SplitWhitespace(b)
    decreases |a|
  {
    var s := a + [c] + b;
    if a == [] {
      assert s[1..] == b;
    } else if IsPySpace(a[0]) {
      assert s[1..] == a[1..] + [c] + b;
      SplitAround(a[1..], c, b);
    } else {
      var n := WordLength(a);
      var rest := a[n..] + [c] + b;
      assert s == a[..n] + rest;
      WordLengthOfWord(a[..n], rest);
      assert s[..n] == a[..n];
      assert s[n..] == rest;
      SplitAround(a[n..], c, b);
    }
  }

  /** A single word splits to itself. */
  lemma SplitWord(w: string)
    requires IsWord(w)
    ensures SplitWhitespace(w) == [w]
  {
    SplitJoinRoundTrip([w]);
  }

  /** A string of whitespace splits to nothing. */
  lemma {:induction false} SplitAllSpace(s: string)
    requires !HasNonSpace(s, IsPySpace)
    ensures SplitWhitespace(s) == []
    decreases |s|
  {
    if s != [] {
      assert IsPySpace(s[0]);
      assert forall i :: 0 <= i < |s[1..]| ==> s[1..][i] == s[i + 1];
      SplitAllSpace(s[1..]);
    }
  }

  /** Stripping does not change the words of a string. */
  lemma StripThenSplit(s: string)
    ensures SplitWhitespace(PyStrip(s)) == SplitWhitespace(s)
  {
    SplitTrimStart(s);
    SplitTrimEnd(TrimStart(s, IsPySpace));
  }

  lemma SplitTrimEnd(t: string)
    ensures SplitWhitespace(TrimEnd(t, IsPySpace)) == SplitWhitespace(t)
  {
    var r := TrimEnd(t, IsPySpace);
    if |r| < |t| {
      var c := t[|r|];
      var tail := t[|r| + 1..];
      assert t == r + [c] + tail;
      assert !HasNonSpace(tail, IsPySpace) by {
        forall i | 0 <= i < |tail| ensures IsPySpace(tail[i]) {
          assert tail[i] == t[|r| + 1 + i];
        }
      }
      SplitAllSpace(tail);
      SplitAround(r, c, tail);
    }
  }

  lemma {:induction false} SplitTrimStart(s: string)
    ensures SplitWhitespace(TrimStart(s, IsPySpace)) == SplitWhitespace(s)
    decreases |s|
  {
    if s != [] && IsPySpace(s[0]) {
      SplitTrimStart(s[1..]);
    }
  }

  function IndexOfChar(s: string, c: char): (i: int)
    ensures -1 <= i < |s|
    ensures i >= 0 ==> s[i] == c && forall j :: 0 <= j < i ==> s[j] != c
    ensures i == -1 ==> forall j :: 0 <= j < |s| ==> s[j] != c
  {
    if s == [] then -1
    else if s[0] == c then 0
    else var k := IndexOfChar(s[1..], c); if k == -1 then -1 else k + 1
  }

  /** JavaScript `s.split(c)` for a one-character separator: the pieces
      between separators, empty pieces included. */
  function SplitOn(s: string, c: char): (parts: seq<string>)
    ensures |parts| >= 1
    decreases |s|
  {
    var i := IndexOfChar(s, c);
    if i < 0 then [s] else [s[..i]] + SplitOn(s[i + 1..], c)
  }

  /** Joining the first `k` pieces back with the separator gives a prefix of the input. */
  lemma {:induction false} SplitOnPrefix(s: string, c: char, k: nat)
    requires k <= |SplitOn(s, c)|
    ensures StartsWith(s, Join(SplitOn(s, c)[..k], [c]))
    decreases |s|
  {
    var parts := SplitOn(s, c);
    var i := IndexOfChar(s, c);
    if k == 0 {
    } else if i < 0 {
      assert parts[..k] == [s];
    } else if k == 1 {
      assert parts[..k] == [s[..i]];
    } else {
      var rest := s[i + 1..];
      var restParts := SplitOn(rest, c);
      assert parts == [s[..i]] + restParts;
      SplitOnPrefix(rest, c, k - 1);
      var q := Join(restParts[..k - 1], [c]);
      assert parts[..k] == [s[..i]] + restParts[..k - 1];
      JoinCons(s[..i], restParts[..k - 1], [c]);
      PrefixThroughSeparator(s, i, q);
    }
  }

  lemma JoinCons(head: string, tail: seq<string>, sep: string)
    requires tail != []
    ensures Join([head] + tail, sep) == head + sep + Join(tail, sep)
  {
    assert ([head] + tail)[1..] == tail;
  }

  lemma PrefixThroughSeparator(s: string, i: nat, q: string)
    requires i < |s|
    requires StartsWith(s[i + 1..], q)
    ensures StartsWith(s, s[..i] + [s[i]] + q)
  {
    var p := s[..i] + [s[i]] + q;
    assert |p| <= |s|;
    forall j | 0 <= j < |p| ensures s[j] == p[j] {
      if j > i {
        assert s[i + 1..][j - i - 1] == q[j - i - 1];
      }
    }
    assert s[..|p|] == p;
  }

  /** Joining all pieces back with the separator restores the input. */
  lemma {:induction false} SplitOnJoin(s: string, c: char)
    ensures Join(SplitOn(s, c), [c]) == s
    decreases |s|
  {
    var i := IndexOfChar(s, c);
    if i >= 0 {
      var rest := s[i + 1..];
      SplitOnJoin(rest, c);
      assert s == s[..i] + [c] + rest;
    }
  }

  /** Number of occurrences of `c` in `s`. */
  function CountChar(s: string, c: char): nat {
    if s == [] then 0 else (if s[0] == c then 1 else 0) + CountChar(s[1..], c)
  }

  /** `s.split(c)` has one piece more than there are separators. */
  lemma {:induction false} SplitOnCount(s: string, c: char)
    ensures |SplitOn(s, c)| == CountChar(s, c) + 1
    decreases |s|
  {
    var i := IndexOfChar(s, c);
    CountThroughFirst(s, c);
    if i >= 0 {
      var rest := s[i + 1..];
      SplitOnCount(rest, c);
      assert |SplitOn(s, c)| == 1 + |SplitOn(rest, c)|;
    } else {
      assert |SplitOn(s, c)| == 1;
    }
  }

  /** Counting through the first occurrence: none before it, then one. */
  lemma {:induction false} CountThroughFirst(s: string, c: char)
    ensures var i := IndexOfChar(s, c);
      (i < 0 ==> CountChar(s, c) == 0) && (i >= 0 ==> CountChar(s, c) == 1 + CountChar(s[i + 1..], c))
    decreases |s|
  {
    if s != [] && s[0] != c {
      CountThroughFirst(s[1..], c);
      var k := IndexOfChar(s[1..], c);
      if k >= 0 {
        assert s[1..][k + 1..] == s[k + 2..];
      }
    }
  }

  // ---------------------------------------------------------------- slices

  /** Resolves a JavaScript `slice` index: negative counts from the end, then clamped. */
  function SliceIndex(i: int, len: nat): (r: nat)
    ensures r <= len
    ensures 0 <= i <= len ==> r == i
    ensures i < 0 && len + i >= 0 ==> r == len + i
  {
    if i < 0 then (if len + i < 0 then 0 else len + i)
    else if i > len then len
    else i
  }

  /** JavaScript `s.slice(start, end)`. */
  function JsSlice(s: string, start: int, end: int): (r: string)
    ensures |r| <= |s|
  {
    var from := SliceIndex(start, |s|);
    var to := SliceIndex(end, |s|);
    if from < to then s[from..to] else ""
  }

  /** JavaScript `s.substring(0, n)` (and Python `s[:n]`) for `n >= 0`. */
  function Prefix(s: string, n: nat): (r: string)
    ensures |r| == if n <= |s| then n else |s|
    ensures StartsWith(s, r)
  {
    if n <= |s| then s[..n] else s
  }

  // ---------------------------------------------------------------- numbers

  function DigitChar(d: nat): char
    requires d < 36
  {
    if d < 10 then ('0' as int + d) as char else ('a' as int + d - 10) as char
  }

  /** Digits of `n` in the given base, most significant first (`n.toString(base)`). */
  function NatToBase(n: nat, base: nat): (r: string)
    requires 2 <= base <= 36
    ensures |r| >= 1
    decreases n
  {
    if n < base then [DigitChar(n)] else NatToBase(n / base, base) + [DigitChar(n % base)]
  }

  function NatToString(n: nat): string { NatToBase(n, 10) }

  /** The value of a digit character (`parseInt` of one digit). */
  function DigitValue(c: char): nat {
    if '0' <= c <= '9' then c as nat - '0' as nat
    else if 'a' <= c <= 'z' then c as nat - 'a' as nat + 10
    else 0
  }

  /** The number a string of digits denotes in a base. */
  function DigitsValue(s: string, base: nat): nat
    decreases |s|
  {
    if s == [] then 0 else DigitsValue(s[..|s| - 1], base) * base + DigitValue(s[|s| - 1])
  }

  /** Reading the rendering back gives the number. */
  lemma {:induction false} NatToBaseRoundTrip(n: nat, base: nat)
    requires 2 <= base <= 36
    ensures DigitsValue(NatToBase(n, base), base) == n
    decreases n
  {
    if n < base {
      DigitRoundTrip(n);
      assert NatToBase(n, base) == [DigitChar(n)];
    } else {
      var q, d := n / base, n % base;
      DivParts(n, base);
      var front := NatToBase(q, base);
      assert NatToBase(n, base) == front + [DigitChar(d)];
      DigitsSnoc(front, DigitChar(d), base);
      DigitRoundTrip(d);
      NatToBaseRoundTrip(q, base);
      assert DigitsValue(NatToBase(n, base), base) == q * base + d;
    }
  }

  lemma DigitsSnoc(front: string, c: char, base: nat)
    ensures DigitsValue(front + [c], base) == DigitsValue(front, base) * base + DigitValue(c)
  {
    assert (front + [c])[..|front|] == front;
  }

  lemma DigitRoundTrip(d: nat)
    requires d < 36
    ensures DigitValue(DigitChar(d)) == d
  {
  }

  lemma DivParts(n: nat, b: nat)
    requires 2 <= b && n >= b
    ensures n / b < n && n % b < b && (n / b) * b + n % b == n
  {
  }

  /** Different numbers have different renderings in a base. */
  lemma NatToBaseInjective(n: nat, m: nat, base: nat)
    requires 2 <= base <= 36 && NatToBase(n, base) == NatToBase(m, base)
    ensures n == m
  {
    NatToBaseRoundTrip(n, base);
    NatToBaseRoundTrip(m, base);
  }

  /** Decimal rendering with a leading '-' for negatives (`str(i)`, `String(i)`). */
  function IntToString(i: int): string {
    if i < 0 then "-" + NatToString(-i) else NatToString(i)
  }

  /** `n.toString(36)`. */
  function Base36(n: nat): string { NatToBase(n, 36) }

  function Pow(b: nat, k: nat): nat {
    if k == 0 then 1 else b * Pow(b, k - 1)
  }

  /** A number below `base^k` has at most `k` digits. */
  lemma {:induction false} NatToBaseLength(n: nat, base: nat, k: nat)
    requires 2 <= base <= 36 && k >= 1
    requires n < Pow(base, k)
    ensures |NatToBase(n, base)| <= k
    decreases k
  {
    if n >= base {
      assert Pow(base, 1) == base;
      assert k >= 2;
      var p := Pow(base, k - 1);
      assert Pow(base, k) == base * p;
      DivBelow(n, base, p);
      NatToBaseLength(n / base, base, k - 1);
    }
  }

  lemma DivBelow(n: nat, b: nat, p: nat)
    requires b >= 1 && n < b * p
    ensures n / b < p
  {
    var q := n / b;
    assert q * b <= n < b * p;
  }

  /** Two-digit zero-padded rendering of 0..99 (`%H`, `%M`, `padStart(2, '0')`). */
  function Pad2(n: nat): (r: string)
    requires n < 100
    ensures |r| == 2 && IsAsciiDigit(r[0]) && IsAsciiDigit(r[1])
    ensures DigitsValue(r, 10) == n
  {
    var r := [DigitChar(n / 10), DigitChar(n % 10)];
    assert DigitValue(r[0]) == n / 10 && DigitValue(r[1]) == n % 10;
    assert r[..1] == [r[0]] && [r[0]][..0] == [];
    assert DigitsValue(r[..1], 10) == n / 10;
    [DigitChar(n / 10), DigitChar(n % 10)]
  }
}
