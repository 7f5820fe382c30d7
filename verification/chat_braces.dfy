/** The salvage scan of the dashboard chat section
    (Frontend/src/components/dashboard/sections/ChatSection.jsx) for a reply
    that does not parse: the `"type": "quiz"` tag test and the brace count
    that cuts one object out of the text. */
module ChatBraces {
  import opened Wrappers
  import opened Text

  // ---------------------------------------------------------------- brace scan

  /** The change a character makes to the brace count. */
  function Step(c: char): int {
    if c == '{' then 1 else if c == '}' then -1 else 0
  }

  /** Opening minus closing braces in `s[start..k]`. */
  function DepthIn(s: string, start: nat, k: nat): int
    requires start <= k <= |s|
    decreases k - start
  {
    if k == start then 0 else DepthIn(s, start, k - 1) + Step(s[k - 1])
  }

  /** Opening minus closing braces in `x`. */
  function Depth(x: string): int { DepthIn(x, 0, |x|) }

  /** A brace-delimited object: it opens with '{', every proper prefix has
      more opening than closing braces, and the whole is balanced. */
  predicate Balanced(x: string) {
    |x| > 0 && x[0] == '{' && Depth(x) == 0 && forall k :: 0 < k < |x| ==> DepthIn(x, 0, k) > 0
  }

  /** The count over a slice is the count over the same stretch of the whole. */
  lemma {:induction false} DepthInSlice(s: string, start: nat, end: nat, k: nat)
    requires start <= end <= |s| && k <= end - start
    ensures DepthIn(s[start..end], 0, k) == DepthIn(s, start, start + k)
    decreases k
  {
    if k > 0 {
      DepthInSlice(s, start, end, k - 1);
      assert s[start..end][k - 1] == s[start + k - 1];
    }
  }

  /** Text after a prefix does not change the prefix's counts. */
  lemma {:induction false} DepthInPrefix(x: string, rest: string, k: nat)
    requires k <= |x|
    ensures DepthIn(x + rest, 0, k) == DepthIn(x, 0, k)
    decreases k
  {
    if k > 0 {
      DepthInPrefix(x, rest, k - 1);
      assert (x + rest)[k - 1] == x[k - 1];
    }
  }

  /** The `for` loop from `jsonStart`: `i` is the position reached and `d`
      the brace count so far; the answer is where the count first returns
      to zero, or -1. */
  function CloseIndex(s: string, i: nat, d: int): (r: int)
    requires i <= |s|
    ensures r == -1 || i <= r < |s|
    decreases |s| - i
  {
    if i == |s| then -1
    else if s[i] == '{' then CloseIndex(s, i + 1, d + 1)
    else if s[i] == '}' then
      if d - 1 == 0 then i else CloseIndex(s, i + 1, d - 1)
    else CloseIndex(s, i + 1, d)
  }

  /** Run from an opening brace at `start`, the scan stops at the first
      position where the count of the text from `start` returns to zero,
      and reports -1 exactly when it never does. */
  lemma {:induction false} CloseIndexSpec(s: string, start: nat, i: nat, d: int)
    requires start < |s| && s[start] == '{' && start <= i <= |s|
    requires d == DepthIn(s, start, i)
    requires forall k :: start < k <= i ==> DepthIn(s, start, k) > 0
    ensures var r := CloseIndex(s, i, d);
      (r == -1 ==> forall k :: start < k <= |s| ==> DepthIn(s, start, k) > 0)
      && (r != -1 ==> s[r] == '}' && DepthIn(s, start, r + 1) == 0
                      && forall k :: start < k <= r ==> DepthIn(s, start, k) > 0)
    decreases |s| - i
  {
    if i < |s| && !(s[i] == '}' && d == 1) {
      assert i > start ==> d > 0;
      var next := d + Step(s[i]);
      assert CloseIndex(s, i, d) == CloseIndex(s, i + 1, next);
      CloseIndexSpec(s, start, i + 1, next);
    }
  }

  const TypeKey: string := "\"type\":"

  /** `lastIndexOf('{', indexOf('"type":'))`, when both are found. */
  function ObjectStart(body: string): (r: Option<nat>)
    ensures r.Some? ==> r.value < |body| && body[r.value] == '{'
  {
    var typeIndex := IndexOf(body, TypeKey);
    if typeIndex == -1 then None
    else
      var start := LastIndexOfChar(body, '{', typeIndex);
      if start == -1 then None else Some(start)
  }

  /** The object the scan cuts out of a body: from the last '{' at or before
      the first `"type":` to the brace that balances it. */
  function Extract(body: string): (r: Option<string>)
  {
    match ObjectStart(body)
    case None => None
    case Some(start) =>
      var end := CloseIndex(body, start, 0);
      if end == -1 then None else Some(body[start..end + 1])
  }

  /** What is cut out is a balanced object closed by '}', taken from the body. */
  lemma ExtractShape(body: string)
    ensures var r := Extract(body);
      r.Some? ==> Balanced(r.value) && r.value[|r.value| - 1] == '}' && Contains(body, r.value)
  {
    var st := ObjectStart(body);
    if st.Some? {
      var start := st.value;
      var r := CloseIndex(body, start, 0);
      if r != -1 {
        CloseIndexSpec(body, start, start, 0);
        SliceBalanced(body, start, r);
        assert Extract(body) == Some(body[start..r + 1]);
      }
    }
  }

  /** The stretch from an opening brace to where its count first returns to
      zero is a balanced object found in the text. */
  lemma SliceBalanced(s: string, start: nat, r: nat)
    requires start <= r < |s| && s[start] == '{' && s[r] == '}'
    requires DepthIn(s, start, r + 1) == 0 && forall k :: start < k <= r ==> DepthIn(s, start, k) > 0
    ensures var x := s[start..r + 1]; Balanced(x) && x[|x| - 1] == '}' && Contains(s, x)
  {
    var x := s[start..r + 1];
    forall k | 0 < k <= |x| ensures DepthIn(x, 0, k) == DepthIn(s, start, start + k) {
      DepthInSlice(s, start, r + 1, k);
    }
    assert StartsWith(s[start..], x);
  }

  /** Nothing is cut out exactly when there is no start or the count from
      the start never returns to zero. */
  lemma ExtractNoneIff(body: string)
    ensures Extract(body).None? <==>
      ObjectStart(body).None?
      || forall k :: ObjectStart(body).value < k <= |body| ==> DepthIn(body, ObjectStart(body).value, k) > 0
  {
    var st := ObjectStart(body);
    if st.Some? {
      CloseIndexSpec(body, st.value, st.value, 0);
    }
  }

  /** A balanced object at the front is cut out whole, whatever follows it:
      the count first returns to zero at its last brace. */
  lemma CloseIndexFindsObject(x: string, rest: string)
    requires Balanced(x)
    ensures CloseIndex(x + rest, 0, 0) == |x| - 1
  {
    var s := x + rest;
    CloseIndexSpec(s, 0, 0, 0);
    forall k | 0 < k <= |x| ensures DepthIn(s, 0, k) == DepthIn(x, 0, k) {
      DepthInPrefix(x, rest, k);
    }
  }

  // ---------------------------------------------------------------- type tags

  /** `t` opens with optional whitespace and then `q`, whose first character
      is not whitespace (`\s*` followed by `q`). */
  predicate AfterSpace(t: string, q: string)
    decreases |t|
  {
    StartsWith(t, q) || (t != [] && IsJsSpace(t[0]) && AfterSpace(t[1..], q))
  }

  /** `t` opens with `"type":`, optional whitespace and the quoted kind. */
  predicate TagAt(t: string, kind: string) {
    StartsWith(t, TypeKey) && AfterSpace(t[|TypeKey|..], "\"" + kind + "\"")
  }

  /** The body matches `/"type":\s*"kind"/`. */
  predicate HasTag(body: string, kind: string) {
    exists i :: 0 <= i <= |body| && TagAt(body[i..], kind)
  }

  /** A tag written with any run of whitespace after the colon is found. */
  lemma TagFound(before: string, gap: string, kind: string, after: string)
    requires forall k :: 0 <= k < |gap| ==> IsJsSpace(gap[k])
    ensures HasTag(before + TypeKey + gap + "\"" + kind + "\"" + after, kind)
  {
    var q := "\"" + kind + "\"";
    var t := TypeKey + gap + q + after;
    var body := before + TypeKey + gap + "\"" + kind + "\"" + after;
    assert body[|before|..] == t;
    assert t[|TypeKey|..] == gap + (q + after);
    SpacesThen(gap, q + after, q);
    assert TagAt(body[|before|..], kind);
  }

  /** Whitespace in front of a match of `q` is skipped. */
  lemma {:induction false} SpacesThen(gap: string, rest: string, q: string)
    requires forall k :: 0 <= k < |gap| ==> IsJsSpace(gap[k])
    requires StartsWith(rest, q)
    ensures AfterSpace(gap + rest, q)
    decreases |gap|
  {
    if gap == [] {
      assert gap + rest == rest;
    } else {
      assert (gap + rest)[1..] == gap[1..] + rest;
      SpacesThen(gap[1..], rest, q);
    }
  }
}
