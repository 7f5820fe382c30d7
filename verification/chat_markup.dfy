/** The text handling of the dashboard chat section
    (Frontend/src/components/dashboard/sections/ChatSection.jsx): the bold
    markers `formatTextAsString` removes and the code fences stripped from a
    model reply before it is parsed. */
module ChatMarkup {
  import opened Wrappers
  import opened Text
  import opened JsValues

  // ---------------------------------------------------------------- bold markers

  /** The characters JavaScript's `.` does not match. */
  predicate IsLineEnd(c: char) {
    c == '\n' || c == '\r' || c as int == 0x2028 || c as int == 0x2029
  }

  /** A "**" marker starts at position `j` of `t`. */
  predicate MarkerAt(t: string, j: nat) {
    j + 2 <= |t| && t[j] == '*' && t[j + 1] == '*'
  }

  /** Where a lazily matched span closes once the scan has reached offset `j`
      of `t`: the first marker from `j` on with no line end before it. */
  function CloseFrom(t: string, j: nat): (r: Option<nat>)
    requires j <= |t|
    ensures r.Some? ==> j <= r.value && MarkerAt(t, r.value)
    ensures r.Some? ==> forall k :: j <= k < r.value ==> !MarkerAt(t, k) && !IsLineEnd(t[k])
    decreases |t| - j
  {
    if MarkerAt(t, j) then Some(j)
    else if j == |t| || IsLineEnd(t[j]) then None
    else CloseFrom(t, j + 1)
  }

  /** The global replacement of a lazily matched, single-line "**" span by
      its inner text: every marked span loses its markers, scanning from
      the left. */
  function StripBold(s: string): (r: string)
    ensures |r| <= |s|
    decreases |s|
  {
    if s == [] then []
    else if MarkerAt(s, 0) && CloseFrom(s[2..], 0).Some? then
      var j := CloseFrom(s[2..], 0).value;
      s[2..2 + j] + StripBold(s[2 + j + 2..])
    else [s[0]] + StripBold(s[1..])
  }

  /** `formatTextAsString(text)`: strings lose their bold markers, anything
      else is `String(text)`. */
  function FormatTextAsString(v: Value): (r: string)
    ensures v.Str? && !Contains(v.s, "**") ==> r == v.s
    ensures !v.Str? ==> r == ToJsString(v)
  {
    if v.Str? then
      if !Contains(v.s, "**") then StripBoldPlain(v.s); StripBold(v.s)
      else StripBold(v.s)
    else ToJsString(v)
  }

  /** Text without a "**" comes through unchanged. */
  lemma {:induction false} StripBoldPlain(s: string)
    requires !Contains(s, "**")
    ensures StripBold(s) == s
    decreases |s|
  {
    if s != [] {
      if MarkerAt(s, 0) {
        assert StartsWith(s[0..], "**");
      }
      forall i | 0 <= i <= |s[1..]| ensures !StartsWith(s[1..][i..], "**") {
        assert s[1..][i..] == s[i + 1..];
      }
      StripBoldPlain(s[1..]);
    }
  }

  /** A piece of marked-up text: plain, or wrapped in "**". */
  datatype Segment = Plain(text: string) | Bold(text: string)

  /** Text the markers cannot confuse: no '*' at all, and a bold span on one line. */
  predicate WellFormed(seg: Segment) {
    (forall k :: 0 <= k < |seg.text| ==> seg.text[k] != '*')
    && (seg.Bold? ==> forall k :: 0 <= k < |seg.text| ==> !IsLineEnd(seg.text[k]))
  }

  /** The segments written out with their markers. */
  function Render(segs: seq<Segment>): string {
    if segs == [] then ""
    else (if segs[0].Bold? then "**" + segs[0].text + "**" else segs[0].text) + Render(segs[1..])
  }

  /** The segments' text without markers. */
  function Unmarked(segs: seq<Segment>): string {
    if segs == [] then "" else segs[0].text + Unmarked(segs[1..])
  }

  /** Stripping the markers from rendered segments gives back their text. */
  lemma {:induction false} StripBoldRoundTrip(segs: seq<Segment>)
    requires forall i :: 0 <= i < |segs| ==> WellFormed(segs[i])
    ensures StripBold(Render(segs)) == Unmarked(segs)
    decreases |segs|
  {
    if segs != [] {
      var t := segs[0].text;
      var rest := Render(segs[1..]);
      StripBoldRoundTrip(segs[1..]);
      if segs[0].Bold? {
        assert Render(segs) == "**" + t + "**" + rest;
        StripBoldBold(t, rest);
      } else {
        StripBoldPlainFront(t, rest);
      }
    }
  }

  /** A star-free front passes through character by character. */
  lemma {:induction false} StripBoldPlainFront(t: string, rest: string)
    requires forall k :: 0 <= k < |t| ==> t[k] != '*'
    ensures StripBold(t + rest) == t + StripBold(rest)
    decreases |t|
  {
    if t != [] {
      var u := t + rest;
      assert u[0] == t[0] && !MarkerAt(u, 0);
      assert u[1..] == t[1..] + rest;
      assert StripBold(u) == [t[0]] + StripBold(t[1..] + rest);
      StripBoldPlainFront(t[1..], rest);
      assert [t[0]] + (t[1..] + StripBold(rest)) == ([t[0]] + t[1..]) + StripBold(rest);
      assert t == [t[0]] + t[1..];
    } else {
      assert t + rest == rest;
    }
  }

  /** A marked star-free span on one line loses exactly its markers. */
  lemma StripBoldBold(t: string, rest: string)
    requires forall k :: 0 <= k < |t| ==> t[k] != '*' && !IsLineEnd(t[k])
    ensures StripBold("**" + t + "**" + rest) == t + StripBold(rest)
  {
    var s := "**" + t + "**" + rest;
    var u := s[2..];
    assert u == t + "**" + rest;
    CloseAfter(t, rest, 0);
    assert s[2..2 + |t|] == t;
    assert s[2 + |t| + 2..] == rest;
  }

  lemma {:induction false} CloseAfter(t: string, rest: string, j: nat)
    requires j <= |t|
    requires forall k :: 0 <= k < |t| ==> t[k] != '*' && !IsLineEnd(t[k])
    ensures CloseFrom(t + "**" + rest, j) == Some(|t|)
    decreases |t| - j
  {
    var u := t + "**" + rest;
    if j < |t| {
      assert u[j] == t[j];
      CloseAfter(t, rest, j + 1);
    } else {
      assert MarkerAt(u, j);
    }
  }

  // ---------------------------------------------------------------- code fences

  const JsonFence: string := "```json"
  const Fence: string := "```"

  /** The fence clean-up applied to a string body before it is parsed: a
      "```json" fence loses its seven opening and three closing characters,
      another fence its first line and closing fence; the rest is trimmed.
      A fence with no line break is left alone. */
  function CleanBody(body: string): (r: string)
    ensures !(StartsWith(body, Fence) && EndsWith(body, Fence)) ==> r == body
  {
    JsonFenceIsFence(body);
    if StartsWith(body, JsonFence) && EndsWith(body, Fence) then JsTrim(JsSlice(body, 7, -3))
    else if StartsWith(body, Fence) && EndsWith(body, Fence) then
      var nl := IndexOfChar(body, '\n');
      if nl != -1 then JsTrim(JsSlice(body, nl + 1, -3)) else body
    else body
  }

  lemma JsonFenceIsFence(body: string)
    ensures StartsWith(body, JsonFence) ==> StartsWith(body, Fence)
  {
    if StartsWith(body, JsonFence) {
      assert body[..3] == body[..7][..3];
    }
  }

  /** A "```json" fence around any text yields that text trimmed. */
  lemma JsonFenceRoundTrip(inner: string)
    ensures CleanBody(JsonFence + inner + Fence) == JsTrim(inner)
  {
    var body := JsonFence + inner + Fence;
    assert body[..7] == JsonFence;
    assert body[|body| - 3..] == Fence;
    assert body[..3] == Fence;
    assert JsSlice(body, 7, -3) == inner;
  }

  /** Any other fence with a language tag on its first line yields the
      enclosed text trimmed. */
  lemma GenericFenceRoundTrip(lang: string, inner: string)
    requires forall k :: 0 <= k < |lang| ==> lang[k] != '\n'
    requires !StartsWith(Fence + lang + "\n" + inner + Fence, JsonFence)
    ensures CleanBody(Fence + lang + "\n" + inner + Fence) == JsTrim(inner)
  {
    var head := Fence + lang;
    var body := head + "\n" + inner + Fence;
    assert body[..3] == Fence;
    assert body[|body| - 3..] == Fence;
    FirstBreak(head, inner + Fence);
    assert body == head + "\n" + (inner + Fence);
    assert JsSlice(body, |head| + 1, -3) == inner;
  }

  /** The first line break follows a break-free head. */
  lemma FirstBreak(head: string, tail: string)
    requires forall k :: 0 <= k < |head| ==> head[k] != '\n'
    ensures IndexOfChar(head + "\n" + tail, '\n') == |head|
  {
    var body := head + "\n" + tail;
    assert body[|head|] == '\n';
    forall j | 0 <= j < |head| ensures body[j] != '\n' {
      assert body[j] == head[j];
    }
  }

  /** A fence with no line break is kept as it is unless it opens with "```json". */
  lemma FenceWithoutBreakKept(body: string)
    requires !StartsWith(body, JsonFence)
    requires forall k :: 0 <= k < |body| ==> body[k] != '\n'
    ensures CleanBody(body) == body
  {
  }
}
