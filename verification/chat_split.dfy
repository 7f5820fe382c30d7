/** The last salvage step of the dashboard chat section
    (Frontend/src/components/dashboard/sections/ChatSection.jsx): a reply
    holding several objects in a row is split at every `}`, whitespace, `{`
    and each piece is given its braces back. */
module ChatSplit {
  import opened Wrappers
  import opened Text

  // ---------------------------------------------------------------- several objects

  /** The length of the whitespace run `t` opens with. */
  function SpaceRun(t: string): (n: nat)
    ensures n <= |t|
    decreases |t|
  {
    if t != [] && IsJsSpace(t[0]) then 1 + SpaceRun(t[1..]) else 0
  }

  /** `t` opens with optional whitespace and then '{'. */
  predicate OpensObject(t: string) {
    SpaceRun(t) < |t| && t[SpaceRun(t)] == '{'
  }

  /** A match of `/\}\s*\{/` starts at `i`. */
  predicate JointAt(s: string, i: nat) {
    i < |s| && s[i] == '}' && OpensObject(s[i + 1..])
  }

  /** The first match at or after `i`. */
  function FirstJoint(s: string, i: nat): (r: Option<nat>)
    requires i <= |s|
    ensures r.Some? ==> i <= r.value < |s| && JointAt(s, r.value)
    ensures r.Some? ==> forall k :: i <= k < r.value ==> !JointAt(s, k)
    ensures r.None? ==> forall k :: i <= k < |s| ==> !JointAt(s, k)
    decreases |s| - i
  {
    if i == |s| then None
    else if JointAt(s, i) then Some(i)
    else FirstJoint(s, i + 1)
  }

  /** `body.split(/\}\s*\{/)`: the pieces between matches. */
  function SplitJoints(s: string): (parts: seq<string>)
    ensures |parts| >= 1
    decreases |s|
  {
    match FirstJoint(s, 0)
    case None => [s]
    case Some(i) => [s[..i]] + SplitJoints(s[i + 1 + SpaceRun(s[i + 1..]) + 1..])
  }

  /** The pieces given back the braces the split consumed: the first gains a
      closing brace, the last an opening one, the others both. */
  function Rebuild(parts: seq<string>): (objs: seq<string>)
    ensures |objs| == |parts|
  {
    seq(|parts|, k requires 0 <= k < |parts| =>
      if k == 0 then parts[k] + "}"
      else if k == |parts| - 1 then "{" + parts[k]
      else "{" + parts[k] + "}")
  }

  /** No match starts before the last character of `t`. */
  predicate NoInnerJoint(t: string) {
    forall i :: 0 <= i < |t| - 1 ==> !JointAt(t, i)
  }

  /** The text of one object: braces at both ends and no match inside. */
  predicate Separable(o: string) {
    |o| >= 2 && o[0] == '{' && o[|o| - 1] == '}' && NoInnerJoint(o)
  }

  /** The pieces after the first: every later object without its opening
      brace, and without its closing brace unless it is the last. */
  function Tails(rest: seq<string>): (ts: seq<string>)
    requires |rest| >= 1 && forall k :: 0 <= k < |rest| ==> Separable(rest[k])
    ensures |ts| == |rest|
    decreases |rest|
  {
    assert Separable(rest[0]);
    if |rest| == 1 then [rest[0][1..]]
    else [rest[0][1..|rest[0]| - 1]] + Tails(rest[1..])
  }

  lemma {:induction false} TailsAt(rest: seq<string>, k: nat)
    requires |rest| >= 1 && forall j :: 0 <= j < |rest| ==> Separable(rest[j])
    requires k < |rest|
    ensures Tails(rest)[k] == if k == |rest| - 1 then rest[k][1..] else rest[k][1..|rest[k]| - 1]
    decreases k
  {
    if k > 0 {
      TailsAt(rest[1..], k - 1);
    }
  }

  /** Objects written one after another with whitespace between are split
      and rebuilt into exactly those objects. */
  lemma SplitRebuildRoundTrip(os: seq<string>, sep: string)
    requires |os| >= 2 && forall k :: 0 <= k < |os| ==> Separable(os[k])
    requires forall k :: 0 <= k < |sep| ==> IsJsSpace(sep[k])
    ensures Rebuild(SplitJoints(Join(os, sep))) == os
  {
    assert Join(os, sep) == os[0] + sep + Join(os[1..], sep);
    SplitFrom(os[0], os[1..], sep);
    var ps := [os[0][..|os[0]| - 1]] + Tails(os[1..]);
    RebuildPieces(os, ps);
  }

  lemma RebuildPieces(os: seq<string>, ps: seq<string>)
    requires |os| >= 2 && forall k :: 0 <= k < |os| ==> Separable(os[k])
    requires |os[0]| >= 1 && ps == [os[0][..|os[0]| - 1]] + Tails(os[1..])
    ensures Rebuild(ps) == os
  {
    forall k | 0 <= k < |os| ensures Rebuild(ps)[k] == os[k] {
      RebuildAt(os, ps, k);
    }
  }

  /** Each rebuilt piece is the object it came from. */
  lemma RebuildAt(os: seq<string>, ps: seq<string>, k: nat)
    requires |os| >= 2 && forall k :: 0 <= k < |os| ==> Separable(os[k])
    requires |os[0]| >= 1 && ps == [os[0][..|os[0]| - 1]] + Tails(os[1..])
    requires k < |os|
    ensures Rebuild(ps)[k] == os[k]
  {
    var o := os[k];
    assert Separable(o);
    if k == 0 {
      assert o == o[..|o| - 1] + "}";
    } else {
      TailsAt(os[1..], k - 1);
      assert ps[k] == Tails(os[1..])[k - 1];
      if k == |os| - 1 {
        assert o == "{" + o[1..];
      } else {
        assert o == "{" + o[1..|o| - 1] + "}";
      }
    }
  }

  /** The split of a front piece (an object, possibly without its opening
      brace) followed by whitespace and further objects. */
  lemma SplitFrom(first: string, rest: seq<string>, sep: string)
    requires |first| >= 1 && first[|first| - 1] == '}' && NoInnerJoint(first)
    requires |rest| >= 1 && forall k :: 0 <= k < |rest| ==> Separable(rest[k])
    requires forall k :: 0 <= k < |sep| ==> IsJsSpace(sep[k])
    ensures SplitJoints(first + sep + Join(rest, sep)) == [first[..|first| - 1]] + Tails(rest)
  {
    SplitHead(first, rest, sep);
    SplitTail(rest, sep);
  }

  /** The first cut of such a text falls at the closing brace of `first`. */
  lemma SplitHead(first: string, rest: seq<string>, sep: string)
    requires |first| >= 1 && first[|first| - 1] == '}' && NoInnerJoint(first)
    requires |rest| >= 1 && forall k :: 0 <= k < |rest| ==> Separable(rest[k])
    requires forall k :: 0 <= k < |sep| ==> IsJsSpace(sep[k])
    ensures SplitJoints(first + sep + Join(rest, sep)) == [first[..|first| - 1]] + SplitJoints(AfterFirstBrace(rest, sep))
  {
    var tail := Join(rest, sep);
    var after := AfterFirstBrace(rest, sep);
    SplitStep(first, sep + tail);
    assert first + sep + tail == first + (sep + tail);
    assert (sep + tail)[|sep| + 1..] == after;
  }

  /** What follows the first opening brace splits into the tails. */
  lemma {:induction false} SplitTail(rest: seq<string>, sep: string)
    requires |rest| >= 1 && forall k :: 0 <= k < |rest| ==> Separable(rest[k])
    requires forall k :: 0 <= k < |sep| ==> IsJsSpace(sep[k])
    ensures SplitJoints(AfterFirstBrace(rest, sep)) == Tails(rest)
    decreases |rest|
  {
    var o := rest[0];
    assert Separable(o);
    ShiftSeparable(o);
    if |rest| == 1 {
      NoJointSplit(o[1..]);
    } else {
      var more := rest[1..];
      SeparableSuffix(rest);
      SplitHead(o[1..], more, sep);
      SplitTail(more, sep);
      assert o[1..][..|o[1..]| - 1] == o[1..|o| - 1];
    }
  }

  lemma SeparableSuffix(rest: seq<string>)
    requires |rest| >= 1 && forall k :: 0 <= k < |rest| ==> Separable(rest[k])
    ensures forall k :: 0 <= k < |rest[1..]| ==> Separable(rest[1..][k])
  {
  }

  /** What follows the opening brace of the first of several joined objects. */
  function AfterFirstBrace(rest: seq<string>, sep: string): (after: string)
    requires |rest| >= 1 && forall k :: 0 <= k < |rest| ==> Separable(rest[k])
    requires forall k :: 0 <= k < |sep| ==> IsJsSpace(sep[k])
    ensures SpaceRun(sep + Join(rest, sep)) == |sep| && OpensObject(sep + Join(rest, sep))
    ensures Join(rest, sep)[1..] == after
    ensures |rest| == 1 ==> after == rest[0][1..]
    ensures |rest| > 1 ==> |rest[0]| >= 1 && after == rest[0][1..] + sep + Join(rest[1..], sep)
  {
    assert Separable(rest[0]);
    JoinHead(rest, sep);
    SpaceThenBrace(sep, Join(rest, sep));
    if |rest| == 1 then rest[0][1..]
    else
      assert Join(rest, sep) == rest[0] + sep + Join(rest[1..], sep);
      rest[0][1..] + sep + Join(rest[1..], sep)
  }

  /** The first piece of a split at the closing brace of `first`. */
  lemma SplitStep(first: string, more: string)
    requires |first| >= 1 && first[|first| - 1] == '}' && NoInnerJoint(first)
    requires OpensObject(more)
    ensures SplitJoints(first + more) == [first[..|first| - 1]] + SplitJoints(more[SpaceRun(more) + 1..])
  {
    var s := first + more;
    var i := |first| - 1;
    FirstJointAt(first, more);
    assert s[i + 1..] == more;
    var cut := i + 1 + SpaceRun(more) + 1;
    assert SplitJoints(s) == [s[..i]] + SplitJoints(s[cut..]);
    assert s[..i] == first[..i];
    assert s[cut..] == more[SpaceRun(more) + 1..];
  }

  lemma JoinHead(parts: seq<string>, sep: string)
    requires |parts| >= 1 && |parts[0]| >= 1
    ensures |Join(parts, sep)| >= 1 && Join(parts, sep)[0] == parts[0][0]
  {
  }

  /** Whitespace and then '{' open an object, and the run is the whitespace. */
  lemma {:induction false} SpaceThenBrace(gap: string, rest: string)
    requires forall k :: 0 <= k < |gap| ==> IsJsSpace(gap[k])
    requires |rest| >= 1 && rest[0] == '{'
    ensures SpaceRun(gap + rest) == |gap| && OpensObject(gap + rest)
    decreases |gap|
  {
    if gap == [] {
      assert gap + rest == rest;
      assert SpaceRun(rest) == 0;
    } else {
      assert (gap + rest)[1..] == gap[1..] + rest;
      SpaceThenBrace(gap[1..], rest);
    }
  }

  /** A front piece with no match of its own and a closing brace, followed by
      an opening of an object, has its first match at that brace. */
  lemma FirstJointAt(first: string, more: string)
    requires |first| >= 1 && first[|first| - 1] == '}' && NoInnerJoint(first)
    requires OpensObject(more)
    ensures FirstJoint(first + more, 0) == Some(|first| - 1)
  {
    var s := first + more;
    forall i | 0 <= i < |first| - 1 ensures !JointAt(s, i) {
      assert s[i] == first[i];
      assert s[i + 1..] == first[i + 1..] + more;
      OpensObjectAppend(first[i + 1..], more);
      assert !JointAt(first, i);
    }
    assert s[|first|..] == more;
    assert JointAt(s, |first| - 1);
  }

  /** Text after a piece ending in '}' does not change whether it opens an object. */
  lemma {:induction false} OpensObjectAppend(a: string, b: string)
    requires |a| >= 1 && a[|a| - 1] == '}'
    ensures SpaceRun(a + b) == SpaceRun(a) < |a|
    ensures OpensObject(a + b) <==> OpensObject(a)
    decreases |a|
  {
    assert (a + b)[0] == a[0];
    if IsJsSpace(a[0]) {
      assert (a + b)[1..] == a[1..] + b;
      OpensObjectAppend(a[1..], b);
    }
    assert (a + b)[SpaceRun(a)] == a[SpaceRun(a)];
  }

  /** Dropping the opening brace of an object keeps it free of matches. */
  lemma ShiftSeparable(o: string)
    requires Separable(o)
    ensures NoInnerJoint(o[1..])
  {
    forall i | 0 <= i < |o[1..]| - 1 ensures !JointAt(o[1..], i) {
      assert o[1..][i + 1..] == o[i + 2..];
      assert !JointAt(o, i + 1);
    }
  }

  /** A piece with no match is not split. */
  lemma NoJointSplit(t: string)
    requires |t| >= 1 && t[|t| - 1] == '}' && NoInnerJoint(t)
    ensures SplitJoints(t) == [t]
  {
    assert t[|t|..] == [];
    assert !JointAt(t, |t| - 1);
    assert FirstJoint(t, 0).None?;
  }
}
