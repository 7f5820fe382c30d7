/** Stable sorting as done by JavaScript's `Array.prototype.sort` and
    Python's `list.sort` (both stable; Python's `reverse=True` keeps equal
    elements in their original order as well). An ordering is given as a
    strict "comes before" relation; the sort is an insertion sort. */
module Sorting {

  /** `lt` is asymmetric and negatively transitive, i.e. a strict weak order:
      what a consistent comparator induces. */
  ghost predicate StrictWeakOrder<T(!new)>(lt: (T, T) -> bool) {
    (forall a, b :: lt(a, b) ==> !lt(b, a))
    && (forall a, b, c :: !lt(a, b) && !lt(b, c) ==> !lt(a, c))
  }

  /** No element is strictly before an element that precedes it. */
  predicate Sorted<T>(s: seq<T>, lt: (T, T) -> bool) {
    forall i, j :: 0 <= i < j < |s| ==> !lt(s[j], s[i])
  }

  /** Inserts `x` in front of the first element that is not strictly before it. */
  function Insert<T>(x: T, s: seq<T>, lt: (T, T) -> bool): (r: seq<T>)
    ensures multiset(r) == multiset(s) + multiset{x}
    ensures |r| == |s| + 1
    ensures forall j :: 0 <= j < |r| ==> r[j] == x || r[j] in s
  {
    if s == [] || !lt(s[0], x) then [x] + s
    else
      assert s == [s[0]] + s[1..];
      [s[0]] + Insert(x, s[1..], lt)
  }

  /** The stable sort: the first element is inserted ahead of its equals. */
  function Sort<T>(s: seq<T>, lt: (T, T) -> bool): (r: seq<T>)
    ensures multiset(r) == multiset(s)
    ensures |r| == |s|
  {
    if s == [] then []
    else
      assert s == [s[0]] + s[1..];
      Insert(s[0], Sort(s[1..], lt), lt)
  }

  lemma {:induction false} InsertSorted<T(!new)>(x: T, s: seq<T>, lt: (T, T) -> bool)
    requires StrictWeakOrder(lt)
    requires Sorted(s, lt)
    ensures Sorted(Insert(x, s, lt), lt)
    decreases |s|
  {
    var r := Insert(x, s, lt);
    if s == [] || !lt(s[0], x) {
      forall i, j | 0 <= i < j < |r| ensures !lt(r[j], r[i]) {
        if i == 0 && j >= 1 {
          // r[j] == s[j - 1] and s[0] is not before x; s[j-1] is not before s[0].
          assert r[j] == s[j - 1];
          if j - 1 > 0 {
            assert !lt(s[j - 1], s[0]);
          }
        } else {
          assert r[i] == s[i - 1] && r[j] == s[j - 1];
        }
      }
    } else {
      var tail := Insert(x, s[1..], lt);
      InsertSorted(x, s[1..], lt);
      assert r == [s[0]] + tail;
      forall j | 1 <= j < |r| ensures !lt(r[j], s[0]) {
        assert r[j] == tail[j - 1];
        if r[j] != x {
          var k :| 0 <= k < |s[1..]| && s[1..][k] == r[j];
          assert s[k + 1] == r[j];
        }
      }
      forall i, j | 0 <= i < j < |r| ensures !lt(r[j], r[i]) {
        if i >= 1 {
          assert r[i] == tail[i - 1] && r[j] == tail[j - 1];
        }
      }
    }
  }

  /** The sort's output is ordered. */
  lemma {:induction false} SortSorted<T(!new)>(s: seq<T>, lt: (T, T) -> bool)
    requires StrictWeakOrder(lt)
    ensures Sorted(Sort(s, lt), lt)
    decreases |s|
  {
    if s != [] {
      SortSorted(s[1..], lt);
      InsertSorted(s[0], Sort(s[1..], lt), lt);
    }
  }

  /** Any two elements of the multiset that differ are ordered one way or the other. */
  ghost predicate Connected<T>(m: multiset<T>, lt: (T, T) -> bool) {
    forall a, b :: a in m && b in m && a != b ==> lt(a, b) || lt(b, a)
  }

  /** A sorted sequence's head is not after any other of its elements. */
  lemma HeadNotAfter<T>(a: seq<T>, x: T, lt: (T, T) -> bool)
    requires Sorted(a, lt) && a != []
    requires x in multiset(a)
    ensures x != a[0] ==> !lt(x, a[0])
  {
    var k :| 0 <= k < |a| && a[k] == x;
    if k > 0 {
      assert !lt(a[k], a[0]);
    }
  }

  /** Two sorted arrangements of the same connected elements start alike. */
  lemma HeadsEqual<T>(a: seq<T>, b: seq<T>, lt: (T, T) -> bool)
    requires Sorted(a, lt) && Sorted(b, lt) && a != [] && b != []
    requires multiset(a) == multiset(b)
    requires Connected(multiset(a), lt)
    ensures a[0] == b[0]
  {
    assert a[0] in multiset(a) && b[0] in multiset(b);
    HeadNotAfter(a, b[0], lt);
    HeadNotAfter(b, a[0], lt);
  }

  /** Dropping equal heads keeps both sides sorted, alike and connected. */
  lemma Tails<T>(a: seq<T>, b: seq<T>, lt: (T, T) -> bool)
    requires Sorted(a, lt) && Sorted(b, lt) && a != [] && b != []
    requires multiset(a) == multiset(b) && a[0] == b[0]
    requires Connected(multiset(a), lt)
    ensures Sorted(a[1..], lt) && Sorted(b[1..], lt)
    ensures multiset(a[1..]) == multiset(b[1..])
    ensures Connected(multiset(a[1..]), lt)
  {
    assert a == [a[0]] + a[1..];
    assert b == [b[0]] + b[1..];
    assert multiset(a[1..]) <= multiset(a);
  }

  /** Two ordered arrangements of the same elements are equal when distinct
      elements are always ordered. */
  lemma {:induction false} SortedUnique<T>(a: seq<T>, b: seq<T>, lt: (T, T) -> bool)
    requires Sorted(a, lt) && Sorted(b, lt)
    requires multiset(a) == multiset(b)
    requires Connected(multiset(a), lt)
    ensures a == b
    decreases |a|
  {
    assert |a| == |multiset(a)| == |b|;
    if a != [] {
      HeadsEqual(a, b, lt);
      Tails(a, b, lt);
      SortedUnique(a[1..], b[1..], lt);
      assert a == [a[0]] + a[1..];
      assert b == [b[0]] + b[1..];
    }
  }

  /** Sorting two rearrangements of the same elements gives the same sequence
      when distinct elements are always ordered. */
  lemma SortPermutationInvariant<T(!new)>(a: seq<T>, b: seq<T>, lt: (T, T) -> bool)
    requires StrictWeakOrder(lt)
    requires multiset(a) == multiset(b)
    requires Connected(multiset(a), lt)
    ensures Sort(a, lt) == Sort(b, lt)
  {
    SortSorted(a, lt);
    SortSorted(b, lt);
    SortedUnique(Sort(a, lt), Sort(b, lt), lt);
  }

  /** Applying `f` to each element. */
  function Map<T, U>(f: T -> U, s: seq<T>): (r: seq<U>)
    ensures |r| == |s|
    ensures forall i :: 0 <= i < |s| ==> r[i] == f(s[i])
  {
    if s == [] then [] else [f(s[0])] + Map(f, s[1..])
  }

  lemma MapAppend<T, U>(f: T -> U, a: seq<T>, b: seq<T>)
    ensures Map(f, a + b) == Map(f, a) + Map(f, b)
  {
  }

  /** Elements kept by `p`, in order (`Array.prototype.filter`). */
  function Filter<T>(p: T -> bool, s: seq<T>): (r: seq<T>)
    ensures |r| <= |s|
    ensures forall i :: 0 <= i < |r| ==> p(r[i])
    ensures forall i :: 0 <= i < |s| && p(s[i]) ==> s[i] in r
  {
    if s == [] then []
    else if p(s[0]) then [s[0]] + Filter(p, s[1..])
    else Filter(p, s[1..])
  }

  lemma {:induction false} FilterAppend<T>(p: T -> bool, a: seq<T>, b: seq<T>)
    ensures Filter(p, a + b) == Filter(p, a) + Filter(p, b)
    decreases |a|
  {
    if a == [] {
      assert a + b == b;
    } else {
      assert (a + b)[0] == a[0];
      assert (a + b)[1..] == a[1..] + b;
      FilterAppend(p, a[1..], b);
      if p(a[0]) {
        assert [a[0]] + (Filter(p, a[1..]) + Filter(p, b)) == ([a[0]] + Filter(p, a[1..])) + Filter(p, b);
      }
    }
  }

  /** The filter keeps something exactly when some element passes. */
  lemma {:induction false} FilterNonEmptyIff<T>(p: T -> bool, s: seq<T>)
    ensures |Filter(p, s)| > 0 <==> exists i :: 0 <= i < |s| && p(s[i])
    decreases |s|
  {
    if s != [] && !p(s[0]) {
      FilterNonEmptyIff(p, s[1..]);
      if |Filter(p, s)| > 0 {
        var i :| 0 <= i < |s[1..]| && p(s[1..][i]);
        assert p(s[i + 1]);
      }
    }
  }

  /** `sub` can be obtained from `s` by deleting elements. */
  predicate IsSubsequence<T(==)>(sub: seq<T>, s: seq<T>)
    decreases |s|
  {
    sub == [] || (s != [] && ((sub[0] == s[0] && IsSubsequence(sub[1..], s[1..])) || IsSubsequence(sub, s[1..])))
  }

  lemma {:induction false} FilterSubsequence<T>(p: T -> bool, s: seq<T>)
    ensures IsSubsequence(Filter(p, s), s)
    decreases |s|
  {
    if s != [] {
      FilterSubsequence(p, s[1..]);
      if p(s[0]) {
        assert Filter(p, s)[1..] == Filter(p, s[1..]);
      }
    }
  }

  lemma {:induction false} FilterIdempotent<T>(p: T -> bool, s: seq<T>)
    ensures Filter(p, Filter(p, s)) == Filter(p, s)
    decreases |s|
  {
    if s != [] {
      FilterIdempotent(p, s[1..]);
      if p(s[0]) {
        assert Filter(p, s)[1..] == Filter(p, s[1..]);
      }
    }
  }

  /** Number of elements satisfying `p`. */
  function Count<T>(p: T -> bool, s: seq<T>): (n: nat)
    ensures n <= |s|
    ensures n == |Filter(p, s)|
  {
    if s == [] then 0 else (if p(s[0]) then 1 else 0) + Count(p, s[1..])
  }

  /** Two tests that agree position by position count alike. */
  lemma {:induction false} CountMatch<T, U>(p: T -> bool, s: seq<T>, q: U -> bool, t: seq<U>)
    requires |s| == |t| && forall k :: 0 <= k < |s| ==> p(s[k]) == q(t[k])
    ensures Count(p, s) == Count(q, t)
    decreases |s|
  {
    if s != [] {
      CountMatch(p, s[1..], q, t[1..]);
    }
  }

  /** Every element satisfies a test or its negation. */
  lemma {:induction false} CountComplement<T>(p: T -> bool, q: T -> bool, s: seq<T>)
    requires forall x :: q(x) == !p(x)
    ensures Count(p, s) + Count(q, s) == |s|
    decreases |s|
  {
    if s != [] {
      CountComplement(p, q, s[1..]);
    }
  }

  /** A subset is no larger than its superset. */
  lemma SubsetCard<T>(a: set<T>, b: set<T>)
    requires a <= b
    ensures |a| <= |b|
  {
    assert b == a + (b - a);
  }
}
