/** The 32-bit string hash written out in Frontend/src/utils/avatarUtils.js
    (`hashString`) and again, inline, in the AI-quiz id of
    Frontend/src/components/dashboard/sections/QuizSection.jsx: for each UTF-16
    code unit, `hash = ((hash << 5) - hash) + char` followed by `hash & hash`,
    then `Math.abs(hash)`. JavaScript's 32-bit conversion is written out. */
module StringHash {
  import opened Text

  const TwoTo31: int := 0x8000_0000
  const TwoTo32: int := 0x1_0000_0000

  predicate IsInt32(x: int) { -TwoTo31 <= x < TwoTo31 }

  /** ECMAScript ToInt32 on an integer: reduce modulo 2^32 into [-2^31, 2^31). */
  function ToInt32(x: int): (r: int)
    ensures IsInt32(r)
    ensures (x - r) % TwoTo32 == 0
    ensures IsInt32(x) ==> r == x
  {
    var m := x % TwoTo32;
    if m >= TwoTo31 then m - TwoTo32 else m
  }

  /** `s.charCodeAt(i)` over the whole string: characters beyond U+FFFF are
      two surrogate code units. */
  function Utf16Units(s: string): (units: seq<int>)
    ensures |units| >= |s|
    ensures forall i :: 0 <= i < |units| ==> 0 <= units[i] < 0x1_0000
  {
    if s == [] then []
    else
      var c := s[0] as int;
      var head := if c < 0x1_0000 then [c]
                  else [0xD800 + (c - 0x1_0000) / 0x400, 0xDC00 + (c - 0x1_0000) % 0x400];
      head + Utf16Units(s[1..])
  }

  /** The code units `charCodeAt` walks are exactly `s.length` many. */
  lemma {:induction false} UnitsCountIsJsLength(s: string)
    ensures |Utf16Units(s)| == JsLength(s)
  {
    if s != [] {
      UnitsCountIsJsLength(s[1..]);
    }
  }

  /** `x << 5` on a number already in int32 range. */
  function ShiftLeft5(x: int): int { ToInt32(ToInt32(x) * 32) }

  /** One loop step: `hash = ((hash << 5) - hash) + char; hash = hash & hash`. */
  function HashStep(hash: int, unit: int): int {
    ToInt32(ShiftLeft5(hash) - hash + unit)
  }

  /** The loop's value after the given code units, starting from 0. */
  function HashFold(units: seq<int>): int
    decreases |units|
  {
    if units == [] then 0 else HashStep(HashFold(units[..|units| - 1]), units[|units| - 1])
  }

  /** Numbers congruent modulo 2^32 have the same int32 value. */
  lemma ToInt32Congruent(a: int, b: int)
    requires (a - b) % TwoTo32 == 0
    ensures ToInt32(a) == ToInt32(b)
  {
    var k := (a - b) / TwoTo32;
    assert a == b + k * TwoTo32;
    assert (b + k * TwoTo32) % TwoTo32 == b % TwoTo32;
  }

  /** The step is the usual `31 * h + c`, taken modulo 2^32: the wrap inside
      the shift does not change the result. */
  lemma HashStepIs31(hash: int, unit: int)
    requires IsInt32(hash)
    ensures HashStep(hash, unit) == ToInt32(31 * hash + unit)
  {
    var shifted := ToInt32(hash * 32);
    assert (hash * 32 - shifted) % TwoTo32 == 0;
    ToInt32Congruent(shifted - hash + unit, 31 * hash + unit);
  }

  /** Every intermediate value is an int32. */
  lemma HashFoldInt32(units: seq<int>)
    ensures IsInt32(HashFold(units))
  {
  }

  /** The reference value without any wrapping: the code units read as the
      digits of a base-31 number, most significant first. */
  function Poly31(units: seq<int>): int
    decreases |units|
  {
    if units == [] then 0 else 31 * Poly31(units[..|units| - 1]) + units[|units| - 1]
  }

  /** The wrapped loop computes the reference value modulo 2^32: wrapping
      after every step gives what one wrap at the end would. */
  lemma {:induction false} HashFoldIsPoly31(units: seq<int>)
    ensures HashFold(units) == ToInt32(Poly31(units))
    decreases |units|
  {
    if units != [] {
      var front := units[..|units| - 1];
      var u := units[|units| - 1];
      HashFoldIsPoly31(front);
      HashFoldInt32(front);
      HashStepIs31(HashFold(front), u);
      StepCongruent(Poly31(front), u);
    }
  }

  /** One step from the wrapped value agrees with one step from the
      unwrapped value. */
  lemma StepCongruent(p: int, u: int)
    ensures ToInt32(31 * ToInt32(p) + u) == ToInt32(31 * p + u)
  {
    var t := ToInt32(p);
    var k := (t - p) / TwoTo32;
    assert t - p == k * TwoTo32;
    var a, b := 31 * t + u, 31 * p + u;
    assert a - b == 31 * (t - p);
    assert a - b == (31 * k) * TwoTo32;
    MultipleMod(31 * k);
    ToInt32Congruent(a, b);
  }

  lemma MultipleMod(m: int)
    ensures (m * TwoTo32) % TwoTo32 == 0
  {
  }

  /** `hashString(str)`, run as the source's loop. */
  method HashString(s: string) returns (h: nat)
    ensures h == if HashFold(Utf16Units(s)) < 0 then -HashFold(Utf16Units(s)) else HashFold(Utf16Units(s))
    ensures h <= TwoTo31
  {
    var units := Utf16Units(s);
    var hash := 0;
    var i := 0;
    while i < |units|
      invariant 0 <= i <= |units|
      invariant hash == HashFold(units[..i])
      invariant IsInt32(hash)
    {
      assert units[..i + 1][..i] == units[..i];
      assert HashFold(units[..i + 1]) == HashStep(HashFold(units[..i]), units[i]);
      hash := HashStep(hash, units[i]);
      i := i + 1;
    }
    assert units[..|units|] == units;
    h := if hash < 0 then -hash else hash;
  }

  /** The same value as a function, for use in other definitions. */
  function Hash(s: string): (h: nat)
    ensures h <= TwoTo31
    ensures var w := ToInt32(Poly31(Utf16Units(s))); h == if w < 0 then -w else w
  {
    var v := HashFold(Utf16Units(s));
    HashFoldIsPoly31(Utf16Units(s));
    if v < 0 then -v else v
  }

  /** A hash is at most 2^31, so its base-36 rendering has at most six digits. */
  lemma HashBase36Length(s: string)
    ensures |Base36(Hash(s))| <= 6
  {
    assert Pow(36, 6) == 2176782336;
    NatToBaseLength(Hash(s), 36, 6);
  }

  // ---------------------------------------------------------------- code-unit order

  /** The code units of one character: itself below U+10000, otherwise a
      high and a low surrogate. */
  function CharUnits(c: char): seq<int> {
    var n := c as int;
    if n < 0x1_0000 then [n] else [0xD800 + (n - 0x1_0000) / 0x400, 0xDC00 + (n - 0x1_0000) % 0x400]
  }

  lemma UnitsCons(s: string)
    requires s != []
    ensures Utf16Units(s) == CharUnits(s[0]) + Utf16Units(s[1..])
  {
  }

  /** Different characters never share their first code unit's role: a
      character below U+10000 is never a surrogate, so one character's units
      are never a proper prefix of another's. */
  lemma CharUnitsSplit(x: char, y: char, u: seq<int>, v: seq<int>)
    requires CharUnits(x) + u == CharUnits(y) + v
    ensures x == y && u == v
  {
    var a := CharUnits(x);
    var b := CharUnits(y);
    assert (a + u)[0] == a[0] && (b + v)[0] == b[0];
    if x as int < 0x1_0000 && y as int < 0x1_0000 {
      assert (a + u)[1..] == u && (b + v)[1..] == v;
    } else if x as int >= 0x1_0000 && y as int >= 0x1_0000 {
      assert (a + u)[1] == a[1] && (b + v)[1] == b[1];
      var qx, rx := (x as int - 0x1_0000) / 0x400, (x as int - 0x1_0000) % 0x400;
      var qy, ry := (y as int - 0x1_0000) / 0x400, (y as int - 0x1_0000) % 0x400;
      assert x as int == 0x1_0000 + 0x400 * qx + rx;
      assert y as int == 0x1_0000 + 0x400 * qy + ry;
      assert (a + u)[2..] == u && (b + v)[2..] == v;
    } else {
      assert false;
    }
  }

  /** UTF-16 encodes without loss: different strings have different units. */
  lemma {:induction false} Utf16UnitsInjective(a: string, b: string)
    requires Utf16Units(a) == Utf16Units(b)
    ensures a == b
    decreases |a|
  {
    if a != [] && b != [] {
      UnitsCons(a);
      UnitsCons(b);
      CharUnitsSplit(a[0], b[0], Utf16Units(a[1..]), Utf16Units(b[1..]));
      Utf16UnitsInjective(a[1..], b[1..]);
      assert a == [a[0]] + a[1..] && b == [b[0]] + b[1..];
    }
  }

  /** Lexicographic order on code-unit sequences; a proper prefix comes first. */
  predicate UnitsLess(a: seq<int>, b: seq<int>)
    decreases |a|
  {
    if a == [] then b != []
    else if b == [] then false
    else if a[0] != b[0] then a[0] < b[0]
    else UnitsLess(a[1..], b[1..])
  }

  /** JavaScript's default `sort()` order for strings: their UTF-16 code
      units compared lexicographically. */
  predicate CodeUnitLess(a: string, b: string) {
    UnitsLess(Utf16Units(a), Utf16Units(b))
  }

  lemma {:induction false} UnitsLessAsymmetric(a: seq<int>, b: seq<int>)
    ensures UnitsLess(a, b) ==> !UnitsLess(b, a)
    decreases |a|
  {
    if a != [] && b != [] && a[0] == b[0] {
      UnitsLessAsymmetric(a[1..], b[1..]);
    }
  }

  lemma {:induction false} UnitsLessTransitive(a: seq<int>, b: seq<int>, c: seq<int>)
    requires UnitsLess(a, b) && UnitsLess(b, c)
    ensures UnitsLess(a, c)
    decreases |a|
  {
    if a != [] && a[0] == b[0] && b[0] == c[0] {
      UnitsLessTransitive(a[1..], b[1..], c[1..]);
    }
  }

  lemma {:induction false} UnitsLessTotal(a: seq<int>, b: seq<int>)
    requires a != b
    ensures UnitsLess(a, b) || UnitsLess(b, a)
    decreases |a|
  {
    if a != [] && b != [] && a[0] == b[0] {
      assert a == [a[0]] + a[1..] && b == [b[0]] + b[1..];
      UnitsLessTotal(a[1..], b[1..]);
    }
  }

  /** The code-unit order is a strict order on strings in which any two
      different strings are comparable. */
  lemma CodeUnitLessIsStrictTotal(a: string, b: string, c: string)
    ensures CodeUnitLess(a, b) ==> !CodeUnitLess(b, a)
    ensures CodeUnitLess(a, b) && CodeUnitLess(b, c) ==> CodeUnitLess(a, c)
    ensures a != b ==> CodeUnitLess(a, b) || CodeUnitLess(b, a)
  {
    UnitsLessAsymmetric(Utf16Units(a), Utf16Units(b));
    if CodeUnitLess(a, b) && CodeUnitLess(b, c) {
      UnitsLessTransitive(Utf16Units(a), Utf16Units(b), Utf16Units(c));
    }
    if a != b {
      if Utf16Units(a) == Utf16Units(b) {
        Utf16UnitsInjective(a, b);
      }
      UnitsLessTotal(Utf16Units(a), Utf16Units(b));
    }
  }

  /** The code-unit order is not the code-point order: U+FFFF comes before
      U+10000 as a character, but after it by code unit, because U+10000
      begins with the surrogate 0xD800. */
  lemma CodeUnitOrderIsNotCodePointOrder()
    ensures '\U{FFFF}' < '\U{10000}'
    ensures CodeUnitLess("\U{10000}", "\U{FFFF}")
  {
    assert Utf16Units("\U{10000}") == [0xD800, 0xDC00];
    assert Utf16Units("\U{FFFF}") == [0xFFFF];
  }
}
