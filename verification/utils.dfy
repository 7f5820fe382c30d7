/** The helpers of Frontend/src/utils/index.js that compute something:
    duration and title formatting, truncation, the password and e-mail
    validators, grouping and sorting. Numbers are integers (durations in whole
    seconds, sort keys as integers); strings are sequences of code points. */
module Utils {
  import opened Wrappers
  import opened Text
  import opened Sorting

  // ---------------------------------------------------------------- formatDuration

  /** JavaScript `a % b` for a positive divisor: the remainder takes the sign of `a`. */
  function JsRem(a: int, b: int): (r: int)
    requires b > 0
    ensures a >= 0 ==> 0 <= r < b
    ensures a < 0 ==> -b < r <= 0
    ensures exists q :: a == q * b + r
  {
    if a >= 0 then
      assert a == (a / b) * b + a % b;
      a % b
    else
      var q := (-a) / b;
      assert -a == q * b + (-a) % b;
      assert a == (-q) * b + -((-a) % b);
      -((-a) % b)
  }

  /** `formatDuration(seconds)`; `None` is `null` or `undefined`. `Math.floor`
      of a quotient by a positive constant is Dafny's `/`. */
  function FormatDuration(seconds: Option<int>): string {
    if seconds.None? || seconds.value == 0 then "0m"
    else
      var s := seconds.value;
      var hours := s / 3600;
      var minutes := JsRem(s, 3600) / 60;
      var remaining := JsRem(s, 60);
      if hours > 0 then IntToString(hours) + "h " + IntToString(minutes) + "m"
      else if minutes > 0 then IntToString(minutes) + "m"
      else IntToString(remaining) + "s"
  }

  /** Nothing, or zero, shows "0m". */
  lemma DurationZero(seconds: Option<int>)
    requires seconds.None? || seconds.value == 0
    ensures FormatDuration(seconds) == "0m"
  {
  }

  /** `h` whole hours and `m` whole minutes, with under a minute left over, show as "hh mm". */
  lemma DurationHours(s: int, h: int, m: int)
    requires h >= 1 && 0 <= m < 60
    requires h * 3600 + m * 60 <= s < h * 3600 + m * 60 + 60
    ensures FormatDuration(Some(s)) == IntToString(h) + "h " + IntToString(m) + "m"
  {
    var rest := s - h * 3600;
    assert s / 3600 == h && s % 3600 == rest;
    assert JsRem(s, 3600) == rest;
    assert rest / 60 == m;
  }

  /** Under an hour, `m` >= 1 whole minutes show as "mm". */
  lemma DurationMinutes(s: int, m: int)
    requires 1 <= m < 60
    requires m * 60 <= s < m * 60 + 60
    ensures FormatDuration(Some(s)) == IntToString(m) + "m"
  {
    assert s / 3600 == 0;
    assert JsRem(s, 3600) == s;
    assert s / 60 == m;
  }

  /** Under a minute shows the seconds. */
  lemma DurationSeconds(s: int)
    requires 0 < s < 60
    ensures FormatDuration(Some(s)) == IntToString(s) + "s"
  {
  }

  /** A negative count shows its non-positive remainder `t` as seconds. */
  lemma DurationNegative(s: int, q: int, t: int)
    requires s < 0 && -60 < t <= 0 && s == q * 60 + t
    ensures FormatDuration(Some(s)) == IntToString(t) + "s"
  {
    assert (-s) % 60 == -t;
    assert s / 3600 < 0;
    assert JsRem(s, 3600) / 60 <= 0;
  }

  // ---------------------------------------------------------------- titles and truncation

  function Min(a: int, b: int): int { if a <= b then a else b }

  const NewChatTitle: string := "New Chat"

  /** The first four space-separated pieces of the message, joined back. */
  function FirstWords(message: string): string {
    var parts := SplitOn(message, ' ');
    Join(parts[..Min(4, |parts|)], " ")
  }

  /** `generateSessionTitle(message)`: "New Chat" for an empty message,
      otherwise its first four words, cut to 30 characters plus "...". */
  function SessionTitle(message: string): string {
    if message == "" then NewChatTitle
    else
      var words := FirstWords(message);
      if |words| > 30 then words[..30] + "..." else words
  }

  /** A title is the message's beginning: either a prefix of the message of at
      most 30 characters, or a 30-character prefix followed by "...". */
  lemma SessionTitleIsPrefix(message: string)
    requires message != ""
    ensures var r := SessionTitle(message);
      (|r| <= 30 && StartsWith(message, r))
      || (|r| == 33 && StartsWith(message, r[..30]) && r[30..] == "...")
  {
    var parts := SplitOn(message, ' ');
    SplitOnPrefix(message, ' ', Min(4, |parts|));
    var words := FirstWords(message);
    if |words| > 30 {
      var r := words[..30] + "...";
      assert r[..30] == words[..30];
      assert r[30..] == "...";
    }
  }

  /** A message of at most 30 characters with no space is its own title. */
  lemma ShortWordIsTitle(message: string)
    requires message != "" && |message| <= 30
    requires forall i :: 0 <= i < |message| ==> message[i] != ' '
    ensures SessionTitle(message) == message
  {
    assert SplitOn(message, ' ') == [message];
  }

  /** `truncateText(text, maxLength)`; `substring` clamps a negative end to 0. */
  function TruncateText(text: string, maxLength: int): string {
    if |text| <= maxLength then text
    else Prefix(text, if maxLength < 0 then 0 else maxLength) + "..."
  }

  /** Short text is returned as it is; longer text keeps its first
      `maxLength` characters and gains "...", three more than the limit. */
  lemma TruncateShape(text: string, maxLength: int)
    ensures var r := TruncateText(text, maxLength);
      (|text| <= maxLength ==> r == text)
      && (|text| > maxLength ==>
            |r| == (if maxLength < 0 then 0 else maxLength) + 3
            && StartsWith(text, r[..|r| - 3]) && EndsWith(r, "..."))
  {
    var r := TruncateText(text, maxLength);
    if |text| > maxLength {
      var n := if maxLength < 0 then 0 else maxLength;
      assert r[..|r| - 3] == Prefix(text, n);
      assert r[|r| - 3..] == "...";
    }
  }

  /** Truncating twice with the same limit is truncating once. */
  lemma TruncateIdempotent(text: string, maxLength: int)
    ensures TruncateText(TruncateText(text, maxLength), maxLength) == TruncateText(text, maxLength)
  {
    var r := TruncateText(text, maxLength);
    if |text| > maxLength {
      var n := if maxLength < 0 then 0 else maxLength;
      assert Prefix(r, n) == Prefix(text, n);
    }
  }

  // ---------------------------------------------------------------- validatePassword

  /** `re.test(s)` for a one-character class: some character is in the class. */
  function AnyChar(s: string, inClass: char -> bool): bool
    decreases |s|
  {
    s != [] && (inClass(s[0]) || AnyChar(s[1..], inClass))
  }

  lemma {:induction false} AnyCharIff(s: string, inClass: char -> bool)
    ensures AnyChar(s, inClass) <==> exists i :: 0 <= i < |s| && inClass(s[i])
    decreases |s|
  {
    if s != [] {
      AnyCharIff(s[1..], inClass);
      if exists i :: 0 <= i < |s| && inClass(s[i]) {
        var i :| 0 <= i < |s| && inClass(s[i]);
        if i > 0 {
          assert inClass(s[1..][i - 1]);
        }
      }
    }
  }

  const SpecialChars: string := "!@#$%^&*(),.?\":{}|<>"

  predicate IsSpecial(c: char) { c in SpecialChars }

  datatype PasswordCheck = PasswordCheck(isValid: bool, minLength: bool, hasUpperCase: bool,
                                         hasLowerCase: bool, hasNumbers: bool, hasSpecialChar: bool)

  function ValidatePassword(password: string): PasswordCheck {
    var minLength := JsLength(password) >= 8;
    var upper := AnyChar(password, IsAsciiUpper);
    var lower := AnyChar(password, IsAsciiLower);
    var digits := AnyChar(password, IsAsciiDigit);
    PasswordCheck(minLength && upper && lower && digits, minLength, upper, lower, digits,
                  AnyChar(password, IsSpecial))
  }

  /** A password is valid exactly when it has at least 8 UTF-16 units, an
      upper-case letter, a lower-case letter and a digit; a special character
      is reported but plays no part. */
  lemma PasswordValidIff(password: string)
    ensures var c := ValidatePassword(password);
      (c.isValid <==>
         JsLength(password) >= 8
         && (exists i :: 0 <= i < |password| && IsAsciiUpper(password[i]))
         && (exists i :: 0 <= i < |password| && IsAsciiLower(password[i]))
         && (exists i :: 0 <= i < |password| && IsAsciiDigit(password[i])))
      && (c.hasSpecialChar <==> exists i :: 0 <= i < |password| && password[i] in SpecialChars)
  {
    AnyCharIff(password, IsAsciiUpper);
    AnyCharIff(password, IsAsciiLower);
    AnyCharIff(password, IsAsciiDigit);
    AnyCharIff(password, IsSpecial);
  }

  // ---------------------------------------------------------------- isValidEmail

  /** A character the class `[^\s@]` accepts. */
  predicate IsPlain(c: char) { !IsJsSpace(c) && c != '@' }

  predicate AllPlain(s: string) { forall k :: 0 <= k < |s| ==> IsPlain(s[k]) }

  /** `^[^\s@]+@[^\s@]+\.[^\s@]+$` read directly: a non-empty plain part, '@',
      a non-empty plain part, '.', a non-empty plain part. */
  ghost predicate EmailShape(s: string) {
    exists at, dot :: 0 < at && at + 1 < dot && dot + 1 < |s| && s[at] == '@' && s[dot] == '.'
      && AllPlain(s[..at]) && AllPlain(s[at + 1..dot]) && AllPlain(s[dot + 1..])
  }

  /** The matcher: the text before the first '@' is a plain non-empty part,
      the rest is plain and has a '.' with a character on each side. */
  function IsValidEmail(s: string): bool {
    var at := IndexOfChar(s, '@');
    at > 0 && AllPlain(s[..at])
    && var rest := s[at + 1..];
       AllPlain(rest) && |rest| >= 3 && IndexOfChar(rest[1..|rest| - 1], '.') >= 0
  }

  /** The matcher accepts exactly the strings of the pattern. */
  lemma EmailIff(s: string)
    ensures IsValidEmail(s) <==> EmailShape(s)
  {
    if IsValidEmail(s) {
      ValidEmailPieces(s);
    }
    if EmailShape(s) {
      var at, dot :| 0 < at && at + 1 < dot && dot + 1 < |s| && s[at] == '@' && s[dot] == '.'
        && AllPlain(s[..at]) && AllPlain(s[at + 1..dot]) && AllPlain(s[dot + 1..]);
      EmailPieces(s, at, dot);
    }
  }

  /** An accepted address splits at its first '@' and at the first '.' after
      the character that follows it. */
  lemma ValidEmailPieces(s: string)
    requires IsValidEmail(s)
    ensures EmailShape(s)
  {
    var at := IndexOfChar(s, '@');
    var rest := s[at + 1..];
    var j := IndexOfChar(rest[1..|rest| - 1], '.');
    var dot := at + 2 + j;
    assert rest[1..|rest| - 1][j] == rest[1 + j];
    assert s[dot] == '.';
    var mid, tail := s[at + 1..dot], s[dot + 1..];
    assert mid == rest[..1 + j] && tail == rest[2 + j..];
    assert AllPlain(mid) by {
      forall k | 0 <= k < |mid| ensures IsPlain(mid[k]) {
        assert mid[k] == rest[k];
      }
    }
    assert AllPlain(tail) by {
      forall k | 0 <= k < |tail| ensures IsPlain(tail[k]) {
        assert tail[k] == rest[2 + j + k];
      }
    }
    assert 0 < at && at + 1 < dot && dot + 1 < |s| && s[at] == '@' && s[dot] == '.'
      && AllPlain(s[..at]) && AllPlain(s[at + 1..dot]) && AllPlain(s[dot + 1..]);
  }

  lemma EmailPieces(s: string, at: nat, dot: nat)
    requires 0 < at && at + 1 < dot && dot + 1 < |s| && s[at] == '@' && s[dot] == '.'
    requires AllPlain(s[..at]) && AllPlain(s[at + 1..dot]) && AllPlain(s[dot + 1..])
    ensures IsValidEmail(s)
  {
    forall k | 0 <= k < at ensures s[k] != '@' {
      assert s[k] == s[..at][k];
    }
    assert IndexOfChar(s, '@') == at;
    var rest := s[at + 1..];
    forall k | 0 <= k < |rest| ensures IsPlain(rest[k]) {
      if at + 1 + k < dot {
        assert rest[k] == s[at + 1..dot][k];
      } else if at + 1 + k > dot {
        assert rest[k] == s[dot + 1..][at + k - dot];
      }
    }
    var inner := rest[1..|rest| - 1];
    assert inner[dot - at - 2] == '.';
  }

  // ---------------------------------------------------------------- groupBy and sortBy

  /** The message `groups[group].push(item)` throws when `groups[group]` is
      an inherited member rather than an array. */
  const PushTypeError: string := "TypeError: groups[group].push is not a function"

  /** The members a plain `{}` inherits from Object.prototype, by property
      name (sections 20.1.3 and B.2.2 of ECMA-262). */
  const ObjectPrototypeMembers: set<string> :=
    {"constructor", "hasOwnProperty", "isPrototypeOf", "propertyIsEnumerable",
     "toLocaleString", "toString", "valueOf", "__proto__",
     "__defineGetter__", "__defineSetter__", "__lookupGetter__", "__lookupSetter__"}

  /** `groupBy(array, key)` with the key already turned into a property name:
      items are appended to their key's group one at a time. The accumulator
      is a plain `{}`, so for a key that names a member it inherits
      (`inherited`) the expression `groups[group] || []` yields that member,
      which is truthy and has no `push`: the reduce throws at the first such
      item. */
  function GroupBy<T>(items: seq<T>, key: T -> string, inherited: string -> bool): (r: Result<map<string, seq<T>>>)
    ensures r.Ok? <==> forall i :: 0 <= i < |items| ==> !inherited(key(items[i]))
    ensures r.Err? ==> r.message == PushTypeError
    decreases |items|
  {
    if items == [] then Ok(map[])
    else
      var init := items[..|items| - 1];
      var x := items[|items| - 1];
      assert forall i :: 0 <= i < |init| ==> init[i] == items[i];
      match GroupBy(init, key, inherited)
      case Err(e) => Err(e)
      case Ok(groups) =>
        var k := key(x);
        if inherited(k) then Err(PushTypeError)
        else Ok(groups[k := (if k in groups then groups[k] else []) + [x]])
  }

  function KeyIs<T>(key: T -> string, k: string): T -> bool {
    (x: T) => key(x) == k
  }

  /** The groups describe the items: a group exists exactly for the keys that
      occur, and the group of a key is the items with that key, in order. */
  ghost predicate GroupsOf<T>(groups: map<string, seq<T>>, items: seq<T>, key: T -> string, k: string) {
    (k in groups <==> exists i :: 0 <= i < |items| && key(items[i]) == k)
    && (k in groups ==> groups[k] == Filter(KeyIs(key, k), items))
  }

  /** When no key names an inherited member, a group exists exactly for the
      keys that occur, and the group of a key is the items with that key, in
      their original order. */
  lemma {:induction false} GroupByIsFilter<T>(items: seq<T>, key: T -> string, inherited: string -> bool, k: string)
    ensures var r := GroupBy(items, key, inherited);
      r.Ok? ==>
        (k in r.value <==> exists i :: 0 <= i < |items| && key(items[i]) == k)
        && (k in r.value ==> r.value[k] == Filter(KeyIs(key, k), items))
    decreases |items|
  {
    if items != [] {
      var init := items[..|items| - 1];
      var x := items[|items| - 1];
      GroupByIsFilter(init, key, inherited, k);
      assert items == init + [x];
      var r := GroupBy(init, key, inherited);
      if r.Ok? && !inherited(key(x)) {
        GroupStep(r.value, init, x, key, k);
        var g := r.value[key(x) := (if key(x) in r.value then r.value[key(x)] else []) + [x]];
        assert GroupBy(items, key, inherited) == Ok(g);
      }
    }
  }

  /** Appending one item to its key's group keeps the groups describing the items. */
  lemma GroupStep<T>(groups: map<string, seq<T>>, init: seq<T>, x: T, key: T -> string, k: string)
    requires GroupsOf(groups, init, key, k)
    ensures GroupsOf(groups[key(x) := (if key(x) in groups then groups[key(x)] else []) + [x]], init + [x], key, k)
  {
    var items := init + [x];
    var p := KeyIs(key, k);
    var g := groups[key(x) := (if key(x) in groups then groups[key(x)] else []) + [x]];
    FilterAppend(p, init, [x]);
    FilterNonEmptyIff(p, init);
    assert items[|init|] == x;
    forall i | 0 <= i < |init| ensures items[i] == init[i] {
    }
    if key(x) == k {
      assert Filter(p, [x]) == [x];
      assert k in g;
    } else {
      assert Filter(p, [x]) == [];
      assert Filter(p, items) == Filter(p, init);
      assert k in g <==> k in groups;
    }
  }

  /** An item whose key is "constructor" makes `groupBy` throw, wherever it
      stands, while the same items under other keys are grouped. */
  lemma ConstructorKeyThrows<T>(items: seq<T>, key: T -> string, j: nat)
    requires j < |items| && key(items[j]) == "constructor"
    ensures GroupBy(items, key, (n: string) => n in ObjectPrototypeMembers) == Err(PushTypeError)
  {
  }

  /** The comparator of `sortBy`: ascending for "asc", descending for any other direction. */
  function KeyOrder<T>(key: T -> int, direction: string): (T, T) -> bool {
    if direction == "asc" then (a: T, b: T) => key(a) < key(b)
    else (a: T, b: T) => key(a) > key(b)
  }

  /** `sortBy(array, key, direction)` sorts a copy; the input is a value and is
      not changed. `key` gives the rank of `item[key]` under JavaScript's `<`. */
  function SortBy<T>(items: seq<T>, key: T -> int, direction: string): seq<T> {
    Sort(items, KeyOrder(key, direction))
  }

  lemma KeyOrderIsStrictWeak<T(!new)>(key: T -> int, direction: string)
    ensures StrictWeakOrder(KeyOrder(key, direction))
  {
  }

  /** The result is a rearrangement of the items with keys non-decreasing for
      "asc" and non-increasing otherwise. */
  lemma SortByOrdered<T(!new)>(items: seq<T>, key: T -> int, direction: string)
    ensures var r := SortBy(items, key, direction);
      multiset(r) == multiset(items)
      && (direction == "asc" ==> forall i, j :: 0 <= i < j < |r| ==> key(r[i]) <= key(r[j]))
      && (direction != "asc" ==> forall i, j :: 0 <= i < j < |r| ==> key(r[i]) >= key(r[j]))
  {
    KeyOrderIsStrictWeak(key, direction);
    SortSorted(items, KeyOrder(key, direction));
  }
}
