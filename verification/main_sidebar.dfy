/** The session list helpers of Frontend/src/components/main/Sidebar.jsx:
    the relative age shown next to each session and the icon and tagline
    lookups. The clock and the locale's date rendering are inputs. */
module MainSidebar {
  import opened Wrappers
  import opened Text
  import opened JsValues

  const MillisPerHour: int := 3_600_000

  /** The age classes `formatTimestamp` distinguishes. */
  datatype Age = JustNow | HoursAgo(hours: int) | Yesterday | DaysAgo(days: int) | OlderDate

  /** The class of a timestamp `elapsed` milliseconds old; `Math.floor` is
      Dafny's division by a positive divisor. A timestamp in the future is
      "just now". */
  function AgeOf(elapsed: int): Age {
    var hours := elapsed / MillisPerHour;
    if hours < 1 then JustNow
    else if hours < 24 then HoursAgo(hours)
    else if hours < 48 then Yesterday
    else
      var days := hours / 24;
      if days < 7 then DaysAgo(days) else OlderDate
  }

  /** `formatTimestamp(timestamp)` for the timestamp in milliseconds (`None`
      for one that does not parse), the current time, and what
      `toLocaleDateString()` gives for the timestamp. An unparsable time
      compares false everywhere and falls through to the date string. */
  function FormatTimestamp(timestamp: Option<int>, now: int, localeDate: string): string {
    if timestamp.None? then localeDate
    else
      match AgeOf(now - timestamp.value)
      case JustNow => "Just now"
      case HoursAgo(h) => IntToString(h) + "h ago"
      case Yesterday => "Yesterday"
      case DaysAgo(d) => IntToString(d) + "d ago"
      case OlderDate => localeDate
  }

  /** The classes cover the time line in order: under an hour, whole hours
      1 to 23, the second day, whole days 2 to 6, and anything older. */
  lemma AgeBuckets(elapsed: int)
    ensures AgeOf(elapsed) == JustNow <==> elapsed < MillisPerHour
    ensures AgeOf(elapsed) == Yesterday <==> 24 * MillisPerHour <= elapsed < 48 * MillisPerHour
    ensures AgeOf(elapsed) == OlderDate <==> elapsed >= 168 * MillisPerHour
    ensures AgeOf(elapsed).HoursAgo? ==>
      var h := AgeOf(elapsed).hours;
      1 <= h <= 23 && h * MillisPerHour <= elapsed < (h + 1) * MillisPerHour
    ensures AgeOf(elapsed).DaysAgo? ==>
      var d := AgeOf(elapsed).days;
      2 <= d <= 6 && d * 24 * MillisPerHour <= elapsed < (d + 1) * 24 * MillisPerHour
  {
    var hours := elapsed / MillisPerHour;
    assert hours * MillisPerHour <= elapsed < (hours + 1) * MillisPerHour;
    if 48 <= hours {
      var days := hours / 24;
      assert days * 24 <= hours < (days + 1) * 24;
    }
  }

  /** Later timestamps never look older: the class only moves towards
      "just now" as the elapsed time shrinks. */
  lemma AgeMonotone(earlier: int, later: int)
    requires earlier <= later
    ensures Rank(AgeOf(earlier)) <= Rank(AgeOf(later))
  {
    assert earlier / MillisPerHour <= later / MillisPerHour;
  }

  /** Orders the classes from newest to oldest, and within a class by count. */
  function Rank(a: Age): int {
    match a
    case JustNow => 0
    case HoursAgo(h) => h
    case Yesterday => 24
    case DaysAgo(d) => 24 * d
    case OlderDate => 168
  }

  // ---------------------------------------------------------------- icons and taglines

  datatype Icon = HashIcon | MessageSquare | Brain | BookOpen

  /** `getSessionIcon(session)`: the strict `messageCount === 0` test. */
  function SessionIcon(messageCount: Value): (icon: Icon)
    ensures icon == HashIcon <==> messageCount == Num(0)
    ensures icon == HashIcon || icon == MessageSquare
  {
    if messageCount == Num(0) then HashIcon else MessageSquare
  }

  function TabIcon(activeTab: string): Icon {
    if activeTab == "quiz" then Brain
    else if activeTab == "flashcards" then BookOpen
    else MessageSquare
  }

  function TabDescription(activeTab: string): string {
    if activeTab == "chat" then "AI-powered conversations"
    else if activeTab == "quiz" then "Test your knowledge"
    else if activeTab == "flashcards" then "Interactive study cards"
    else "AI-powered conversations"
  }

  /** Quiz and flash cards get their own icon and tagline; every other tab
      value, "chat" included, shows the chat ones. */
  lemma TabLookupsAgree(activeTab: string)
    ensures activeTab != "quiz" && activeTab != "flashcards" ==>
      TabIcon(activeTab) == MessageSquare && TabDescription(activeTab) == TabDescription("chat")
    ensures TabIcon("quiz") == Brain && TabDescription("quiz") == "Test your knowledge"
    ensures TabIcon("flashcards") == BookOpen && TabDescription("flashcards") == "Interactive study cards"
  {
  }
}
