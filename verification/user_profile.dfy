/** The computations of Backend/routes/user_profile.py: the overall progress
    score, the achievement rules and their count, the recent-activity merge
    and `normalize_datetime`. Query results are inputs: the rows a query
    would return, newest first, and the aggregates as optional values (a
    missing row or an SQL NULL is `None`). */
module UserProfile {
  import opened Wrappers
  import opened Sorting

  // ---------------------------------------------------------------- datetimes

  /** A datetime: `wall` counts seconds of wall-clock time from
      `datetime.min`; `offset` is the UTC offset in seconds of an aware
      value, `None` for a naive one. */
  datatype DateTime = DateTime(wall: int, offset: Option<int>)

  /** `normalize_datetime`. */
  function NormalizeDateTime(dt: Option<DateTime>): (r: Option<DateTime>)
    ensures r.None? <==> dt.None?
    ensures r.Some? ==> r.value.offset.None?
  {
    match dt
    case None => None
    case Some(t) =>
      if t.offset.Some? then Some(DateTime(t.wall - t.offset.value, None)) else dt
  }

  /** The instant an aware value denotes, as UTC wall-clock seconds. */
  function UtcWall(t: DateTime): int
    requires t.offset.Some?
  {
    t.wall - t.offset.value
  }

  /** Naive values are left alone, aware ones become their UTC wall-clock
      time, and normalising twice is normalising once. */
  lemma NormalizeCases(dt: Option<DateTime>)
    ensures dt.Some? && dt.value.offset.None? ==> NormalizeDateTime(dt) == dt
    ensures dt.Some? && dt.value.offset.Some? ==>
      NormalizeDateTime(dt) == Some(DateTime(UtcWall(dt.value), None))
    ensures NormalizeDateTime(NormalizeDateTime(dt)) == NormalizeDateTime(dt)
  {
  }

  /** Two aware values denoting the same instant normalise to the same
      value, whatever their offsets. */
  lemma SameInstantSameNormal(a: DateTime, b: DateTime)
    requires a.offset.Some? && b.offset.Some? && UtcWall(a) == UtcWall(b)
    ensures NormalizeDateTime(Some(a)) == NormalizeDateTime(Some(b))
  {
  }

  // ---------------------------------------------------------------- progress

  function MinReal(a: real, b: real): real { if a <= b then a else b }

  /** Up to 25 points for chats, only when there are some. */
  function ChatPoints(chatCount: int): (p: real)
    ensures p <= 25.0
    ensures chatCount >= 0 ==> p >= 0.0
  {
    if chatCount > 0 then MinReal(chatCount as real * 5.0, 25.0) else 0.0
  }

  /** Up to 40 points for study sessions, when the count is present and non-zero. */
  function SessionPoints(studySessions: Option<int>): (p: real)
    ensures p <= 40.0
    ensures studySessions.Some? && studySessions.value >= 0 ==> p >= 0.0
  {
    if studySessions.Some? && studySessions.value != 0 then MinReal(studySessions.value as real * 10.0, 40.0)
    else 0.0
  }

  /** avg / 100 * 35, when the average is present and non-zero. */
  function AccuracyPoints(avgAccuracy: Option<real>): real {
    if avgAccuracy.Some? && avgAccuracy.value != 0.0 then avgAccuracy.value / 100.0 * 35.0 else 0.0
  }

  /** `calculate_overall_progress`. */
  function OverallProgress(chatCount: int, studySessions: Option<int>, avgAccuracy: Option<real>): (p: real)
    ensures p <= 100.0
  {
    MinReal(ChatPoints(chatCount) + SessionPoints(studySessions) + AccuracyPoints(avgAccuracy), 100.0)
  }

  /** The score's inputs as the database can return them: counts are never
      negative and the average accuracy is a percentage. */
  predicate Plausible(chatCount: int, studySessions: Option<int>, avgAccuracy: Option<real>) {
    chatCount >= 0
    && (studySessions.Some? ==> studySessions.value >= 0)
    && (avgAccuracy.Some? ==> 0.0 <= avgAccuracy.value <= 100.0)
  }

  /** For plausible inputs the progress lies in [0, 100], and the cap never
      cuts anything: the three parts add up to at most 25 + 40 + 35. */
  lemma ProgressInRange(chatCount: int, studySessions: Option<int>, avgAccuracy: Option<real>)
    requires Plausible(chatCount, studySessions, avgAccuracy)
    ensures 0.0 <= OverallProgress(chatCount, studySessions, avgAccuracy) <= 100.0
    ensures OverallProgress(chatCount, studySessions, avgAccuracy)
         == ChatPoints(chatCount) + SessionPoints(studySessions) + AccuracyPoints(avgAccuracy)
  {
    assert 0.0 <= AccuracyPoints(avgAccuracy) <= 35.0;
  }

  /** More chats never lower the progress. */
  lemma ProgressMonotoneInChats(c1: int, c2: int, studySessions: Option<int>, avgAccuracy: Option<real>)
    requires 0 <= c1 <= c2
    ensures OverallProgress(c1, studySessions, avgAccuracy) <= OverallProgress(c2, studySessions, avgAccuracy)
  {
    assert ChatPoints(c1) <= ChatPoints(c2);
  }

  /** Five chats, four sessions and a perfect average reach exactly 100. */
  lemma FullProgress(chatCount: int, studySessions: int)
    requires chatCount >= 5 && studySessions >= 4
    ensures OverallProgress(chatCount, Some(studySessions), Some(100.0)) == 100.0
  {
    assert ChatPoints(chatCount) == 25.0;
    assert SessionPoints(Some(studySessions)) == 40.0;
  }

  /** No activity at all scores 0: a missing or zero count, like a missing
      or zero average, adds nothing. */
  lemma NoActivityNoProgress(studySessions: Option<int>, avgAccuracy: Option<real>)
    requires studySessions.None? || studySessions.value == 0
    requires avgAccuracy.None? || avgAccuracy.value == 0.0
    ensures OverallProgress(0, studySessions, avgAccuracy) == 0.0
  {
  }

  // ---------------------------------------------------------------- achievements

  /** The aggregates of `session_results` the achievement rules read. */
  datatype AchievementStats = AchievementStats(totalSessions: int, excellentSessions: int,
                                               quizSessions: int, flashnoteSessions: int)

  datatype AchievementId = FirstQuiz | ChatEnthusiast | StudyStreak | Perfectionist | FlashcardMaster

  /** The fixed parts of an achievement (`earned_at` is the clock). */
  datatype AchievementInfo = AchievementInfo(key: string, name: string, description: string,
                                             icon: string, color: string, category: string)

  function Info(a: AchievementId): AchievementInfo {
    match a
    case FirstQuiz => AchievementInfo("first_quiz", "First Quiz Master", "Completed your first quiz",
                                      "Target", "text-green-500", "quiz")
    case ChatEnthusiast => AchievementInfo("chat_enthusiast", "Chat Enthusiast", "Started 5 chat sessions",
                                           "Zap", "text-blue-500", "chat")
    case StudyStreak => AchievementInfo("study_streak", "Study Streak", "Completed 3 study sessions",
                                        "BookOpen", "text-purple-500", "study")
    case Perfectionist => AchievementInfo("perfectionist", "Perfectionist", "Achieved 90%+ accuracy",
                                          "Award", "text-yellow-500", "performance")
    case FlashcardMaster => AchievementInfo("flashcard_master", "Flashcard Master", "Completed flashcard session",
                                            "Brain", "text-pink-500", "flashcards")
  }

  /** The rule of each achievement. */
  predicate Deserves(a: AchievementId, stats: Option<AchievementStats>, chatCount: int) {
    match a
    case FirstQuiz => stats.Some? && stats.value.quizSessions >= 1
    case ChatEnthusiast => chatCount >= 5
    case StudyStreak => stats.Some? && stats.value.totalSessions >= 3
    case Perfectionist => stats.Some? && stats.value.excellentSessions >= 1
    case FlashcardMaster => stats.Some? && stats.value.flashnoteSessions >= 1
  }

  /** All achievements, in the order they are listed. */
  const AllAchievements: seq<AchievementId> :=
    [FirstQuiz, ChatEnthusiast, StudyStreak, Perfectionist, FlashcardMaster]

  function When<T>(c: bool, a: T): seq<T> { if c then [a] else [] }

  /** `get_user_achievements`. */
  function Earned(stats: Option<AchievementStats>, chatCount: int): seq<AchievementId> {
    When(stats.Some? && stats.value.quizSessions >= 1, FirstQuiz)
    + (When(chatCount >= 5, ChatEnthusiast)
    + (When(stats.Some? && stats.value.totalSessions >= 3, StudyStreak)
    + (When(stats.Some? && stats.value.excellentSessions >= 1, Perfectionist)
    + When(stats.Some? && stats.value.flashnoteSessions >= 1, FlashcardMaster))))
  }

  function Tally(c: bool): nat { if c then 1 else 0 }

  /** `calculate_achievements_count`: `fetched` is the two queries' answer or
      the failure they raised, which leaves the count at 0. */
  function AchievementsCount(fetched: Result<(Option<AchievementStats>, int)>): (n: nat)
    ensures n <= 5
  {
    match fetched
    case Err(_) => 0
    case Ok((stats, chatCount)) =>
      Tally(stats.Some? && stats.value.quizSessions >= 1)
      + Tally(chatCount >= 5)
      + Tally(stats.Some? && stats.value.totalSessions >= 3)
      + Tally(stats.Some? && stats.value.excellentSessions >= 1)
      + Tally(stats.Some? && stats.value.flashnoteSessions >= 1)
  }

  lemma FilterStep<T>(p: T -> bool, x: T, rest: seq<T>)
    ensures Filter(p, [x] + rest) == When(p(x), x) + Filter(p, rest)
  {
    assert ([x] + rest)[1..] == rest;
  }

  /** The list is exactly the deserved achievements, in the fixed order. */
  lemma EarnedInOrder(stats: Option<AchievementStats>, chatCount: int)
    ensures Earned(stats, chatCount) == Filter((a: AchievementId) => Deserves(a, stats, chatCount), AllAchievements)
  {
    var p := (a: AchievementId) => Deserves(a, stats, chatCount);
    var s4 := [FlashcardMaster];
    var s3 := [Perfectionist] + s4;
    var s2 := [StudyStreak] + s3;
    var s1 := [ChatEnthusiast] + s2;
    assert AllAchievements == [FirstQuiz] + s1;
    FilterStep(p, FlashcardMaster, []);
    assert Filter(p, s4) == When(p(FlashcardMaster), FlashcardMaster);
    FilterStep(p, Perfectionist, s4);
    FilterStep(p, StudyStreak, s3);
    FilterStep(p, ChatEnthusiast, s2);
    FilterStep(p, FirstQuiz, s1);
  }

  /** An achievement is listed exactly when its rule holds. */
  lemma EarnedIff(stats: Option<AchievementStats>, chatCount: int, a: AchievementId)
    ensures a in Earned(stats, chatCount) <==> Deserves(a, stats, chatCount)
  {
    var p := (a: AchievementId) => Deserves(a, stats, chatCount);
    EarnedInOrder(stats, chatCount);
    var k := match a
      case FirstQuiz => 0
      case ChatEnthusiast => 1
      case StudyStreak => 2
      case Perfectionist => 3
      case FlashcardMaster => 4;
    assert AllAchievements[k] == a;
    if a in Earned(stats, chatCount) {
      var j :| 0 <= j < |Earned(stats, chatCount)| && Earned(stats, chatCount)[j] == a;
      assert p(Earned(stats, chatCount)[j]);
    }
  }

  /** The count agrees with the list for the same answers. */
  lemma CountMatchesList(stats: Option<AchievementStats>, chatCount: int)
    ensures AchievementsCount(Ok((stats, chatCount))) == |Earned(stats, chatCount)|
  {
  }

  /** The five keys are distinct, so the list never shows one achievement twice. */
  lemma KeysDistinct(a: AchievementId, b: AchievementId)
    requires a != b
    ensures Info(a).key != Info(b).key
  {
  }

  // ---------------------------------------------------------------- recent activity

  /** A `session_results` row joined with its study session's name. */
  datatype SessionRow = SessionRow(id: int, sessionType: string, sessionName: Option<string>,
                                   studySessionName: Option<string>, accuracy: real, timeSpent: int,
                                   completedAt: Option<DateTime>)

  /** A `sessions` (chat) row. */
  datatype ChatRow = ChatRow(sessionId: string, topic: Option<string>, createdAt: Option<DateTime>)

  /** The fields of a `RecentActivityItem` as the handler passes them.
      `timestamp` is `None` when the row's time column is NULL; the
      model's field is a required `datetime`, so such an item is refused
      (see `Stamped`). */
  datatype ActivityItem = ActivityItem(id: int, activityType: string, title: string, description: string,
                                       timestamp: Option<DateTime>, score: Option<real>, duration: Option<int>)

  /** Python's `a or b` for an optional string: an empty or missing string
      falls through. */
  function OrElse(a: Option<string>, b: string): (r: string)
    ensures b != "" ==> r != ""
  {
    if a.Some? && a.value != "" then a.value else b
  }

  /** The description and title of a session row; `percent` is the
      `:.0f` formatting of a float. */
  function Describe(row: SessionRow, percent: real -> string): (string, string) {
    if row.sessionType == "quiz" then
      ("Scored " + percent(row.accuracy) + "% accuracy",
       OrElse(row.sessionName, OrElse(row.studySessionName, "Quiz Session")))
    else if row.sessionType == "flashnotes" then
      ("Studied " + percent(row.accuracy) + "% mastery rate",
       OrElse(row.sessionName, OrElse(row.studySessionName, "Flashcard Session")))
    else
      ("Completed study session", OrElse(row.sessionName, "Study Session"))
  }

  function SessionItem(row: SessionRow, percent: real -> string): ActivityItem {
    var (description, title) := Describe(row, percent);
    ActivityItem(row.id, row.sessionType, title, description, NormalizeDateTime(row.completedAt),
                 Some(row.accuracy), Some(row.timeSpent))
  }

  const ChatIdModulus: int := 1000000

  /** A chat's item; `hash` is Python's `hash` of the session id. */
  function ChatItem(row: ChatRow, hash: string -> int): (item: ActivityItem)
    ensures 0 <= item.id < ChatIdModulus
    ensures item.activityType == "chat" && item.title != ""
  {
    ActivityItem(hash(row.sessionId) % ChatIdModulus, "chat", OrElse(row.topic, "Chat Session"),
                 "Started new conversation", NormalizeDateTime(row.createdAt), None, None)
  }

  /** The sort key `x.timestamp or datetime.min`. */
  function SortKey(item: ActivityItem): int {
    if item.timestamp.Some? then item.timestamp.value.wall else 0
  }

  /** `reverse=True` on the key: later items first; the sort is stable. */
  function Later(a: ActivityItem, b: ActivityItem): bool { SortKey(a) > SortKey(b) }

  function Min(a: int, b: int): int { if a <= b then a else b }

  /** `get_recent_activity`: `sessions` and `chats` are the user's rows in
      the order the queries return them (newest first). A negative `limit`
      makes the database refuse the `LIMIT` clause, and a fetched row whose
      time column is NULL makes the item's validation fail; both become
      the handler's HTTP 500. */
  function RecentActivity(limit: int, sessions: seq<SessionRow>, chats: seq<ChatRow>,
                          percent: real -> string, hash: string -> int): (r: Result<seq<ActivityItem>>)
    ensures r.Ok? <==> limit >= 0 && RowsDated(limit, sessions, chats)
    ensures r.Ok? ==> |r.value| <= limit && |r.value| <= |sessions| + |chats|
    ensures r.Ok? ==> Stamped(r.value)
    ensures r.Ok? ==> forall i, j :: 0 <= i < j < |r.value| ==>
      r.value[i].timestamp.value.wall >= r.value[j].timestamp.value.wall
  {
    if limit < 0 then Err("LIMIT must not be negative")
    else
      var items := Candidates(limit, sessions, chats, percent, hash);
      CandidatesStampedIff(limit, sessions, chats, percent, hash);
      if !Stamped(items) then Err("timestamp: Input should be a valid datetime")
      else
        LaterIsStrictWeakOrder();
        SortSorted(items, Later);
        var sorted := Sort(items, Later);
        SortKeepsStamped(items, sorted);
        var kept := sorted[..Min(limit, |sorted|)];
        assert forall i :: 0 <= i < |kept| ==> kept[i] == sorted[i];
        Ok(kept)
  }

  /** Every item carries a timestamp: the only form pydantic accepts. */
  predicate Stamped(items: seq<ActivityItem>) {
    forall i :: 0 <= i < |items| ==> items[i].timestamp.Some?
  }

  /** Every fetched row has its time column set: the `limit` newest
      results and the `limit // 2` newest chats. */
  predicate RowsDated(limit: nat, sessions: seq<SessionRow>, chats: seq<ChatRow>) {
    (forall i :: 0 <= i < Min(limit, |sessions|) ==> sessions[i].completedAt.Some?)
    && (forall i :: 0 <= i < Min(limit / 2, |chats|) ==> chats[i].createdAt.Some?)
  }

  /** The candidates all validate exactly when every fetched row is dated. */
  lemma CandidatesStampedIff(limit: nat, sessions: seq<SessionRow>, chats: seq<ChatRow>,
                             percent: real -> string, hash: string -> int)
    ensures Stamped(Candidates(limit, sessions, chats, percent, hash)) <==> RowsDated(limit, sessions, chats)
  {
    var ss := sessions[..Min(limit, |sessions|)];
    var cs := chats[..Min(limit / 2, |chats|)];
    var a := Map((r: SessionRow) => SessionItem(r, percent), ss);
    var b := Map((c: ChatRow) => ChatItem(c, hash), cs);
    StampedAppend(a, b);
    SessionItemsStamped(ss, percent);
    ChatItemsStamped(cs, hash);
  }

  lemma StampedAppend(a: seq<ActivityItem>, b: seq<ActivityItem>)
    ensures Stamped(a + b) <==> Stamped(a) && Stamped(b)
  {
    if Stamped(a + b) {
      forall i | 0 <= i < |a| ensures a[i].timestamp.Some? {
        assert (a + b)[i] == a[i];
      }
      forall i | 0 <= i < |b| ensures b[i].timestamp.Some? {
        assert (a + b)[|a| + i] == b[i];
      }
    }
  }

  lemma SessionItemsStamped(rows: seq<SessionRow>, percent: real -> string)
    ensures Stamped(Map((r: SessionRow) => SessionItem(r, percent), rows)) <==>
      forall i :: 0 <= i < |rows| ==> rows[i].completedAt.Some?
  {
    var items := Map((r: SessionRow) => SessionItem(r, percent), rows);
    assert forall i :: 0 <= i < |rows| ==> items[i].timestamp == NormalizeDateTime(rows[i].completedAt);
  }

  lemma ChatItemsStamped(rows: seq<ChatRow>, hash: string -> int)
    ensures Stamped(Map((c: ChatRow) => ChatItem(c, hash), rows)) <==>
      forall i :: 0 <= i < |rows| ==> rows[i].createdAt.Some?
  {
    var items := Map((c: ChatRow) => ChatItem(c, hash), rows);
    assert forall i :: 0 <= i < |rows| ==> items[i].timestamp == NormalizeDateTime(rows[i].createdAt);
  }

  /** Sorting keeps every item, so a stamped list stays stamped. */
  lemma SortKeepsStamped(items: seq<ActivityItem>, sorted: seq<ActivityItem>)
    requires multiset(sorted) == multiset(items)
    requires Stamped(items)
    ensures Stamped(sorted)
  {
    forall i | 0 <= i < |sorted| ensures sorted[i].timestamp.Some? {
      assert sorted[i] in multiset(items);
      var j :| 0 <= j < |items| && items[j] == sorted[i];
    }
  }

  /** Every candidate item: one per fetched session row, then one per
      fetched chat row (at most `limit / 2` of them). */
  function Candidates(limit: nat, sessions: seq<SessionRow>, chats: seq<ChatRow>,
                      percent: real -> string, hash: string -> int): (items: seq<ActivityItem>)
    ensures |items| == Min(limit, |sessions|) + Min(limit / 2, |chats|)
  {
    Map((r: SessionRow) => SessionItem(r, percent), sessions[..Min(limit, |sessions|)])
    + Map((c: ChatRow) => ChatItem(c, hash), chats[..Min(limit / 2, |chats|)])
  }

  lemma LaterIsStrictWeakOrder()
    ensures StrictWeakOrder(Later)
  {
  }

  /** The result succeeds exactly for a non-negative limit with every
      fetched row dated; it is then newest first, holds at most `limit`
      items, and they are the newest of the candidates: none left out is
      later than one kept. */
  lemma RecentActivitySpec(limit: int, sessions: seq<SessionRow>, chats: seq<ChatRow>,
                           percent: real -> string, hash: string -> int)
    ensures RecentActivity(limit, sessions, chats, percent, hash).Ok? <==>
      limit >= 0 && RowsDated(limit, sessions, chats)
    ensures limit >= 0 && RowsDated(limit, sessions, chats) ==>
      var r := RecentActivity(limit, sessions, chats, percent, hash).value;
      var items := Candidates(limit, sessions, chats, percent, hash);
      var sorted := Sort(items, Later);
      |r| == Min(limit, |items|)
      && r == sorted[..|r|]
      && multiset(sorted) == multiset(items)
      && (forall i, j :: 0 <= i < j < |r| ==> SortKey(r[i]) >= SortKey(r[j]))
      && (forall i, j :: 0 <= i < |r| <= j < |sorted| ==> SortKey(r[i]) >= SortKey(sorted[j]))
  {
    if limit >= 0 {
      var items := Candidates(limit, sessions, chats, percent, hash);
      CandidatesStampedIff(limit, sessions, chats, percent, hash);
      if RowsDated(limit, sessions, chats) {
        LaterIsStrictWeakOrder();
        SortSorted(items, Later);
        var sorted := Sort(items, Later);
        assert RecentActivity(limit, sessions, chats, percent, hash).value == sorted[..Min(limit, |sorted|)];
      }
    }
  }

  /** Every item has a non-empty title: each title falls back to a fixed name. */
  lemma TitlesNonEmpty(row: SessionRow, percent: real -> string)
    ensures SessionItem(row, percent).title != ""
  {
  }

  /** The description names the session type's measure. */
  lemma DescriptionByType(row: SessionRow, percent: real -> string)
    ensures row.sessionType == "quiz" ==>
      SessionItem(row, percent).description == "Scored " + percent(row.accuracy) + "% accuracy"
    ensures row.sessionType == "flashnotes" ==>
      SessionItem(row, percent).description == "Studied " + percent(row.accuracy) + "% mastery rate"
    ensures row.sessionType != "quiz" && row.sessionType != "flashnotes" ==>
      SessionItem(row, percent).description == "Completed study session"
  {
  }
}
