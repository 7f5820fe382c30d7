/** `check_cookie_health` of Backend/utils/youtube_auth_utils.py: the report
    on the exported YouTube cookies file. What the file system, the clock and
    the configuration say are inputs: the file is absent or present, its
    `stat()` and its read may fail (a raised exception), `time.time()` is
    `now`, and the configured `cookie_expiry_hours` lookup may fail. The
    `:.1f` rendering of the age is the `oneDecimal` input. */
module CookieHealth {
  import opened Wrappers
  import opened Text
  import opened Sorting

  /** `overall_status`; `Unknown` is the value the report starts with. */
  datatype Status = Unknown | Missing | Empty | Expired | Invalid | Malformed | Healthy | Error

  /** The two `os.stat_result` fields read: size in bytes and modification time in seconds. */
  datatype Stat = Stat(size: nat, mtime: real)

  /** The cookies file as the check finds it. */
  datatype CookieFile =
    | NoFile
    | CookieFile(stat: Result<Stat>, lines: Result<seq<string>>)

  /** `estimated_expiry` is kept as the timestamp handed to `datetime.fromtimestamp`. */
  datatype HealthReport = HealthReport(status: Status, fileExists: bool, fileSize: nat, ageHours: real,
                                       formatValid: bool, hasYoutubeCookies: bool,
                                       estimatedExpiry: Option<real>, recommendations: seq<string>)

  const CreateAdvice: string := "Create cookies file using browser extension or manual export"
  const EmptyAdvice: string := "Cookies file is empty - re-export cookies from browser"
  const InvalidAdvice: string := "No YouTube cookies found - ensure you're logged into YouTube when exporting"
  const MalformedAdvice: string := "Cookies file format appears invalid - re-export in Netscape format"
  const HealthyAdvice: string := "Cookies appear healthy and up-to-date"
  const RefreshAdvice: string := "Consider refreshing cookies for better reliability"
  const ErrorPrefix: string := "Error reading cookies file: "

  /** Cookies older than this many hours get the refresh advice, whatever their status. */
  const RefreshAfterHours: real := 12.0

  const SecondsPerHour: real := 3600.0

  function ExpiredAdvice(ageHours: real, oneDecimal: real -> string): string {
    "Cookies are " + oneDecimal(ageHours) + " hours old - consider refreshing"
  }

  /** The report before anything is known. */
  const Initial: HealthReport := HealthReport(Unknown, false, 0, 0.0, false, false, None, [])

  // ---------------------------------------------------------------- line tests

  predicate IsComment(line: string) { StartsWith(line, "#") }

  /** A line that counts towards `non_comment_lines`: not a comment and not blank after `strip()`. */
  predicate IsEntryLine(line: string) { !IsComment(line) && PyStrip(line) != [] }

  predicate MentionsNetscape(line: string) { Contains(ToLower(line), "netscape") }

  predicate IsYoutubeLine(line: string) { Contains(line, "youtube.com") && !IsComment(line) }

  /** `lines[:5]`. */
  function Head(lines: seq<string>): (r: seq<string>)
    ensures |r| <= 5 && |r| <= |lines| && r == lines[..|r|]
    ensures |r| == 5 || r == lines
  {
    if |lines| <= 5 then lines else lines[..5]
  }

  function FormatValid(lines: seq<string>): bool {
    Count(MentionsNetscape, Head(lines)) > 0 || |Filter(IsEntryLine, lines)| > 0
  }

  function HasYoutubeCookies(lines: seq<string>): bool {
    |Filter(IsYoutubeLine, lines)| > 0
  }

  /** The status chain: age first, then the YouTube lines, then the format. */
  function Classify(ageHours: real, expiryHours: real, hasYoutube: bool, formatValid: bool): Status {
    if ageHours > expiryHours then Expired
    else if !hasYoutube then Invalid
    else if !formatValid then Malformed
    else Healthy
  }

  function StatusAdvice(status: Status, ageHours: real, oneDecimal: real -> string): string {
    match status
    case Expired => ExpiredAdvice(ageHours, oneDecimal)
    case Invalid => InvalidAdvice
    case Malformed => MalformedAdvice
    case _ => HealthyAdvice
  }

  // ---------------------------------------------------------------- the check

  function CheckCookieHealth(file: CookieFile, now: real, expiryHours: Result<real>,
                             oneDecimal: real -> string): (r: HealthReport)
    ensures r.fileExists <==> file.CookieFile?
    ensures r.status != Unknown
    ensures |r.recommendations| >= 1
  {
    if file.NoFile? then
      Initial.(status := Missing, recommendations := [CreateAdvice])
    else
      var found := Initial.(fileExists := true);
      match file.stat
      case Err(m) => found.(status := Error, recommendations := [ErrorPrefix + m])
      case Ok(st) =>
        var age := (now - st.mtime) / SecondsPerHour;
        var measured := found.(fileSize := st.size, ageHours := age);
        match expiryHours
        case Err(m) => measured.(status := Error, recommendations := [ErrorPrefix + m])
        case Ok(e) =>
          var dated := measured.(estimatedExpiry := Some(st.mtime + e * SecondsPerHour));
          if st.size == 0 then
            dated.(status := Empty, recommendations := [EmptyAdvice])
          else
            match file.lines
            case Err(m) => dated.(status := Error, recommendations := [ErrorPrefix + m])
            case Ok(lines) =>
              var valid := FormatValid(lines);
              var youtube := HasYoutubeCookies(lines);
              var status := Classify(age, e, youtube, valid);
              dated.(status := status, formatValid := valid, hasYoutubeCookies := youtube,
                     recommendations := [StatusAdvice(status, age, oneDecimal)]
                                        + (if age > RefreshAfterHours then [RefreshAdvice] else []))
  }

  /** The inputs under which the file's lines are examined. */
  predicate Examined(file: CookieFile, expiryHours: Result<real>) {
    file.CookieFile? && file.stat.Ok? && expiryHours.Ok? && file.stat.value.size > 0 && file.lines.Ok?
  }

  // ---------------------------------------------------------------- properties

  /** A missing file is reported at once with the untouched defaults and one piece of advice. */
  lemma MissingIff(file: CookieFile, now: real, expiryHours: Result<real>, oneDecimal: real -> string)
    ensures var r := CheckCookieHealth(file, now, expiryHours, oneDecimal);
      (r.status == Missing <==> file.NoFile?)
      && (file.NoFile? ==> r == HealthReport(Missing, false, 0, 0.0, false, false, None, [CreateAdvice]))
  {
  }

  /** Once the file's stat succeeds, its size and its age in hours against `now` are reported,
      whatever happens afterwards. */
  lemma StatReported(file: CookieFile, now: real, expiryHours: Result<real>, oneDecimal: real -> string)
    requires file.CookieFile? && file.stat.Ok?
    ensures var r := CheckCookieHealth(file, now, expiryHours, oneDecimal);
      r.fileSize == file.stat.value.size && r.ageHours * 3600.0 == now - file.stat.value.mtime
      && (r.estimatedExpiry.Some? <==> expiryHours.Ok?)
  {
  }

  /** A zero-size file is "empty" before its age is looked at: even a stale
      empty file is not "expired", and its lines are never read. */
  lemma EmptyIff(file: CookieFile, now: real, expiryHours: Result<real>, oneDecimal: real -> string)
    requires file.CookieFile? && file.stat.Ok? && expiryHours.Ok?
    ensures var r := CheckCookieHealth(file, now, expiryHours, oneDecimal);
      (r.status == Empty <==> file.stat.value.size == 0)
      && (r.status == Empty ==> r.recommendations == [EmptyAdvice] && !r.formatValid && !r.hasYoutubeCookies)
  {
  }

  /** Every exception ends the check with "error" and the exception's text as the only advice,
      and the line tests stay false. */
  lemma ErrorIff(file: CookieFile, now: real, expiryHours: Result<real>, oneDecimal: real -> string)
    requires file.CookieFile?
    ensures var r := CheckCookieHealth(file, now, expiryHours, oneDecimal);
      (r.status == Error <==>
         file.stat.Err?
         || (file.stat.Ok? && expiryHours.Err?)
         || (file.stat.Ok? && expiryHours.Ok? && file.stat.value.size > 0 && file.lines.Err?))
      && (r.status == Error ==>
            !r.formatValid && !r.hasYoutubeCookies && |r.recommendations| == 1
            && StartsWith(r.recommendations[0], ErrorPrefix))
  {
  }

  /** `has_youtube_cookies` holds exactly when some non-comment line mentions "youtube.com". */
  lemma YoutubeIff(file: CookieFile, now: real, expiryHours: Result<real>, oneDecimal: real -> string)
    requires Examined(file, expiryHours)
    ensures var lines := file.lines.value;
      CheckCookieHealth(file, now, expiryHours, oneDecimal).hasYoutubeCookies
      <==> exists i :: 0 <= i < |lines| && !IsComment(lines[i]) && Contains(lines[i], "youtube.com")
  {
    FilterNonEmptyIff(IsYoutubeLine, file.lines.value);
  }

  /** `format_valid` holds exactly when one of the first five lines mentions
      "netscape" in any case, or some line is neither a comment nor blank. */
  lemma FormatValidIff(file: CookieFile, now: real, expiryHours: Result<real>, oneDecimal: real -> string)
    requires Examined(file, expiryHours)
    ensures var lines := file.lines.value;
      CheckCookieHealth(file, now, expiryHours, oneDecimal).formatValid
      <==> (exists i :: 0 <= i < |lines| && i < 5 && Contains(ToLower(lines[i]), "netscape"))
           || (exists i :: 0 <= i < |lines| && !IsComment(lines[i]) && HasNonSpace(lines[i], IsPySpace))
  {
    FormatValidLines(file.lines.value);
  }

  lemma FormatValidLines(lines: seq<string>)
    ensures FormatValid(lines)
      <==> (exists i :: 0 <= i < |lines| && i < 5 && MentionsNetscape(lines[i]))
           || (exists i :: 0 <= i < |lines| && !IsComment(lines[i]) && HasNonSpace(lines[i], IsPySpace))
  {
    assert Count(MentionsNetscape, Head(lines)) > 0
       <==> exists i :: 0 <= i < |lines| && i < 5 && MentionsNetscape(lines[i]) by {
      FilterNonEmptyIff(MentionsNetscape, Head(lines));
      HeadExists(lines, MentionsNetscape);
    }
    assert |Filter(IsEntryLine, lines)| > 0
       <==> exists i :: 0 <= i < |lines| && !IsComment(lines[i]) && HasNonSpace(lines[i], IsPySpace) by {
      FilterNonEmptyIff(IsEntryLine, lines);
      EntryLines(lines);
    }
  }

  lemma HeadExists(lines: seq<string>, p: string -> bool)
    ensures (exists i :: 0 <= i < |Head(lines)| && p(Head(lines)[i]))
       <==> (exists i :: 0 <= i < |lines| && i < 5 && p(lines[i]))
  {
    var h := Head(lines);
    if exists i :: 0 <= i < |lines| && i < 5 && p(lines[i]) {
      var i :| 0 <= i < |lines| && i < 5 && p(lines[i]);
      assert h[i] == lines[i];
    }
  }

  lemma EntryLines(lines: seq<string>)
    ensures forall i :: 0 <= i < |lines| ==>
      (IsEntryLine(lines[i]) <==> !IsComment(lines[i]) && HasNonSpace(lines[i], IsPySpace))
  {
    forall i | 0 <= i < |lines|
      ensures IsEntryLine(lines[i]) <==> !IsComment(lines[i]) && HasNonSpace(lines[i], IsPySpace)
    {
      TrimEmptyIff(lines[i], IsPySpace);
    }
  }

  /** A line mentioning "youtube.com" that is not a comment is an entry line. */
  lemma YoutubeLineIsEntry(line: string)
    requires IsYoutubeLine(line)
    ensures IsEntryLine(line)
  {
    var i :| 0 <= i <= |line| && StartsWith(line[i..], "youtube.com");
    assert line[i] == 'y';
    TrimEmptyIff(line, IsPySpace);
  }

  /** Lines with a YouTube cookie always make the format valid. */
  lemma YoutubeImpliesFormatValid(lines: seq<string>)
    requires HasYoutubeCookies(lines)
    ensures FormatValid(lines)
  {
    FilterNonEmptyIff(IsYoutubeLine, lines);
    var i :| 0 <= i < |lines| && IsYoutubeLine(lines[i]);
    YoutubeLineIsEntry(lines[i]);
    FilterNonEmptyIff(IsEntryLine, lines);
  }

  /** The "malformed" branch is dead: it needs YouTube lines and an invalid
      format, and YouTube lines make the format valid. */
  lemma MalformedUnreachable(file: CookieFile, now: real, expiryHours: Result<real>, oneDecimal: real -> string)
    ensures CheckCookieHealth(file, now, expiryHours, oneDecimal).status != Malformed
  {
    if Examined(file, expiryHours) {
      var lines := file.lines.value;
      if HasYoutubeCookies(lines) {
        YoutubeImpliesFormatValid(lines);
      }
    }
  }

  /** On an examined file the status is "expired" exactly when the age exceeds
      the configured hours, otherwise "invalid" exactly when no YouTube line
      exists, and "healthy" in every remaining case. */
  lemma StatusPrecedence(file: CookieFile, now: real, expiryHours: Result<real>, oneDecimal: real -> string)
    requires Examined(file, expiryHours)
    ensures var r := CheckCookieHealth(file, now, expiryHours, oneDecimal);
      var late := r.ageHours > expiryHours.value;
      (r.status == Expired <==> late)
      && (r.status == Invalid <==> !late && !r.hasYoutubeCookies)
      && (r.status == Healthy <==> !late && r.hasYoutubeCookies)
  {
    MalformedUnreachable(file, now, expiryHours, oneDecimal);
  }

  /** On an examined file the advice is the status's own line, followed by the
      refresh advice exactly when the cookies are more than 12 hours old. */
  lemma RefreshAdviceIff(file: CookieFile, now: real, expiryHours: Result<real>, oneDecimal: real -> string)
    requires Examined(file, expiryHours)
    ensures var r := CheckCookieHealth(file, now, expiryHours, oneDecimal);
      (|r.recommendations| == 2 <==> r.ageHours > RefreshAfterHours)
      && (|r.recommendations| == 2 ==> r.recommendations[1] == RefreshAdvice)
      && (r.status == Healthy ==> r.recommendations[0] == HealthyAdvice)
      && (r.status == Invalid ==> r.recommendations[0] == InvalidAdvice)
      && (r.status == Expired ==> r.recommendations[0] == ExpiredAdvice(r.ageHours, oneDecimal))
  {
  }
}
