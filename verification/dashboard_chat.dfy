/** The chat section of the dashboard,
    Frontend/src/components/dashboard/sections/ChatSection.jsx: which
    response a model reply is taken to be, whether it becomes a quiz or
    flash-note hand-off or a chat message, how object content is turned into
    text, and the session record the section keeps. `JSON.parse` is an input (`None`
    when it throws); the network call, toasts, navigation and storage writes
    become the values the model returns. */
module DashboardChat {
  import opened Wrappers
  import opened Text
  import opened JsValues
  import opened Sorting
  import opened MainPage
  import MainChat
  import SessionRecord
  import opened ChatMarkup
  import opened ChatBraces
  import opened ChatSplit

  // ---------------------------------------------------------------- choosing the response

  /** An object with a truthy `type` and a truthy `body`. */
  predicate IsCandidate(v: Value) {
    Truthy(Get(v, "type")) && Truthy(Get(v, "body"))
  }

  /** A response the section hands over to the quiz or flashcards page. */
  predicate IsSpecial(v: Value) {
    Get(v, "type") == Str("quiz") || Get(v, "type") == Str("flashnotes")
  }

  /** The first parsed piece that is a quiz or flash-note response. */
  function FirstSpecial(parsed: seq<Option<Value>>): (r: Option<Value>)
    ensures r.Some? ==> IsSpecial(r.value)
    ensures r.Some? ==> exists i :: (0 <= i < |parsed| && parsed[i] == r
      && forall j :: 0 <= j < i ==> !(parsed[j].Some? && IsSpecial(parsed[j].value)))
    ensures r.None? <==> forall i :: 0 <= i < |parsed| ==> !(parsed[i].Some? && IsSpecial(parsed[i].value))
  {
    if parsed == [] then None
    else if parsed[0].Some? && IsSpecial(parsed[0].value) then parsed[0]
    else
      var r := FirstSpecial(parsed[1..]);
      assert forall j :: 0 < j < |parsed| ==> parsed[j] == parsed[1..][j - 1];
      r
  }

  /** The fallback for a body that does not parse: split it at every
      `}`-whitespace-`{`, give the pieces their braces back, parse each
      trimmed piece and take the first quiz or flash-note response. */
  function Fallback(body: string, parse: string -> Option<Value>): (r: Option<Value>)
    ensures r.Some? ==> IsSpecial(r.value)
  {
    var parts := SplitJoints(body);
    if |parts| <= 1 then None
    else
      FirstSpecial(ParsedEach(Rebuild(parts), parse))
  }

  /** Each text trimmed and parsed. */
  function ParsedEach(texts: seq<string>, parse: string -> Option<Value>): (ps: seq<Option<Value>>)
    ensures |ps| == |texts| && forall k :: 0 <= k < |texts| ==> ps[k] == parse(JsTrim(texts[k]))
  {
    seq(|texts|, k requires 0 <= k < |texts| => parse(JsTrim(texts[k])))
  }

  /** Objects written one after another are each parsed on their own. */
  lemma FallbackFindsObject(os: seq<string>, sep: string, parse: string -> Option<Value>)
    requires |os| >= 2 && forall k :: 0 <= k < |os| ==> Separable(os[k])
    requires forall k :: 0 <= k < |sep| ==> IsJsSpace(sep[k])
    ensures Fallback(Join(os, sep), parse) == FirstSpecial(ParsedEach(os, parse))
  {
    SplitRebuildRoundTrip(os, sep);
  }

  /** The extraction for a body that does not parse but carries a quiz or
      flash-note tag: the balanced object around the first `"type":`, when it
      parses to a candidate. */
  function Extracted(body: string, parse: string -> Option<Value>): (r: Option<Value>)
    ensures r.Some? ==> IsCandidate(r.value)
    ensures r.Some? ==> ((HasTag(body, "quiz") || HasTag(body, "flashnotes")) && Extract(body).Some?
      && parse(Extract(body).value) == r)
  {
    if !(HasTag(body, "quiz") || HasTag(body, "flashnotes")) then None
    else
      match Extract(body)
      case None => None
      case Some(x) =>
        var p := parse(x);
        if p.Some? && IsCandidate(p.value) then p else None
  }

  const InvalidResponse: string := "Invalid response from LLM"

  /** The response the section acts on for the model's raw reply. A reply
      without a truthy `type` and `body` is an error. A string body is
      cleaned of code fences and parsed: a candidate replaces the reply and
      anything else keeps it. When parsing fails (or yields `null`, whose
      `type` cannot be read) the raw body is searched for a tagged object and
      then split into several objects; failing both, the reply stands. */
  function ChooseResponse(raw: Value, parse: string -> Option<Value>): (r: Result<Value>)
    ensures r.Err? ==> r.message == InvalidResponse
    ensures r.Ok? <==> IsCandidate(raw)
    ensures r.Ok? ==> r.value == raw || IsCandidate(r.value) || IsSpecial(r.value)
  {
    if !IsCandidate(raw) then Err(InvalidResponse)
    else
      var body := Get(raw, "body");
      if !body.Str? then Ok(raw)
      else
        var p := parse(CleanBody(body.s));
        if p.Some? && !Nullish(p.value) then Ok(if IsCandidate(p.value) then p.value else raw)
        else
          var e := Extracted(body.s, parse);
          if e.Some? then Ok(e.value)
          else
            var f := Fallback(body.s, parse);
            Ok(if f.Some? then f.value else raw)
  }

  /** A reply is accepted exactly when it has a truthy `type` and `body`; the
      chosen response is the reply itself, a candidate, or a quiz or
      flash-note response, so its `type` is truthy; a reply whose body is not
      a string is used as it is. */
  lemma ChooseResponseShape(raw: Value, parse: string -> Option<Value>)
    ensures var r := ChooseResponse(raw, parse);
      (r.Ok? <==> IsCandidate(raw))
      && (r.Ok? ==> r.value == raw || IsCandidate(r.value) || IsSpecial(r.value))
      && (r.Ok? ==> Truthy(Get(r.value, "type")))
      && (r.Ok? && !Get(raw, "body").Str? ==> r.value == raw)
  {
  }

  /** A reply whose body is a "```json" fence around a candidate's text is
      replaced by that candidate. */
  lemma FencedCandidateChosen(raw: Value, inner: string, c: Value, parse: string -> Option<Value>)
    requires IsCandidate(raw) && Get(raw, "body") == Str(JsonFence + inner + Fence)
    requires parse(JsTrim(inner)) == Some(c) && IsCandidate(c)
    ensures ChooseResponse(raw, parse) == Ok(c)
  {
    JsonFenceRoundTrip(inner);
  }

  /** When the cleaned body does not parse and carries no tag, the reply
      becomes what the fallback finds, or stays as it is. */
  lemma UnparsedUntagged(raw: Value, parse: string -> Option<Value>)
    requires IsCandidate(raw) && Get(raw, "body").Str?
    requires parse(CleanBody(Get(raw, "body").s)).None?
    requires !HasTag(Get(raw, "body").s, "quiz") && !HasTag(Get(raw, "body").s, "flashnotes")
    ensures var f := Fallback(Get(raw, "body").s, parse);
      ChooseResponse(raw, parse) == Ok(if f.Some? then f.value else raw)
  {
  }

  /** A reply whose body is several objects in a row, without a tag and not
      parseable as a whole, becomes the first of them that is a quiz or
      flash-note response, or stays as it is. */
  lemma JoinedObjectsChosen(raw: Value, os: seq<string>, sep: string, parse: string -> Option<Value>)
    requires |os| >= 2 && forall k :: 0 <= k < |os| ==> Separable(os[k])
    requires forall k :: 0 <= k < |sep| ==> IsJsSpace(sep[k])
    requires IsCandidate(raw) && Get(raw, "body") == Str(Join(os, sep))
    requires parse(Join(os, sep)).None?
    requires !HasTag(Join(os, sep), "quiz") && !HasTag(Join(os, sep), "flashnotes")
    ensures var f := FirstSpecial(ParsedEach(os, parse));
      ChooseResponse(raw, parse) == Ok(if f.Some? then f.value else raw)
  {
    OpensWithBrace(os, sep);
    UnparsedUntagged(raw, parse);
    FallbackFindsObject(os, sep, parse);
  }

  /** Joined objects open with '{', so no fence is stripped from them. */
  lemma OpensWithBrace(os: seq<string>, sep: string)
    requires |os| >= 1 && forall k :: 0 <= k < |os| ==> Separable(os[k])
    ensures CleanBody(Join(os, sep)) == Join(os, sep)
  {
    assert Separable(os[0]);
    JoinHead(os, sep);
    assert !StartsWith(Join(os, sep), Fence) by {
      assert Join(os, sep)[0] == '{';
    }
  }

  // ---------------------------------------------------------------- hand-off

  /** What `handleSpecialResponse` does for a quiz or flash-note response:
      the storage key the body is written under, the record posted to the
      study-session store and the route it navigates to. */
  datatype Hand = Hand(kind: string, storageKey: string, name: Value, body: Value,
                       sessionId: string, userId: Value, route: string)

  const QuizRoute: string := "/dashboard/quiz"
  const FlashcardsRoute: string := "/dashboard/flashcards"

  /** `handleSpecialResponse(response)` for the current session's id and the
      stored user record (a missing record reads as `{}`): a hand-off, no
      hand-off, or the TypeError of reading a property of `null`. */
  function HandleSpecial(response: Value, currentId: Option<string>, userData: Value): (r: Result<Option<Hand>>)
    ensures r.Err? <==> Nullish(response) || (IsSpecial(response) && Nullish(userData))
    ensures r.Err? ==> r.message == TypeError
    ensures r.Ok? ==> (r.value.Some? <==> IsSpecial(response))
  {
    if Nullish(response) then Err(TypeError)
    else
      var t := Get(response, "type");
      if t != Str("quiz") && t != Str("flashnotes") then Ok(None)
      else if Nullish(userData) then Err(TypeError)
      else
        var quiz := t == Str("quiz");
        Ok(Some(Hand(
          if quiz then "quiz" else "flashnotes",
          if quiz then "pendingQuizData" else "pendingFlashnotesData",
          Or(Get(response, "name"), Str(if quiz then "AI Generated Quiz" else "AI Generated Flashcards")),
          Get(response, "body"),
          if currentId.Some? && currentId.value != "" then currentId.value else "unknown",
          SessionRecord.UserIdOf(userData).value,
          if quiz then QuizRoute else FlashcardsRoute)))
  }

  /** A response is handed off exactly when its type is "quiz" or
      "flashnotes"; the hand-off carries the response's body, a truthy name,
      a non-empty session id and a truthy user id, and goes to the page of
      its kind. */
  lemma HandleSpecialIff(response: Value, currentId: Option<string>, userData: Value)
    requires !Nullish(response) && !Nullish(userData)
    ensures var r := HandleSpecial(response, currentId, userData);
      r.Ok? && (r.value.Some? <==> IsSpecial(response))
      && (r.value.Some? ==>
            var h := r.value.value;
            Get(response, "type") == Str(h.kind) && h.body == Get(response, "body")
            && Truthy(h.name) && h.sessionId != "" && Truthy(h.userId)
            && (h.kind == "quiz" <==> h.route == QuizRoute)
            && (h.kind == "flashnotes" <==> h.route == FlashcardsRoute)
            && (currentId.Some? && currentId.value != "" ==> h.sessionId == currentId.value))
  {
  }

  // ---------------------------------------------------------------- message content

  /** A response body that is itself the text of a response object is
      replaced by that object's body. */
  function NestedBody(content: Value, parse: string -> Option<Value>): (r: Value)
    ensures !content.Str? ==> r == content
    ensures r == content || Truthy(r)
  {
    if !content.Str? then content
    else
      var p := parse(content.s);
      if p.Some? && IsCandidate(p.value) then Get(p.value, "body") else content
  }

  /** `String(v)` of an array element inside `join`: null and undefined print as "". */
  function ElementText(v: Value): string {
    if Nullish(v) then "" else ToJsString(v)
  }

  /** The text an object or array stands for in a chat message: a quiz
      question with its options and answer, the number of generated items,
      or the object's keys. Options that are not an array, or a `null`
      reaching `Object.keys`, throw a TypeError. */
  function Describe(content: Value): (r: Result<string>)
    ensures content.Null? ==> r == Err(TypeError)
  {
    var question := Get(content, "question");
    var options := Get(content, "options");
    if Truthy(question) && Truthy(options) then
      if options.Arr? then
        Ok("Question: " + ToJsString(question)
           + "\nOptions: " + Join(Map(ElementText, options.items), ", ")
           + "\nAnswer: " + ToJsString(Or(Get(content, "answer"), Str("N/A"))))
      else Err(TypeError)
    else
      match content
      case Arr(items) => Ok("Generated " + IntToString(|items|) + " items")
      case Obj(props) => Ok("[Generated content: " + Join(Keys(props), ", ") + "]")
      case _ => Err(TypeError)
  }

  /** `typeof v === 'object'`. */
  predicate IsObjectLike(v: Value) { v.Null? || v.Arr? || v.Obj? }

  /** The message text for the content of a fresh answer: objects are
      described, anything else goes through `String`. */
  function SendContent(content: Value): (r: Result<string>)
    ensures !IsObjectLike(content) ==> r == Ok(ToJsString(content))
  {
    if IsObjectLike(content) then Describe(content) else Ok(ToJsString(content))
  }

  const Unavailable: string := "Message content unavailable"

  /** The clean-up applied to a stored message's content when a session is
      loaded: `null` becomes a placeholder, other objects are described, and
      anything else is kept. */
  function LoadedContent(content: Value): (r: Result<Value>)
    ensures !IsObjectLike(content) ==> r == Ok(content)
    ensures content.Null? ==> r == Ok(Str(Unavailable))
  {
    if content.Null? then Ok(Str(Unavailable))
    else if content.Arr? || content.Obj? then
      match Describe(content)
      case Ok(t) => Ok(Str(t))
      case Err(m) => Err(m)
    else Ok(content)
  }

  /** Loading and sending treat objects and arrays alike and strings as
      themselves; they part only on `null`, which a load replaces and a send
      cannot describe. */
  lemma ContentRulesAgree(content: Value)
    ensures (content.Arr? || content.Obj?) ==>
      (SendContent(content).Ok? <==> LoadedContent(content).Ok?)
      && (SendContent(content).Ok? ==> LoadedContent(content) == Ok(Str(SendContent(content).value)))
    ensures content.Str? ==> SendContent(content) == Ok(content.s) && LoadedContent(content) == Ok(content)
    ensures content.Null? ==> SendContent(content).Err? && LoadedContent(content) == Ok(Str(Unavailable))
  {
  }

  /** An array is described by its length; an object without a truthy
      question and options by its keys; a question with array options by its
      three labelled lines. Only non-array options or `null` throw. */
  lemma DescribeShape(content: Value)
    ensures var r := Describe(content);
      var q := Truthy(Get(content, "question")) && Truthy(Get(content, "options"));
      (r.Err? <==> content.Null? || (q && !Get(content, "options").Arr?) || (!q && !content.Arr? && !content.Obj?))
      && (content.Arr? ==> r == Ok("Generated " + IntToString(|content.items|) + " items"))
      && (content.Obj? && !q ==> r == Ok("[Generated content: " + Join(Keys(content.props), ", ") + "]"))
      && (r.Ok? && q ==> StartsWith(r.value, "Question: "))
  {
    if content.Arr? || content.Null? {
      assert !Truthy(Get(content, "question"));
    }
  }

  // ---------------------------------------------------------------- session record

  const TitleLength: nat := 50

  /** The title a session still called "New Chat" takes from its first
      message: at most fifty characters, with "..." when it was cut. */
  function TitleFrom(content: string): string {
    Prefix(content, TitleLength) + if |content| > TitleLength then "..." else ""
  }

  /** `updateSessionWithMessages(newMessages)`: the record sent to the store
      for the section's session. */
  function SessionAfter(s: Session, msgs: seq<Message>): (r: Session)
    ensures r.id == s.id && r.messages == msgs && r.lastActivity == s.lastActivity
  {
    Session(s.id,
            if s.title == NewChat && |msgs| > 0 then TitleFrom(msgs[0].content) else s.title,
            msgs, s.lastActivity, Count(MainChat.IsUser, msgs))
  }

  /** The title is renamed only from "New Chat" and only once there are
      messages; then it is the first message when that fits in fifty
      characters, and otherwise its first fifty characters and "...". */
  lemma SessionTitleRule(s: Session, msgs: seq<Message>)
    ensures var t := SessionAfter(s, msgs).title;
      (t != s.title ==> s.title == NewChat && |msgs| > 0)
      && (s.title == NewChat && |msgs| > 0 ==>
            var c := msgs[0].content;
            (|c| <= TitleLength ==> t == c)
            && (|c| > TitleLength ==> |t| == TitleLength + 3 && t[..TitleLength] == c[..TitleLength]
                                      && t[TitleLength..] == "..."))
  {
  }

  /** Once named, a session keeps its name through later updates that keep
      the first message. */
  lemma SessionTitleStable(s: Session, first: seq<Message>, later: seq<Message>)
    requires |first| > 0 && |later| > 0 && later[0] == first[0]
    ensures SessionAfter(SessionAfter(s, first), later).title == SessionAfter(s, first).title
  {
  }

  /** The message count is the number of user messages: adding the user's
      message raises it by one and adding a reply leaves it. */
  lemma {:induction false} MessageCountSteps(msgs: seq<Message>, m: Message)
    ensures Count(MainChat.IsUser, msgs + [m]) == Count(MainChat.IsUser, msgs) + if m.role == "user" then 1 else 0
  {
    FilterAppend(MainChat.IsUser, msgs, [m]);
    assert Filter(MainChat.IsUser, [m]) == if MainChat.IsUser(m) then [m] else [];
  }

  // ---------------------------------------------------------------- a send

  /** How a send ends once the user's message is shown. */
  datatype Outcome = Handoff(hand: Hand) | Answer(content: string) | Failure(message: string)

  /** What follows the query for the model's reply (`raw` is what the query
      resolved to, or the message of what it threw), the session's id and the
      stored user record. */
  function Reply(raw: Result<Value>, parse: string -> Option<Value>, currentId: Option<string>, userData: Value): (o: Outcome)
  {
    if raw.Err? then Failure(raw.message)
    else
      match ChooseResponse(raw.value, parse)
      case Err(m) => Failure(m)
      case Ok(response) =>
        match HandleSpecial(response, currentId, userData)
        case Err(m) => Failure(m)
        case Ok(Some(h)) => Handoff(h)
        case Ok(None) =>
          match SendContent(NestedBody(Get(response, "body"), parse))
          case Err(m) => Failure(m)
          case Ok(c) => Answer(c)
  }

  /** A reply is handed off exactly when the chosen response is a quiz or
      flash-note response; an invalid reply fails with its message; a plain
      reply whose body is a string that does not parse becomes that string. */
  lemma ReplyShape(raw: Value, parse: string -> Option<Value>, currentId: Option<string>, userData: Value)
    requires !Nullish(userData)
    ensures var o := Reply(Ok(raw), parse, currentId, userData);
      var r := ChooseResponse(raw, parse);
      (r.Err? ==> o == Failure(InvalidResponse))
      && (o.Handoff? <==> r.Ok? && IsSpecial(r.value))
      && (o.Handoff? ==> o.hand.body == Get(r.value, "body"))
  {
    var r := ChooseResponse(raw, parse);
    ChooseResponseShape(raw, parse);
    if r.Ok? {
      HandleSpecialIff(r.value, currentId, userData);
    }
  }

  /** A plain reply whose body is text that is not itself a response is
      shown as that text. */
  lemma PlainTextAnswered(raw: Value, text: string, parse: string -> Option<Value>, currentId: Option<string>, userData: Value)
    requires !Nullish(userData)
    requires IsCandidate(raw) && Get(raw, "body") == Str(text) && !IsSpecial(raw)
    requires parse(CleanBody(text)).Some? && !Nullish(parse(CleanBody(text)).value)
    requires !IsCandidate(parse(CleanBody(text)).value)
    requires parse(text).None? || !IsCandidate(parse(text).value)
    ensures Reply(Ok(raw), parse, currentId, userData) == Answer(text)
  {
  }

  const NoUserId: string := "No user ID found in localStorage"

  /** The text shown when a send fails. */
  function ErrorText(message: string): (t: string)
    ensures StartsWith(t, "Sorry, I encountered an error: ")
  {
    "Sorry, I encountered an error: " + message + ". Please check the console for more details and try again."
  }

  /** The stored user record has a truthy `user_id`. */
  predicate HasUserId(userData: Value) {
    Truthy(userData) && Truthy(Get(userData, "user_id"))
  }

  /** The record saved for the section's session, if it has one. */
  function Saved(current: Option<Session>, msgs: seq<Message>): (r: seq<Session>)
    ensures |r| <= 1 && (current.Some? <==> |r| == 1)
    ensures forall i :: 0 <= i < |r| ==> r[i].messages == msgs && r[i].messageCount == Count(MainChat.IsUser, msgs)
  {
    if current.Some? then [SessionAfter(current.value, msgs)] else []
  }

  /** What a send leaves behind: the messages shown, the session records
      saved in order, and the hand-off made. */
  datatype Turn = Turn(shown: seq<Message>, saved: seq<Session>, hand: Option<Hand>)

  /** `handleSendMessage()`: nothing for a blank input or while a reply is
      pending; the thrown "No user ID" error without a stored user id;
      otherwise the user's trimmed message is shown and the reply finishes
      the turn. The session is the one the section held when the send began. */
  function Send(messages: seq<Message>, input: string, loading: bool, userData: Value, current: Option<Session>,
                raw: Result<Value>, parse: string -> Option<Value>): (r: Result<Option<Turn>>)
    ensures r == Ok(None) <==> JsTrim(input) == "" || loading
    ensures r.Err? <==> JsTrim(input) != "" && !loading && !HasUserId(userData)
    ensures r.Ok? && r.value.Some? ==>
      |r.value.value.shown| > |messages|
      && r.value.value.shown[..|messages| + 1] == messages + [Message("user", JsTrim(input))]
  {
    if JsTrim(input) == "" || loading then Ok(None)
    else if !HasUserId(userData) then Err(NoUserId)
    else
      var currentId := if current.Some? then Some(current.value.id) else None;
      Ok(Some(Finish(messages, Message("user", JsTrim(input)), current, Reply(raw, parse, currentId, userData))))
  }

  /** The rest of a send once the user's message is added: the messages are
      saved, and the outcome adds an answer (saved again), an error message
      (not saved) or a hand-off (nothing added). */
  function Finish(messages: seq<Message>, user: Message, current: Option<Session>, o: Outcome): Turn {
    var sent := messages + [user];
    var shown := sent + Added(o);
    Turn(shown,
         Saved(current, sent) + if o.Answer? then Saved(current, shown) else [],
         if o.Handoff? then Some(o.hand) else None)
  }

  /** The assistant message an outcome adds to the chat, if any. */
  function Added(o: Outcome): (added: seq<Message>)
    ensures |added| == if o.Handoff? then 0 else 1
  {
    match o
    case Handoff(_) => []
    case Answer(c) => [Message("assistant", c)]
    case Failure(m) => [Message("assistant", ErrorText(m))]
  }

  /** A send does nothing exactly for a blank input or a pending reply, and
      throws exactly when it would go ahead without a stored user id;
      otherwise the trimmed input is sent as a user message and the reply
      finishes the turn. */
  lemma SendGuard(messages: seq<Message>, input: string, loading: bool, userData: Value, current: Option<Session>,
                  raw: Result<Value>, parse: string -> Option<Value>)
    ensures var r := Send(messages, input, loading, userData, current, raw, parse);
      (r == Ok(None) <==> JsTrim(input) == "" || loading)
      && (r.Err? <==> JsTrim(input) != "" && !loading && !HasUserId(userData))
      && (r.Ok? && r.value.Some? ==>
            exists o :: r.value.value == Finish(messages, Message("user", JsTrim(input)), current, o))
  {
  }

  /** A turn keeps the earlier messages, adds the user's message, and then
      one assistant message (the answer or the error text) unless the reply
      was handed off. */
  lemma FinishShown(messages: seq<Message>, user: Message, current: Option<Session>, o: Outcome)
    ensures var t := Finish(messages, user, current, o);
      |t.shown| == |messages| + (if o.Handoff? then 1 else 2)
      && t.shown[..|messages| + 1] == messages + [user]
      && (o.Handoff? <==> t.hand.Some?)
      && (o.Answer? ==> t.shown[|messages| + 1] == Message("assistant", o.content))
      && (o.Failure? ==> t.shown[|messages| + 1] == Message("assistant", ErrorText(o.message)))
  {
    var sent := messages + [user];
    assert (sent + Added(o))[..|messages| + 1] == sent;
  }

  /** The last record a turn saves holds exactly the shown messages, except
      after a failure, whose message is never saved. */
  lemma FinishSaved(messages: seq<Message>, user: Message, current: Option<Session>, o: Outcome)
    ensures var t := Finish(messages, user, current, o);
      (current.None? ==> t.saved == [])
      && (current.Some? ==>
            |t.saved| == (if o.Answer? then 2 else 1)
            && t.saved[|t.saved| - 1].messages == (if o.Failure? then messages + [user] else t.shown))
  {
  }

  /** Every record a turn saves counts one more user message than before. */
  lemma FinishCounts(messages: seq<Message>, user: Message, current: Option<Session>, o: Outcome)
    requires user.role == "user"
    ensures var t := Finish(messages, user, current, o);
      forall i :: 0 <= i < |t.saved| ==> t.saved[i].messageCount == Count(MainChat.IsUser, messages) + 1
  {
    var sent := messages + [user];
    MessageCountSteps(messages, user);
    MessageCountSteps(sent, Message("assistant", if o.Answer? then o.content else ""));
  }
}
