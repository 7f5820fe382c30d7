/** The chat tab of Frontend/src/components/main/tabs/ChatSection.jsx: the
    session title it derives, the update it reports to the page, and what a
    send appends. The canned reply is an input (it is drawn at random). */
module MainChat {
  import opened Wrappers
  import opened Text
  import opened Sorting
  import Utils
  import opened MainPage

  /** The tab's own `generateSessionTitle`: the first four words, cut to 30
      characters plus "...", or "New Chat" when that is empty. */
  function TabTitle(firstUserMessage: string): string {
    var words := Utils.FirstWords(firstUserMessage);
    if |words| > 30 then words[..30] + "..." else if words == "" then NewChat else words
  }

  /** The tab's title rule and the shared utility's agree on every message:
      the first words are empty only for an empty message. */
  lemma TabTitleIsSessionTitle(message: string)
    ensures TabTitle(message) == Utils.SessionTitle(message)
  {
    var parts := SplitOn(message, ' ');
    var k := Utils.Min(4, |parts|);
    if message != "" {
      if |parts| == 1 {
        assert parts == [message];
        assert parts[..k] == [message];
      } else {
        assert parts[..k] == [parts[0]] + parts[..k][1..];
        JoinCons(parts[0], parts[..k][1..], " ");
      }
    }
  }

  predicate IsUser(m: Message) { m.role == "user" }

  /** `messages.find(m => m.role === 'user')?.content`. */
  function FirstUserContent(messages: seq<Message>): (r: Option<string>)
    ensures r.Some? <==> exists i :: 0 <= i < |messages| && IsUser(messages[i])
    ensures r.Some? ==>
      exists i :: (0 <= i < |messages| && IsUser(messages[i]) && messages[i].content == r.value
                   && forall j :: 0 <= j < i ==> !IsUser(messages[j]))
  {
    if messages == [] then None
    else if IsUser(messages[0]) then Some(messages[0].content)
    else
      var r := FirstUserContent(messages[1..]);
      assert forall j :: 0 < j < |messages| ==> messages[j] == messages[1..][j - 1];
      r
  }

  /** `updateSession(newMessages)`: the update the tab sends to the page, or
      nothing when the tab has no session. */
  function UpdateFor(current: Option<Session>, newMessages: seq<Message>): Option<Patch> {
    if current.None? then None
    else
      var s := current.value;
      var first := FirstUserContent(newMessages);
      var source := if first.Some? && first.value != "" then first.value else "Chat Session";
      var title := if s.title == NewChat && |newMessages| > 1 then TabTitle(source) else s.title;
      Some(Patch(Some(title), Some(newMessages), Some(Count(IsUser, newMessages))))
  }

  /** The update carries the messages and the number of user messages among
      them; the title changes only for a session still called "New Chat"
      once it holds more than one message, and then it is the title of the
      first user message. */
  lemma UpdateForShape(s: Session, newMessages: seq<Message>)
    ensures var u := UpdateFor(Some(s), newMessages);
      u.Some? && u.value.messages == Some(newMessages)
      && u.value.messageCount == Some(|Filter(IsUser, newMessages)|)
      && u.value.messageCount.value <= |newMessages|
      && (u.value.title != Some(s.title) ==> s.title == NewChat && |newMessages| > 1)
      && (s.title == NewChat && |newMessages| > 1 ==>
            var first := FirstUserContent(newMessages);
            u.value.title == Some(Utils.SessionTitle(
              if first.Some? && first.value != "" then first.value else "Chat Session")))
  {
    var first := FirstUserContent(newMessages);
    TabTitleIsSessionTitle(if first.Some? && first.value != "" then first.value else "Chat Session");
  }

  // ---------------------------------------------------------------- sending

  datatype Chat = Chat(messages: seq<Message>, input: string, isLoading: bool)

  /** What one send produces: the list shown right after the user message,
      the list once the reply arrives, and the two updates reported. */
  datatype Sent = Sent(afterUser: seq<Message>, afterReply: seq<Message>,
                       firstUpdate: Option<Patch>, secondUpdate: Option<Patch>)

  /** `handleSendMessage()` with the reply text drawn. A send with no session
      asks the page to create one, but both updates use the session the tab
      held when the send began. */
  function Send(chat: Chat, current: Option<Session>, reply: string): Option<Sent> {
    if JsTrim(chat.input) == "" then None
    else
      var afterUser := chat.messages + [Message("user", JsTrim(chat.input))];
      var afterReply := afterUser + [Message("assistant", reply)];
      Some(Sent(afterUser, afterReply, UpdateFor(current, afterUser), UpdateFor(current, afterReply)))
  }

  /** Whitespace-only input sends nothing; otherwise the trimmed input and
      then the reply are appended and the earlier messages are kept. */
  lemma SendAppends(chat: Chat, current: Option<Session>, reply: string)
    ensures Send(chat, current, reply).None? <==> !HasNonSpace(chat.input, IsJsSpace)
    ensures var r := Send(chat, current, reply);
      r.Some? ==>
        |r.value.afterReply| == |chat.messages| + 2
        && r.value.afterReply[..|chat.messages|] == chat.messages
        && r.value.afterReply[|chat.messages|] == Message("user", JsTrim(chat.input))
        && r.value.afterReply[|chat.messages| + 1] == Message("assistant", reply)
        && r.value.afterUser == r.value.afterReply[..|chat.messages| + 1]
  {
    TrimEmptyIff(chat.input, IsJsSpace);
    if JsTrim(chat.input) != "" {
      var r := Send(chat, current, reply).value;
      assert r.afterUser == chat.messages + [Message("user", JsTrim(chat.input))];
      assert r.afterReply == r.afterUser + [Message("assistant", reply)];
      AppendTwo(chat.messages, Message("user", JsTrim(chat.input)), Message("assistant", reply));
    }
  }

  lemma AppendTwo<T>(s: seq<T>, a: T, b: T)
    ensures var t := (s + [a]) + [b];
      |t| == |s| + 2 && t[..|s|] == s && t[|s|] == a && t[|s| + 1] == b && t[..|s| + 1] == s + [a]
  {
    var t := (s + [a]) + [b];
    assert t[..|s|] == s;
    assert t[..|s| + 1] == s + [a];
  }

  /** Without a session, a send reports nothing to the page, so the session
      created for it keeps no messages. */
  lemma SendWithoutSessionReportsNothing(chat: Chat, reply: string)
    requires HasNonSpace(chat.input, IsJsSpace)
    ensures var r := Send(chat, None, reply);
      r.Some? && r.value.firstUpdate.None? && r.value.secondUpdate.None?
  {
    TrimEmptyIff(chat.input, IsJsSpace);
  }
}
