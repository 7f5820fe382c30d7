/** Backend/LLM/query_llm.py without its services: the vector store, the
    message database, the embedding model and the chat model are inputs
    (each an answer or a failure). What remains is the assembly of the
    context handed to the chat model, the post-processing in `getContext`,
    the normalisation of the model's reply into a `{type, body}` envelope,
    and the two independent writes of `store_message_async`. */
module QueryLlm {
  import opened Wrappers
  import opened Text
  import opened Sorting
  import opened JsValues

  // ---------------------------------------------------------------- context blocks

  const KnowledgeLabel: string := "Knowledge Base Context: "
  const RelevantLabel: string := "Relevant Previous Messages: "
  const HistoryLabel: string := "Recent Conversation History: "
  const BlockSeparator: string := "\n\n"
  const NoContext: string := "No specific context available." + " Please provide information or ask a question."

  /** A labelled context block. */
  datatype Block = Block(heading: string, text: string)

  function Render(b: Block): string { b.heading + b.text }

  /** `text and text.strip()`: the block is used when its text has a
      non-space character. */
  predicate Used(b: Block) { HasNonSpace(b.text, IsPySpace) }

  /** The three candidate blocks, in their fixed order. */
  function Candidates(recent: string, relevant: string, knowledge: string): seq<Block> {
    [Block(KnowledgeLabel, knowledge), Block(RelevantLabel, relevant), Block(HistoryLabel, recent)]
  }

  /** The blocks that survive. */
  function UsedBlocks(recent: string, relevant: string, knowledge: string): seq<Block> {
    Filter(Used, Candidates(recent, relevant, knowledge))
  }

  /** The context string given to the chat model: the knowledge block, when
      used, opens it and the history block, when used, closes it. */
  function BuildContext(recent: string, relevant: string, knowledge: string): (c: string)
    ensures HasNonSpace(knowledge, IsPySpace) ==> StartsWith(c, KnowledgeLabel + knowledge)
    ensures HasNonSpace(recent, IsPySpace) ==> EndsWith(c, HistoryLabel + recent)
    ensures (!HasNonSpace(recent, IsPySpace) && !HasNonSpace(relevant, IsPySpace)
             && !HasNonSpace(knowledge, IsPySpace)) ==> c == NoContext
  {
    var used := UsedBlocks(recent, relevant, knowledge);
    var parts := Map(Render, used);
    UsedEnds(recent, relevant, knowledge);
    if parts != [] then
      JoinEnds(parts, BlockSeparator);
      Join(parts, BlockSeparator)
    else NoContext
  }

  /** The knowledge block, when used, comes first and the history block,
      when used, last; with all three blank nothing is used. */
  lemma UsedEnds(recent: string, relevant: string, knowledge: string)
    ensures var used := UsedBlocks(recent, relevant, knowledge);
      (HasNonSpace(knowledge, IsPySpace) ==> used != [] && used[0] == Block(KnowledgeLabel, knowledge))
      && (HasNonSpace(recent, IsPySpace) ==> used != [] && used[|used| - 1] == Block(HistoryLabel, recent))
      && ((!HasNonSpace(recent, IsPySpace) && !HasNonSpace(relevant, IsPySpace)
           && !HasNonSpace(knowledge, IsPySpace)) ==> used == [])
  {
    var kb, rb, hb := Block(KnowledgeLabel, knowledge), Block(RelevantLabel, relevant), Block(HistoryLabel, recent);
    assert [kb, rb, hb][1..] == [rb, hb] && [rb, hb][1..] == [hb] && [hb][1..] == [];
    var f2 := Filter(Used, [hb]);
    assert f2 == if Used(hb) then [hb] else [];
    var f1 := Filter(Used, [rb, hb]);
    assert f1 == (if Used(rb) then [rb] else []) + f2;
    assert UsedBlocks(recent, relevant, knowledge) == (if Used(kb) then [kb] else []) + f1;
  }

  /** A block is used exactly when its text has a non-space character. */
  lemma BlockUsedIff(recent: string, relevant: string, knowledge: string)
    ensures Block(KnowledgeLabel, knowledge) in UsedBlocks(recent, relevant, knowledge)
      <==> HasNonSpace(knowledge, IsPySpace)
    ensures Block(RelevantLabel, relevant) in UsedBlocks(recent, relevant, knowledge)
      <==> HasNonSpace(relevant, IsPySpace)
    ensures Block(HistoryLabel, recent) in UsedBlocks(recent, relevant, knowledge)
      <==> HasNonSpace(recent, IsPySpace)
  {
    var cs := Candidates(recent, relevant, knowledge);
    var used := UsedBlocks(recent, relevant, knowledge);
    assert |KnowledgeLabel| == 24 && |RelevantLabel| == 28 && |HistoryLabel| == 29;
    FilterSubsequence(Used, cs);
    forall b | b in used ensures b in cs {
      var k :| 0 <= k < |used| && used[k] == b;
      SubsequenceIn(used, cs, k);
    }
    assert cs[0] == Block(KnowledgeLabel, knowledge);
    assert cs[1] == Block(RelevantLabel, relevant);
    assert cs[2] == Block(HistoryLabel, recent);
  }

  lemma {:induction false} SubsequenceIn<T>(sub: seq<T>, s: seq<T>, k: nat)
    requires IsSubsequence(sub, s) && k < |sub|
    ensures sub[k] in s
    decreases |s|
  {
    if sub[0] == s[0] && IsSubsequence(sub[1..], s[1..]) {
      if k > 0 {
        SubsequenceIn(sub[1..], s[1..], k - 1);
      }
    } else {
      SubsequenceIn(sub, s[1..], k);
    }
  }

  /** The used blocks keep the fixed order: they are a subsequence of the
      knowledge, relevant-messages, history sequence. */
  lemma BlocksInOrder(recent: string, relevant: string, knowledge: string)
    ensures IsSubsequence(UsedBlocks(recent, relevant, knowledge), Candidates(recent, relevant, knowledge))
  {
    FilterSubsequence(Used, Candidates(recent, relevant, knowledge));
  }

  /** The sentinel is used exactly when no block survives: a real context
      starts with a heading's first letter, the sentinel with 'N'. */
  lemma SentinelIff(recent: string, relevant: string, knowledge: string)
    ensures BuildContext(recent, relevant, knowledge) == NoContext
      <==> !HasNonSpace(recent, IsPySpace) && !HasNonSpace(relevant, IsPySpace)
           && !HasNonSpace(knowledge, IsPySpace)
  {
    var used := UsedBlocks(recent, relevant, knowledge);
    BlockUsedIff(recent, relevant, knowledge);
    var parts := Map(Render, used);
    if parts != [] {
      FilterSubsequence(Used, Candidates(recent, relevant, knowledge));
      SubsequenceIn(used, Candidates(recent, relevant, knowledge), 0);
      assert used[0].heading[0] in {'K', 'R'};
      JoinStartsWith(parts, BlockSeparator);
      assert Join(parts, BlockSeparator)[0] == used[0].heading[0];
      SentinelHead();
    } else {
      assert used == [];
    }
  }

  lemma SentinelHead()
    ensures NoContext != [] && NoContext[0] == 'N'
  {
  }

  lemma JoinStartsWith(parts: seq<string>, sep: string)
    requires parts != [] && parts[0] != []
    ensures Join(parts, sep) != [] && Join(parts, sep)[0] == parts[0][0]
  {
    if |parts| > 1 {
      assert Join(parts, sep) == parts[0] + sep + Join(parts[1..], sep);
    }
  }

  /** With every block present the context is the three blocks joined by
      blank lines, knowledge first and history last. */
  lemma AllBlocks(recent: string, relevant: string, knowledge: string)
    requires HasNonSpace(recent, IsPySpace) && HasNonSpace(relevant, IsPySpace)
    requires HasNonSpace(knowledge, IsPySpace)
    ensures BuildContext(recent, relevant, knowledge)
         == KnowledgeLabel + knowledge + BlockSeparator + (RelevantLabel + relevant + BlockSeparator + (HistoryLabel + recent))
  {
    var cs := Candidates(recent, relevant, knowledge);
    FilterAll(Used, cs);
    var parts := Map(Render, cs);
    assert parts == [KnowledgeLabel + knowledge, RelevantLabel + relevant, HistoryLabel + recent];
    JoinThree(parts[0], parts[1], parts[2], BlockSeparator);
  }

  lemma {:induction false} FilterAll<T>(p: T -> bool, s: seq<T>)
    requires forall i :: 0 <= i < |s| ==> p(s[i])
    ensures Filter(p, s) == s
    decreases |s|
  {
    if s != [] {
      FilterAll(p, s[1..]);
    }
  }

  lemma JoinThree(a: string, b: string, c: string, sep: string)
    ensures Join([a, b, c], sep) == a + sep + (b + sep + c)
  {
    assert [b, c][1..] == [c];
    assert Join([b, c], sep) == b + sep + c;
    assert [a, b, c][1..] == [b, c];
  }

  /** The user message sent to the chat model. */
  function UserPrompt(query: string, context: string): (p: string)
    ensures StartsWith(p, "User Query: " + query)
    ensures EndsWith(p, "\n\nContext: " + context)
  {
    var head := "User Query: " + query;
    var tail := "\n\nContext: " + context;
    assert (head + tail)[..|head|] == head;
    assert (head + tail)[|head + tail| - |tail|..] == tail;
    head + tail
  }

  // ---------------------------------------------------------------- getContext

  type Hour = h: nat | h < 24
  type Minute = m: nat | m < 60

  /** A row of `messages`; `at` orders rows by timestamp. */
  datatype Row = Row(role: string, content: string, at: int, hour: Hour, minute: Minute)

  /** `strftime("%H:%M")`. */
  function Clock(hour: Hour, minute: Minute): (r: string)
    ensures |r| == 5 && r[2] == ':'
    ensures forall i :: 0 <= i < 5 && i != 2 ==> IsAsciiDigit(r[i])
    ensures DigitsValue(r[..2], 10) == hour && DigitsValue(r[3..], 10) == minute
  {
    assert (Pad2(hour) + ":" + Pad2(minute))[..2] == Pad2(hour);
    assert (Pad2(hour) + ":" + Pad2(minute))[3..] == Pad2(minute);
    Pad2(hour) + ":" + Pad2(minute)
  }

  /** Python `str.title()` on ASCII: a letter is upper-cased when it follows
      a non-letter and lower-cased otherwise. */
  function Title(s: string): string { TitleAfter(s, false) }

  function TitleAfter(s: string, prevLetter: bool): (r: string)
    ensures |r| == |s|
    ensures forall i :: 0 <= i < |s| ==> (IsAsciiLetter(r[i]) <==> IsAsciiLetter(s[i]))
    decreases |s|
  {
    if s == [] then []
    else
      var c := s[0];
      var d := if !IsAsciiLetter(c) then c else if prevLetter then LowerChar(c) else UpperChar(c);
      [d] + TitleAfter(s[1..], IsAsciiLetter(c))
  }

  /** Title-casing twice is title-casing once. */
  lemma {:induction false} TitleIdempotent(s: string, prevLetter: bool)
    ensures TitleAfter(TitleAfter(s, prevLetter), prevLetter) == TitleAfter(s, prevLetter)
    decreases |s|
  {
    if s != [] {
      var r := TitleAfter(s, prevLetter);
      assert r[1..] == TitleAfter(s[1..], IsAsciiLetter(s[0]));
      assert IsAsciiLetter(r[0]) == IsAsciiLetter(s[0]);
      TitleIdempotent(s[1..], IsAsciiLetter(s[0]));
    }
  }

  /** After a letter, lower-case letters are kept as they are. */
  lemma {:induction false} TitleKeepsLower(s: string)
    requires forall i :: 0 <= i < |s| ==> IsAsciiLower(s[i])
    ensures TitleAfter(s, true) == s
    decreases |s|
  {
    if s != [] {
      TitleKeepsLower(s[1..]);
    }
  }

  /** A lower-case word gets its first letter capitalised and nothing else. */
  lemma TitleLowerWord(s: string)
    requires s != [] && forall i :: 0 <= i < |s| ==> IsAsciiLower(s[i])
    ensures Title(s) == [UpperChar(s[0])] + s[1..]
  {
    TitleKeepsLower(s[1..]);
  }

  /** The roles stored in the database render as "User" and "Assistant". */
  lemma TitleUser()
    ensures Title("user") == "User"
  {
    TitleLowerWord("user");
    assert "user"[1..] == "ser";
  }

  lemma TitleAssistant()
    ensures Title("assistant") == "Assistant"
  {
    TitleLowerWord("assistant");
    assert "assistant"[1..] == "ssistant";
  }

  /** `f"[{timestamp}] {role.title()}: {content}"`. */
  function RenderRow(r: Row): string {
    "[" + Clock(r.hour, r.minute) + "] " + Title(r.role) + ": " + r.content
  }

  /** Rows fetched: 20 when the knowledge query had no matches, 15 otherwise. */
  function HistoryLimit(knowledge: seq<Match>): (n: nat)
    ensures n == 20 <==> knowledge == []
    ensures n == 15 <==> knowledge != []
  {
    if knowledge == [] then 20 else 15
  }

  function Min(a: int, b: int): int { if a <= b then a else b }

  /** `ORDER BY timestamp DESC LIMIT n` over the session's rows listed
      newest first, then `reversed`. */
  function RecentRows(newestFirst: seq<Row>, limit: nat): (rows: seq<Row>)
    ensures |rows| == Min(limit, |newestFirst|)
    ensures forall i :: 0 <= i < |rows| ==> rows[i] == newestFirst[|rows| - 1 - i]
  {
    Reverse(newestFirst[..Min(limit, |newestFirst|)])
  }

  function Reverse<T>(s: seq<T>): (r: seq<T>)
    ensures |r| == |s|
    ensures forall i :: 0 <= i < |s| ==> r[i] == s[|s| - 1 - i]
  {
    if s == [] then [] else Reverse(s[1..]) + [s[0]]
  }

  predicate NewestFirst(rows: seq<Row>) {
    forall i, j :: 0 <= i < j < |rows| ==> rows[i].at >= rows[j].at
  }

  predicate Chronological(rows: seq<Row>) {
    forall i, j :: 0 <= i < j < |rows| ==> rows[i].at <= rows[j].at
  }

  /** Reversing the newest-first rows puts them in chronological order. */
  lemma RecentRowsChronological(newestFirst: seq<Row>, limit: nat)
    requires NewestFirst(newestFirst)
    ensures Chronological(RecentRows(newestFirst, limit))
  {
    var rows := RecentRows(newestFirst, limit);
    forall i, j | 0 <= i < j < |rows| ensures rows[i].at <= rows[j].at {
      assert rows[i] == newestFirst[|rows| - 1 - i] && rows[j] == newestFirst[|rows| - 1 - j];
    }
  }

  /** A vector-store match; its metadata fields may be missing. */
  datatype Match = Match(text: Option<string>, userType: Option<string>, timestamp: Option<string>)

  /** The vector store's two queries: both answered, the second failed after
      the first answered, or the store failed before any answer. */
  datatype VectorOutcome =
    | VectorOk(knowledge: seq<Match>, messages: seq<Match>)
    | MessagesFailed(knowledgeOnly: seq<Match>)
    | VectorFailed

  function KnowledgeMatches(v: VectorOutcome): seq<Match> {
    match v
    case VectorOk(k, _) => k
    case MessagesFailed(k) => k
    case VectorFailed => []
  }

  function MessageMatches(v: VectorOutcome): seq<Match> {
    if v.VectorOk? then v.messages else []
  }

  /** The knowledge lines: the text of every match that has one, in order. */
  function KnowledgeLines(ms: seq<Match>): (ls: seq<string>)
    ensures |ls| <= |ms|
  {
    if ms == [] then []
    else (if ms[0].text.Some? then [ms[0].text.value] else []) + KnowledgeLines(ms[1..])
  }

  /** A message match: `"[HH:MM] Role: text"` when its timestamp is present,
      non-empty and parses, otherwise `"Role: text"`; the role defaults to
      "unknown". ISO parsing is the `parse` input. */
  function RenderMessage(m: Match, parse: string -> Option<(Hour, Minute)>): string
    requires m.text.Some?
  {
    var role := Title(m.userType.GetOr("unknown"));
    var stamp := m.timestamp.GetOr("");
    var plain := role + ": " + m.text.value;
    if stamp == "" then plain
    else match parse(stamp)
      case Some(hm) => "[" + Clock(hm.0, hm.1) + "] " + plain
      case None => plain
  }

  function MessageLines(ms: seq<Match>, parse: string -> Option<(Hour, Minute)>): (ls: seq<string>)
    ensures |ls| <= |ms|
  {
    if ms == [] then []
    else (if ms[0].text.Some? then [RenderMessage(ms[0], parse)] else []) + MessageLines(ms[1..], parse)
  }

  /** What `getContext` returns. */
  datatype Context = Context(recent: string, relevant: string, knowledge: string)

  /** `getContext`: the vector outcome, the session's rows newest first (or
      the database failure) and the timestamp parser are inputs. */
  function GetContext(v: VectorOutcome, history: Result<seq<Row>>,
                      parse: string -> Option<(Hour, Minute)>): (c: Context)
    ensures history.Err? ==> c.recent == ""
    ensures history.Ok? ==>
      var n := Min(if KnowledgeMatches(v) == [] then 20 else 15, |history.value|);
      c.recent == Join(Map(RenderRow, Reverse(history.value[..n])), "\n")
    ensures c.knowledge == Join(KnowledgeLines(KnowledgeMatches(v)), "\n")
    ensures c.relevant == Join(MessageLines(MessageMatches(v), parse), "\n")
  {
    var limit := HistoryLimit(KnowledgeMatches(v));
    var rows := if history.Ok? then RecentRows(history.value, limit) else [];
    Context(Join(Map(RenderRow, rows), "\n"),
            Join(MessageLines(MessageMatches(v), parse), "\n"),
            Join(KnowledgeLines(KnowledgeMatches(v)), "\n"))
  }

  /** A vector-store failure empties both vector texts, yet the history is
      still read, with the larger limit. */
  lemma VectorFailureKeepsHistory(rows: seq<Row>, parse: string -> Option<(Hour, Minute)>)
    ensures var c := GetContext(VectorFailed, Ok(rows), parse);
      c.relevant == "" && c.knowledge == ""
      && c.recent == Join(Map(RenderRow, RecentRows(rows, 20)), "\n")
  {
  }

  /** A failure of the message query alone keeps the knowledge matches. */
  lemma MessageFailureKeepsKnowledge(k: seq<Match>, history: Result<seq<Row>>,
                                     parse: string -> Option<(Hour, Minute)>)
    ensures var c := GetContext(MessagesFailed(k), history, parse);
      c.relevant == "" && c.knowledge == Join(KnowledgeLines(k), "\n")
  {
  }

  /** A history failure empties only the history text. */
  lemma HistoryFailureEmptiesRecent(v: VectorOutcome, msg: string, rows: seq<Row>,
                                    parse: string -> Option<(Hour, Minute)>)
    ensures var failed := GetContext(v, Err(msg), parse);
      var ok := GetContext(v, Ok(rows), parse);
      failed.recent == "" && failed.relevant == ok.relevant && failed.knowledge == ok.knowledge
  {
  }

  /** The history limit depends on the knowledge matches only: two outcomes
      with the same knowledge matches read the same history. */
  lemma RecentIgnoresMessageMatches(k: seq<Match>, m1: seq<Match>, m2: seq<Match>,
                                    history: Result<seq<Row>>, parse: string -> Option<(Hour, Minute)>)
    ensures GetContext(VectorOk(k, m1), history, parse).recent
         == GetContext(VectorOk(k, m2), history, parse).recent
    ensures GetContext(VectorOk(k, m1), history, parse).recent
         == GetContext(MessagesFailed(k), history, parse).recent
  {
  }

  /** Only matches with a text contribute: a match without one adds no line. */
  lemma {:induction false} KnowledgeLinesCount(ms: seq<Match>)
    ensures |KnowledgeLines(ms)| == Count((m: Match) => m.text.Some?, ms)
    decreases |ms|
  {
    if ms != [] {
      KnowledgeLinesCount(ms[1..]);
    }
  }

  lemma {:induction false} MessageLinesCount(ms: seq<Match>, parse: string -> Option<(Hour, Minute)>)
    ensures |MessageLines(ms, parse)| == Count((m: Match) => m.text.Some?, ms)
    decreases |ms|
  {
    if ms != [] {
      MessageLinesCount(ms[1..], parse);
    }
  }

  /** A message without a timestamp, or with one that does not parse,
      renders without the clock; the role defaults to "Unknown". */
  lemma MessageWithoutClock(text: string, parse: string -> Option<(Hour, Minute)>)
    ensures RenderMessage(Match(Some(text), None, None), parse) == "Unknown: " + text
  {
    TitleLowerWord("unknown");
  }

  // ---------------------------------------------------------------- the reply envelope

  const ErrorPrefix: string := "I apologize, but I encountered an error processing your request: "

  function Envelope(kind: string, body: string): Value {
    Obj([("type", Str(kind)), ("body", Str(body))])
  }

  /** The reply as returned: `reply` is the chat model's text or the error
      raised before it arrived; `parse` is `json.loads` (None for a decode
      error) and `pyStr` is Python's `str()` of a parsed value. */
  function ReplyEnvelope(reply: Result<string>, parse: string -> Option<Value>, pyStr: Value -> string): Value {
    match reply
    case Err(msg) => Envelope("error", ErrorPrefix + msg)
    case Ok(raw) =>
      match parse(raw)
      case None => Envelope("response", raw)
      case Some(v) =>
        if v.Obj? && HasKey(v, "type") && HasKey(v, "body") then v
        else Envelope("response", pyStr(v))
  }

  /** The two fields of a built envelope read back as given. */
  lemma EnvelopeFields(kind: string, body: string)
    ensures Get(Envelope(kind, body), "type") == Str(kind)
    ensures Get(Envelope(kind, body), "body") == Str(body)
  {
    var props := Envelope(kind, body).props;
    assert props[0].0[0] == 't' && "body"[0] == 'b';
    assert props[1..] == [("body", Str(body))];
    assert Lookup(props[1..], "body") == Str(body);
  }

  /** The envelope always has a "type" and a "body". */
  lemma EnvelopeShape(reply: Result<string>, parse: string -> Option<Value>, pyStr: Value -> string)
    ensures var e := ReplyEnvelope(reply, parse, pyStr);
      e.Obj? && HasKey(e, "type") && HasKey(e, "body")
  {
    var e := ReplyEnvelope(reply, parse, pyStr);
    if e.Obj? && |e.props| == 2 && e.props[0].0 == "type" && e.props[1].0 == "body" {
      assert HasKey(e, "type") && HasKey(e, "body");
    }
  }

  /** A reply that is itself the JSON of an envelope comes back unchanged. */
  lemma EnvelopeRoundTrip(raw: string, e: Value, parse: string -> Option<Value>, pyStr: Value -> string)
    requires parse(raw) == Some(e)
    requires e.Obj? && HasKey(e, "type") && HasKey(e, "body")
    ensures ReplyEnvelope(Ok(raw), parse, pyStr) == e
  {
  }

  /** Feeding the JSON of an envelope back in gives the same envelope:
      `dumps` is a serialiser that `parse` reads back. */
  lemma EnvelopeIdempotent(reply: Result<string>, parse: string -> Option<Value>,
                           pyStr: Value -> string, dumps: Value -> string)
    requires parse(dumps(ReplyEnvelope(reply, parse, pyStr))) == Some(ReplyEnvelope(reply, parse, pyStr))
    ensures var e := ReplyEnvelope(reply, parse, pyStr);
      ReplyEnvelope(Ok(dumps(e)), parse, pyStr) == e
  {
    EnvelopeShape(reply, parse, pyStr);
  }

  /** The envelope is an error exactly when the model call failed or the
      model itself answered with an error envelope; a reply that is not an
      envelope is returned as a response carrying its text. */
  lemma EnvelopeType(reply: Result<string>, parse: string -> Option<Value>, pyStr: Value -> string)
    ensures var e := ReplyEnvelope(reply, parse, pyStr);
      Get(e, "type") == Str("error") <==>
        reply.Err?
        || (parse(reply.value).Some? && var v := parse(reply.value).value;
              v.Obj? && HasKey(v, "type") && HasKey(v, "body") && Get(v, "type") == Str("error"))
    ensures reply.Err? ==> Get(ReplyEnvelope(reply, parse, pyStr), "body") == Str(ErrorPrefix + reply.message)
    ensures reply.Ok? && parse(reply.value).None? ==>
      Get(ReplyEnvelope(reply, parse, pyStr), "body") == Str(reply.value)
  {
    if reply.Err? {
      EnvelopeFields("error", ErrorPrefix + reply.message);
    } else if parse(reply.value).None? {
      EnvelopeFields("response", reply.value);
    } else {
      var v := parse(reply.value).value;
      EnvelopeFields("response", pyStr(v));
    }
  }

  // ---------------------------------------------------------------- store_message_async

  /** The vector item of a stored message. */
  datatype MessageItem = MessageItem(id: string, text: string, itemType: string, sessionId: string,
                                     userType: string, userId: string, timestamp: string)

  /** A row of the `messages` table: session, role, content and the
      insertion time. */
  datatype DbRow = DbRow(sessionId: string, role: string, content: string, at: string)

  /** The two sinks: the database table and the vector store's namespaces. */
  datatype Stores = Stores(rows: seq<DbRow>, namespaces: map<string, seq<MessageItem>>)

  /** The items of a namespace; a namespace never written to is empty. */
  function Items(s: Stores, namespace: string): seq<MessageItem> {
    if namespace in s.namespaces then s.namespaces[namespace] else []
  }

  /** The stores after `store_message_async`, with the two outcomes it logs. */
  datatype StoreReport = StoreReport(after: Stores, dbSuccess: bool, vectorSuccess: bool)

  /** `store_message_async`: `dbOk` and `vectorOk` are the outcomes of the
      insert and the upsert; `id`, `insertedAt` and `now` stand for
      `uuid4()` and the two clock readings. A failed write changes nothing
      and is only logged. */
  function StoreMessage(s: Stores, query: string, userType: string, sessionId: string, userId: string,
                        dbOk: bool, vectorOk: bool, id: string, insertedAt: string, now: string): StoreReport
  {
    var rows := if dbOk then s.rows + [DbRow(sessionId, userType, query, insertedAt)] else s.rows;
    var item := MessageItem(id, query, "message", sessionId, userType, userId, now);
    var namespaces := if vectorOk then s.namespaces[userId := Items(s, userId) + [item]] else s.namespaces;
    StoreReport(Stores(rows, namespaces), dbOk, vectorOk)
  }

  /** The table gains exactly one row, the message, when the insert
      succeeds and nothing otherwise; the user's namespace gains exactly one
      item, a copy of the message, when the upsert succeeds and nothing
      otherwise; every other namespace is untouched; each outcome is its
      own, whatever the other write did. */
  lemma StoreEffects(s: Stores, query: string, userType: string, sessionId: string, userId: string,
                     dbOk: bool, vectorOk: bool, id: string, insertedAt: string, now: string)
    ensures var r := StoreMessage(s, query, userType, sessionId, userId, dbOk, vectorOk, id, insertedAt, now);
      r.dbSuccess == dbOk && r.vectorSuccess == vectorOk
      && (r.after.rows != s.rows <==> dbOk)
      && r.after.rows[..|s.rows|] == s.rows
      && (dbOk ==> (|r.after.rows| == |s.rows| + 1
                    && r.after.rows[|s.rows|] == DbRow(sessionId, userType, query, insertedAt)))
      && (Items(r.after, userId) != Items(s, userId) <==> vectorOk)
      && Items(r.after, userId)[..|Items(s, userId)|] == Items(s, userId)
      && (vectorOk ==> (|Items(r.after, userId)| == |Items(s, userId)| + 1
                        && var item := Items(r.after, userId)[|Items(s, userId)|];
                           item.text == query && item.itemType == "message" && item.sessionId == sessionId
                           && item.userType == userType && item.userId == userId))
      && (forall ns :: ns != userId ==> Items(r.after, ns) == Items(s, ns))
  {
    var r := StoreMessage(s, query, userType, sessionId, userId, dbOk, vectorOk, id, insertedAt, now);
    if dbOk {
      assert |r.after.rows| == |s.rows| + 1;
    }
    if vectorOk {
      assert |Items(r.after, userId)| == |Items(s, userId)| + 1;
    }
  }

  /** The insert does not depend on the upsert's outcome, nor the upsert on
      the insert's. */
  lemma StoreIndependent(s: Stores, query: string, userType: string, sessionId: string, userId: string,
                         dbOk: bool, vectorOk: bool, id: string, insertedAt: string, now: string)
    ensures forall b: bool ::
      StoreMessage(s, query, userType, sessionId, userId, dbOk, b, id, insertedAt, now).after.rows
        == StoreMessage(s, query, userType, sessionId, userId, dbOk, vectorOk, id, insertedAt, now).after.rows
    ensures forall b: bool ::
      StoreMessage(s, query, userType, sessionId, userId, b, vectorOk, id, insertedAt, now).after.namespaces
        == StoreMessage(s, query, userType, sessionId, userId, dbOk, vectorOk, id, insertedAt, now).after.namespaces
  {
  }
}
