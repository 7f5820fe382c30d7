/** The page state of Frontend/src/components/main/MainPage.jsx: which tab
    the path selects, the mobile drawer, the sidebar drag, and the session
    list the page keeps for its chat tab. Random ids, the clock and the
    window size arrive as event parameters. */
module MainPage {
  import opened Wrappers
  import opened Text

  datatype Message = Message(role: string, content: string)

  datatype Session = Session(id: string, title: string, messages: seq<Message>, lastActivity: string,
                             messageCount: int)

  /** The keys an update object carries; absent keys keep the session's value. */
  datatype Patch = Patch(title: Option<string>, messages: Option<seq<Message>>, messageCount: Option<int>)

  const NewChat: string := "New Chat"
  const MinWidth: int := 240
  const MaxWidth: int := 600
  const DefaultWidth: int := 320
  const MobileBreakpoint: int := 768

  // ---------------------------------------------------------------- tabs

  /** `getActiveTabFromPath()`. */
  function TabFromPath(path: string): (tab: string)
    ensures tab == "quiz" || tab == "flashcards" || tab == "chat"
  {
    if Contains(path, "/quiz") then "quiz"
    else if Contains(path, "/flashcards") then "flashcards"
    else "chat"
  }

  /** The page keeps the URL at `/<tab>`, and reading that URL back gives
      the same tab, so the two effects that sync them settle. */
  lemma TabPathRoundTrip(tab: string)
    requires tab == "quiz" || tab == "flashcards" || tab == "chat"
    ensures TabFromPath("/" + tab) == tab
  {
    var path := "/" + tab;
    assert forall k :: 0 < k < |path| ==> path[k] != '/';
    if tab == "quiz" {
      assert StartsWith(path[0..], "/quiz");
    } else {
      assert path[1] != "/quiz"[1];
      NotFound(path, "/quiz");
      if tab == "flashcards" {
        assert StartsWith(path[0..], "/flashcards");
      } else {
        assert path[1] != "/flashcards"[1];
        NotFound(path, "/flashcards");
      }
    }
  }

  /** A text opening with '/' is found only at the front of a path whose
      only '/' is its first character. */
  lemma NotFound(path: string, q: string)
    requires |q| >= 2 && q[0] == '/' && |path| >= 2
    requires forall k :: 0 < k < |path| ==> path[k] != '/'
    requires path[1] != q[1]
    ensures !Contains(path, q)
  {
    forall i | 0 <= i <= |path| ensures !StartsWith(path[i..], q) {
      if i < |path| && |q| <= |path[i..]| {
        assert path[i..][..|q|][0] == path[i];
        assert path[i..][..|q|][1] == path[i + 1];
      }
    }
  }

  // ---------------------------------------------------------------- page state

  datatype Page = Page(sessions: seq<Session>, current: Option<Session>, activeTab: string,
                       isMobile: bool, mobileSidebarOpen: bool, sidebarWidth: int, isResizing: bool)

  /** The events the page handles. */
  datatype Event =
    | WindowResize(innerWidth: int)
    | ResizeStart
    | MouseMove(clientX: int)
    | MouseUp
    | OpenMobileSidebar
    | CloseMobileSidebar
    | SwitchTab(tab: string)
    | SelectSession(session: Session)
    | CreateSession(id: string, title: string, now: string)
    | UpdateSession(sessionId: string, updates: Patch, now: string)
    | ClearAllSessions

  /** Closes the drawer when on a phone, as every navigation handler does. */
  function CloseDrawerOnMobile(p: Page): Page {
    if p.isMobile then p.(mobileSidebarOpen := false) else p
  }

  /** `{ ...session, ...updates, lastActivity }`. */
  function Merge(s: Session, updates: Patch, now: string): Session {
    s.(title := updates.title.GetOr(s.title), messages := updates.messages.GetOr(s.messages),
       messageCount := updates.messageCount.GetOr(s.messageCount), lastActivity := now)
  }

  function NewSession(id: string, title: string, now: string): Session {
    Session(id, title, [], now, 0)
  }

  /** The list after `handleSessionUpdate`: the matching sessions merged. */
  function UpdateAll(sessions: seq<Session>, id: string, updates: Patch, now: string): (r: seq<Session>)
    ensures |r| == |sessions|
    ensures forall i :: 0 <= i < |r| ==>
      r[i] == if sessions[i].id == id then Merge(sessions[i], updates, now) else sessions[i]
  {
    seq(|sessions|, i requires 0 <= i < |sessions| =>
      if sessions[i].id == id then Merge(sessions[i], updates, now) else sessions[i])
  }

  function Step(p: Page, e: Event): Page {
    match e
    case WindowResize(w) =>
      var mobile := w < MobileBreakpoint;
      p.(isMobile := mobile, mobileSidebarOpen := if mobile then p.mobileSidebarOpen else false)
    case ResizeStart => if p.isMobile then p else p.(isResizing := true)
    case MouseMove(x) =>
      if p.isResizing && MinWidth <= x <= MaxWidth then p.(sidebarWidth := x) else p
    case MouseUp => p.(isResizing := false)
    case OpenMobileSidebar => if p.isMobile then p.(mobileSidebarOpen := true) else p
    case CloseMobileSidebar => p.(mobileSidebarOpen := false)
    case SwitchTab(tab) => CloseDrawerOnMobile(p.(activeTab := tab))
    case SelectSession(s) => CloseDrawerOnMobile(p.(current := Some(s)))
    case CreateSession(id, title, now) =>
      var s := NewSession(id, title, now);
      CloseDrawerOnMobile(p.(sessions := [s] + p.sessions, current := Some(s), activeTab := "chat"))
    case UpdateSession(id, updates, now) =>
      p.(sessions := UpdateAll(p.sessions, id, updates, now),
         current := if p.current.Some? && p.current.value.id == id
                    then Some(Merge(p.current.value, updates, now)) else p.current)
    case ClearAllSessions => p.(sessions := [], current := None)
  }

  /** What every reachable page satisfies once the width is in range: the
      drawer is open only on a phone, and the sidebar width stays within the
      drag limits. */
  predicate Valid(p: Page) {
    (p.mobileSidebarOpen ==> p.isMobile) && MinWidth <= p.sidebarWidth <= MaxWidth
  }

  /** Every event keeps the page valid. */
  lemma StepKeepsValid(p: Page, e: Event)
    requires Valid(p)
    ensures Valid(Step(p, e))
  {
  }

  /** A drag changes the width only to a pointer position inside
      [240, 600], and only while a drag is under way. */
  lemma DragClamp(p: Page, x: int)
    ensures var r := Step(p, MouseMove(x));
      (r.sidebarWidth == x && p.isResizing && MinWidth <= x <= MaxWidth) || r == p
  {
  }

  /** A new session goes first, has no messages and a count of 0, becomes
      current, and the chat tab is shown. */
  lemma CreatePrepends(p: Page, id: string, title: string, now: string)
    ensures var r := Step(p, CreateSession(id, title, now));
      |r.sessions| == |p.sessions| + 1 && r.sessions[1..] == p.sessions
      && r.sessions[0].id == id && r.sessions[0].title == title
      && r.sessions[0].messages == [] && r.sessions[0].messageCount == 0
      && r.current == Some(r.sessions[0]) && r.activeTab == "chat"
  {
    var r := Step(p, CreateSession(id, title, now));
    assert r.sessions[1..] == p.sessions;
  }

  /** An update touches only the sessions with that id: their other fields
      and their ids are kept, the given keys replaced and the activity time
      set; the current session follows only when its id matches. */
  lemma UpdateOnlyMatching(p: Page, id: string, updates: Patch, now: string)
    ensures var r := Step(p, UpdateSession(id, updates, now));
      |r.sessions| == |p.sessions|
      && (forall i :: 0 <= i < |r.sessions| && p.sessions[i].id != id ==> r.sessions[i] == p.sessions[i])
      && (forall i :: 0 <= i < |r.sessions| && p.sessions[i].id == id ==>
            r.sessions[i].id == id && r.sessions[i].lastActivity == now
            && (updates.title.Some? ==> r.sessions[i].title == updates.title.value)
            && (updates.title.None? ==> r.sessions[i].title == p.sessions[i].title)
            && (updates.messages.Some? ==> r.sessions[i].messages == updates.messages.value)
            && (updates.messages.None? ==> r.sessions[i].messages == p.sessions[i].messages))
      && (p.current.None? || p.current.value.id != id ==> r.current == p.current)
  {
  }

  /** Clearing empties the list and drops the selection. */
  lemma ClearEmpties(p: Page)
    ensures var r := Step(p, ClearAllSessions);
      r.sessions == [] && r.current.None? && r.activeTab == p.activeTab
  {
  }

  // ---------------------------------------------------------------- mount

  /** The session the page creates when nothing is stored. */
  function DefaultSession(now: string): Session { Session("default", NewChat, [], now, 0) }

  /** The mount effect for what `localStorage` holds: `savedWidth` is
      `parseInt` of the text under `distillSidebarWidth` when that text is
      non-empty, restored as it is, without the resize limits; `saved` is
      the list under `distillSessions`, already parsed, shown with its first
      session selected when none is, or, when nothing is stored, a single
      default session. */
  function Mount(p: Page, savedWidth: Option<int>, saved: Option<seq<Session>>, now: string): (r: Page)
    ensures r.sessions != [] ==> r.current.Some?
  {
    var q := if savedWidth.Some? then p.(sidebarWidth := savedWidth.value) else p;
    if saved.Some? then
      q.(sessions := saved.value,
         current := if |saved.value| > 0 && q.current.None? then Some(saved.value[0]) else q.current)
    else q.(sessions := [DefaultSession(now)], current := Some(DefaultSession(now)))
  }

  /** After mounting, a stored width is the sidebar's width whatever its
      value, a stored list is shown as stored, and with nothing stored the
      page holds exactly the default session, selected. */
  lemma MountShape(p: Page, savedWidth: Option<int>, saved: Option<seq<Session>>, now: string)
    ensures var r := Mount(p, savedWidth, saved, now);
      (savedWidth.Some? ==> r.sidebarWidth == savedWidth.value)
      && (savedWidth.None? ==> r.sidebarWidth == p.sidebarWidth)
      && (saved.Some? ==>
         r.sessions == saved.value
         && (p.current.None? && saved.value != [] ==> r.current == Some(saved.value[0])))
      && (saved.None? ==> r.sessions == [DefaultSession(now)] && r.current == Some(DefaultSession(now)))
  {
  }

  /** Mounting a valid page keeps it valid exactly when no width was stored
      or the stored one lies within the resize limits: an out-of-range stored
      width is restored unclamped and only a later drag brings it back. */
  lemma MountValidIff(p: Page, savedWidth: Option<int>, saved: Option<seq<Session>>, now: string)
    requires Valid(p)
    ensures Valid(Mount(p, savedWidth, saved, now)) <==>
      savedWidth.None? || MinWidth <= savedWidth.value <= MaxWidth
  {
    MountShape(p, savedWidth, saved, now);
  }
}
