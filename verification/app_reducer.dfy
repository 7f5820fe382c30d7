/** `appReducer` of Frontend/src/contexts/AppContext.jsx: the application's
    global state and the pure step it takes for each dispatched action. */
module AppReducer {
  import opened Wrappers
  import opened Sorting
  import opened JsValues

  /** A study session as the reducer sees it: its id, compared with `===`,
      and the rest of the object, which the reducer only moves around. */
  datatype Session = Session(id: string, fields: Value)

  datatype AppState = AppState(user: Option<Value>, isAuthenticated: bool, sessions: seq<Session>,
                               currentSession: Option<Session>, loading: bool, error: Option<string>,
                               activeTab: string, sidebarCollapsed: bool, darkMode: bool,
                               initializing: bool)

  /** One constructor per `ACTION_TYPES` entry. The two toggles carry the
      payload a caller may attach, which the reducer ignores; `Unknown` is any
      other type string. */
  datatype Action =
    | SetLoading(loading: bool)
    | SetError(error: Option<string>)
    | ClearError
    | SetUser(user: Option<Value>)
    | SetAuthenticated(authenticated: bool)
    | Logout
    | SetSessions(sessions: seq<Session>)
    | AddSession(session: Session)
    | UpdateSession(session: Session)
    | DeleteSession(id: string)
    | SetCurrentSession(current: Option<Session>)
    | SetActiveTab(tab: string)
    | ToggleSidebar(ignored: Option<Value>)
    | ToggleDarkMode(ignored: Option<Value>)
    | SetInitializing(initializing: bool)
    | Unknown(kind: string)

  const DefaultTab: string := "chat"

  const InitialState: AppState :=
    AppState(None, false, [], None, false, None, DefaultTab, false, false, true)

  /** `state.sessions.map(s => s.id === payload.id ? payload : s)`. */
  function Replace(sessions: seq<Session>, s: Session): (r: seq<Session>)
    ensures |r| == |sessions|
    ensures forall i :: 0 <= i < |r| ==> r[i] == (if sessions[i].id == s.id then s else sessions[i])
  {
    Map((x: Session) => if x.id == s.id then s else x, sessions)
  }

  /** The sessions whose id differs from `id`. */
  function Without(sessions: seq<Session>, id: string): seq<Session> {
    Filter((x: Session) => x.id != id, sessions)
  }

  function CurrentIs(current: Option<Session>, id: string): bool {
    current.Some? && current.value.id == id
  }

  function Reduce(state: AppState, action: Action): (r: AppState)
    ensures forall f :: f !in Touches(action) ==> Agree(r, state, f)
  {
    match action
    case SetLoading(b) => state.(loading := b)
    case SetError(e) => state.(error := e, loading := false)
    case ClearError => state.(error := None)
    case SetUser(u) => state.(user := u)
    case SetAuthenticated(b) => state.(isAuthenticated := b)
    case Logout =>
      state.(user := None, isAuthenticated := false, sessions := [], currentSession := None,
             activeTab := DefaultTab)
    case SetSessions(ss) => state.(sessions := ss)
    case AddSession(s) => state.(sessions := [s] + state.sessions, currentSession := Some(s))
    case UpdateSession(s) =>
      state.(sessions := Replace(state.sessions, s),
             currentSession := if CurrentIs(state.currentSession, s.id) then Some(s) else state.currentSession)
    case DeleteSession(id) =>
      var remaining := Without(state.sessions, id);
      state.(sessions := remaining,
             currentSession := if CurrentIs(state.currentSession, id)
                               then (if |remaining| > 0 then Some(remaining[0]) else None)
                               else state.currentSession)
    case SetCurrentSession(c) => state.(currentSession := c)
    case SetActiveTab(t) => state.(activeTab := t)
    case ToggleSidebar(_) => state.(sidebarCollapsed := !state.sidebarCollapsed)
    case ToggleDarkMode(_) => state.(darkMode := !state.darkMode)
    case SetInitializing(b) => state.(initializing := b)
    case Unknown(_) => state
  }

  // ---------------------------------------------------------------- the frame

  datatype Field = UserField | AuthField | SessionsField | CurrentField | LoadingField | ErrorField
                 | TabField | SidebarField | DarkModeField | InitializingField

  /** The fields each action names; every other field is copied. */
  function Touches(action: Action): set<Field> {
    match action
    case SetLoading(_) => {LoadingField}
    case SetError(_) => {ErrorField, LoadingField}
    case ClearError => {ErrorField}
    case SetUser(_) => {UserField}
    case SetAuthenticated(_) => {AuthField}
    case Logout => {UserField, AuthField, SessionsField, CurrentField, TabField}
    case SetSessions(_) => {SessionsField}
    case AddSession(_) => {SessionsField, CurrentField}
    case UpdateSession(_) => {SessionsField, CurrentField}
    case DeleteSession(_) => {SessionsField, CurrentField}
    case SetCurrentSession(_) => {CurrentField}
    case SetActiveTab(_) => {TabField}
    case ToggleSidebar(_) => {SidebarField}
    case ToggleDarkMode(_) => {DarkModeField}
    case SetInitializing(_) => {InitializingField}
    case Unknown(_) => {}
  }

  /** The two states hold the same value in field `f`. */
  predicate Agree(a: AppState, b: AppState, f: Field) {
    match f
    case UserField => a.user == b.user
    case AuthField => a.isAuthenticated == b.isAuthenticated
    case SessionsField => a.sessions == b.sessions
    case CurrentField => a.currentSession == b.currentSession
    case LoadingField => a.loading == b.loading
    case ErrorField => a.error == b.error
    case TabField => a.activeTab == b.activeTab
    case SidebarField => a.sidebarCollapsed == b.sidebarCollapsed
    case DarkModeField => a.darkMode == b.darkMode
    case InitializingField => a.initializing == b.initializing
  }

  /** Every action copies each field it does not name. */
  lemma OnlyNamedFieldsChange(state: AppState, action: Action, f: Field)
    requires f !in Touches(action)
    ensures Agree(Reduce(state, action), state, f)
  {
  }

  /** An unknown action leaves the state as it was. */
  lemma UnknownIsIdentity(state: AppState, kind: string)
    ensures Reduce(state, Unknown(kind)) == state
  {
  }

  // ---------------------------------------------------------------- cases

  /** Recording an error always ends loading. */
  lemma SetErrorStopsLoading(state: AppState, e: Option<string>)
    ensures var r := Reduce(state, SetError(e)); r.error == e && !r.loading
  {
  }

  /** Logging out forgets the user and the sessions and goes back to the chat
      tab, but keeps the display preferences. */
  lemma LogoutKeepsPreferences(state: AppState)
    ensures var r := Reduce(state, Logout);
      r.user.None? && !r.isAuthenticated && r.sessions == [] && r.currentSession.None?
      && r.activeTab == DefaultTab
      && r.darkMode == state.darkMode && r.sidebarCollapsed == state.sidebarCollapsed
      && r.loading == state.loading && r.error == state.error && r.initializing == state.initializing
  {
  }

  /** A new session goes first and becomes current; the old list follows unchanged. */
  lemma AddSessionPrepends(state: AppState, s: Session)
    ensures var r := Reduce(state, AddSession(s));
      |r.sessions| == |state.sessions| + 1 && r.sessions[0] == s && r.sessions[1..] == state.sessions
      && r.currentSession == Some(s)
  {
    var r := Reduce(state, AddSession(s));
    assert r.sessions[1..] == state.sessions;
  }

  /** An update keeps the number of sessions and their ids, puts the payload
      wherever its id occurs, and replaces the current session only when the
      ids match; applying the same update twice changes nothing more. */
  lemma UpdateSessionReplaces(state: AppState, s: Session)
    ensures var r := Reduce(state, UpdateSession(s));
      |r.sessions| == |state.sessions|
      && (forall i :: 0 <= i < |r.sessions| ==> r.sessions[i].id == state.sessions[i].id)
      && (forall i :: 0 <= i < |r.sessions| && state.sessions[i].id == s.id ==> r.sessions[i] == s)
      && (forall i :: 0 <= i < |r.sessions| && state.sessions[i].id != s.id ==> r.sessions[i] == state.sessions[i])
      && (CurrentIs(state.currentSession, s.id) ==> r.currentSession == Some(s))
      && (!CurrentIs(state.currentSession, s.id) ==> r.currentSession == state.currentSession)
      && Reduce(r, UpdateSession(s)) == r
  {
    var r := Reduce(state, UpdateSession(s));
    assert Replace(r.sessions, s) == r.sessions;
  }

  /** A delete removes every session with that id and keeps every other one,
      in order. */
  lemma DeleteSessionRemoves(state: AppState, id: string)
    ensures var r := Reduce(state, DeleteSession(id));
      (forall i :: 0 <= i < |r.sessions| ==> r.sessions[i].id != id)
      && (forall i :: 0 <= i < |state.sessions| && state.sessions[i].id != id ==> state.sessions[i] in r.sessions)
      && IsSubsequence(r.sessions, state.sessions)
      && Reduce(r, DeleteSession(id)) == r
  {
    var keep := (x: Session) => x.id != id;
    FilterSubsequence(keep, state.sessions);
    FilterIdempotent(keep, state.sessions);
    var r := Reduce(state, DeleteSession(id));
    assert r.sessions == Filter(keep, state.sessions);
    assert !CurrentIs(r.currentSession, id);
    assert Reduce(r, DeleteSession(id)).sessions == Filter(keep, r.sessions) == r.sessions;
  }

  /** Deleting the current session moves the selection to the first remaining
      session, or to none; deleting another one keeps the selection. */
  lemma DeleteSessionCurrent(state: AppState, id: string)
    ensures var r := Reduce(state, DeleteSession(id));
      var remaining := r.sessions;
      (CurrentIs(state.currentSession, id) && remaining != [] ==> r.currentSession == Some(remaining[0]))
      && (CurrentIs(state.currentSession, id) && remaining == [] ==> r.currentSession.None?)
      && (!CurrentIs(state.currentSession, id) ==> r.currentSession == state.currentSession)
      && (CurrentIs(state.currentSession, id) ==> !CurrentIs(r.currentSession, id))
  {
  }

  /** Each toggle negates its flag whatever payload is attached, so two toggles
      restore the state. */
  lemma TogglesAreInvolutions(state: AppState, p: Option<Value>, q: Option<Value>)
    ensures Reduce(state, ToggleSidebar(p)).sidebarCollapsed == !state.sidebarCollapsed
    ensures Reduce(state, ToggleDarkMode(p)).darkMode == !state.darkMode
    ensures Reduce(Reduce(state, ToggleSidebar(p)), ToggleSidebar(q)) == state
    ensures Reduce(Reduce(state, ToggleDarkMode(p)), ToggleDarkMode(q)) == state
  {
  }
}
