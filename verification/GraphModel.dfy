/**
 The session graph's data: sessions, windows and panes, the events the graph
 publishes, and the snapshot and side maps its single writer owns.
 */
module GraphModel {
  import opened Wrappers
  import opened Layout
  import opened WindowLayouts
  import opened Titles

  type SessionId = nat
  type WindowId = nat

  /** The graph only compares status summaries, so any value type stands for them. */
  type StatusSummary = string

  datatype ProgramExit = ProgramExit(status: int, signal: Option<int>, byShux: bool)

  datatype Session = Session(
    name: string, windows: seq<WindowId>, active: WindowId, theme: Option<string>,
    tags: map<string, string>, version: nat)

  datatype Window = Window(session: SessionId, title: string, active: PaneId, layout: LayoutState, version: nat)

  datatype Pane = Pane(
    window: WindowId, title: string, manual: Option<string>, osc: Option<string>, auto: bool,
    cwd: string, command: seq<string>, exit: Option<ProgramExit>, theme: Option<string>, tags: map<string, string>,
    version: nat, status: Option<StatusSummary>, seen: bool, enabled: bool)

  datatype Snapshot = Snapshot(
    sessions: map<SessionId, Session>, windows: map<WindowId, Window>, panes: map<PaneId, Pane>, version: nat)

  datatype Event =
    | SessionCreated(session: SessionId, name: string)
    | SessionRenamed(session: SessionId, oldName: string, newName: string)
    | SessionKilled(session: SessionId, name: string)
    | WindowCreated(window: WindowId, session: SessionId, title: string, index: nat)
    | WindowRenamed(window: WindowId, session: SessionId, oldTitle: string, newTitle: string)
    | WindowKilled(window: WindowId, session: SessionId)
    | PaneCreated(pane: PaneId, window: WindowId, session: SessionId, command: seq<string>)
    | PaneFocused(pane: PaneId, window: WindowId, session: SessionId, previous: Option<PaneId>)
    | PaneZoomed(pane: PaneId, window: WindowId, session: SessionId, zoomed: bool)
    | PaneTitleChanged(pane: PaneId, window: WindowId, session: SessionId, oldTitle: string, newTitle: string)
    | PaneExited(pane: PaneId, window: WindowId, session: SessionId, exit: Option<ProgramExit>, command: seq<string>)
    | PaneRespawned(pane: PaneId, window: WindowId, session: SessionId, command: seq<string>)
    | PaneStatusChanged(pane: PaneId, window: WindowId, session: SessionId,
                        oldStatus: Option<StatusSummary>, newStatus: Option<StatusSummary>, seen: bool, enabled: bool)

  datatype GraphError =
    | SessionNotFound(session: SessionId)
    | WindowNotFound(window: WindowId)
    | PaneNotFound(pane: PaneId)
    | SessionNameExists(name: string)
    | EmptySessionName
    | SessionNameTooLong(name: string)
    | InvalidSessionName(name: string)
    | VersionConflict(expected: nat, actual: nat)
    | LastWindow
    | LastPane
    | WindowNameConflict(title: string)
    | EmptyWindowName
    | WindowNameTooLong(title: string)
    | NumericWindowName(title: string)
    | SessionPaneBytes(used: nat, adding: nat, budget: nat)
    | SessionPaneLimit(max: nat)
    | WindowIndexOutOfRange(index: nat, count: nat)
    | PaneSwapSelf
    | PaneCrossWindow
    | LayoutError

  /**
   What the graph asks of the rest of the program: JSON sizes, derived pane titles, Unicode letters, and the order
   in which the hash table of a snapshot's panes is walked. The version makes every committed snapshot a new one, so
   the order may change at each commit.
   */
  datatype Env = Env(
    jsonBytes: (seq<string>, string) -> nat,
    derivedTitle: (seq<string>, string) -> string,
    alphanumeric: char -> bool,
    walk: Snapshot -> seq<PaneId>)

  /** Walking a table meets each key once. */
  ghost predicate WalksAll(env: Env) {
    forall g :: Lists(env.walk(g), g.panes.Keys)
  }

  ghost predicate Lists(order: seq<PaneId>, s: set<PaneId>) {
    NoDuplicates(order) && forall p :: p in order <==> p in s
  }

  /**
   The graph as its writer sees it. `owners` and `generations` are the per-pane side maps, `events` all that was
   published, and `supply` the next id: every id at or above it is unused.
   */
  datatype State = State(
    snap: Snapshot, owners: map<PaneId, nat>, generations: map<PaneId, nat>, events: seq<Event>, supply: nat)

  const EMPTY_SNAPSHOT := Snapshot(map[], map[], map[], 0)
  const EMPTY := State(EMPTY_SNAPSHOT, map[], map[], [], 0)

  /** What an operation makes of the snapshot before it is committed. */
  datatype Change = Change(snap: Snapshot, events: seq<Event>, supply: nat)

  /** An operation commits a change, succeeds without one, or fails; only the first changes anything. */
  datatype Outcome<+R> =
    | Changed(change: Change, reply: R)
    | Unchanged(reply: R)
    | Failed(error: GraphError)

  // ----- Lookups -----

  predicate NameTaken(g: Snapshot, name: string) {
    exists s :: s in g.sessions && g.sessions[s].name == name
  }

  /** Some window of the session bears the title; the query is normalized as stored titles are. */
  predicate TitleTaken(g: Snapshot, session: SessionId, title: string) {
    && session in g.sessions
    && exists i :: 0 <= i < |g.sessions[session].windows|
         && var w := g.sessions[session].windows[i]; w in g.windows && g.windows[w].title == Sanitize(title)
  }

  function WindowPanes(g: Snapshot, w: WindowId): set<PaneId> {
    set p | p in g.panes && g.panes[p].window == w
  }

  predicate InSession(g: Snapshot, p: PaneId, session: SessionId) {
    p in g.panes && g.panes[p].window in g.windows && g.windows[g.panes[p].window].session == session
  }

  function SessionPanes(g: Snapshot, session: SessionId): set<PaneId> {
    set p | p in g.panes && InSession(g, p, session)
  }

  function PaneBytes(env: Env, p: Pane): nat {
    env.jsonBytes(p.command, p.cwd)
  }

  /** Bytes of commands and directories over the session's panes numbered below `n`. */
  function SessionBytes(env: Env, g: Snapshot, session: SessionId, n: nat): nat {
    if n == 0 then 0
    else SessionBytes(env, g, session, n - 1)
         + (if InSession(g, n - 1, session) then PaneBytes(env, g.panes[n - 1]) else 0)
  }

  const MAX_PANES_PER_SESSION: nat := 1024
  const MAX_SESSION_PANE_BYTES: nat := 0x40_0000

  // ----- Validation -----

  predicate IsSessionName(env: Env, name: string) {
    1 <= |name| <= 128 && forall i :: 0 <= i < |name| ==> IsNameChar(env, name[i])
  }

  predicate IsNameChar(env: Env, c: char) {
    env.alphanumeric(c) || c == '-' || c == '_' || c == '.'
  }

  function SessionNameError(env: Env, name: string): (e: Option<GraphError>)
    ensures e.None? <==> IsSessionName(env, name)
  {
    if name == "" then Some(EmptySessionName)
    else if |name| > 128 then Some(SessionNameTooLong(name))
    else if exists i :: 0 <= i < |name| && !IsNameChar(env, name[i]) then Some(InvalidSessionName(name))
    else None
  }

  /** Sanitize, then validate. */
  function CheckWindowTitle(raw: string): (r: Result<string, GraphError>)
    ensures r.Ok? <==> IsWindowTitle(Sanitize(raw))
    ensures r.Ok? ==> r.value == Sanitize(raw) && IsWindowTitle(r.value)
  {
    var clean := Sanitize(raw);
    SanitizeIsClean(raw);
    if clean == "" then Err(EmptyWindowName)
    else if |clean| > MAX_WINDOW_TITLE_CHARS then Err(WindowNameTooLong(clean))
    else if IsWindowNumber(clean) then Err(NumericWindowName(clean))
    else Ok(clean)
  }

  /** What stands against one more pane in the session: too many panes, or too many bytes. Ids in use lie below `n`. */
  function CapacityError(env: Env, g: Snapshot, n: nat, session: SessionId, command: seq<string>, cwd: string)
    : Option<GraphError>
  {
    if |SessionPanes(g, session)| >= MAX_PANES_PER_SESSION then Some(SessionPaneLimit(MAX_PANES_PER_SESSION)) else
    var used, adding := SessionBytes(env, g, session, n), env.jsonBytes(command, cwd);
    if used + adding > MAX_SESSION_PANE_BYTES then Some(SessionPaneBytes(used, adding, MAX_SESSION_PANE_BYTES))
    else None
  }

  predicate Conflicts(expected: Option<nat>, actual: nat) {
    expected.Some? && expected.value != actual
  }

  // ----- Records -----

  function NewPane(env: Env, window: WindowId, cwd: string, command: seq<string>): Pane {
    Pane(window, env.derivedTitle(command, cwd), None, None, true, cwd, command, None, None, map[], 1, None, false,
         false)
  }

  function NewWindow(session: SessionId, title: string, pane: PaneId): Window {
    Window(session, Sanitize(title), pane, NewLayout(pane), 1)
  }

  function NewSession(name: string, window: WindowId): Session {
    Session(name, [window], window, None, map[], 1)
  }

  /** The displayed title from its sources: manual, then the program's own, then derived; pinned when auto is off. */
  function Retitle(env: Env, p: Pane): Pane {
    if p.manual.Some? then p.(title := p.manual.value)
    else if !p.auto then p
    else if p.osc.Some? then p.(title := p.osc.value)
    else p.(title := env.derivedTitle(p.command, p.cwd))
  }

  /** The title resolved afresh from its sources, as far as they decide it. */
  function EffectiveTitle(p: Pane): string {
    if p.manual.Some? then p.manual.value
    else if p.auto && p.osc.Some? then p.osc.value
    else p.title
  }

  /** The stored title is the one its sources resolve to; with auto off and no manual title it is pinned. */
  predicate TitleInSync(env: Env, p: Pane) {
    p.title == EffectiveTitle(p) && (p.manual.None? && p.auto && p.osc.None? ==>
         p.title == env.derivedTitle(p.command, p.cwd))
  }

  function WithManualTitle(env: Env, p: Pane, title: Option<string>): Pane {
    Retitle(env, p.(manual := if title.None? then None else Some(SanitizeClamped(title.value))))
  }

  function WithAutoTitle(env: Env, p: Pane, auto: Option<bool>): Pane {
    if auto.None? || auto.value == p.auto then p else Retitle(env, p.(auto := auto.value))
  }

  function WithOscTitle(env: Env, p: Pane, title: string): Pane {
    var clean := SanitizeClamped(title);
    var osc := if clean == "" then None else Some(clean);
    if p.osc == osc then p else Retitle(env, p.(osc := osc))
  }

  /** The title a session's first window takes: its pane's, when that is a valid name. */
  function DefaultTitle(env: Env, command: seq<string>, cwd: string): string {
    match CheckWindowTitle(env.derivedTitle(command, cwd))
    case Ok(t) => t
    case Err(_) => "window"
  }

  function BumpPanes(panes: map<PaneId, Pane>, w: WindowId): map<PaneId, Pane> {
    map p | p in panes :: if panes[p].window == w then panes[p].(version := panes[p].version + 1) else panes[p]
  }

  // ----- Committing -----

  function KeepLive(m: map<PaneId, nat>, panes: map<PaneId, Pane>): map<PaneId, nat> {
    map p | p in m && p in panes :: m[p]
  }

  /** Swap in a new snapshot and publish; side maps never outlive their pane. */
  function Commit(s: State, c: Change): State {
    State(c.snap, KeepLive(s.owners, c.snap.panes), KeepLive(s.generations, c.snap.panes), s.events + c.events,
          c.supply)
  }

  function Finish<R>(s: State, o: Outcome<R>): (State, Result<R, GraphError>) {
    match o
    case Changed(c, r) => (Commit(s, c), Ok(r))
    case Unchanged(r) => (s, Ok(r))
    case Failed(e) => (s, Err(e))
  }
}
