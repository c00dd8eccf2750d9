/**
 The graph's operations, each from its checks to the snapshot it commits and the
 events it publishes. The writer runs them one at a time.
 */
module GraphOps {
  import opened Wrappers
  import opened Layout
  import opened WindowLayouts
  import opened GraphModel

  function Tick(g: Snapshot): Snapshot {
    g.(version := g.version + 1)
  }

  // ----- Edits of the snapshot -----

  /** A session with its first window and pane. */
  function AddSession(env: Env, g: Snapshot, session: SessionId, window: WindowId, pane: PaneId,
                      name: string, title: string, cwd: string, command: seq<string>): Snapshot {
    Tick(g.(sessions := g.sessions[session := NewSession(name, window)],
            windows := g.windows[window := NewWindow(session, title, pane)],
            panes := g.panes[pane := NewPane(env, window, cwd, command)]))
  }

  /** A window with its first pane, put last in its session and made active. */
  function AddWindow(env: Env, g: Snapshot, session: SessionId, window: WindowId, pane: PaneId,
                     title: string, cwd: string, command: seq<string>): Snapshot
    requires session in g.sessions
  {
    var s := g.sessions[session];
    Tick(g.(sessions := g.sessions[session := s.(windows := s.windows + [window], active := window,
                                                 version := s.version + 1)],
            windows := g.windows[window := NewWindow(session, title, pane)],
            panes := g.panes[pane := NewPane(env, window, cwd, command)]))
  }

  function PutSession(g: Snapshot, id: SessionId, s: Session): Snapshot {
    Tick(g.(sessions := g.sessions[id := s.(version := s.version + 1)]))
  }

  function PutPane(g: Snapshot, id: PaneId, p: Pane): Snapshot {
    Tick(g.(panes := g.panes[id := p.(version := p.version + 1)]))
  }

  /** A changed window; `all` also moves the versions of its panes. */
  function PutWindow(g: Snapshot, id: WindowId, w: Window, all: bool): Snapshot {
    Tick(g.(windows := g.windows[id := w.(version := w.version + 1)],
            panes := if all then BumpPanes(g.panes, id) else g.panes))
  }

  function Unzoomed(l: LayoutState, window: WindowId, session: SessionId): seq<Event> {
    if l.zoom.Some? then [PaneZoomed(l.zoom.value.pane, window, session, false)] else []
  }

  // ----- Sessions -----

  function CreateSession(env: Env, g: Snapshot, n: nat, name: string, cwd: string,
                         command: seq<string>): Outcome<SessionId> {
    var error := SessionNameError(env, name);
    if error.Some? then Failed(error.value)
    else if NameTaken(g, name) then Failed(SessionNameExists(name)) else
    var (pane, window, session) := (n, n + 1, n + 2);
    var full := CapacityError(env, g, n, session, command, cwd);
    if full.Some? then Failed(full.value) else
    var title := DefaultTitle(env, command, cwd);
    Changed(Change(AddSession(env, g, session, window, pane, name, title, cwd, command),
                   [SessionCreated(session, name), WindowCreated(window, session, title, 1),
                    PaneCreated(pane, window, session, command)], n + 3), session)
  }

  /** Panes of the listed windows, in table order, as they go down with their session. */
  function Exits(g: Snapshot, order: seq<PaneId>, windows: seq<WindowId>, session: SessionId): seq<Event> {
    if order == [] then [] else
    var p := order[0];
    (if p in g.panes && g.panes[p].window in windows
     then [PaneExited(p, g.panes[p].window, session, None, g.panes[p].command)] else [])
    + Exits(g, order[1..], windows, session)
  }

  function WindowKills(windows: seq<WindowId>, session: SessionId): (es: seq<Event>)
    ensures |es| == |windows|
    ensures forall i :: 0 <= i < |es| ==> es[i] == WindowKilled(windows[i], session)
  {
    seq(|windows|, i requires 0 <= i < |windows| => WindowKilled(windows[i], session))
  }

  /** The panes of the listed windows. */
  function PanesOfWindows(g: Snapshot, windows: seq<WindowId>): set<PaneId> {
    set p | p in g.panes && g.panes[p].window in windows
  }

  function DropSession(g: Snapshot, id: SessionId): Snapshot
    requires id in g.sessions
  {
    var windows := g.sessions[id].windows;
    Tick(g.(panes := g.panes - PanesOfWindows(g, windows), windows := g.windows - (set w | w in windows),
            sessions := g.sessions - {id}))
  }

  function DestroySession(env: Env, g: Snapshot, n: nat, id: SessionId, expected: Option<nat>): Outcome<()> {
    if id !in g.sessions then Failed(SessionNotFound(id)) else
    var s := g.sessions[id];
    if Conflicts(expected, s.version) then Failed(VersionConflict(expected.value, s.version)) else
    Changed(Change(DropSession(g, id),
                   Exits(g, env.walk(g), s.windows, id) + WindowKills(s.windows, id)
                   + [SessionKilled(id, s.name)], n), ())
  }

  function RenameSession(env: Env, g: Snapshot, n: nat, id: SessionId, name: string,
                         expected: Option<nat>): Outcome<()> {
    var error := SessionNameError(env, name);
    if error.Some? then Failed(error.value)
    else if id !in g.sessions then Failed(SessionNotFound(id)) else
    var s := g.sessions[id];
    if Conflicts(expected, s.version) then Failed(VersionConflict(expected.value, s.version))
    else if NameTaken(g, name) then Failed(SessionNameExists(name))
    else Changed(Change(PutSession(g, id, s.(name := name)), [SessionRenamed(id, s.name, name)], n), ())
  }

  function SetSessionTag(g: Snapshot, n: nat, id: SessionId, key: string, value: string): Outcome<()> {
    if id !in g.sessions then Failed(SessionNotFound(id))
    else Changed(Change(PutSession(g, id, g.sessions[id].(tags := g.sessions[id].tags[key := value])), [], n), ())
  }

  function SetSessionTheme(g: Snapshot, n: nat, id: SessionId, theme: Option<string>): Outcome<()> {
    if id !in g.sessions then Failed(SessionNotFound(id))
    else Changed(Change(PutSession(g, id, g.sessions[id].(theme := theme)), [], n), ())
  }

  // ----- Windows -----

  function CreateWindow(env: Env, g: Snapshot, n: nat, session: SessionId, rawTitle: string, cwd: string,
                        command: seq<string>): Outcome<WindowId> {
    match CheckWindowTitle(rawTitle)
    case Err(e) => Failed(e)
    case Ok(title) =>
      if session !in g.sessions then Failed(SessionNotFound(session))
      else if TitleTaken(g, session, title) then Failed(WindowNameConflict(title)) else
      var full := CapacityError(env, g, n, session, command, cwd);
      if full.Some? then Failed(full.value) else
      var (pane, window) := (n, n + 1);
      Changed(Change(AddWindow(env, g, session, window, pane, title, cwd, command),
                     [WindowCreated(window, session, title, |g.sessions[session].windows| + 1),
                      PaneCreated(pane, window, session, command)], n + 2), window)
  }

  function DropWindow(g: Snapshot, id: WindowId): Snapshot
    requires id in g.windows && g.windows[id].session in g.sessions
  {
    var session := g.windows[id].session;
    var s := g.sessions[session];
    var left := Without(s.windows, id);
    var active := if s.active == id && left != [] then left[0] else s.active;
    Tick(g.(panes := g.panes - PanesOfWindows(g, [id]), windows := g.windows - {id},
            sessions := g.sessions[session := s.(windows := left, active := active, version := s.version + 1)]))
  }

  function DestroyWindow(env: Env, g: Snapshot, n: nat, id: WindowId, expected: Option<nat>): Outcome<()> {
    if id !in g.windows then Failed(WindowNotFound(id)) else
    var w := g.windows[id];
    if Conflicts(expected, w.version) then Failed(VersionConflict(expected.value, w.version))
    else if w.session !in g.sessions then Failed(SessionNotFound(w.session))
    else if |g.sessions[w.session].windows| <= 1 then Failed(LastWindow)
    else Changed(Change(DropWindow(g, id), Exits(g, env.walk(g), [id], w.session) + [WindowKilled(id, w.session)], n),
                 ())
  }

  /** Another window of the session already bears the title. */
  predicate TitleClashes(g: Snapshot, session: SessionId, id: WindowId, title: string)
    requires session in g.sessions
  {
    exists i :: 0 <= i < |g.sessions[session].windows|
      && var w := g.sessions[session].windows[i]; w != id && w in g.windows && g.windows[w].title == title
  }

  function RenameWindow(g: Snapshot, n: nat, id: WindowId, rawTitle: string, expected: Option<nat>): Outcome<()> {
    match CheckWindowTitle(rawTitle)
    case Err(e) => Failed(e)
    case Ok(title) =>
      if id !in g.windows then Failed(WindowNotFound(id)) else
      var w := g.windows[id];
      if Conflicts(expected, w.version) then Failed(VersionConflict(expected.value, w.version))
      else if w.session !in g.sessions then Failed(SessionNotFound(w.session))
      else if TitleClashes(g, w.session, id, title) then Failed(WindowNameConflict(title))
      else Changed(Change(PutWindow(g, id, w.(title := title), false),
                          [WindowRenamed(id, w.session, w.title, title)], n), ())
  }

  function FocusWindow(g: Snapshot, n: nat, id: WindowId, expected: Option<nat>): Outcome<Option<WindowId>> {
    if id !in g.windows then Failed(WindowNotFound(id)) else
    var w := g.windows[id];
    if Conflicts(expected, w.version) then Failed(VersionConflict(expected.value, w.version))
    else if w.session !in g.sessions then Failed(SessionNotFound(w.session)) else
    var s := g.sessions[w.session];
    if id !in s.windows then Failed(WindowNotFound(id))
    else Changed(Change(PutSession(g, w.session, s.(active := id)), [], n),
                 if s.active != id then Some(s.active) else None)
  }

  function RemoveFirst(windows: seq<WindowId>, id: WindowId): (left: seq<WindowId>)
    ensures id !in windows ==> left == windows
    ensures id in windows ==> |left| == |windows| - 1
  {
    if windows == [] then []
    else if windows[0] == id then windows[1..]
    else [windows[0]] + RemoveFirst(windows[1..], id)
  }

  /** Take the window out of the order and put it back at `index`. */
  function MoveTo(windows: seq<WindowId>, id: WindowId, index: nat): seq<WindowId>
    requires id in windows && index < |windows|
  {
    var left := RemoveFirst(windows, id);
    left[..index] + [id] + left[index..]
  }

  function ReorderWindow(g: Snapshot, n: nat, id: WindowId, index: nat, expected: Option<nat>): Outcome<()> {
    if id !in g.windows then Failed(WindowNotFound(id)) else
    var w := g.windows[id];
    if Conflicts(expected, w.version) then Failed(VersionConflict(expected.value, w.version))
    else if w.session !in g.sessions then Failed(SessionNotFound(w.session)) else
    var s := g.sessions[w.session];
    if index >= |s.windows| then Failed(WindowIndexOutOfRange(index, |s.windows|))
    else if id !in s.windows then Changed(Change(Tick(g), [], n), ())
    else Changed(Change(PutSession(g, w.session, s.(windows := MoveTo(s.windows, id, index))), [], n), ())
  }

  // ----- Panes -----

  /** Add a pane to a window; the layout never learns of it. */
  function CreatePane(env: Env, g: Snapshot, n: nat, window: WindowId, cwd: string,
                      command: seq<string>): Outcome<PaneId> {
    if window !in g.windows then Failed(WindowNotFound(window)) else
    var session := g.windows[window].session;
    var full := CapacityError(env, g, n, session, command, cwd);
    if full.Some? then Failed(full.value) else
    Changed(Change(Tick(g.(panes := g.panes[n := NewPane(env, window, cwd, command)])),
                   [PaneCreated(n, window, session, command)], n + 1), n)
  }

  /** The snapshot after a split: the window shows, and focuses, the new pane. */
  function AddSplit(env: Env, g: Snapshot, window: WindowId, pane: PaneId, layout: LayoutState, cwd: string,
                    command: seq<string>): Snapshot
    requires window in g.windows
  {
    var w := g.windows[window];
    Tick(g.(windows := g.windows[window := w.(layout := layout, active := pane, version := w.version + 1)],
            panes := g.panes[pane := NewPane(env, window, cwd, command)]))
  }

  function SplitPane(env: Env, g: Snapshot, n: nat, target: PaneId, dir: Direction, ratio: real, command: seq<string>)
    : Outcome<PaneId>
  {
    if target !in g.panes then Failed(PaneNotFound(target)) else
    var (window, cwd) := (g.panes[target].window, g.panes[target].cwd);
    if window !in g.windows then Failed(WindowNotFound(window)) else
    var w := g.windows[window];
    var full := CapacityError(env, g, n, w.session, command, cwd);
    if full.Some? then Failed(full.value) else
    var (layout, ok) := SplitIn(w.layout, target, n, dir, ratio);
    if !ok then Failed(LayoutError) else
    Changed(Change(AddSplit(env, g, window, n, layout, cwd, command),
                   Unzoomed(w.layout, window, w.session) + [PaneCreated(n, window, w.session, command)], n + 1), n)
  }

  function DropPane(g: Snapshot, id: PaneId): Snapshot
    requires id in g.panes && g.panes[id].window in g.windows
  {
    var window := g.panes[id].window;
    var w := g.windows[window];
    var layout := RemoveIn(w.layout, id).0;
    var active := if w.active == id then PaneIds(layout.tree)[0] else w.active;
    Tick(g.(panes := g.panes - {id},
            windows := g.windows[window := w.(layout := layout, active := active, version := w.version + 1)]))
  }

  function DestroyPane(g: Snapshot, n: nat, id: PaneId, expected: Option<nat>): Outcome<()> {
    if id !in g.panes then Failed(PaneNotFound(id)) else
    var p := g.panes[id];
    if Conflicts(expected, p.version) then Failed(VersionConflict(expected.value, p.version))
    else if |WindowPanes(g, p.window)| <= 1 then Failed(LastPane)
    else if p.window !in g.windows then Failed(WindowNotFound(p.window)) else
    var w := g.windows[p.window];
    Changed(Change(DropPane(g, id),
                   Unzoomed(w.layout, p.window, w.session)
                   + [PaneExited(id, p.window, w.session, None, p.command)], n), ())
  }

  function SetPaneTag(g: Snapshot, n: nat, id: PaneId, key: string, value: string): Outcome<()> {
    if id !in g.panes then Failed(PaneNotFound(id))
    else Changed(Change(PutPane(g, id, g.panes[id].(tags := g.panes[id].tags[key := value])), [], n), ())
  }

  function SetPaneTheme(g: Snapshot, n: nat, id: PaneId, theme: Option<string>): Outcome<()> {
    if id !in g.panes then Failed(PaneNotFound(id))
    else Changed(Change(PutPane(g, id, g.panes[id].(theme := theme)), [], n), ())
  }

  function Retitled(g: Snapshot, id: PaneId, p: Pane): seq<Event>
    requires id in g.panes && g.panes[id].window in g.windows
  {
    var old' := g.panes[id];
    if old'.title == p.title then []
    else [PaneTitleChanged(id, old'.window, g.windows[old'.window].session, old'.title, p.title)]
  }

  function SetPaneTitle(env: Env, g: Snapshot, n: nat, id: PaneId, title: Option<string>,
                        auto: Option<bool>): Outcome<()> {
    if id !in g.panes then Failed(PaneNotFound(id))
    else if g.panes[id].window !in g.windows then Failed(WindowNotFound(g.panes[id].window)) else
    var p := WithManualTitle(env, WithAutoTitle(env, g.panes[id], auto), title);
    Changed(Change(PutPane(g, id, p), Retitled(g, id, p), n), ())
  }

  function SetPaneOscTitle(env: Env, g: Snapshot, n: nat, id: PaneId, title: string): Outcome<()> {
    if id !in g.panes then Failed(PaneNotFound(id))
    else if g.panes[id].window !in g.windows then Failed(WindowNotFound(g.panes[id].window)) else
    var p := g.panes[id];
    if p.osc == Some(title) && (p.manual.Some? || !p.auto) then Unchanged(()) else
    var p' := WithOscTitle(env, p, title);
    Changed(Change(PutPane(g, id, p'), Retitled(g, id, p'), n), ())
  }

  function SetPaneExit(g: Snapshot, n: nat, id: PaneId, exit: ProgramExit): Outcome<()> {
    if id !in g.panes then Failed(PaneNotFound(id)) else
    var p := g.panes[id];
    if p.window !in g.windows then Failed(WindowNotFound(p.window)) else
    Changed(Change(PutPane(g, id, p.(exit := Some(exit))),
                   [PaneExited(id, p.window, g.windows[p.window].session, Some(exit), p.command)], n), ())
  }

  // ----- Focus and layout -----

  function FocusPane(g: Snapshot, n: nat, id: PaneId): Outcome<Option<PaneId>> {
    if id !in g.panes then Failed(PaneNotFound(id)) else
    var window := g.panes[id].window;
    if window !in g.windows then Failed(WindowNotFound(window)) else
    var w := g.windows[window];
    var previous := if w.active != id then Some(w.active) else None;
    var hidden := w.layout.zoom.Some? && w.layout.zoom.value.pane != id;
    var layout := if hidden then ToggleZoom(w.layout, w.layout.zoom.value.pane) else w.layout;
    Changed(Change(PutWindow(g, window, w.(layout := layout, active := id), hidden),
                   (if hidden then Unzoomed(w.layout, window, w.session) else [])
                   + [PaneFocused(id, window, w.session, previous)], n), previous)
  }

  function FocusPaneDirection(g: Snapshot, n: nat, window: WindowId, dir: NavDirection,
                              v: Rect): Outcome<Option<PaneId>> {
    if window !in g.windows then Failed(WindowNotFound(window)) else
    var w := g.windows[window];
    match Neighbor(w.layout.tree, w.active, dir, v)
    case None => Unchanged(None)
    case Some(target) =>
      match FocusPane(g, n, target)
      case Changed(c, _) => Changed(c, Some(target))
      case Unchanged(_) => Unchanged(Some(target))
      case Failed(e) => Failed(e)
  }

  /** The checks every layout operation on a pane makes first. */
  function PaneError(g: Snapshot, id: PaneId, expected: Option<nat>): Option<GraphError> {
    if id !in g.panes then Some(PaneNotFound(id))
    else if Conflicts(expected, g.panes[id].version) then Some(VersionConflict(expected.value, g.panes[id].version))
    else if g.panes[id].window !in g.windows then Some(WindowNotFound(g.panes[id].window))
    else None
  }

  /** No split in that direction above the pane is a success that changes nothing. */
  function ResizePane(g: Snapshot, n: nat, id: PaneId, dir: Direction, delta: real,
                      expected: Option<nat>): Outcome<()> {
    var error := PaneError(g, id, expected);
    if error.Some? then Failed(error.value) else
    var window := g.panes[id].window;
    var w := g.windows[window];
    match Layout.ResizePane(BaseTree(w.layout), id, dir, delta)
    case None => Unchanged(())
    case Some(tree) =>
      Changed(Change(PutWindow(g, window, w.(layout := LayoutState(tree, None)), true),
                     Unzoomed(w.layout, window, w.session), n), ())
  }

  function Zoomed(l: LayoutState, window: WindowId, session: SessionId): seq<Event> {
    if l.zoom.Some? then [PaneZoomed(l.zoom.value.pane, window, session, true)] else []
  }

  function ZoomPane(g: Snapshot, n: nat, id: PaneId, expected: Option<nat>): Outcome<bool> {
    var error := PaneError(g, id, expected);
    if error.Some? then Failed(error.value) else
    var window := g.panes[id].window;
    var w := g.windows[window];
    var layout := ToggleZoom(w.layout, id);
    var zoomed := layout.zoom.Some?;
    if ZoomedPane(w.layout) == ZoomedPane(layout) then Unchanged(zoomed) else
    var refocus := zoomed && w.active != id;
    var w' := w.(layout := layout, active := if refocus then id else w.active);
    Changed(Change(PutWindow(g, window, w', true),
                   Unzoomed(w.layout, window, w.session) + Zoomed(layout, window, w.session)
                   + (if refocus then [PaneFocused(id, window, w.session, Some(w.active))] else []), n), zoomed)
  }

  function ZoomPaneIfFocused(g: Snapshot, n: nat, id: PaneId, focused: PaneId): Outcome<bool> {
    var error := PaneError(g, id, None);
    if error.Some? then Failed(error.value) else
    var w := g.windows[g.panes[id].window];
    if w.active != focused || w.layout.zoom.Some? || PaneCount(w.layout.tree) < 2 then Unchanged(false)
    else ZoomPane(g, n, id, None)
  }

  function SwapPanes(g: Snapshot, n: nat, a: PaneId, b: PaneId, expected: Option<nat>): Outcome<()> {
    if a == b then Failed(PaneSwapSelf)
    else if a !in g.panes then Failed(PaneNotFound(a))
    else if b !in g.panes then Failed(PaneNotFound(b))
    else if g.panes[a].window != g.panes[b].window then Failed(PaneCrossWindow)
    else if Conflicts(expected, g.panes[a].version) then Failed(VersionConflict(expected.value, g.panes[a].version))
    else if g.panes[a].window !in g.windows then Failed(WindowNotFound(g.panes[a].window)) else
    var window := g.panes[a].window;
    var w := g.windows[window];
    match Layout.SwapPanes(BaseTree(w.layout), a, b)
    case None => Failed(LayoutError)
    case Some(tree) =>
      Changed(Change(PutWindow(g, window, w.(layout := LayoutState(tree, None)), true),
                     Unzoomed(w.layout, window, w.session), n), ())
  }

  // ----- Operations on the side maps -----

  /** The pane goes to this PTY incarnation if none newer has it. Where the program had exited, it counts as running. */
  function ClaimPanePty(s: State, id: PaneId, incarnation: nat): (State, Result<bool, GraphError>) {
    var g := s.snap;
    if id !in g.panes then (s, Err(PaneNotFound(id))) else
    var p := g.panes[id];
    if id in s.owners && s.owners[id] > incarnation then (s, Ok(false)) else
    var claimed := s.(owners := s.owners[id := incarnation]);
    if p.exit.None? then (claimed, Ok(true))
    else if p.window !in g.windows then (claimed, Err(WindowNotFound(p.window))) else
    (Commit(claimed, Change(PutPane(g, id, p.(exit := None)),
                            [PaneRespawned(id, p.window, g.windows[p.window].session, p.command)], s.supply)), Ok(true))
  }

  datatype StatusUpdate = StatusUpdate(generation: nat, enabled: bool, summary: Option<StatusSummary>, seen: bool)

  /** Accept a status publication, unless the pane has exited or a later one was accepted. */
  function SetProgramStatus(s: State, id: PaneId, u: StatusUpdate): (State, Result<(), GraphError>) {
    var g := s.snap;
    if id !in g.panes then (s, Err(PaneNotFound(id))) else
    var p := g.panes[id];
    if p.exit.Some? then (s, Ok(()))
    else if p.window !in g.windows then (s, Err(WindowNotFound(p.window))) else
    var last := if id in s.generations then s.generations[id] else 0;
    if u.generation <= last then (s.(generations := s.generations[id := last]), Ok(())) else
    var accepted := s.(generations := s.generations[id := u.generation]);
    if p.status == u.summary && p.seen == u.seen && p.enabled == u.enabled then (accepted, Ok(())) else
    (Commit(accepted, Change(PutPane(g, id, p.(status := u.summary, seen := u.seen, enabled := u.enabled)),
                             [PaneStatusChanged(id, p.window, g.windows[p.window].session, p.status, u.summary, u.seen,
                                                u.enabled)],
                             s.supply)), Ok(()))
  }

  /**
   An exit counts only from the incarnation in possession of the pane; a status sent along with it is applied before
   it.
   */
  function SetExitOwned(s: State, id: PaneId, exit: ProgramExit, incarnation: nat, last: Option<StatusUpdate>)
    : (State, Result<(), GraphError>)
  {
    if id !in s.owners || s.owners[id] != incarnation then (s, Ok(())) else
    var (s', r) := if last.Some? then SetProgramStatus(s, id, last.value) else (s, Ok(()));
    if r.Err? then (s', r) else Finish(s', SetPaneExit(s'.snap, s'.supply, id, exit))
  }

  /** Close a pane together with the window, and then the session, that would be left without any. */
  function DestroyPaneAndEmptyParents(env: Env, g: Snapshot, n: nat, id: PaneId): Outcome<()> {
    var first := DestroyPane(g, n, id, None);
    if first != Failed(LastPane) then first else
    var window := g.panes[id].window;
    if window !in g.windows then Failed(WindowNotFound(window)) else
    var second := DestroyWindow(env, g, n, window, None);
    if second != Failed(LastWindow) then second else DestroySession(env, g, n, g.windows[window].session, None)
  }
}
