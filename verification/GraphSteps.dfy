/**
 What the operations have in common. Every committed change is one of a dozen
 kinds of edit, each with the conditions its operation has checked and the
 events it publishes; invariants are proved kind by kind.
 */
module GraphSteps {
  import opened Wrappers
  import opened Layout
  import opened WindowLayouts
  import opened Titles
  import opened GraphModel
  import Ops = GraphOps
  import Batch = GraphBatch

  datatype Edit =
    | NewSession(name: string, title: string, cwd: string, command: seq<string>)
    | NewWindow(session: SessionId, title: string, cwd: string, command: seq<string>)
    | NewPane(window: WindowId, cwd: string, command: seq<string>)
    | NewSplit(target: PaneId, dir: Direction, ratio: real, cwd: string, command: seq<string>)
    | EditSession(session: SessionId, s: Session)
    | EditTitle(window: WindowId, title: string)
    | EditLayout(window: WindowId, layout: LayoutState, active: PaneId, all: bool, focus: seq<Event>)
    | EditPane(pane: PaneId, p: Pane)
    | DropPane(pane: PaneId)
    | DropWindow(window: WindowId)
    | DropSession(session: SessionId)
    | OnlyTick

  /** The edit leaves every layout as it is, and adds no pane to a window that has one. */
  predicate IsAside(e: Edit) {
    !e.NewPane? && !e.NewSplit? && !e.DropPane? && !e.EditLayout?
  }

  predicate HasRoom(env: Env, g: Snapshot, n: nat, session: SessionId, command: seq<string>, cwd: string) {
    CapacityError(env, g, n, session, command, cwd).None?
  }

  ghost predicate FitsNewSession(env: Env, g: Snapshot, n: nat, name: string, title: string, cwd: string,
                                 command: seq<string>,
                           c: Change) {
    && IsSessionName(env, name) && !NameTaken(g, name) && IsWindowTitle(title)
    && HasRoom(env, g, n, n + 2, command, cwd)
    && c == Change(Ops.AddSession(env, g, n + 2, n + 1, n, name, title, cwd, command),
                   [SessionCreated(n + 2, name), WindowCreated(n + 1, n + 2, title, 1),
                    PaneCreated(n, n + 1, n + 2, command)],
                   n + 3)
  }

  ghost predicate FitsNewWindow(env: Env, g: Snapshot, n: nat, session: SessionId, title: string, cwd: string,
                          command: seq<string>, c: Change) {
    && session in g.sessions && IsWindowTitle(title) && !TitleTaken(g, session, title)
    && HasRoom(env, g, n, session, command, cwd)
    && c == Change(Ops.AddWindow(env, g, session, n + 1, n, title, cwd, command),
                   [WindowCreated(n + 1, session, title, |g.sessions[session].windows| + 1),
                    PaneCreated(n, n + 1, session, command)],
                   n + 2)
  }

  ghost predicate FitsNewPane(env: Env, g: Snapshot, n: nat, window: WindowId, cwd: string, command: seq<string>,
                              c: Change) {
    && window in g.windows && HasRoom(env, g, n, g.windows[window].session, command, cwd)
    && c == Change(Ops.Tick(g.(panes := g.panes[n := GraphModel.NewPane(env, window, cwd, command)])),
                   [PaneCreated(n, window, g.windows[window].session, command)], n + 1)
  }

  ghost predicate FitsNewSplit(env: Env, g: Snapshot, n: nat, target: PaneId, dir: Direction, ratio: real, cwd: string,
                         command: seq<string>, c: Change) {
    && target in g.panes && g.panes[target].window in g.windows
    && var window := g.panes[target].window;
    var w := g.windows[window];
    var (layout, ok) := SplitIn(w.layout, target, n, dir, ratio);
    && ok && HasRoom(env, g, n, w.session, command, cwd)
    && c == Change(Ops.AddSplit(env, g, window, n, layout, cwd, command),
                   Ops.Unzoomed(w.layout, window, w.session) + [PaneCreated(n, window, w.session, command)], n + 1)
  }

  /** A session's record may change its name, focus and window order, never its windows. */
  ghost predicate FitsEditSession(env: Env, g: Snapshot, n: nat, id: SessionId, s: Session, c: Change) {
    && id in g.sessions
    && var was := g.sessions[id];
    && s.version == was.version
    && (NoDuplicates(was.windows) ==> NoDuplicates(s.windows))
    && (forall w :: w in was.windows <==> w in s.windows)
    && (s.active == was.active || s.active in s.windows)
    && (s.name != was.name ==> IsSessionName(env, s.name) && !NameTaken(g, s.name))
    && c == Change(Ops.PutSession(g, id, s), if s.name == was.name then [] else [SessionRenamed(id, was.name, s.name)],
                   n)
  }

  ghost predicate FitsEditTitle(g: Snapshot, n: nat, id: WindowId, title: string, c: Change) {
    && id in g.windows && g.windows[id].session in g.sessions
    && var w := g.windows[id];
    && IsWindowTitle(title) && !Ops.TitleClashes(g, w.session, id, title)
    && c == Change(Ops.PutWindow(g, id, w.(title := title), false), [WindowRenamed(id, w.session, w.title, title)], n)
  }

  function ZoomEvents(was: LayoutState, l: LayoutState, window: WindowId, session: SessionId): seq<Event> {
    if ZoomedPane(was) == ZoomedPane(l) then []
    else Ops.Unzoomed(was, window, session) + Ops.Zoomed(l, window, session)
  }

  /** The same panes behind any zoom, still distinct. */
  ghost predicate KeepsLeaves(was: LayoutState, l: LayoutState) {
    && (WellFormed(was) ==> WellFormed(l))
    && (NoDuplicates(PaneIds(BaseTree(was))) ==> NoDuplicates(PaneIds(BaseTree(l))))
    && (forall p :: p in PaneIds(BaseTree(was)) <==> p in PaneIds(BaseTree(l)))
  }

  predicate LivesIn(g: Snapshot, p: PaneId, window: WindowId) {
    p in g.panes && g.panes[p].window == window
  }

  ghost predicate FitsEditLayout(g: Snapshot, n: nat, id: WindowId, l: LayoutState, active: PaneId, all: bool,
                                 focus: seq<Event>, c: Change) {
    && id in g.windows
    && var w := g.windows[id];
    && KeepsLeaves(w.layout, l) && (l != w.layout ==> all)
    && (active == w.active || LivesIn(g, active, id))
    && (l.zoom.Some? ==> active == l.zoom.value.pane && LivesIn(g, active, id))
    && |focus| <= 1 && (forall i :: 0 <= i < |focus| ==> focus[i].PaneFocused?)
    && c == Change(Ops.PutWindow(g, id, w.(layout := l, active := active), all),
                   ZoomEvents(w.layout, l, id, w.session) + focus, n)
  }

  /** What may be said about one pane, given what changed in its record. */
  predicate PaneNews(id: PaneId, was: Pane, p: Pane, e: Event) {
    match e
    case PaneTitleChanged(q, _, _, _, _) => q == id && p.exit == was.exit
    case PaneExited(q, _, _, exit, _) => q == id && exit.Some? && p.exit == exit
    case PaneRespawned(q, _, _, _) => q == id && p.exit == None
    case PaneStatusChanged(q, _, _, _, _, _, _) => q == id && p.exit == None && was.exit == None
    case _ => false
  }

  ghost predicate FitsEditPane(g: Snapshot, n: nat, id: PaneId, p: Pane, c: Change) {
    && id in g.panes
    && var was := g.panes[id];
    && p.window == was.window && p.version == was.version && p.command == was.command && p.cwd == was.cwd
    && c.snap == Ops.PutPane(g, id, p) && c.supply == n && |c.events| <= 1
    && (if c.events == [] then p.exit == was.exit else PaneNews(id, was, p, c.events[0]))
  }

  /** What is published about a pane is true of its record before and after, and no change of note goes unpublished. */
  predicate TellsPaneTruly(g: Snapshot, id: PaneId, p: Pane, es: seq<Event>)
    requires id in g.panes
  {
    var was := g.panes[id];
    && (es != [] ==> was.window in g.windows && PaneEventIsTrue(g.windows[was.window].session, was, p, es[0]))
    && (p.title != was.title ==> es != [] && es[0].PaneTitleChanged?)
    && (p.exit != was.exit ==> es != [] && (es[0].PaneExited? || es[0].PaneRespawned?))
    && (p.status != was.status || p.seen != was.seen || p.enabled != was.enabled ==>
          es != [] && es[0].PaneStatusChanged?)
  }

  predicate PaneEventIsTrue(session: SessionId, was: Pane, p: Pane, e: Event) {
    match e
    case PaneTitleChanged(_, w, s, o, n) =>
      w == was.window && s == session && o == was.title && n == p.title && o != n
    case PaneExited(_, w, s, exit, command) =>
      w == was.window && s == session && exit == p.exit && command == was.command
    case PaneRespawned(_, w, s, command) =>
      w == was.window && s == session && command == was.command && was.exit.Some? && p.exit.None?
    case PaneStatusChanged(_, w, s, o, n, seen, enabled) =>
      && w == was.window && s == session && o == was.status && n == p.status && seen == p.seen && enabled == p.enabled
      && (o != n || seen != was.seen || enabled != was.enabled)
    case _ => false
  }

  /** A focus event names the pane focused and the one that was, and a change of focus with a layout is published. */
  predicate TellsFocusTruly(w: Window, id: WindowId, active: PaneId, focus: seq<Event>) {
    && (active != w.active ==> focus != [])
    && forall i :: 0 <= i < |focus| ==>
         focus[i] == PaneFocused(active, id, w.session, if w.active == active then None else Some(w.active))
  }

  ghost predicate FitsDropPane(g: Snapshot, n: nat, id: PaneId, c: Change) {
    && id in g.panes && g.panes[id].window in g.windows
    && var window := g.panes[id].window;
    var w := g.windows[window];
    && |WindowPanes(g, window)| > 1
    && c == Change(Ops.DropPane(g, id),
                   Ops.Unzoomed(w.layout, window, w.session)
                   + [PaneExited(id, window, w.session, None, g.panes[id].command)], n)
  }

  ghost predicate FitsDropWindow(env: Env, g: Snapshot, n: nat, id: WindowId, c: Change) {
    && id in g.windows && g.windows[id].session in g.sessions
    && var session := g.windows[id].session;
    && |g.sessions[session].windows| > 1
    && c == Change(Ops.DropWindow(g, id), Ops.Exits(g, env.walk(g), [id], session) + [WindowKilled(id, session)], n)
  }

  ghost predicate FitsDropSession(env: Env, g: Snapshot, n: nat, id: SessionId, c: Change) {
    && id in g.sessions
    && var s := g.sessions[id];
    c == Change(Ops.DropSession(g, id),
                Ops.Exits(g, env.walk(g), s.windows, id) + Ops.WindowKills(s.windows, id)
                + [SessionKilled(id, s.name)], n)
  }

  ghost predicate Fits(env: Env, g: Snapshot, n: nat, e: Edit, c: Change) {
    match e
    case NewSession(name, title, cwd, command) => FitsNewSession(env, g, n, name, title, cwd, command, c)
    case NewWindow(session, title, cwd, command) => FitsNewWindow(env, g, n, session, title, cwd, command, c)
    case NewPane(window, cwd, command) => FitsNewPane(env, g, n, window, cwd, command, c)
    case NewSplit(target, dir, ratio, cwd, command) => FitsNewSplit(env, g, n, target, dir, ratio, cwd, command, c)
    case EditSession(id, s) => FitsEditSession(env, g, n, id, s, c)
    case EditTitle(id, title) => FitsEditTitle(g, n, id, title, c)
    case EditLayout(id, l, active, all, focus) =>
      FitsEditLayout(g, n, id, l, active, all, focus, c) && TellsFocusTruly(g.windows[id], id, active, focus)
    case EditPane(id, p) =>
      && FitsEditPane(g, n, id, p, c) && TellsPaneTruly(g, id, p, c.events)
      && (TitleInSync(env, g.panes[id]) ==> TitleInSync(env, p))
    case DropPane(id) => FitsDropPane(g, n, id, c)
    case DropWindow(id) => FitsDropWindow(env, g, n, id, c)
    case DropSession(id) => FitsDropSession(env, g, n, id, c)
    case OnlyTick => c == Change(Ops.Tick(g), [], n)
  }

  // ----- The operations make only such edits -----

  /** An operation that commits makes edit `e`. */
  ghost predicate Makes<R>(env: Env, g: Snapshot, n: nat, o: Outcome<R>, e: Edit) {
    o.Changed? ==> Fits(env, g, n, e, o.change)
  }

  lemma DefaultTitleIsTitle(env: Env, command: seq<string>, cwd: string)
    ensures IsWindowTitle(DefaultTitle(env, command, cwd))
  {
    assert IsWindowTitle("window");
  }

  lemma CreateSessionMakes(env: Env, g: Snapshot, n: nat, name: string, cwd: string,
                           command: seq<string>) returns (e: Edit)
    ensures Makes(env, g, n, Ops.CreateSession(env, g, n, name, cwd, command), e)
    ensures IsAside(e)
  {
    hide CapacityError, CheckWindowTitle, IsWindowTitle, NameTaken, Ops.AddSession;
    DefaultTitleIsTitle(env, command, cwd);
    e := NewSession(name, DefaultTitle(env, command, cwd), cwd, command);
  }

  lemma StageCreateSessionMakes(env: Env, g: Snapshot, n: nat, name: string, cwd: string, command: seq<string>,
                                title: Option<string>) returns (e: Edit)
    ensures Makes(env, g, n, Batch.StageCreateSession(env, g, n, name, cwd, command, title), e)
    ensures IsAside(e)
  {
    hide CapacityError, CheckWindowTitle, IsWindowTitle, NameTaken, Ops.AddSession;
    DefaultTitleIsTitle(env, command, cwd);
    if title.Some? && title.value != "" && CheckWindowTitle(title.value).Ok? {
      e := NewSession(name, CheckWindowTitle(title.value).value, cwd, command);
    } else {
      e := NewSession(name, DefaultTitle(env, command, cwd), cwd, command);
    }
  }

  lemma CreateWindowMakes(env: Env, g: Snapshot, n: nat, session: SessionId, title: string, cwd: string,
                          command: seq<string>) returns (e: Edit)
    ensures Makes(env, g, n, Ops.CreateWindow(env, g, n, session, title, cwd, command), e)
    ensures Makes(env, g, n, Batch.StageCreateWindow(env, g, n, session, title, cwd, command), e)
    ensures IsAside(e)
  {
    hide CapacityError, CheckWindowTitle, IsWindowTitle, TitleTaken, Ops.AddWindow;
    var checked := CheckWindowTitle(title);
    e := NewWindow(session, if checked.Ok? then checked.value else "", cwd, command);
  }

  lemma SplitPaneMakes(env: Env, g: Snapshot, n: nat, target: PaneId, dir: Direction, ratio: real, command: seq<string>,
                       cwd: Option<string>) returns (e: Edit)
    ensures Makes(env, g, n, Batch.StageSplitPane(env, g, n, target, dir, ratio, command, cwd), e)
    ensures cwd.None? ==> Makes(env, g, n, Ops.SplitPane(env, g, n, target, dir, ratio, command), e)
    ensures e.NewSplit?
  {
    hide CapacityError, SplitIn, Ops.AddSplit;
    var dir' := if cwd.Some? then cwd.value else if target in g.panes then g.panes[target].cwd else "";
    e := NewSplit(target, dir, ratio, dir', command);
  }

  lemma RemoveFirstIsWithout(s: seq<WindowId>, id: WindowId)
    requires NoDuplicates(s)
    ensures Ops.RemoveFirst(s, id) == Without(s, id)
  {
    if s != [] {
      var rest := s[1..];
      assert forall i :: 0 <= i < |rest| ==> rest[i] == s[i + 1];
      if s[0] == id {
        WithoutAbsent(rest, id);
      } else {
        RemoveFirstIsWithout(rest, id);
      }
    }
  }

  lemma {:induction false} RemoveFirstMembers(s: seq<WindowId>, id: WindowId)
    ensures forall w :: w != id ==> (w in s <==> w in Ops.RemoveFirst(s, id))
  {
    if s != [] {
      assert s == [s[0]] + s[1..];
      RemoveFirstMembers(s[1..], id);
    }
  }

  lemma InsertDistinct(left: seq<WindowId>, id: WindowId, i: nat)
    requires NoDuplicates(left) && id !in left && i <= |left|
    ensures NoDuplicates(left[..i] + [id] + left[i..])
  {
    var r := left[..i] + [id] + left[i..];
    assert forall k :: 0 <= k < |r| ==> r[k] == if k < i then left[k] else if k == i then id else left[k - 1];
  }

  /** Moving a window in the order keeps the same windows, each once. */
  lemma MoveToReorders(windows: seq<WindowId>, id: WindowId, index: nat)
    requires id in windows && index < |windows|
    ensures NoDuplicates(windows) ==> NoDuplicates(Ops.MoveTo(windows, id, index))
    ensures forall w :: w in windows <==> w in Ops.MoveTo(windows, id, index)
  {
    var left := Ops.RemoveFirst(windows, id);
    RemoveFirstMembers(windows, id);
    assert left == left[..index] + left[index..];
    if NoDuplicates(windows) {
      RemoveFirstIsWithout(windows, id);
      WithoutElements(windows, id);
      assert id !in Elements(left);
      InsertDistinct(left, id, index);
    }
  }

  lemma SessionEditsMake(env: Env, g: Snapshot, n: nat, id: SessionId, name: string, expected: Option<nat>, key: string,
                         value: string, theme: Option<string>) returns (rename: Edit, tag: Edit, retheme: Edit)
    ensures Makes(env, g, n, Ops.RenameSession(env, g, n, id, name, expected), rename) && IsAside(rename)
    ensures Makes(env, g, n, Ops.SetSessionTag(g, n, id, key, value), tag) && IsAside(tag)
    ensures Makes(env, g, n, Ops.SetSessionTheme(g, n, id, theme), retheme) && IsAside(retheme)
  {
    rename, tag, retheme := OnlyTick, OnlyTick, OnlyTick;
    if id in g.sessions {
      var s := g.sessions[id];
      rename := EditSession(id, s.(name := name));
      tag := EditSession(id, s.(tags := s.tags[key := value]));
      retheme := EditSession(id, s.(theme := theme));
      if Ops.RenameSession(env, g, n, id, name, expected).Changed? {
        assert name != s.name;
      }
    }
  }

  lemma WindowOrderMakes(env: Env, g: Snapshot, n: nat, id: WindowId, index: nat, expected: Option<nat>)
    returns (focus: Edit, reorder: Edit)
    ensures Makes(env, g, n, Ops.FocusWindow(g, n, id, expected), focus) && IsAside(focus)
    ensures Makes(env, g, n, Ops.ReorderWindow(g, n, id, index, expected), reorder) && IsAside(reorder)
  {
    hide Ops.MoveTo;
    focus, reorder := OnlyTick, OnlyTick;
    if id in g.windows && g.windows[id].session in g.sessions {
      var session := g.windows[id].session;
      var s := g.sessions[session];
      focus := EditSession(session, s.(active := id));
      if index < |s.windows| && id in s.windows {
        MoveToReorders(s.windows, id, index);
        reorder := EditSession(session, s.(windows := Ops.MoveTo(s.windows, id, index)));
      }
    }
  }

  lemma WindowsMake(env: Env, g: Snapshot, n: nat, id: WindowId, title: string, expected: Option<nat>)
    returns (rename: Edit, destroy: Edit)
    ensures Makes(env, g, n, Ops.RenameWindow(g, n, id, title, expected), rename) && IsAside(rename)
    ensures Makes(env, g, n, Ops.DestroyWindow(env, g, n, id, expected), destroy) && destroy == DropWindow(id)
  {
    hide CheckWindowTitle, IsWindowTitle, Ops.TitleClashes, Ops.PutWindow, Ops.DropWindow, Ops.Exits;
    var checked := CheckWindowTitle(title);
    rename := EditTitle(id, if checked.Ok? then checked.value else "");
    destroy := DropWindow(id);
  }

  lemma DestroysMake(env: Env, g: Snapshot, n: nat, session: SessionId, pane: PaneId, expected: Option<nat>)
    returns (kill: Edit, destroy: Edit, cascade: Edit)
    ensures Makes(env, g, n, Ops.DestroySession(env, g, n, session, expected), kill) && IsAside(kill)
    ensures Makes(env, g, n, Ops.DestroyPane(g, n, pane, expected), destroy) && destroy.DropPane?
    ensures Makes(env, g, n, Ops.DestroyPaneAndEmptyParents(env, g, n, pane),
                  cascade) && (cascade.DropPane? || IsAside(cascade))
  {
    hide Ops.DropPane, Ops.DropWindow, Ops.DropSession, Ops.Exits, Ops.WindowKills, WindowPanes;
    kill, destroy, cascade := DropSession(session), DropPane(pane), DropPane(pane);
    if Ops.DestroyPane(g, n, pane, None) == Failed(LastPane) && g.panes[pane].window in g.windows {
      var window := g.panes[pane].window;
      if Ops.DestroyWindow(env, g, n, window, None) == Failed(LastWindow) {
        cascade := DropSession(g.windows[window].session);
      } else {
        cascade := DropWindow(window);
      }
    }
  }

  lemma PaneEditsMake(env: Env, g: Snapshot, n: nat, id: PaneId, key: string, value: string, theme: Option<string>,
                      exit: ProgramExit) returns (tag: Edit, retheme: Edit, gone: Edit)
    ensures Makes(env, g, n, Ops.SetPaneTag(g, n, id, key, value), tag) && IsAside(tag)
    ensures Makes(env, g, n, Ops.SetPaneTheme(g, n, id, theme), retheme) && IsAside(retheme)
    ensures Makes(env, g, n, Ops.SetPaneExit(g, n, id, exit), gone) && IsAside(gone)
  {
    hide Ops.PutPane;
    tag, retheme, gone := OnlyTick, OnlyTick, OnlyTick;
    if id in g.panes {
      var p := g.panes[id];
      tag := EditPane(id, p.(tags := p.tags[key := value]));
      retheme := EditPane(id, p.(theme := theme));
      gone := EditPane(id, p.(exit := Some(exit)));
    }
  }

  predicate OnlyTitles(was: Pane, p: Pane) {
    && p.window == was.window && p.version == was.version && p.command == was.command && p.cwd == was.cwd
    && p.exit == was.exit && p.status == was.status && p.seen == was.seen && p.enabled == was.enabled
  }

  lemma TitlesOnly(env: Env, p: Pane, manual: Option<string>, auto: Option<bool>, osc: string)
    ensures OnlyTitles(p, WithManualTitle(env, p, manual)) && OnlyTitles(p, WithAutoTitle(env, p, auto))
    ensures OnlyTitles(p, WithOscTitle(env, p, osc))
    ensures TitleInSync(env, p) ==>
              TitleInSync(env, WithAutoTitle(env, p, auto)) && TitleInSync(env, WithOscTitle(env, p, osc))
    ensures TitleInSync(env, p) ==> TitleInSync(env, WithManualTitle(env, p, manual))
  {
    hide SanitizeClamped;
  }

  lemma SetTitleMakes(env: Env, g: Snapshot, n: nat, id: PaneId, manual: Option<string>,
                      auto: Option<bool>) returns (e: Edit)
    ensures Makes(env, g, n, Ops.SetPaneTitle(env, g, n, id, manual, auto), e)
    ensures IsAside(e)
  {
    hide Ops.PutPane, WithManualTitle, WithAutoTitle, TitleInSync;
    e := OnlyTick;
    if id in g.panes {
      var p := g.panes[id];
      TitlesOnly(env, p, manual, auto, "");
      TitlesOnly(env, WithAutoTitle(env, p, auto), manual, auto, "");
      e := EditPane(id, WithManualTitle(env, WithAutoTitle(env, p, auto), manual));
    }
  }

  lemma SetOscTitleMakes(env: Env, g: Snapshot, n: nat, id: PaneId, title: string) returns (e: Edit)
    ensures Makes(env, g, n, Ops.SetPaneOscTitle(env, g, n, id, title), e)
    ensures IsAside(e)
  {
    hide Ops.PutPane, WithOscTitle, TitleInSync;
    e := OnlyTick;
    if id in g.panes {
      TitlesOnly(env, g.panes[id], None, None, title);
      e := EditPane(id, WithOscTitle(env, g.panes[id], title));
    }
  }

  lemma FocusMakes(env: Env, g: Snapshot, n: nat, id: PaneId) returns (e: Edit)
    ensures Makes(env, g, n, Ops.FocusPane(g, n, id), e)
    ensures e.EditLayout? || e.OnlyTick?
  {
    hide PaneIds, NoDuplicates, Ops.PutWindow;
    e := OnlyTick;
    if id in g.panes && g.panes[id].window in g.windows {
      var window := g.panes[id].window;
      var w := g.windows[window];
      var hidden := w.layout.zoom.Some? && w.layout.zoom.value.pane != id;
      var previous := if w.active != id then Some(w.active) else None;
      e := EditLayout(window, if hidden then ToggleZoom(w.layout, w.layout.zoom.value.pane) else w.layout, id, hidden,
                      [PaneFocused(id, window, w.session, previous)]);
    }
  }

  lemma FocusDirectionMakes(env: Env, g: Snapshot, n: nat, window: WindowId, dir: NavDirection,
                            v: Rect) returns (e: Edit)
    ensures Makes(env, g, n, Ops.FocusPaneDirection(g, n, window, dir, v), e)
    ensures e.EditLayout? || e.OnlyTick?
  {
    hide Neighbor, Ops.FocusPane, Fits;
    e := OnlyTick;
    if window in g.windows {
      var target := Neighbor(g.windows[window].layout.tree, g.windows[window].active, dir, v);
      if target.Some? {
        e := FocusMakes(env, g, n, target.value);
      }
    }
  }

  lemma {:induction false} ResizeKeepsLeaves(t: Node, p: PaneId, dir: Direction, delta: real)
    ensures Layout.ResizePane(t, p, dir, delta).Some? ==>
              PaneIds(Layout.ResizePane(t, p, dir, delta).value) == PaneIds(t)
  {
    match t
    case Leaf(_) =>
    case Split(_, _, a, b) =>
      ResizeKeepsLeaves(a, p, dir, delta);
      ResizeKeepsLeaves(b, p, dir, delta);
  }

  lemma ResizeMakes(env: Env, g: Snapshot, n: nat, id: PaneId, dir: Direction, delta: real, expected: Option<nat>)
    returns (e: Edit)
    ensures Makes(env, g, n, Ops.ResizePane(g, n, id, dir, delta, expected), e)
    ensures e.EditLayout? || e.OnlyTick?
  {
    hide PaneIds, NoDuplicates, Layout.ResizePane, Ops.PutWindow;
    e := OnlyTick;
    if Ops.PaneError(g, id, expected).None? {
      var window := g.panes[id].window;
      var w := g.windows[window];
      ResizeKeepsLeaves(BaseTree(w.layout), id, dir, delta);
      var r := Layout.ResizePane(BaseTree(w.layout), id, dir, delta);
      if r.Some? {
        e := EditLayout(window, LayoutState(r.value, None), w.active, true, []);
      }
    }
  }

  lemma ZoomMakes(env: Env, g: Snapshot, n: nat, id: PaneId, expected: Option<nat>) returns (e: Edit)
    ensures Makes(env, g, n, Ops.ZoomPane(g, n, id, expected), e)
    ensures e.EditLayout? || e.OnlyTick?
  {
    hide PaneIds, PaneCount, NoDuplicates, Ops.PutWindow;
    e := OnlyTick;
    if Ops.PaneError(g, id, expected).None? {
      var window := g.panes[id].window;
      var w := g.windows[window];
      var layout := ToggleZoom(w.layout, id);
      var refocus := layout.zoom.Some? && w.active != id;
      e := EditLayout(window, layout, if refocus then id else w.active, true,
                      if refocus then [PaneFocused(id, window, w.session, Some(w.active))] else []);
    }
  }

  lemma ZoomIfFocusedMakes(env: Env, g: Snapshot, n: nat, id: PaneId, focused: PaneId) returns (e: Edit)
    ensures Makes(env, g, n, Ops.ZoomPaneIfFocused(g, n, id, focused), e)
    ensures e.EditLayout? || e.OnlyTick?
  {
    hide Ops.ZoomPane, Fits;
    e := ZoomMakes(env, g, n, id, None);
  }

  lemma SwapKeepsLeaves(t: Node, a: PaneId, b: PaneId)
    ensures Layout.SwapPanes(t, a, b).Some? ==>
              var s := PaneIds(Layout.SwapPanes(t, a, b).value);
              (NoDuplicates(PaneIds(t)) ==> NoDuplicates(s)) && (forall p :: p in PaneIds(t) <==> p in s)
  {
    if Layout.SwapPanes(t, a, b).Some? {
      SwapInnerLeaves(t, a, b);
      var (r, s) := (PaneIds(t), PaneIds(SwapInner(t, a, b)));
      forall p | p in s
        ensures p in r
      {
        var i :| 0 <= i < |s| && s[i] == p;
        assert s[i] == SwapId(r[i], a, b);
      }
      forall p | p in r
        ensures p in s
      {
        var q := SwapId(p, a, b);
        assert q in r;
        var i :| 0 <= i < |r| && r[i] == q;
        assert s[i] == p;
      }
    }
  }

  lemma SwapMakes(env: Env, g: Snapshot, n: nat, a: PaneId, b: PaneId, expected: Option<nat>) returns (e: Edit)
    ensures Makes(env, g, n, Ops.SwapPanes(g, n, a, b, expected), e)
    ensures e.EditLayout? || e.OnlyTick?
  {
    hide PaneIds, NoDuplicates, Layout.SwapPanes, Ops.PutWindow;
    e := OnlyTick;
    if a in g.panes && g.panes[a].window in g.windows {
      var window := g.panes[a].window;
      var w := g.windows[window];
      SwapKeepsLeaves(BaseTree(w.layout), a, b);
      var r := Layout.SwapPanes(BaseTree(w.layout), a, b);
      if r.Some? {
        e := EditLayout(window, LayoutState(r.value, None), w.active, true, []);
      }
    }
  }
}
