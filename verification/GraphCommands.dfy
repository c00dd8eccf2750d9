/** What each command of the graph comes to: when it succeeds, what is then different, and that nothing else is. */
module GraphCommands {
  import opened Wrappers
  import opened Layout
  import opened LayoutFit
  import opened WindowLayouts
  import opened Titles
  import opened GraphModel
  import opened GraphSteps
  import opened GraphInvariants
  import opened GraphAgreement
  import GraphOutcomes
  import Ops = GraphOps

  // ----- What stays -----

  ghost predicate SessionsStay(g: Snapshot, g': Snapshot, but: set<SessionId>) {
    && (forall s :: s !in but ==> (s in g'.sessions <==> s in g.sessions))
    && (forall s :: s !in but && s in g.sessions ==> g'.sessions[s] == g.sessions[s])
  }

  ghost predicate WindowsStay(g: Snapshot, g': Snapshot, but: set<WindowId>) {
    && (forall w :: w !in but ==> (w in g'.windows <==> w in g.windows))
    && (forall w :: w !in but && w in g.windows ==> g'.windows[w] == g.windows[w])
  }

  ghost predicate PanesStay(g: Snapshot, g': Snapshot, but: set<PaneId>) {
    && (forall p :: p !in but ==> (p in g'.panes <==> p in g.panes))
    && (forall p :: p !in but && p in g.panes ==> g'.panes[p] == g.panes[p])
  }

  /** A refused command leaves the state as it was. */
  lemma RefusalsChangeNothing<R>(s: State, o: Outcome<R>)
    ensures Finish(s, o).1.Err? ==> Finish(s, o).0 == s
  {
  }

  // ----- Sessions -----

  /** The session `id` is new, has the name and one window with one pane, which runs the command in the directory. */
  ghost predicate MadeSession(g: Snapshot, g': Snapshot, id: SessionId, name: string, cwd: string,
                              command: seq<string>) {
    && id !in g.sessions && id in g'.sessions && g'.sessions[id].name == name && |g'.sessions[id].windows| == 1
    && var w := g'.sessions[id].windows[0];
    && g'.sessions[id].active == w && SessionsStay(g, g', {id}) && MadeWindow(g, g', w, id, cwd, command)
  }

  /** The window `w` is new, in the session, and shows one new pane, which runs the command in the directory. */
  ghost predicate MadeWindow(g: Snapshot, g': Snapshot, w: WindowId, session: SessionId, cwd: string,
                             command: seq<string>) {
    && w !in g.windows && w in g'.windows && g'.windows[w].session == session && WindowsStay(g, g', {w})
    && var p := g'.windows[w].active;
    g'.windows[w].layout == NewLayout(p) && MadePane(g, g', p, w, cwd, command)
  }

  /** The pane `p` is new, in the window, and runs the command in the directory. */
  ghost predicate MadePane(g: Snapshot, g': Snapshot, p: PaneId, w: WindowId, cwd: string, command: seq<string>) {
    && p !in g.panes && p in g'.panes && PanesStay(g, g', {p})
    && g'.panes[p].window == w && g'.panes[p].cwd == cwd && g'.panes[p].command == command && g'.panes[p].exit.None?
  }

  lemma AddSessionMakes(env: Env, g: Snapshot, n: nat, name: string, title: string, cwd: string, command: seq<string>)
    requires n !in g.panes && n + 1 !in g.windows && n + 2 !in g.sessions
    ensures var g' := Ops.AddSession(env, g, n + 2, n + 1, n, name, title, cwd, command);
            MadeSession(g, g', n + 2, name, cwd, command)
  {
    hide Sanitize;
  }

  /** A session is created exactly if its name is valid and free and there is room for its pane. */
  lemma CreateSessionMakesOne(env: Env, s: State, name: string, cwd: string, command: seq<string>)
    requires Valid(env, s)
    ensures var (s', r) := Finish(s, Ops.CreateSession(env, s.snap, s.supply, name, cwd, command));
            && (r.Ok? <==>
                  && IsSessionName(env, name) && (forall t :: t in s.snap.sessions ==> s.snap.sessions[t].name != name)
                  && HasRoom(env, s.snap, s.supply, s.supply + 2, command, cwd))
            && (r.Ok? ==> MadeSession(s.snap, s'.snap, r.value, name, cwd, command))
  {
    hide Valid, CapacityError, DefaultTitle, KeepLive, IsSessionName, Ops.AddSession, MadeSession;
    AbsentInState(env, s);
    AddSessionMakes(env, s.snap, s.supply, name, DefaultTitle(env, command, cwd), cwd, command);
  }

  /** The first window of a session is named after what its pane runs, or `window` where that makes no valid title. */
  lemma FirstWindowIsNamed(env: Env, s: State, name: string, cwd: string, command: seq<string>)
    requires Valid(env, s)
    ensures var (s', r) := Finish(s, Ops.CreateSession(env, s.snap, s.supply, name, cwd, command));
            var derived := Sanitize(env.derivedTitle(command, cwd));
            r.Ok? ==>
              && r.value in s'.snap.sessions && s'.snap.sessions[r.value].active in s'.snap.windows
              && s'.snap.windows[s'.snap.sessions[r.value].active].title
                 == if IsWindowTitle(derived) then derived else "window"
  {
    hide Valid, CapacityError, KeepLive, NameTaken, SessionNameError, IsWindowTitle, Sanitize;
    SanitizeIsClean(env.derivedTitle(command, cwd));
    WindowIsClean();
  }

  lemma WindowIsClean()
    ensures Sanitize("window") == "window"
  {
    assert IsClean("window");
    SanitizeIsClean("window");
  }

  /** There is room for a pane in a session of fewer than 1024 panes whose bytes, the pane's included, fit in 4 MiB. */
  lemma RoomIff(env: Env, g: Snapshot, n: nat, session: SessionId, command: seq<string>, cwd: string)
    ensures HasRoom(env, g, n, session, command, cwd) <==>
            && |SessionPanes(g, session)| < 1024
            && SessionBytes(env, g, session, n) + env.jsonBytes(command, cwd) <= 4 * 1024 * 1024
  {
    hide SessionBytes;
  }

  lemma AbsentInState(env: Env, s: State)
    requires Valid(env, s)
    ensures s.supply !in s.snap.panes && s.supply + 1 !in s.snap.windows && s.supply + 2 !in s.snap.sessions
  {
    hide References, Naming, AllWithinCapacity;
    AbsentWhenFresh(s.snap, s.supply);
  }

  /** A session goes with all its windows and panes. */
  lemma DestroySessionTakesAll(env: Env, s: State, id: SessionId, expected: Option<nat>)
    requires Valid(env, s)
    ensures var (s', r) := Finish(s, Ops.DestroySession(env, s.snap, s.supply, id, expected));
            var (g, g') := (s.snap, s'.snap);
            && (r.Ok? <==> id in g.sessions && (expected.None? || expected.value == g.sessions[id].version))
            && (r.Ok? ==>
                  && id !in g'.sessions && SessionsStay(g, g', {id})
                  && (forall w :: w in g'.windows <==> w in g.windows && g.windows[w].session != id)
                  && (forall w :: w in g'.windows ==> g'.windows[w] == g.windows[w])
                  && (forall p :: p in g'.panes <==> p in g.panes && !InSession(g, p, id))
                  && (forall p :: p in g'.panes ==> g'.panes[p] == g.panes[p]))
  {
    hide Naming, AllWithinCapacity, IdsBelow, WindowsHavePanes, ZoomedPanesLive, KeepLive, Ops.Exits, Ops.WindowKills,
         NoDuplicates;
    if id in s.snap.sessions {
      assert ListsItsWindows(s.snap, id);
      forall w | w in s.snap.windows
        ensures w in s.snap.sessions[id].windows <==> s.snap.windows[w].session == id
      {
        assert IsListed(s.snap, s.snap.windows[w], w);
      }
    }
  }

  /** Renaming changes the name. */
  lemma RenameSessionRenames(env: Env, s: State, id: SessionId, name: string, expected: Option<nat>)
    ensures var (s', r) := Finish(s, Ops.RenameSession(env, s.snap, s.supply, id, name, expected));
            var (g, g') := (s.snap, s'.snap);
            && (r.Ok? <==>
                  && IsSessionName(env, name) && id in g.sessions
                  && (expected.None? || expected.value == g.sessions[id].version)
                  && (forall t :: t in g.sessions ==> g.sessions[t].name != name))
            && (r.Ok? ==>
                  && id in g'.sessions && g'.sessions[id].name == name
                  && g'.sessions[id].windows == g.sessions[id].windows
                  && g'.sessions[id].active == g.sessions[id].active
                  && g'.sessions[id].tags == g.sessions[id].tags && g'.sessions[id].theme == g.sessions[id].theme
                  && SessionsStay(g, g', {id}) && g'.windows == g.windows && g'.panes == g.panes)
  {
    hide IsSessionName, KeepLive;
  }

  /** One tag set, and nothing else but the version. */
  lemma SessionTagIsSet(s: State, id: SessionId, key: string, value: string)
    ensures var (s', r) := Finish(s, Ops.SetSessionTag(s.snap, s.supply, id, key, value));
            var (g, g') := (s.snap, s'.snap);
            && (r.Ok? <==> id in g.sessions)
            && (r.Ok? ==>
                  && id in g'.sessions && key in g'.sessions[id].tags && g'.sessions[id].tags[key] == value
                  && (forall k :: k != key ==> (k in g'.sessions[id].tags <==> k in g.sessions[id].tags))
                  && (forall k :: k != key && k in g.sessions[id].tags ==>
                        g'.sessions[id].tags[k] == g.sessions[id].tags[k])
                  && g'.sessions[id].(tags := map[], version := 0) == g.sessions[id].(tags := map[], version := 0)
                  && SessionsStay(g, g', {id}) && g'.windows == g.windows && g'.panes == g.panes)
  {
    hide KeepLive;
  }

  lemma SessionThemeIsSet(s: State, id: SessionId, theme: Option<string>)
    ensures var (s', r) := Finish(s, Ops.SetSessionTheme(s.snap, s.supply, id, theme));
            var (g, g') := (s.snap, s'.snap);
            && (r.Ok? <==> id in g.sessions)
            && (r.Ok? ==>
                  && id in g'.sessions && g'.sessions[id].theme == theme
                  && g'.sessions[id].(theme := None, version := 0) == g.sessions[id].(theme := None, version := 0)
                  && SessionsStay(g, g', {id}) && g'.windows == g.windows && g'.panes == g.panes)
  {
    hide KeepLive;
  }

  // ----- Windows -----

  lemma AddWindowMakes(env: Env, g: Snapshot, n: nat, session: SessionId, title: string, cwd: string,
                       command: seq<string>)
    requires n !in g.panes && n + 1 !in g.windows && session in g.sessions && IsClean(title)
    ensures var g' := Ops.AddWindow(env, g, session, n + 1, n, title, cwd, command);
            && MadeWindow(g, g', n + 1, session, cwd, command) && g'.windows[n + 1].title == title
            && session in g'.sessions && SessionsStay(g, g', {session})
            && g'.sessions[session].windows == g.sessions[session].windows + [n + 1]
            && g'.sessions[session].active == n + 1 && g'.sessions[session].name == g.sessions[session].name
  {
    SanitizeIsClean(title);
    hide Sanitize, IsClean;
  }

  /**
   A window is created exactly if its title is valid and free in the session and there is room. It comes last in its
   session and has the focus.
   */
  lemma CreateWindowMakesOne(env: Env, s: State, session: SessionId, raw: string, cwd: string, command: seq<string>)
    requires Valid(env, s)
    ensures var (s', r) := Finish(s, Ops.CreateWindow(env, s.snap, s.supply, session, raw, cwd, command));
            var (g, g') := (s.snap, s'.snap);
            && (r.Ok? <==>
                  && IsWindowTitle(Sanitize(raw)) && session in g.sessions
                  && (forall w :: w in g.windows && g.windows[w].session == session ==>
                        g.windows[w].title != Sanitize(raw))
                  && HasRoom(env, g, s.supply, session, command, cwd))
            && (r.Ok? ==>
                  && MadeWindow(g, g', r.value, session, cwd, command) && g'.windows[r.value].title == Sanitize(raw)
                  && session in g.sessions && session in g'.sessions && SessionsStay(g, g', {session})
                  && g'.sessions[session].windows == g.sessions[session].windows + [r.value]
                  && g'.sessions[session].active == r.value && g'.sessions[session].name == g.sessions[session].name)
  {
    hide Valid, CapacityError, KeepLive, IsClean, IsWindowNumber, Sanitize, TitleTaken, Ops.AddWindow, MadeWindow,
         SessionsStay;
    AbsentInState(env, s);
    SanitizeIsClean(raw);
    TitleTakenIff(env, s, session, Sanitize(raw));
    if session in s.snap.sessions {
      AddWindowMakes(env, s.snap, s.supply, session, Sanitize(raw), cwd, command);
    }
  }

  /** In a valid graph a title is taken exactly when a window of the session has it. */
  lemma TitleTakenIff(env: Env, s: State, session: SessionId, title: string)
    requires Valid(env, s) && IsClean(title)
    ensures session in s.snap.sessions ==>
              (TitleTaken(s.snap, session, title) <==>
                 exists w :: w in s.snap.windows && s.snap.windows[w].session == session
                   && s.snap.windows[w].title == title)
  {
    SanitizeIsClean(title);
    hide Naming, AllWithinCapacity, IdsBelow, WindowsHavePanes, ZoomedPanesLive, PanesHaveWindows, NoDuplicates,
         IsClean, Sanitize;
    var g := s.snap;
    if session in g.sessions {
      assert ListsItsWindows(g, session);
      if w :| w in g.windows && g.windows[w].session == session && g.windows[w].title == title {
        assert IsListed(g, g.windows[w], w);
      }
      if TitleTaken(g, session, title) {
        var i :| 0 <= i < |g.sessions[session].windows|
          && var w := g.sessions[session].windows[i]; w in g.windows && g.windows[w].title == Sanitize(title);
        assert g.windows[g.sessions[session].windows[i]].session == session;
      }
    }
  }

  /** The window is gone with its panes; the session's other windows keep their order. */
  ghost predicate DroppedWindow(g: Snapshot, g': Snapshot, id: WindowId, session: SessionId) {
    && id !in g'.windows && WindowsStay(g, g', {id})
    && (forall p :: p in g'.panes <==> p in g.panes && g.panes[p].window != id)
    && (forall p :: p in g'.panes ==> g'.panes[p] == g.panes[p])
    && session in g.sessions && session in g'.sessions && SessionsStay(g, g', {session})
    && g'.sessions[session].windows == Without(g.sessions[session].windows, id)
    && g'.sessions[session].name == g.sessions[session].name
  }

  lemma DropWindowDrops(g: Snapshot, id: WindowId)
    requires id in g.windows && g.windows[id].session in g.sessions
    requires Without(g.sessions[g.windows[id].session].windows, id) != []
    ensures var (g', session) := (Ops.DropWindow(g, id), g.windows[id].session);
            && DroppedWindow(g, g', id, session)
            && g'.sessions[session].active
               == (if g.sessions[session].active == id then g'.sessions[session].windows[0]
                   else g.sessions[session].active)
  {
    hide Without;
  }

  /**
   A window can be destroyed exactly if its session has another. The focus moves to the first window left if it was
   there, and stays otherwise.
   */
  lemma DestroyWindowTakesItsPanes(env: Env, s: State, id: WindowId, expected: Option<nat>)
    requires Valid(env, s)
    ensures var (s', r) := Finish(s, Ops.DestroyWindow(env, s.snap, s.supply, id, expected));
            var (g, g') := (s.snap, s'.snap);
            && (r.Ok? <==>
                  && id in g.windows && (expected.None? || expected.value == g.windows[id].version)
                  && exists w :: w in g.windows && w != id && g.windows[w].session == g.windows[id].session)
            && (r.Ok? ==>
                  var session := g.windows[id].session;
                  && DroppedWindow(g, g', id, session) && g'.sessions[session].windows != []
                  && g'.sessions[session].active
                     == (if g.sessions[session].active == id then g'.sessions[session].windows[0]
                         else g.sessions[session].active))
  {
    hide Valid, KeepLive, Ops.Exits, Without, Ops.DropWindow, SessionsStay, WindowsStay;
    LastWindowIff(env, s, id);
    if id in s.snap.windows && |s.snap.sessions[s.snap.windows[id].session].windows| > 1 {
      DropWindowDrops(s.snap, id);
    }
  }

  lemma LastWindowIff(env: Env, s: State, id: WindowId)
    requires Valid(env, s)
    ensures id in s.snap.windows ==>
              var session := s.snap.windows[id].session;
              && session in s.snap.sessions
              && (|s.snap.sessions[session].windows| > 1 <==>
                    exists w :: w in s.snap.windows && w != id && s.snap.windows[w].session == session)
              && (|s.snap.sessions[session].windows| > 1 ==> Without(s.snap.sessions[session].windows, id) != [])
  {
    hide Naming, AllWithinCapacity, IdsBelow, WindowsHavePanes, ZoomedPanesLive, PanesHaveWindows;
    var g := s.snap;
    if id in g.windows {
      assert IsListed(g, g.windows[id], id);
      var session := g.windows[id].session;
      assert ListsItsWindows(g, session);
      var list := g.sessions[session].windows;
      if |list| > 1 {
        RemainingWindows(list, id);
        var w := if list[0] == id then list[1] else list[0];
        assert w in list && w != id;
      }
      if w :| w in g.windows && w != id && g.windows[w].session == session {
        assert IsListed(g, g.windows[w], w);
      }
    }
  }

  /** Renaming gives the window the sanitized title, unless a sibling has it. */
  lemma RenameWindowRenames(env: Env, s: State, id: WindowId, raw: string, expected: Option<nat>)
    requires Valid(env, s)
    ensures var (s', r) := Finish(s, Ops.RenameWindow(s.snap, s.supply, id, raw, expected));
            var (g, g') := (s.snap, s'.snap);
            && (r.Ok? <==>
                  && IsWindowTitle(Sanitize(raw)) && id in g.windows
                  && (expected.None? || expected.value == g.windows[id].version)
                  && (forall w :: w in g.windows && w != id && g.windows[w].session == g.windows[id].session ==>
                        g.windows[w].title != Sanitize(raw)))
            && (r.Ok? ==> Retitled(g, g', id, Sanitize(raw)))
  {
    hide Valid, KeepLive, IsWindowTitle, Sanitize, Ops.TitleClashes, Ops.PutWindow, Retitled;
    TitleClashesIff(env, s, id, Sanitize(raw));
    if id in s.snap.windows {
      PutTitleRetitles(s.snap, id, Sanitize(raw));
    }
  }

  /** The window has the title; it is otherwise as before, but for its version, and so is everything else. */
  ghost predicate Retitled(g: Snapshot, g': Snapshot, id: WindowId, title: string) {
    && id in g.windows && id in g'.windows && g'.windows[id].title == title
    && g'.windows[id].session == g.windows[id].session && g'.windows[id].active == g.windows[id].active
    && g'.windows[id].layout == g.windows[id].layout
    && WindowsStay(g, g', {id}) && g'.sessions == g.sessions && g'.panes == g.panes
  }

  lemma PutTitleRetitles(g: Snapshot, id: WindowId, title: string)
    requires id in g.windows
    ensures Retitled(g, Ops.PutWindow(g, id, g.windows[id].(title := title), false), id, title)
  {
  }

  lemma TitleClashesIff(env: Env, s: State, id: WindowId, title: string)
    requires Valid(env, s)
    ensures id in s.snap.windows ==>
              var session := s.snap.windows[id].session;
              && session in s.snap.sessions
              && (Ops.TitleClashes(s.snap, session, id, title) <==>
                    exists w :: w in s.snap.windows && w != id && s.snap.windows[w].session == session
                      && s.snap.windows[w].title == title)
  {
    hide Naming, AllWithinCapacity, IdsBelow, WindowsHavePanes, ZoomedPanesLive, PanesHaveWindows, NoDuplicates;
    var g := s.snap;
    if id in g.windows {
      assert IsListed(g, g.windows[id], id);
      var session := g.windows[id].session;
      assert ListsItsWindows(g, session);
      if w :| w in g.windows && w != id && g.windows[w].session == session && g.windows[w].title == title {
        assert IsListed(g, g.windows[w], w);
        var i :| 0 <= i < |g.sessions[session].windows| && g.sessions[session].windows[i] == w;
        assert Ops.TitleClashes(g, session, id, title);
      }
      if Ops.TitleClashes(g, session, id, title) {
        var i :| 0 <= i < |g.sessions[session].windows|
          && var w := g.sessions[session].windows[i]; w != id && w in g.windows && g.windows[w].title == title;
        assert g.windows[g.sessions[session].windows[i]].session == session;
      }
    }
  }

  /** Focusing succeeds on every window with the version expected, makes it active, and names the one that was. */
  lemma FocusWindowActivates(env: Env, s: State, id: WindowId, expected: Option<nat>)
    requires Valid(env, s)
    ensures var (s', r) := Finish(s, Ops.FocusWindow(s.snap, s.supply, id, expected));
            var (g, g') := (s.snap, s'.snap);
            && (r.Ok? <==> id in g.windows && (expected.None? || expected.value == g.windows[id].version))
            && (r.Ok? ==>
                  var session := g.windows[id].session;
                  && session in g.sessions && session in g'.sessions && g'.sessions[session].active == id
                  && r.value == (if g.sessions[session].active == id then None else Some(g.sessions[session].active))
                  && g'.sessions[session].windows == g.sessions[session].windows
                  && g'.sessions[session].name == g.sessions[session].name
                  && SessionsStay(g, g', {session}) && g'.windows == g.windows && g'.panes == g.panes)
  {
    hide Valid, KeepLive;
    ListedInState(env, s, id);
  }

  lemma ListedInState(env: Env, s: State, id: WindowId)
    requires Valid(env, s)
    ensures id in s.snap.windows ==> IsListed(s.snap, s.snap.windows[id], id)
    ensures id in s.snap.windows ==> NoDuplicates(s.snap.sessions[s.snap.windows[id].session].windows)
  {
    hide Naming, AllWithinCapacity, IdsBelow, WindowsHavePanes, ZoomedPanesLive, PanesHaveWindows;
    if id in s.snap.windows {
      assert IsListed(s.snap, s.snap.windows[id], id);
      assert ListsItsWindows(s.snap, s.snap.windows[id].session);
    }
  }

  /** The session's windows are in another order; nothing else has changed but its version. */
  ghost predicate Reordered(g: Snapshot, g': Snapshot, session: SessionId) {
    && session in g.sessions && session in g'.sessions && g'.sessions[session].active == g.sessions[session].active
    && g'.sessions[session].name == g.sessions[session].name
    && SessionsStay(g, g', {session}) && g'.windows == g.windows && g'.panes == g.panes
  }

  lemma PutOrderReorders(g: Snapshot, session: SessionId, windows: seq<WindowId>)
    requires session in g.sessions
    ensures var g' := Ops.PutSession(g, session, g.sessions[session].(windows := windows));
            Reordered(g, g', session) && g'.sessions[session].windows == windows
  {
  }

  /** Reordering puts the window at the index and keeps the order of the others. */
  lemma ReorderMovesTheWindow(env: Env, s: State, id: WindowId, index: nat, expected: Option<nat>)
    requires Valid(env, s)
    ensures var (s', r) := Finish(s, Ops.ReorderWindow(s.snap, s.supply, id, index, expected));
            var (g, g') := (s.snap, s'.snap);
            && (r.Ok? <==>
                  && id in g.windows && (expected.None? || expected.value == g.windows[id].version)
                  && g.windows[id].session in g.sessions && index < |g.sessions[g.windows[id].session].windows|)
            && (r.Ok? ==>
                  var session := g.windows[id].session;
                  && Reordered(g, g', session)
                  && |g'.sessions[session].windows| == |g.sessions[session].windows|
                  && g'.sessions[session].windows[index] == id
                  && Without(g'.sessions[session].windows, id) == Without(g.sessions[session].windows, id))
  {
    hide Valid, KeepLive, NoDuplicates, Without, Ops.MoveTo, Ops.PutSession, SessionsStay;
    ListedInState(env, s, id);
    var g := s.snap;
    if id in g.windows {
      var session := g.windows[id].session;
      var windows := g.sessions[session].windows;
      if index < |windows| {
        GraphOutcomes.ReorderPlaces(windows, id, index);
        PutOrderReorders(g, session, Ops.MoveTo(windows, id, index));
      }
    }
  }

  // ----- Panes -----

  /** A pane is added exactly if the window exists and there is room; the layout does not change. */
  lemma CreatePaneAddsToTheTable(env: Env, s: State, window: WindowId, cwd: string, command: seq<string>)
    requires Valid(env, s)
    ensures var (s', r) := Finish(s, Ops.CreatePane(env, s.snap, s.supply, window, cwd, command));
            var (g, g') := (s.snap, s'.snap);
            && (r.Ok? <==> window in g.windows && HasRoom(env, g, s.supply, g.windows[window].session, command, cwd))
            && (r.Ok? ==>
                  && MadePane(g, g', r.value, window, cwd, command)
                  && g'.windows == g.windows && g'.sessions == g.sessions)
  {
    hide Valid, CapacityError, KeepLive;
    AbsentInState(env, s);
  }

  /** A split's new pane is made in the target's window and directory, and has the focus. */
  ghost predicate MadeSplit(g: Snapshot, g': Snapshot, target: PaneId, p: PaneId, command: seq<string>) {
    && target in g.panes
    && var w := g.panes[target].window;
    && MadePane(g, g', p, w, g.panes[target].cwd, command)
    && w in g.windows && w in g'.windows && WindowsStay(g, g', {w}) && g'.sessions == g.sessions
    && g'.windows[w].active == p && g'.windows[w].layout.zoom.None?
    && g'.windows[w].session == g.windows[w].session && g'.windows[w].title == g.windows[w].title
  }

  lemma AddSplitMakes(env: Env, g: Snapshot, target: PaneId, n: nat, l: LayoutState, command: seq<string>)
    requires target in g.panes && g.panes[target].window in g.windows && n !in g.panes && l.zoom.None?
    ensures var w := g.panes[target].window;
            var g' := Ops.AddSplit(env, g, w, n, l, g.panes[target].cwd, command);
            MadeSplit(g, g', target, n, command) && g'.windows[w].layout == l
  {
  }

  /** In a layout that holds the window's panes, what a split does to their rectangles. */
  ghost predicate DividesTarget(
      t: Node, t': Node, v: Rect, target: PaneId, added: PaneId, dir: Direction, ratio: real)
    requires Contains(t, target)
  {
    && Contains(t', target) && Contains(t', added)
    && (RectOf(t', v, target), RectOf(t', v, added)) == SplitRect(RectOf(t, v, target), dir, ClampRatio(ratio))
    && forall p :: p != target && Contains(t, p) ==> Contains(t', p) && RectOf(t', v, p) == RectOf(t, v, p)
  }

  lemma SplitDivides(t: Node, v: Rect, target: PaneId, added: PaneId, dir: Direction, ratio: real)
    requires Contains(t, target) && !Contains(t, added)
    ensures Layout.SplitPane(t, target, added, dir, ratio).Some?
    ensures DividesTarget(t, Layout.SplitPane(t, target, added, dir, ratio).value, v, target, added, dir, ratio)
  {
    hide RectOf, SplitRect, Contains, Layout.SplitPane;
    SplitDividesTheTarget(t, v, target, added, dir, ratio, target);
    var t' := Layout.SplitPane(t, target, added, dir, ratio).value;
    forall p | p != target && Contains(t, p)
      ensures Contains(t', p) && RectOf(t', v, p) == RectOf(t, v, p)
    {
      SplitDividesTheTarget(t, v, target, added, dir, ratio, p);
    }
  }

  /**
   In a graph whose layouts and panes agree, a split succeeds on every live pane whose session has room. In every
   viewport the target's rectangle is then divided in the direction and ratio asked for, target first, and every other
   pane of the window has the rectangle it had.
   */
  lemma SplitPaneDivides(
      env: Env, s: State, target: PaneId, dir: Direction, ratio: real, command: seq<string>, v: Rect)
    requires Valid(env, s) && Agrees(s.snap)
    ensures var (s', r) := Finish(s, Ops.SplitPane(env, s.snap, s.supply, target, dir, ratio, command));
            var (g, g') := (s.snap, s'.snap);
            && (r.Ok? <==>
                  && target in g.panes && g.panes[target].window in g.windows
                  && HasRoom(env, g, s.supply, g.windows[g.panes[target].window].session, command, g.panes[target].cwd))
            && (r.Ok? ==>
                  var w := g.panes[target].window;
                  && MadeSplit(g, g', target, r.value, command)
                  && var (t, t') := (BaseTree(g.windows[w].layout), g'.windows[w].layout.tree);
                  Contains(t, target) && DividesTarget(t, t', v, target, r.value, dir, ratio))
  {
    hide Valid, Agrees, CapacityError, KeepLive, Ops.AddSplit, MadeSplit, DividesTarget, Layout.SplitPane, Contains;
    AbsentInState(env, s);
    var (g, n) := (s.snap, s.supply);
    if target in g.panes && g.panes[target].window in g.windows {
      var w := g.panes[target].window;
      var t := BaseTree(g.windows[w].layout);
      LeavesAreLive(g, w, target, n);
      SplitDivides(t, v, target, n, dir, ratio);
      AddSplitMakes(env, g, target, n, SplitIn(g.windows[w].layout, target, n, dir, ratio).0, command);
    }
  }

  lemma LeavesAreLive(g: Snapshot, w: WindowId, p: PaneId, n: nat)
    requires Agrees(g) && w in g.windows && LivesIn(g, p, w) && n !in g.panes
    ensures Contains(BaseTree(g.windows[w].layout), p) && !Contains(BaseTree(g.windows[w].layout), n)
  {
    assert AgreesAt(g, w);
  }

  /** The pane is gone from the table; the focus is on the first leaf left if it was on the pane. */
  ghost predicate DroppedPane(g: Snapshot, g': Snapshot, id: PaneId) {
    && id in g.panes && id !in g'.panes && PanesStay(g, g', {id}) && g'.sessions == g.sessions
    && var w := g.panes[id].window;
    && w in g.windows && w in g'.windows && WindowsStay(g, g', {w}) && g'.windows[w].layout.zoom.None?
    && g'.windows[w].session == g.windows[w].session && g'.windows[w].title == g.windows[w].title
    && g'.windows[w].active == (if g.windows[w].active == id then PaneIds(g'.windows[w].layout.tree)[0]
                                else g.windows[w].active)
  }

  lemma DropPaneDrops(g: Snapshot, id: PaneId)
    requires id in g.panes && g.panes[id].window in g.windows
    ensures var g' := Ops.DropPane(g, id);
            DroppedPane(g, g', id)
            && g'.windows[g.panes[id].window].layout == RemoveIn(g.windows[g.panes[id].window].layout, id).0
  {
    hide PaneIds, Layout.RemovePane;
  }

  /**
   In a graph whose layouts and panes agree, a pane can be destroyed exactly if its window has another. The rectangle
   of the split above it then goes to its sibling, and panes outside the sibling keep theirs.
   */
  lemma DestroyPaneHandsOver(env: Env, s: State, id: PaneId, expected: Option<nat>, v: Rect, p: PaneId)
    requires Valid(env, s) && Agrees(s.snap) && p != id
    ensures var (s', r) := Finish(s, Ops.DestroyPane(s.snap, s.supply, id, expected));
            var (g, g') := (s.snap, s'.snap);
            && (r.Ok? <==>
                  && id in g.panes && (expected.None? || expected.value == g.panes[id].version)
                  && exists q :: q != id && LivesIn(g, q, g.panes[id].window))
            && (r.Ok? ==>
                  && DroppedPane(g, g', id)
                  && var w := g.panes[id].window;
                  var (t, t') := (BaseTree(g.windows[w].layout), g'.windows[w].layout.tree);
                  LivesIn(g, p, w) ==>
                    && Contains(t, p) && Contains(t', p)
                    && RectOf(t', v, p) == if Contains(SiblingOf(t, id), p)
                                           then RectOf(SiblingOf(t, id), ParentRect(t, v, id), p)
                                           else RectOf(t, v, p))
  {
    hide Valid, Agrees, KeepLive, Ops.DropPane, DroppedPane, Layout.RemovePane, Contains, WindowPanes, RectOf, PaneIds;
    var g := s.snap;
    if id in g.panes {
      AliveAtHome(env, s, id);
      GraphOutcomes.CountsTellAnother(g, id);
      AnotherIff(g, id);
      DropPaneDrops(g, id);
      if LivesIn(g, p, g.panes[id].window) {
        RemoveInAgreeing(g, g.panes[id].window, id, p, v);
      }
    }
  }

  lemma AliveAtHome(env: Env, s: State, id: PaneId)
    requires Valid(env, s) && id in s.snap.panes
    ensures s.snap.panes[id].window in s.snap.windows
  {
    hide Naming, AllWithinCapacity, IdsBelow, SessionsListWindows, WindowsAreListed, WindowsHavePanes, ZoomedPanesLive;
  }

  lemma AnotherIff(g: Snapshot, id: PaneId)
    requires id in g.panes
    ensures GraphOutcomes.WindowHasAnother(g, id) <==> exists q :: q != id && LivesIn(g, q, g.panes[id].window)
  {
  }

  lemma RemoveInAgreeing(g: Snapshot, w: WindowId, id: PaneId, p: PaneId, v: Rect)
    requires Agrees(g) && w in g.windows && LivesIn(g, id, w) && LivesIn(g, p, w) && p != id
    ensures var t := BaseTree(g.windows[w].layout);
            var t' := RemoveIn(g.windows[w].layout, id).0.tree;
            && Contains(t, p) && Contains(t', p)
            && RectOf(t', v, p) == if Contains(SiblingOf(t, id), p)
                                   then RectOf(SiblingOf(t, id), ParentRect(t, v, id), p) else RectOf(t, v, p)
  {
    assert AgreesAt(g, w);
    var t := BaseTree(g.windows[w].layout);
    assert t.Split?;
    hide RectOf, Layout.RemovePane, Agrees;
    RemoveGivesToTheSibling(t, v, id, p);
  }

  /** One tag set, and nothing else but the version. */
  lemma PaneTagIsSet(s: State, id: PaneId, key: string, value: string)
    ensures var (s', r) := Finish(s, Ops.SetPaneTag(s.snap, s.supply, id, key, value));
            var (g, g') := (s.snap, s'.snap);
            && (r.Ok? <==> id in g.panes)
            && (r.Ok? ==>
                  && id in g'.panes && key in g'.panes[id].tags && g'.panes[id].tags[key] == value
                  && (forall k :: k != key ==> (k in g'.panes[id].tags <==> k in g.panes[id].tags))
                  && (forall k :: k != key && k in g.panes[id].tags ==> g'.panes[id].tags[k] == g.panes[id].tags[k])
                  && g'.panes[id].(tags := map[], version := 0) == g.panes[id].(tags := map[], version := 0)
                  && PanesStay(g, g', {id}) && g'.windows == g.windows && g'.sessions == g.sessions)
  {
    hide KeepLive;
  }

  lemma PaneThemeIsSet(s: State, id: PaneId, theme: Option<string>)
    ensures var (s', r) := Finish(s, Ops.SetPaneTheme(s.snap, s.supply, id, theme));
            var (g, g') := (s.snap, s'.snap);
            && (r.Ok? <==> id in g.panes)
            && (r.Ok? ==>
                  && id in g'.panes && g'.panes[id].theme == theme
                  && g'.panes[id].(theme := None, version := 0) == g.panes[id].(theme := None, version := 0)
                  && PanesStay(g, g', {id}) && g'.windows == g.windows && g'.sessions == g.sessions)
  {
    hide KeepLive;
  }

  // ----- Pane titles -----

  /** The pane less its title and where that comes from. */
  function Untitled(p: Pane): Pane { p.(title := "", manual := None, osc := None, auto := false) }

  /** The pane's titles may differ; nothing else has changed but its version. */
  ghost predicate OnlyTitleOf(g: Snapshot, g': Snapshot, id: PaneId) {
    && id in g.panes && id in g'.panes && PanesStay(g, g', {id}) && g'.windows == g.windows && g'.sessions == g.sessions
    && Untitled(g'.panes[id]).(version := 0) == Untitled(g.panes[id]).(version := 0)
  }

  lemma PutTitles(g: Snapshot, id: PaneId, p: Pane)
    requires id in g.panes && Untitled(p) == Untitled(g.panes[id])
    ensures var g' := Ops.PutPane(g, id, p);
            && OnlyTitleOf(g, g', id) && g'.panes[id].title == p.title && g'.panes[id].manual == p.manual
            && g'.panes[id].osc == p.osc && g'.panes[id].auto == p.auto
  {
  }

  /**
   `p` is the pane `was` after its manual title was set to `title` and its auto flag to `auto`, each where given: a
   manual title is shown clamped; clearing it shows the program's title, else the derived one, or with auto off pins
   what was shown.
   */
  ghost predicate ShowsManual(env: Env, was: Pane, p: Pane, title: Option<string>, auto: Option<bool>) {
    && p.auto == (if auto.Some? then auto.value else was.auto) && p.osc == was.osc
    && p.manual == (if title.Some? then Some(SanitizeClamped(title.value)) else None)
    && (title.Some? ==> p.title == SanitizeClamped(title.value))
    && (title.None? && p.auto && was.osc.Some? ==> p.title == was.osc.value)
    && (title.None? && p.auto && was.osc.None? ==> p.title == env.derivedTitle(was.command, was.cwd))
    && (title.None? && !p.auto ==> p.title == was.title)
  }

  lemma ManualTitleShown(env: Env, was: Pane, title: Option<string>, auto: Option<bool>)
    requires TitleInSync(env, was)
    ensures ShowsManual(env, was, WithManualTitle(env, WithAutoTitle(env, was, auto), title), title, auto)
  {
    hide SanitizeClamped;
  }

  lemma RetitleIsAll(env: Env, p: Pane)
    ensures Untitled(Retitle(env, p)) == Untitled(p)
  {
  }

  lemma ManualTitleIsAll(env: Env, was: Pane, title: Option<string>, auto: Option<bool>)
    ensures Untitled(WithManualTitle(env, WithAutoTitle(env, was, auto), title)) == Untitled(was)
  {
    hide SanitizeClamped, Retitle;
    var p := WithAutoTitle(env, was, auto);
    assert Untitled(p) == Untitled(was) by {
      if auto.Some? { RetitleIsAll(env, was.(auto := auto.value)); }
    }
    RetitleIsAll(env, p.(manual := if title.None? then None else Some(SanitizeClamped(title.value))));
  }

  /** Setting a pane's title succeeds on every live pane and changes what that pane shows, and nothing else. */
  lemma SetTitleShows(env: Env, s: State, id: PaneId, title: Option<string>, auto: Option<bool>)
    requires Valid(env, s) && id in s.snap.panes && TitleInSync(env, s.snap.panes[id])
    ensures var (s', r) := Finish(s, Ops.SetPaneTitle(env, s.snap, s.supply, id, title, auto));
            && r.Ok? && OnlyTitleOf(s.snap, s'.snap, id) && id in s'.snap.panes
            && ShowsManual(env, s.snap.panes[id], s'.snap.panes[id], title, auto)
  {
    hide Valid, KeepLive, SanitizeClamped, Ops.PutPane, OnlyTitleOf, Ops.Retitled, WithManualTitle, WithAutoTitle;
    AliveAtHome(env, s, id);
    var p := WithManualTitle(env, WithAutoTitle(env, s.snap.panes[id], auto), title);
    ManualTitleShown(env, s.snap.panes[id], title, auto);
    ManualTitleIsAll(env, s.snap.panes[id], title, auto);
    PutTitles(s.snap, id, p);
  }

  /** A program's own title is stored clamped, and shown exactly where no manual one is set and auto is on. */
  lemma OscTitleShows(env: Env, s: State, id: PaneId, title: string)
    requires Valid(env, s) && id in s.snap.panes && TitleInSync(env, s.snap.panes[id])
    ensures var (s', r) := Finish(s, Ops.SetPaneOscTitle(env, s.snap, s.supply, id, title));
            var (g, g') := (s.snap, s'.snap);
            && r.Ok? && id in g'.panes
            && var (was, p) := (g.panes[id], g'.panes[id]);
            var fast := was.osc == Some(title) && (was.manual.Some? || !was.auto);
            && p.manual == was.manual && p.auto == was.auto
            && (if fast then g' == g
                else OnlyTitleOf(g, g', id)
                     && p.osc == (if SanitizeClamped(title) == "" then None else Some(SanitizeClamped(title))))
            && (was.manual.None? && was.auto && SanitizeClamped(title) != "" ==> p.title == SanitizeClamped(title))
            && (was.manual.None? && was.auto && SanitizeClamped(title) == "" ==>
                  p.title == env.derivedTitle(was.command, was.cwd))
            && (was.manual.Some? || !was.auto ==> p.title == was.title)
  {
    hide Valid, KeepLive, SanitizeClamped, Ops.PutPane, OnlyTitleOf, Ops.Retitled;
    AliveAtHome(env, s, id);
    PutTitles(s.snap, id, WithOscTitle(env, s.snap.panes[id], title));
  }

  // ----- Exits and claims -----

  /** The pane's exit may differ; nothing else has changed but its version. */
  ghost predicate OnlyExitOf(g: Snapshot, g': Snapshot, id: PaneId) {
    && id in g.panes && id in g'.panes && PanesStay(g, g', {id}) && g'.windows == g.windows && g'.sessions == g.sessions
    && g'.panes[id].(exit := None, version := 0) == g.panes[id].(exit := None, version := 0)
  }

  /** An exit is recorded on every live pane. */
  lemma ExitIsRecorded(env: Env, s: State, id: PaneId, exit: ProgramExit)
    requires Valid(env, s)
    ensures var (s', r) := Finish(s, Ops.SetPaneExit(s.snap, s.supply, id, exit));
            && (r.Ok? <==> id in s.snap.panes)
            && (r.Ok? ==> OnlyExitOf(s.snap, s'.snap, id) && s'.snap.panes[id].exit == Some(exit))
  {
    hide Valid, KeepLive;
    if id in s.snap.panes {
      AliveAtHome(env, s, id);
    }
  }

  /** A claim is accepted unless a newer one stands, and the pane it takes is running. */
  lemma ClaimTakesThePane(env: Env, s: State, id: PaneId, incarnation: nat)
    requires Valid(env, s)
    ensures var (s', r) := Ops.ClaimPanePty(s, id, incarnation);
            && (r.Ok? <==> id in s.snap.panes)
            && (r.Ok? ==> (r.value <==> id !in s.owners || s.owners[id] <= incarnation))
            && (r == Ok(false) || r.Err? ==> s' == s)
            && (r == Ok(true) ==>
                  && id in s'.owners && s'.owners[id] == incarnation
                  && OnlyExitOf(s.snap, s'.snap, id) && s'.snap.panes[id].exit.None?)
  {
    hide Valid;
    if id in s.snap.panes {
      AliveAtHome(env, s, id);
    }
  }

  /** The owner's exit is recorded; a status that comes with it is applied first, as far as it is newer. */
  lemma OwnedExitIsRecorded(env: Env, s: State, id: PaneId, exit: ProgramExit, incarnation: nat,
                            last: Option<Ops.StatusUpdate>)
    requires Valid(env, s) && id in s.owners && s.owners[id] == incarnation
    ensures var (s', r) := Ops.SetExitOwned(s, id, exit, incarnation, last);
            && r.Ok? && id in s.snap.panes && id in s'.snap.panes && s'.snap.panes[id].exit == Some(exit)
            && s'.events != [] && s'.events[|s'.events| - 1].PaneExited? && s'.events[|s'.events| - 1].pane == id
            && s'.events[|s'.events| - 1].exit == Some(exit)
  {
    hide Valid, Ops.SetProgramStatus, Ops.SetPaneExit, Finish;
    OwnedIsLive(env, s, id);
    AliveAtHome(env, s, id);
    if last.Some? {
      StatusKeepsPlace(s, id, last.value);
      ExitComesLast(Ops.SetProgramStatus(s, id, last.value).0, id, exit);
    } else {
      ExitComesLast(s, id, exit);
    }
  }

  lemma ExitComesLast(s: State, id: PaneId, exit: ProgramExit)
    requires id in s.snap.panes && s.snap.panes[id].window in s.snap.windows
    ensures var (s', r) := Finish(s, Ops.SetPaneExit(s.snap, s.supply, id, exit));
            && r.Ok? && id in s'.snap.panes && s'.snap.panes[id].exit == Some(exit)
            && s'.events != [] && s'.events[|s'.events| - 1].PaneExited? && s'.events[|s'.events| - 1].pane == id
            && s'.events[|s'.events| - 1].exit == Some(exit)
  {
    hide KeepLive;
  }

  lemma OwnedIsLive(env: Env, s: State, id: PaneId)
    requires Valid(env, s) && id in s.owners
    ensures id in s.snap.panes
  {
    hide References, Naming, AllWithinCapacity;
  }

  lemma StatusKeepsPlace(s: State, id: PaneId, u: Ops.StatusUpdate)
    requires id in s.snap.panes && s.snap.panes[id].window in s.snap.windows
    ensures var (s', r) := Ops.SetProgramStatus(s, id, u);
            && r.Ok? && id in s'.snap.panes && s'.snap.panes[id].window == s.snap.panes[id].window
            && s'.snap.windows == s.snap.windows
  {
    hide KeepLive;
  }

  // ----- Layouts -----

  /** Only the window's layout, focus and version, and its panes' versions, may differ. */
  ghost predicate OnlyLayoutOf(g: Snapshot, g': Snapshot, w: WindowId) {
    && w in g.windows && w in g'.windows && WindowsStay(g, g', {w}) && g'.sessions == g.sessions
    && g'.windows[w].session == g.windows[w].session && g'.windows[w].title == g.windows[w].title
    && g'.panes.Keys == g.panes.Keys
    && forall p :: p in g.panes ==> g'.panes[p].(version := 0) == g.panes[p].(version := 0)
  }

  lemma PutLayout(g: Snapshot, id: WindowId, l: LayoutState, active: PaneId)
    requires id in g.windows
    ensures var g' := Ops.PutWindow(g, id, g.windows[id].(layout := l, active := active), true);
            OnlyLayoutOf(g, g', id) && g'.windows[id].layout == l && g'.windows[id].active == active
  {
  }

  /** Swapped panes trade rectangles in every viewport; the other panes of the window keep theirs. */
  lemma SwapPanesTrades(env: Env, s: State, a: PaneId, b: PaneId, expected: Option<nat>, v: Rect, p: PaneId)
    requires Valid(env, s) && Agrees(s.snap)
    ensures var (s', r) := Finish(s, Ops.SwapPanes(s.snap, s.supply, a, b, expected));
            var (g, g') := (s.snap, s'.snap);
            && (r.Ok? <==>
                  && a != b && a in g.panes && b in g.panes && g.panes[a].window == g.panes[b].window
                  && (expected.None? || expected.value == g.panes[a].version))
            && (r.Ok? ==>
                  var w := g.panes[a].window;
                  && OnlyLayoutOf(g, g', w) && g'.windows[w].active == g.windows[w].active
                  && g'.windows[w].layout.zoom.None?
                  && (LivesIn(g, p, w) ==>
                        var (t, t') := (BaseTree(g.windows[w].layout), g'.windows[w].layout.tree);
                        && Contains(t, p) && Contains(t', SwapId(p, a, b))
                        && RectOf(t', v, SwapId(p, a, b)) == RectOf(t, v, p)))
  {
    hide Valid, Agrees, KeepLive, Ops.PutWindow, OnlyLayoutOf, SwapInner, Contains, RectOf;
    var g := s.snap;
    if a in g.panes && b in g.panes && g.panes[a].window == g.panes[b].window {
      AliveAtHome(env, s, a);
      var w := g.panes[a].window;
      var t := BaseTree(g.windows[w].layout);
      LeafIsThere(g, w, a);
      LeafIsThere(g, w, b);
      PutLayout(g, w, LayoutState(SwapInner(t, a, b), None), g.windows[w].active);
      if LivesIn(g, p, w) {
        LeafIsThere(g, w, p);
        DistinctLeaves(g, w);
        SwapTradesRectangles(t, v, a, b, p);
      }
    }
  }

  lemma LeafIsThere(g: Snapshot, w: WindowId, p: PaneId)
    requires Agrees(g) && w in g.windows && LivesIn(g, p, w)
    ensures Contains(BaseTree(g.windows[w].layout), p)
  {
    assert AgreesAt(g, w);
  }

  lemma DistinctLeaves(g: Snapshot, w: WindowId)
    requires Agrees(g) && w in g.windows
    ensures NoDuplicates(PaneIds(BaseTree(g.windows[w].layout)))
  {
    assert AgreesAt(g, w);
  }

  /** Growing a pane never makes it smaller, shrinking it never larger; with no split to move nothing happens. */
  lemma ResizePaneMoves(env: Env, s: State, id: PaneId, dir: Direction, delta: real, expected: Option<nat>, v: Rect)
    requires Valid(env, s) && id in s.snap.panes
    ensures var (s', r) := Finish(s, Ops.ResizePane(s.snap, s.supply, id, dir, delta, expected));
            var (g, g', w) := (s.snap, s'.snap, s.snap.panes[id].window);
            && w in g.windows
            && var t := BaseTree(g.windows[w].layout);
            && (r.Ok? <==> expected.None? || expected.value == g.panes[id].version)
            && (r.Ok? && !HasAlong(Ancestors(t, id), dir) ==> s' == s)
            && (r.Ok? && HasAlong(Ancestors(t, id), dir) ==>
                  && OnlyLayoutOf(g, g', w) && g'.windows[w].active == g.windows[w].active
                  && g'.windows[w].layout.zoom.None?
                  && var t' := g'.windows[w].layout.tree;
                  && PaneIds(t') == PaneIds(t) && Contains(t, id) && Contains(t', id)
                  && (delta >= 0.0 ==> Along(RectOf(t', v, id), dir) >= Along(RectOf(t, v, id), dir))
                  && (delta <= 0.0 ==> Along(RectOf(t', v, id), dir) <= Along(RectOf(t, v, id), dir)))
  {
    hide Valid, KeepLive, Ops.PutWindow, OnlyLayoutOf, HasAlong, Ancestors, Layout.ResizePane, PaneIds, RectOf,
         Contains;
    AliveAtHome(env, s, id);
    var g := s.snap;
    var w := g.panes[id].window;
    var t := BaseTree(g.windows[w].layout);
    ResizeSucceedsIff(t, id, dir, delta);
    var r := Layout.ResizePane(t, id, dir, delta);
    if r.Some? {
      PutLayout(g, w, LayoutState(r.value, None), g.windows[w].active);
      ResizeMovesTowardsDelta(t, v, id, dir, delta);
      ResizeKeepsLeaves(t, id, dir, delta);
    }
  }

  /** A zoom shows just its pane, over the whole viewport, and gives it the focus; the second time it shows the tree. */
  lemma ZoomPaneFills(env: Env, s: State, id: PaneId, expected: Option<nat>, v: Rect)
    requires Valid(env, s) && Agrees(s.snap) && id in s.snap.panes
    ensures var (s', r) := Finish(s, Ops.ZoomPane(s.snap, s.supply, id, expected));
            var (g, g', w) := (s.snap, s'.snap, s.snap.panes[id].window);
            && w in g.windows && w in g'.windows
            && var (l, l') := (g.windows[w].layout, g'.windows[w].layout);
            && (r.Ok? <==> expected.None? || expected.value == g.panes[id].version)
            && (r.Ok? ==>
                  && r.value == l'.zoom.Some? && BaseTree(l') == BaseTree(l)
                  && (r.value <==> ZoomedPane(l) != Some(id) && |PaneIds(BaseTree(l))| > 1)
                  && (r.value ==> ComputeRects(l'.tree, v) == [(id, v)] && g'.windows[w].active == id)
                  && (!r.value ==>
                        && ComputeRects(l'.tree, v) == ComputeRects(BaseTree(l), v)
                        && g'.windows[w].active == g.windows[w].active))
  {
    hide Valid, Agrees, KeepLive, Ops.PutWindow, PaneIds, ComputeRects, Contains, ToggleZoom, WellFormed, Ops.ZoomPane,
         BaseTree, OnlyLayoutOf;
    AliveAtHome(env, s, id);
    ZoomCommits(s.snap, s.supply, id, expected);
    var (g, w) := (s.snap, s.snap.panes[id].window);
    var l := g.windows[w].layout;
    LeafIsThere(g, w, id);
    ShownWell(g, w);
    ToggledZoom(l, id, v);
    PutLayout(g, w, ToggleZoom(l, id), if ToggleZoom(l, id).zoom.Some? then id else g.windows[w].active);
  }

  lemma ZoomCommits(g: Snapshot, n: nat, id: PaneId, expected: Option<nat>)
    requires id in g.panes && g.panes[id].window in g.windows
    ensures var o := Ops.ZoomPane(g, n, id, expected);
            var (w, window) := (g.windows[g.panes[id].window], g.panes[id].window);
            var l' := ToggleZoom(w.layout, id);
            && (o.Failed? <==> expected.Some? && expected.value != g.panes[id].version)
            && (o.Unchanged? ==> ZoomedPane(w.layout) == ZoomedPane(l') && o.reply == l'.zoom.Some?)
            && (o.Changed? ==>
                  && o.reply == l'.zoom.Some?
                  && o.change.snap == Ops.PutWindow(
                       g, window, w.(layout := l', active := if l'.zoom.Some? then id else w.active), true))
  {
    hide ToggleZoom, Ops.PutWindow;
  }

  lemma ToggledZoom(l: LayoutState, id: PaneId, v: Rect)
    requires WellFormed(l) && Contains(BaseTree(l), id)
    ensures var l' := ToggleZoom(l, id);
            && BaseTree(l') == BaseTree(l)
            && (l'.zoom.Some? <==> ZoomedPane(l) != Some(id) && |PaneIds(BaseTree(l))| > 1)
            && (l'.zoom.Some? ==> l'.zoom.value.pane == id && ComputeRects(l'.tree, v) == [(id, v)])
            && (l'.zoom.None? ==> ComputeRects(l'.tree, v) == ComputeRects(BaseTree(l), v))
            && (ZoomedPane(l) == ZoomedPane(l') ==> l.zoom.None? && l' == l)
  {
    hide PaneIds, Contains;
    RectsInPaneOrder(BaseTree(l), v);
  }

  lemma ShownWell(g: Snapshot, w: WindowId)
    requires Agrees(g) && w in g.windows
    ensures WellFormed(g.windows[w].layout)
  {
    assert AgreesAt(g, w);
  }

  /** Directional focus goes to the neighbour of the focused pane among what is shown, or nowhere. */
  lemma DirectionalFocusMoves(env: Env, s: State, w: WindowId, dir: NavDirection, v: Rect)
    requires Valid(env, s) && Agrees(s.snap) && w in s.snap.windows
    ensures var (s', r) := Finish(s, Ops.FocusPaneDirection(s.snap, s.supply, w, dir, v));
            var (g, g') := (s.snap, s'.snap);
            && r.Ok? && r.value == Neighbor(g.windows[w].layout.tree, g.windows[w].active, dir, v)
            && w in g'.windows
            && g'.windows[w].active == (if r.value.Some? then r.value.value else g.windows[w].active)
            && (r.value.None? ==> s' == s)
  {
    hide Valid, Agrees, KeepLive, Neighbor, PaneIds, PaneCount, BumpPanes;
    var target := Neighbor(s.snap.windows[w].layout.tree, s.snap.windows[w].active, dir, v);
    if target.Some? {
      ShownIsLive(s.snap, w, target.value);
    }
  }

  lemma ShownIsLive(g: Snapshot, w: WindowId, p: PaneId)
    requires Agrees(g) && w in g.windows && Contains(g.windows[w].layout.tree, p)
    ensures LivesIn(g, p, w)
  {
    assert AgreesAt(g, w);
  }

  /** Zooming on condition zooms exactly if the pane given has the focus, nothing is zoomed and there are two panes. */
  lemma ZoomIfFocusedZooms(env: Env, s: State, id: PaneId, focused: PaneId)
    requires Valid(env, s) && Agrees(s.snap) && id in s.snap.panes
    ensures var (s', r) := Finish(s, Ops.ZoomPaneIfFocused(s.snap, s.supply, id, focused));
            var (g, g', w) := (s.snap, s'.snap, s.snap.panes[id].window);
            && w in g.windows && w in g'.windows && r.Ok?
            && (r.value <==>
                  && g.windows[w].active == focused && g.windows[w].layout.zoom.None?
                  && |PaneIds(BaseTree(g.windows[w].layout))| > 1)
            && (r.value ==> ZoomedPane(g'.windows[w].layout) == Some(id) && g'.windows[w].active == id)
            && (!r.value ==> s' == s)
  {
    hide Valid, Agrees, KeepLive, Ops.PutWindow, PaneIds, PaneCount, Contains;
    AliveAtHome(env, s, id);
    var (g, w) := (s.snap, s.snap.panes[id].window);
    var l := g.windows[w].layout;
    LeafIsThere(g, w, id);
    RectsInPaneOrder(BaseTree(l), Rect(0, 0, 0, 0));
    PutLayout(g, w, ToggleZoom(l, id), id);
  }
}
