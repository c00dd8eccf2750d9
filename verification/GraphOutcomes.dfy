/** What single commands come to: titles in sync, cascades, focus, and commands that undo each other. */
module GraphOutcomes {
  import opened Wrappers
  import opened Layout
  import opened WindowLayouts
  import opened GraphModel
  import opened GraphSteps
  import opened GraphRuns
  import opened GraphInvariants
  import opened GraphAgreement
  import Ops = GraphOps

  // ----- The title cache -----

  ghost predicate TitlesInSync(env: Env, g: Snapshot) {
    forall p :: p in g.panes ==> TitleInSync(env, g.panes[p])
  }

  lemma AddsKeepTitles(env: Env, g: Snapshot, n: nat, e: Edit, c: Change)
    requires (e.NewSession? || e.NewWindow? || e.NewPane? || e.NewSplit?)
    requires Fits(env, g, n, e, c) && TitlesInSync(env, g)
    ensures TitlesInSync(env, c.snap)
  {
    hide HasRoom, IsSessionName, NameTaken, TitleTaken, SplitIn;
  }

  lemma DropsKeepTitles(env: Env, g: Snapshot, n: nat, e: Edit, c: Change)
    requires (e.DropPane? || e.DropWindow? || e.DropSession?) && Fits(env, g, n, e, c) && TitlesInSync(env, g)
    ensures TitlesInSync(env, c.snap)
  {
    hide RemoveIn, PaneIds, WindowPanes, Ops.Exits, Ops.WindowKills, Without, TitleInSync;
  }

  lemma EditsKeepTitles(env: Env, g: Snapshot, n: nat, e: Edit, c: Change)
    requires (e.EditSession? || e.EditTitle? || e.EditLayout? || e.EditPane? || e.OnlyTick?) && Fits(env, g, n, e, c)
    requires TitlesInSync(env, g)
    ensures TitlesInSync(env, c.snap)
  {
    hide IsSessionName, NameTaken, NoDuplicates, Ops.TitleClashes, KeepsLeaves, ZoomEvents, PaneNews;
  }

  lemma {:induction false} MovesKeepTitles(env: Env, s: State, ms: seq<Move>)
    requires TitlesInSync(env, s.snap) && EnabledAll(env, s, ms)
    ensures TitlesInSync(env, AfterAll(s, ms).snap)
    decreases |ms|
  {
    hide Fits, TitlesInSync, KeepLive;
    if ms != [] {
      var m := ms[0];
      if m.Edited? {
        var e := m.edit;
        if e.NewSession? || e.NewWindow? || e.NewPane? || e.NewSplit? {
          AddsKeepTitles(env, s.snap, s.supply, e, m.change);
        } else if e.DropPane? || e.DropWindow? || e.DropSession? {
          DropsKeepTitles(env, s.snap, s.supply, e, m.change);
        } else {
          EditsKeepTitles(env, s.snap, s.supply, e, m.change);
        }
      }
      MovesKeepTitles(env, After(s, m), ms[1..]);
    }
  }

  /** In every reachable graph each pane's stored title is the one its sources resolve to. */
  lemma StoredTitlesAreEffective(env: Env, cs: seq<Command>)
    ensures TitlesInSync(env, Run(env, EMPTY, cs).snap)
  {
    assert TitlesInSync(env, EMPTY_SNAPSHOT);
    hide Exec, Enabled, After, TitlesInSync;
    var ms := RunMoves(env, EMPTY, cs);
    MovesKeepTitles(env, EMPTY, ms);
  }

  // ----- Reordering -----

  lemma {:induction false} WithoutKeepsOut(s: seq<WindowId>, id: WindowId)
    ensures id !in Without(s, id)
  {
    if s != [] {
      WithoutKeepsOut(s[1..], id);
    }
  }

  /** The window lands at the index asked for, and the others keep their order. */
  lemma ReorderPlaces(windows: seq<WindowId>, id: WindowId, index: nat)
    requires NoDuplicates(windows) && id in windows && index < |windows|
    ensures var r := Ops.MoveTo(windows, id, index);
            |r| == |windows| && r[index] == id && Without(r, id) == Without(windows, id)
  {
    hide Without, Ops.RemoveFirst, NoDuplicates;
    var left := Ops.RemoveFirst(windows, id);
    RemoveFirstIsWithout(windows, id);
    WithoutKeepsOut(windows, id);
    WithoutOfInsert(left[..index], id, left[index..]);
    assert left == left[..index] + left[index..];
  }

  lemma WithoutOfInsert(a: seq<WindowId>, id: WindowId, b: seq<WindowId>)
    requires id !in a && id !in b
    ensures Without(a + [id] + b, id) == a + b
  {
    WithoutConcat(a + [id], b, id);
    WithoutConcat(a, [id], id);
    WithoutAbsent(a, id);
    WithoutAbsent(b, id);
    assert Without([id], id) == [];
  }

  // ----- Focus and zoom -----

  /** Focusing succeeds on every live pane, and the window then shows that pane. */
  lemma FocusShowsThePane(env: Env, s: State, id: PaneId)
    requires Valid(env, s) && id in s.snap.panes
    ensures var (s', r) := Finish(s, Ops.FocusPane(s.snap, s.supply, id));
            var w := s.snap.panes[id].window;
            && r.Ok? && w in s.snap.windows && w in s'.snap.windows
            && s'.snap.windows[w].active == id
            && (s'.snap.windows[w].layout.zoom.None? || s'.snap.windows[w].layout.zoom.value.pane == id)
            && BaseTree(s'.snap.windows[w].layout) == BaseTree(s.snap.windows[w].layout)
            && (r.value.None? <==> s.snap.windows[w].active == id)
            && (r.value.Some? ==> r.value.value == s.snap.windows[w].active)
            && forall v :: v in s.snap.windows && v != w ==>
                 v in s'.snap.windows && s'.snap.windows[v] == s.snap.windows[v]
  {
    hide Naming, AllWithinCapacity, SessionsListWindows, WindowsAreListed, WindowsHavePanes, ZoomedPanesLive, KeepLive,
         PaneIds, PaneCount, BumpPanes;
  }

  /** What one zoom command makes of its window's layout, and what it leaves of the pane. */
  lemma ZoomToggles(env: Env, s: State, id: PaneId)
    requires id in s.snap.panes && s.snap.panes[id].window in s.snap.windows
    requires WellFormed(s.snap.windows[s.snap.panes[id].window].layout)
    ensures var s' := Exec(env, s, ZoomPane(id, None));
            var w := s.snap.panes[id].window;
            && id in s'.snap.panes && s'.snap.panes[id].window == w && w in s'.snap.windows
            && s'.snap.windows[w].layout == ToggleZoom(s.snap.windows[w].layout, id)
  {
    hide KeepLive, PaneIds, PaneCount;
  }

  /** Zooming a pane of an unzoomed window twice restores the window's layout. */
  lemma ZoomTwiceRestores(env: Env, s: State, id: PaneId)
    requires Valid(env, s) && Agrees(s.snap) && id in s.snap.panes
    requires s.snap.windows[s.snap.panes[id].window].layout.zoom.None?
    ensures var s' := Exec(env, Exec(env, s, ZoomPane(id, None)), ZoomPane(id, None));
            var w := s.snap.panes[id].window;
            w in s'.snap.windows && s'.snap.windows[w].layout == s.snap.windows[w].layout
  {
    hide Naming, AllWithinCapacity, SessionsListWindows, WindowsAreListed, WindowsHavePanes, ZoomedPanesLive, Exec,
         PaneIds, PaneCount, NoDuplicates, ToggleZoom, LeavesArePanes, FocusIsShown;
    var w := s.snap.panes[id].window;
    assert AgreesAt(s.snap, w);
    var l := s.snap.windows[w].layout;
    ToggleZoomTwice(l, id);
    EditsKeepWellFormed(l, id, id, Vertical, 0.5);
    ZoomToggles(env, s, id);
    ZoomToggles(env, Exec(env, s, ZoomPane(id, None)), id);
  }

  // ----- Commands that undo each other -----

  /** What a split commits, and what destroying a pane that is not its window's last commits. */
  lemma SplitCommits(env: Env, s: State, target: PaneId, dir: Direction, ratio: real, command: seq<string>)
    requires Ops.SplitPane(env, s.snap, s.supply, target, dir, ratio, command).Changed?
    ensures target in s.snap.panes && s.snap.panes[target].window in s.snap.windows
    ensures var (w, p) := (s.snap.panes[target].window, s.snap.panes[target]);
            var (l, ok) := SplitIn(s.snap.windows[w].layout, target, s.supply, dir, ratio);
            ok && Exec(env, s, SplitPane(target, dir, ratio, command)).snap
                  == Ops.AddSplit(env, s.snap, w, s.supply, l, p.cwd, command)
  {
    hide CapacityError, SplitIn, Ops.AddSplit, KeepLive;
  }

  lemma DestroyCommits(env: Env, s: State, id: PaneId)
    requires id in s.snap.panes && s.snap.panes[id].window in s.snap.windows
    requires |WindowPanes(s.snap, s.snap.panes[id].window)| > 1
    ensures Exec(env, s, DestroyPane(id, None)).snap == Ops.DropPane(s.snap, id)
  {
    hide Ops.DropPane, KeepLive, WindowPanes;
  }

  lemma DropUndoesAddSplit(env: Env, g: Snapshot, n: nat, w: WindowId, l: LayoutState, l': LayoutState, cwd: string,
                           command: seq<string>)
    requires n !in g.panes && w in g.windows && RemoveIn(l, n).0 == l'
    ensures var g1 := Ops.AddSplit(env, g, w, n, l, cwd, command);
            && n in g1.panes && g1.panes[n].window == w && w in g1.windows && LivesIn(g1, n, w)
            && (forall p :: p in g.panes ==> p in g1.panes && g1.panes[p] == g.panes[p])
            && var g2 := Ops.DropPane(g1, n);
            && g2.panes == g.panes && g2.sessions == g.sessions && g2.windows.Keys == g.windows.Keys
            && g2.windows[w].layout == l'
            && (forall v :: v in g.windows && v != w ==> g2.windows[v] == g.windows[v])
  {
    hide RemoveIn, PaneIds;
    var g1 := Ops.AddSplit(env, g, w, n, l, cwd, command);
    assert g1.panes - {n} == g.panes;
  }

  /** Destroying a pane just split off restores the pane table and the window's tree. */
  lemma DestroyUndoesSplit(env: Env, s: State, target: PaneId, dir: Direction, ratio: real, command: seq<string>)
    requires Valid(env, s) && Agrees(s.snap)
    requires Ops.SplitPane(env, s.snap, s.supply, target, dir, ratio, command).Changed?
    ensures var s1 := Exec(env, s, SplitPane(target, dir, ratio, command));
            var s' := Exec(env, s1, DestroyPane(s.supply, None));
            var w := s.snap.panes[target].window;
            && s'.snap.panes == s.snap.panes && s'.snap.sessions == s.snap.sessions
            && s'.snap.windows.Keys == s.snap.windows.Keys && w in s.snap.windows
            && s'.snap.windows[w].layout == LayoutState(BaseTree(s.snap.windows[w].layout), None)
            && (forall v :: v in s.snap.windows && v != w ==> s'.snap.windows[v] == s.snap.windows[v])
  {
    hide Valid, Agrees, Exec, Ops.SplitPane, Ops.AddSplit, Ops.DropPane, WindowPanes, SplitIn, RemoveIn;
    SplitCommits(env, s, target, dir, ratio, command);
    var (g, n) := (s.snap, s.supply);
    var w := g.panes[target].window;
    var l := g.windows[w].layout;
    SplitOffComesOut(env, s, target, dir, ratio);
    var (l1, _) := SplitIn(l, target, n, dir, ratio);
    DropUndoesAddSplit(env, g, n, w, l1, LayoutState(BaseTree(l), None), g.panes[target].cwd, command);
    var s1 := Exec(env, s, SplitPane(target, dir, ratio, command));
    TwoPanes(s1.snap, w, target, n);
    DestroyCommits(env, s1, n);
  }

  lemma SplitOffComesOut(env: Env, s: State, target: PaneId, dir: Direction, ratio: real)
    requires Valid(env, s) && Agrees(s.snap) && target in s.snap.panes && s.snap.panes[target].window in s.snap.windows
    ensures var l := s.snap.windows[s.snap.panes[target].window].layout;
            RemoveIn(SplitIn(l, target, s.supply, dir, ratio).0, s.supply).0 == LayoutState(BaseTree(l), None)
    ensures s.supply !in s.snap.panes
  {
    hide Naming, AllWithinCapacity, SessionsListWindows, WindowsAreListed, WindowsHavePanes, ZoomedPanesLive,
         Layout.SplitPane, Layout.RemovePane, PaneIds, NoDuplicates;
    var w := s.snap.panes[target].window;
    assert AgreesAt(s.snap, w) && s.supply !in s.snap.panes;
    RemoveUndoesSplit(BaseTree(s.snap.windows[w].layout), target, s.supply, dir, ratio);
  }

  lemma TwoPanes(g: Snapshot, w: WindowId, a: PaneId, b: PaneId)
    requires LivesIn(g, a, w) && LivesIn(g, b, w) && a != b
    ensures |WindowPanes(g, w)| > 1
  {
    SubsetSmaller({a, b}, WindowPanes(g, w));
  }

  lemma DropUndoesAddSession(env: Env, g: Snapshot, n: nat, name: string, title: string, cwd: string,
                             command: seq<string>)
    requires n !in g.panes && n + 1 !in g.windows && n + 2 !in g.sessions && PanesHaveWindows(g)
    ensures var g1 := Ops.AddSession(env, g, n + 2, n + 1, n, name, title, cwd, command);
            && n + 2 in g1.sessions && g1.sessions[n + 2].windows == [n + 1] && g.panes.Keys <= g1.panes.Keys
            && var g2 := Ops.DropSession(g1, n + 2);
            g2.sessions == g.sessions && g2.windows == g.windows && g2.panes == g.panes
  {
    var g1 := Ops.AddSession(env, g, n + 2, n + 1, n, name, title, cwd, command);
    assert Ops.PanesOfWindows(g1, [n + 1]) == {n};
    assert g1.panes - {n} == g.panes;
    var windows := g1.sessions[n + 2].windows;
    assert (set w | w in windows) == {n + 1};
    assert g1.windows - {n + 1} == g.windows;
    assert g1.sessions - {n + 2} == g.sessions;
  }

  lemma CreateCommits(env: Env, s: State, name: string, cwd: string, command: seq<string>)
    requires Ops.CreateSession(env, s.snap, s.supply, name, cwd, command).Changed?
    ensures var n := s.supply;
            var s1 := Exec(env, s, CreateSession(name, cwd, command));
            && s1.snap == Ops.AddSession(env, s.snap, n + 2, n + 1, n, name, DefaultTitle(env, command, cwd), cwd,
                                         command)
            && s1.owners == KeepLive(s.owners, s1.snap.panes)
            && s1.generations == KeepLive(s.generations, s1.snap.panes)
  {
    hide CapacityError, NameTaken, SessionNameError, DefaultTitle, Ops.AddSession, KeepLive;
  }

  lemma KillCommits(env: Env, s: State, id: SessionId)
    requires id in s.snap.sessions
    ensures var s1 := Exec(env, s, DestroySession(id, None));
            && s1.snap == Ops.DropSession(s.snap, id)
            && s1.owners == KeepLive(s.owners, s1.snap.panes)
            && s1.generations == KeepLive(s.generations, s1.snap.panes)
  {
    hide Ops.DropSession, Ops.Exits, Ops.WindowKills, KeepLive;
  }

  /** Destroying a session just created leaves sessions, windows, panes and side maps as they were. */
  lemma DestroyUndoesCreateSession(env: Env, s: State, name: string, cwd: string, command: seq<string>)
    requires Valid(env, s) && Ops.CreateSession(env, s.snap, s.supply, name, cwd, command).Changed?
    ensures var s1 := Exec(env, s, CreateSession(name, cwd, command));
            var s' := Exec(env, s1, DestroySession(s.supply + 2, None));
            && s'.snap.sessions == s.snap.sessions && s'.snap.windows == s.snap.windows && s'.snap.panes == s.snap.panes
            && s'.owners == s.owners && s'.generations == s.generations
  {
    hide Naming, AllWithinCapacity, References, Exec, Ops.CreateSession, Ops.AddSession, Ops.DropSession, KeepLive,
         DefaultTitle;
    var (g, n) := (s.snap, s.supply);
    AbsentWhenFresh(g, n);
    PanesAtHome(g, n);
    DropUndoesAddSession(env, g, n, name, DefaultTitle(env, command, cwd), cwd, command);
    CreateCommits(env, s, name, cwd, command);
    var s1 := Exec(env, s, CreateSession(name, cwd, command));
    KillCommits(env, s1, n + 2);
    KeepLiveAll(s.owners, s1.snap.panes);
    KeepLiveAll(s.generations, s1.snap.panes);
    KeepLiveAll(s.owners, g.panes);
    KeepLiveAll(s.generations, g.panes);
  }

  // ----- The cascade -----

  /** Another pane than `id` in its window, or in its session. */
  ghost predicate WindowHasAnother(g: Snapshot, id: PaneId)
    requires id in g.panes
  {
    exists p :: p != id && LivesIn(g, p, g.panes[id].window)
  }

  ghost predicate SessionHasAnother(g: Snapshot, id: PaneId)
    requires id in g.panes && g.panes[id].window in g.windows
  {
    exists p :: p != id && InSession(g, p, g.windows[g.panes[id].window].session)
  }

  lemma CountsTellAnother(g: Snapshot, id: PaneId)
    requires id in g.panes
    ensures |WindowPanes(g, g.panes[id].window)| <= 1 <==> !WindowHasAnother(g, id)
    ensures !WindowHasAnother(g, id) ==> WindowPanes(g, g.panes[id].window) == {id}
  {
    var w := g.panes[id].window;
    if WindowHasAnother(g, id) {
      var p :| p != id && LivesIn(g, p, w);
      TwoPanes(g, w, p, id);
    } else {
      forall p | p in WindowPanes(g, w)
        ensures p == id
      {
        assert LivesIn(g, p, w);
      }
      assert WindowPanes(g, w) == {id};
    }
  }

  lemma ListTellsAnother(g: Snapshot, n: nat, id: PaneId)
    requires References(g, n) && id in g.panes && !WindowHasAnother(g, id)
    ensures var w := g.panes[id].window;
            && w in g.windows && g.windows[w].session in g.sessions
            && (|g.sessions[g.windows[w].session].windows| <= 1 <==> !SessionHasAnother(g, id))
            && (!SessionHasAnother(g, id) ==> g.sessions[g.windows[w].session].windows == [w])
  {
    hide IdsBelow, ZoomedPanesLive;
    var w := g.panes[id].window;
    assert IsListed(g, g.windows[w], w);
    var session := g.windows[w].session;
    var s := g.sessions[session];
    assert ListsItsWindows(g, session);
    if |s.windows| <= 1 {
      assert s.windows == [w];
      forall p | InSession(g, p, session)
        ensures p == id
      {
        assert IsListed(g, g.windows[g.panes[p].window], g.panes[p].window);
        assert LivesIn(g, p, w);
      }
    } else {
      var v := if s.windows[0] == w then s.windows[1] else s.windows[0];
      assert v != w && v in s.windows;
      assert HasPane(g, v);
      var p :| LivesIn(g, p, v);
      assert InSession(g, p, session);
    }
  }

  /**
   Closing a pane with its empty parents always succeeds on a live pane, and takes the pane, its window exactly if that
   held no other pane, its session exactly if that held no other pane, and no pane or window besides.
   */
  lemma CascadeTakesOnlyTheEmpty(env: Env, s: State, id: PaneId)
    requires Valid(env, s) && id in s.snap.panes
    ensures var (s', r) := Finish(s, Ops.DestroyPaneAndEmptyParents(env, s.snap, s.supply, id));
            var w := s.snap.panes[id].window;
            && r.Ok? && s'.snap.panes.Keys == s.snap.panes.Keys - {id}
            && w in s.snap.windows
            && s'.snap.windows.Keys == s.snap.windows.Keys - (if WindowHasAnother(s.snap, id) then {} else {w})
            && s'.snap.sessions.Keys
               == s.snap.sessions.Keys - (if SessionHasAnother(s.snap, id) then {} else {s.snap.windows[w].session})
  {
    hide Valid, References, WindowHasAnother, SessionHasAnother;
    var (g, n) := (s.snap, s.supply);
    var w := g.panes[id].window;
    ValidRefers(env, s);
    PanesAtHome(g, n);
    AtHome(g, id);
    CountsTellAnother(g, id);
    if WindowHasAnother(g, id) {
      AnotherInWindowIsInSession(g, id);
      DestroyPaneKeys(env, s, id);
    } else {
      ListTellsAnother(g, n, id);
      DestroyLastPaneKeys(env, s, id);
    }
  }

  lemma ValidRefers(env: Env, s: State)
    requires Valid(env, s)
    ensures References(s.snap, s.supply)
  {
  }

  lemma AtHome(g: Snapshot, id: PaneId)
    requires PanesHaveWindows(g) && id in g.panes
    ensures g.panes[id].window in g.windows
  {
  }

  lemma AnotherInWindowIsInSession(g: Snapshot, id: PaneId)
    requires id in g.panes && g.panes[id].window in g.windows && WindowHasAnother(g, id)
    ensures SessionHasAnother(g, id)
  {
    var p :| p != id && LivesIn(g, p, g.panes[id].window);
    assert InSession(g, p, g.windows[g.panes[id].window].session);
  }

  lemma DestroyPaneKeys(env: Env, s: State, id: PaneId)
    requires id in s.snap.panes && s.snap.panes[id].window in s.snap.windows
    requires |WindowPanes(s.snap, s.snap.panes[id].window)| > 1
    ensures var (s', r) := Finish(s, Ops.DestroyPaneAndEmptyParents(env, s.snap, s.supply, id));
            && r.Ok? && s'.snap.panes.Keys == s.snap.panes.Keys - {id} && s'.snap.windows.Keys == s.snap.windows.Keys
            && s'.snap.sessions.Keys == s.snap.sessions.Keys
  {
    hide KeepLive, RemoveIn, PaneIds, WindowPanes, Ops.DestroyWindow, Ops.DestroySession;
  }

  lemma DestroyLastPaneKeys(env: Env, s: State, id: PaneId)
    requires id in s.snap.panes && WindowPanes(s.snap, s.snap.panes[id].window) == {id}
    requires s.snap.panes[id].window in s.snap.windows
             && s.snap.windows[s.snap.panes[id].window].session in s.snap.sessions
    requires var (w, session) := (s.snap.panes[id].window, s.snap.windows[s.snap.panes[id].window].session);
             |s.snap.sessions[session].windows| <= 1 ==> s.snap.sessions[session].windows == [w]
    ensures var (s', r) := Finish(s, Ops.DestroyPaneAndEmptyParents(env, s.snap, s.supply, id));
            var (w, session) := (s.snap.panes[id].window, s.snap.windows[s.snap.panes[id].window].session);
            && r.Ok? && s'.snap.panes.Keys == s.snap.panes.Keys - {id}
            && s'.snap.windows.Keys == s.snap.windows.Keys - {w}
            && s'.snap.sessions.Keys
               == s.snap.sessions.Keys - (if |s.snap.sessions[session].windows| > 1 then {} else {session})
  {
    hide KeepLive, Ops.Exits, Ops.WindowKills, Without, Ops.DropPane;
    var (g, w) := (s.snap, s.snap.panes[id].window);
    assert Ops.PanesOfWindows(g, [w]) == WindowPanes(g, w);
  }
}
