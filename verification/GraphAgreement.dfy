/**
 The layout and the pane table tell the same story: each window's unzoomed tree
 has exactly the window's panes as its leaves, and focus is on what is shown.
 */
module GraphAgreement {
  import opened Wrappers
  import opened Layout
  import opened WindowLayouts
  import opened GraphModel
  import opened GraphSteps
  import opened GraphRuns
  import opened GraphInvariants
  import Ops = GraphOps
  import Batch = GraphBatch

  /** Distinct leaves, exactly the window's panes. */
  ghost predicate LeavesArePanes(g: Snapshot, id: WindowId, l: LayoutState) {
    && NoDuplicates(PaneIds(BaseTree(l)))
    && forall p :: p in PaneIds(BaseTree(l)) <==> LivesIn(g, p, id)
  }

  /** The focused pane is one of them, and the zoomed one where there is a zoom. */
  ghost predicate FocusIsShown(g: Snapshot, id: WindowId, w: Window) {
    LivesIn(g, w.active, id) && (w.layout.zoom.Some? ==>
         w.layout.tree == Leaf(w.active) && w.layout.zoom.value.pane == w.active)
  }

  ghost predicate AgreesAt(g: Snapshot, id: WindowId)
    requires id in g.windows
  {
    var w := g.windows[id];
    WellFormed(w.layout) && LeavesArePanes(g, id, w.layout) && FocusIsShown(g, id, w)
  }

  ghost predicate Agrees(g: Snapshot) {
    forall id :: id in g.windows ==> AgreesAt(g, id)
  }

  /** The window shows and holds what it did. */
  ghost predicate Stays(g: Snapshot, g': Snapshot, id: WindowId) {
    && id in g.windows && id in g'.windows
    && g'.windows[id].layout == g.windows[id].layout && g'.windows[id].active == g.windows[id].active
    && forall p :: LivesIn(g', p, id) <==> LivesIn(g, p, id)
  }

  lemma StaysAgrees(g: Snapshot, g': Snapshot, id: WindowId)
    requires Stays(g, g', id) && AgreesAt(g, id)
    ensures AgreesAt(g', id)
  {
    hide NoDuplicates, PaneIds, LivesIn;
  }

  /** Every window but one stays as it was. */
  lemma OthersStay(g: Snapshot, g': Snapshot, id: WindowId)
    requires Agrees(g) && forall w :: w in g'.windows && w != id ==> Stays(g, g', w)
    requires id in g'.windows ==> AgreesAt(g', id)
    ensures Agrees(g')
  {
    hide AgreesAt, Stays;
    forall w | w in g'.windows
      ensures AgreesAt(g', w)
    {
      if w != id {
        StaysWindow(g, g', w);
        StaysAgrees(g, g', w);
      }
    }
  }

  // ----- New windows -----

  lemma NewWindowAgrees(g: Snapshot, g': Snapshot, n: nat, id: SessionId)
    requires Agrees(g) && PanesHaveWindows(g) && Rehomed(g, g', n, id, {n + 1}, {}) && n !in g.panes
    requires n + 1 in g'.windows && g'.windows[n + 1].layout == NewLayout(n) && g'.windows[n + 1].active == n
    ensures Agrees(g')
  {
    hide AgreesAt;
    forall w | w in g'.windows && w != n + 1
      ensures Stays(g, g', w)
    {
    }
    FirstPaneAgrees(g', n, n + 1);
    OthersStay(g, g', n + 1);
  }

  lemma FirstPaneAgrees(g: Snapshot, n: nat, w: WindowId)
    requires w in g.windows && g.windows[w].layout == NewLayout(n) && g.windows[w].active == n
    requires forall p :: LivesIn(g, p, w) <==> p == n
    ensures AgreesAt(g, w)
  {
    assert PaneIds(Leaf(n)) == [n];
  }

  lemma AddsAgree(env: Env, g: Snapshot, n: nat, e: Edit, c: Change)
    requires (e.NewSession? || e.NewWindow?) && References(g, n) && Agrees(g) && Fits(env, g, n, e, c)
    ensures Agrees(c.snap)
  {
    hide References, Agrees, Rehomed, Relisted, PanesTold, HasRoom, NameTaken, TitleTaken, PanesHaveWindows;
    AbsentWhenFresh(g, n);
    PanesAtHome(g, n);
    match e
    case NewSession(name, title, cwd, command) =>
      NewSessionFacts(env, g, n, name, title, cwd, command, c);
      NewWindowAgrees(g, c.snap, n, n + 2);
    case NewWindow(session, title, cwd, command) =>
      NewWindowFacts(env, g, n, session, title, cwd, command, c);
      NewWindowAgrees(g, c.snap, n, session);
  }

  lemma PanesAtHome(g: Snapshot, n: nat)
    requires References(g, n)
    ensures PanesHaveWindows(g)
  {
  }

  // ----- Splits -----

  lemma SplitAgrees(g: Snapshot, g': Snapshot, id: WindowId, l: LayoutState, target: PaneId, n: nat, dir: Direction,
                    ratio: real)
    requires LeavesArePanes(g, id, l) && LivesIn(g, target, id) && n !in g.panes
    requires forall p :: LivesIn(g', p, id) <==> LivesIn(g, p, id) || p == n
    ensures SplitIn(l, target, n, dir, ratio).1 && LeavesArePanes(g', id, SplitIn(l, target, n, dir, ratio).0)
    ensures SplitIn(l, target, n, dir, ratio).0.zoom.None?
  {
    hide NoDuplicates, PaneIds, Layout.SplitPane, InsertAfter;
    var t := BaseTree(l);
    SplitPaneLeaves(t, target, n, dir, ratio);
    InsertAfterElements(PaneIds(t), target, n);
    InElements(PaneIds(t));
    InElements(InsertAfter(PaneIds(t), target, n));
  }

  lemma InElements(s: seq<PaneId>)
    ensures forall p :: p in s <==> p in Elements(s)
  {
  }

  lemma NewSplitStays(env: Env, g: Snapshot, n: nat, target: PaneId, dir: Direction, ratio: real, cwd: string,
                      command: seq<string>, c: Change)
    requires n !in g.panes && FitsNewSplit(env, g, n, target, dir, ratio, cwd, command, c)
    ensures var id := g.panes[target].window;
            && (forall w :: w in c.snap.windows && w != id ==> Stays(g, c.snap, w))
            && id in c.snap.windows && c.snap.windows[id].active == n
            && c.snap.windows[id].layout == SplitIn(g.windows[id].layout, target, n, dir, ratio).0
            && (forall p :: LivesIn(c.snap, p, id) <==> LivesIn(g, p, id) || p == n)
  {
    hide HasRoom, SplitIn;
  }

  lemma NewSplitAgrees(env: Env, g: Snapshot, n: nat, target: PaneId, dir: Direction, ratio: real, cwd: string,
                       command: seq<string>, c: Change)
    requires n !in g.panes && Agrees(g) && FitsNewSplit(env, g, n, target, dir, ratio, cwd, command, c)
    ensures Agrees(c.snap)
  {
    hide HasRoom, SplitIn, Stays, LeavesArePanes, Ops.AddSplit;
    NewSplitStays(env, g, n, target, dir, ratio, cwd, command, c);
    var id := g.panes[target].window;
    assert AgreesAt(g, id);
    SplitAgrees(g, c.snap, id, g.windows[id].layout, target, n, dir, ratio);
    assert AgreesAt(c.snap, id);
    OthersStay(g, c.snap, id);
  }

  // ----- Edits of a layout -----

  lemma EditLayoutStays(g: Snapshot, n: nat, id: WindowId, l: LayoutState, active: PaneId, all: bool, focus: seq<Event>,
                        c: Change)
    requires FitsEditLayout(g, n, id, l, active, all, focus, c)
    ensures forall w :: w in c.snap.windows && w != id ==> Stays(g, c.snap, w)
    ensures id in c.snap.windows && c.snap.windows[id].active == active && c.snap.windows[id].layout == l
    ensures forall p :: LivesIn(c.snap, p, id) <==> LivesIn(g, p, id)
  {
    hide KeepsLeaves, ZoomEvents;
  }

  lemma EditLayoutAgrees(g: Snapshot, n: nat, id: WindowId, l: LayoutState, active: PaneId, all: bool,
                         focus: seq<Event>,
                         c: Change)
    requires Agrees(g) && FitsEditLayout(g, n, id, l, active, all, focus, c)
    ensures Agrees(c.snap)
  {
    hide Stays, ZoomEvents, NoDuplicates, PaneIds, LivesIn, Ops.PutWindow;
    EditLayoutStays(g, n, id, l, active, all, focus, c);
    assert AgreesAt(g, id);
    assert AgreesAt(c.snap, id);
    OthersStay(g, c.snap, id);
  }

  // ----- Dropping a pane -----

  lemma RemoveAgrees(g: Snapshot, g': Snapshot, id: WindowId, l: LayoutState, p: PaneId, other: PaneId)
    requires LeavesArePanes(g, id, l) && LivesIn(g, p, id) && LivesIn(g, other, id) && other != p
    requires forall q :: LivesIn(g', q, id) <==> LivesIn(g, q, id) && q != p
    ensures RemoveIn(l, p).0.zoom.None? && LeavesArePanes(g', id, RemoveIn(l, p).0)
  {
    hide NoDuplicates, Layout.RemovePane, Without;
    var t := BaseTree(l);
    assert t.Split?;
    hide PaneIds;
    RemovePaneLeaves(t, p);
    WithoutElements(PaneIds(t), p);
    InElements(PaneIds(t));
    InElements(Without(PaneIds(t), p));
  }

  lemma DropPaneStays(g: Snapshot, n: nat, id: PaneId, c: Change)
    requires FitsDropPane(g, n, id, c)
    ensures var w := g.panes[id].window;
            && (forall v :: v in c.snap.windows && v != w ==> Stays(g, c.snap, v))
            && w in c.snap.windows && c.snap.windows[w].layout == RemoveIn(g.windows[w].layout, id).0
            && (forall p :: LivesIn(c.snap, p, w) <==> LivesIn(g, p, w) && p != id)
            && c.snap.windows[w].active == if g.windows[w].active == id then PaneIds(c.snap.windows[w].layout.tree)[0]
                                           else g.windows[w].active
  {
    hide RemoveIn, PaneIds, WindowPanes;
  }

  lemma DropPaneAgrees(g: Snapshot, n: nat, id: PaneId, c: Change)
    requires Agrees(g) && FitsDropPane(g, n, id, c)
    ensures Agrees(c.snap)
  {
    hide RemoveIn, Stays, PaneIds, WindowPanes, Ops.DropPane, NoDuplicates;
    DropPaneStays(g, n, id, c);
    var w := g.panes[id].window;
    assert AgreesAt(g, w);
    var other := AnotherPane(g, w, id);
    RemoveAgrees(g, c.snap, w, g.windows[w].layout, id, other);
    assert AgreesAt(c.snap, w);
    OthersStay(g, c.snap, w);
  }

  // ----- Edits elsewhere -----

  lemma EditElsewhereStays(env: Env, g: Snapshot, n: nat, e: Edit, c: Change)
    requires (e.EditSession? || e.EditTitle? || e.EditPane? || e.OnlyTick?) && Fits(env, g, n, e, c)
    ensures forall w :: w in c.snap.windows ==> Stays(g, c.snap, w)
  {
    hide IsSessionName, NameTaken, NoDuplicates, Ops.TitleClashes, PaneNews;
  }

  lemma DropElsewhereStays(env: Env, g: Snapshot, n: nat, e: Edit, c: Change)
    requires (e.DropWindow? || e.DropSession?) && Fits(env, g, n, e, c)
    ensures forall w :: w in c.snap.windows ==> Stays(g, c.snap, w)
  {
    hide Ops.Exits, Ops.WindowKills, Without;
  }

  lemma AllStay(g: Snapshot, g': Snapshot)
    requires Agrees(g) && forall w :: w in g'.windows ==> Stays(g, g', w)
    ensures Agrees(g')
  {
    hide AgreesAt, Stays;
    forall w | w in g'.windows
      ensures AgreesAt(g', w)
    {
      StaysWindow(g, g', w);
      StaysAgrees(g, g', w);
    }
  }

  lemma StaysWindow(g: Snapshot, g': Snapshot, w: WindowId)
    requires Stays(g, g', w)
    ensures w in g.windows
  {
  }

  /** Every edit but a pane added behind the layout's back keeps the agreement. */
  lemma EditAgrees(env: Env, g: Snapshot, n: nat, e: Edit, c: Change)
    requires References(g, n) && Agrees(g) && Fits(env, g, n, e, c) && !e.NewPane?
    ensures Agrees(c.snap)
  {
    hide References, Agrees, Stays, FitsNewSession, FitsNewWindow, FitsNewPane, FitsNewSplit, FitsEditSession,
         FitsEditTitle, FitsEditLayout, FitsEditPane, FitsDropPane, FitsDropWindow, FitsDropSession;
    AbsentWhenFresh(g, n);
    match e
    case NewSplit(target, dir, ratio, cwd, command) => NewSplitAgrees(env, g, n, target, dir, ratio, cwd, command, c);
    case EditLayout(id, l, active, all, focus) => EditLayoutAgrees(g, n, id, l, active, all, focus, c);
    case DropPane(id) => DropPaneAgrees(g, n, id, c);
    case _ =>
      if e.NewSession? || e.NewWindow? {
        AddsAgree(env, g, n, e, c);
      } else {
        if e.DropWindow? || e.DropSession? {
          DropElsewhereStays(env, g, n, e, c);
        } else {
          EditElsewhereStays(env, g, n, e, c);
        }
        AllStay(g, c.snap);
      }
  }

  lemma MoveAgrees(env: Env, s: State, m: Move)
    requires Valid(env, s) && Agrees(s.snap) && Enabled(env, s, m) && IsShown(m)
    ensures Agrees(After(s, m).snap)
  {
    hide References, Naming, AllWithinCapacity, Agrees, Fits, KeepLive;
    if m.Edited? {
      EditAgrees(env, s.snap, s.supply, m.edit, m.change);
    }
  }

  lemma {:induction false} MovesAgree(env: Env, s: State, ms: seq<Move>)
    requires Valid(env, s) && Agrees(s.snap) && EnabledAll(env, s, ms) && AllShown(ms)
    ensures Agrees(AfterAll(s, ms).snap)
    decreases |ms|
  {
    hide Valid, Agrees, Enabled, After;
    if ms != [] {
      MoveKeeps(env, s, ms[0]);
      MoveAgrees(env, s, ms[0]);
      MovesAgree(env, After(s, ms[0]), ms[1..]);
    }
  }

  /** Over every run without `create_pane`, layouts and panes agree. */
  lemma LayoutsAgree(env: Env, cs: seq<Command>)
    requires forall i :: 0 <= i < |cs| ==> !cs[i].CreatePane?
    ensures Agrees(Run(env, EMPTY, cs).snap)
  {
    EmptyIsValid(env);
    assert Agrees(EMPTY_SNAPSHOT);
    hide Valid, Agrees, Exec, Enabled, After;
    var ms := RunMoves(env, EMPTY, cs);
    MovesAgree(env, EMPTY, ms);
  }

  /** Where layouts and panes agree, no split and no swap fails for the layout's sake. */
  lemma LayoutNeverFails(env: Env, g: Snapshot, n: nat, target: PaneId, dir: Direction, ratio: real,
                         command: seq<string>,
                         cwd: Option<string>, other: PaneId, expected: Option<nat>)
    requires Agrees(g) && IdsBelow(g, n)
    ensures Ops.SplitPane(env, g, n, target, dir, ratio, command) != Failed(LayoutError)
    ensures Batch.StageSplitPane(env, g, n, target, dir, ratio, command, cwd) != Failed(LayoutError)
    ensures Ops.SwapPanes(g, n, target, other, expected) != Failed(LayoutError)
  {
    CapacityIsNotLayout(env, g, n, command);
    if target in g.panes && g.panes[target].window in g.windows {
      var id := g.panes[target].window;
      var l := g.windows[id].layout;
      assert AgreesAt(g, id);
      SplitPaneLeaves(BaseTree(l), target, n, dir, ratio);
      hide Agrees, CapacityError, Layout.SplitPane, PaneIds, NoDuplicates, SwapInner;
      if other in g.panes && g.panes[other].window == id {
        assert Contains(BaseTree(l), other);
      }
    }
  }

  lemma CapacityIsNotLayout(env: Env, g: Snapshot, n: nat, command: seq<string>)
    ensures forall session, cwd :: CapacityError(env, g, n, session, command, cwd) != Some(LayoutError)
  {
  }

  // ----- Where the agreement ends -----

  /** The one command that adds a pane no layout knows, when it is let through. */
  predicate AddsHiddenPane(env: Env, s: State, c: Command) {
    && c.CreatePane? && c.window in s.snap.windows
    && HasRoom(env, s.snap, s.supply, s.snap.windows[c.window].session, c.command, c.cwd)
  }

  lemma HiddenPaneDisagrees(env: Env, s: State, c: Command)
    requires Valid(env, s) && Agrees(s.snap) && AddsHiddenPane(env, s, c)
    ensures !Agrees(Exec(env, s, c).snap)
  {
    hide CapacityError, Naming, AllWithinCapacity, SessionsListWindows, WindowsAreListed, PanesHaveWindows,
         WindowsHavePanes,
         ZoomedPanesLive, KeepLive;
    var (g', n) := (Exec(env, s, c).snap, s.supply);
    assert AgreesAt(s.snap, c.window);
    assert n !in s.snap.panes;
    assert n !in PaneIds(BaseTree(s.snap.windows[c.window].layout));
    assert g'.windows == s.snap.windows && LivesIn(g', n, c.window);
    assert !LeavesArePanes(g', c.window, g'.windows[c.window].layout);
  }

  /** From an agreeing graph, a command keeps the agreement exactly when it adds no hidden pane. */
  lemma AgreementKeptIff(env: Env, s: State, c: Command)
    requires Valid(env, s) && Agrees(s.snap)
    ensures Agrees(Exec(env, s, c).snap) <==> !AddsHiddenPane(env, s, c)
  {
    if AddsHiddenPane(env, s, c) {
      HiddenPaneDisagrees(env, s, c);
    } else if c.CreatePane? {
      RefusedPaneIsNothing(env, s, c);
    } else {
      hide References, Naming, AllWithinCapacity, Agrees, Exec, Enabled, After;
      var ms := ExecMoves(env, s, c);
      MovesAgree(env, s, ms);
    }
  }

  lemma RefusedPaneIsNothing(env: Env, s: State, c: Command)
    requires c.CreatePane? && !AddsHiddenPane(env, s, c)
    ensures Exec(env, s, c) == s
  {
    hide CapacityError;
  }

  /**
   What a hidden pane leads to: it lets the window's only shown pane be destroyed, and the tree and the focus then
   name a pane that is gone.
   */
  lemma HiddenPaneOrphansTheLayout(env: Env, s: State, w: WindowId, cwd: string, command: seq<string>, p: PaneId)
    requires Valid(env, s) && Agrees(s.snap) && AddsHiddenPane(env, s, CreatePane(w, cwd, command))
    requires PaneIds(BaseTree(s.snap.windows[w].layout)) == [p]
    ensures var s' := Exec(env, Exec(env, s, CreatePane(w, cwd, command)), DestroyPane(p, None));
            && w in s'.snap.windows && p !in s'.snap.panes
            && s'.snap.windows[w].active == p && s'.snap.windows[w].layout.tree == Leaf(p)
            && WindowPanes(s'.snap, w) == {s.supply}
  {
    hide Valid, Exec, HasRoom;
    var (g, n) := (s.snap, s.supply);
    SupplyIsUnused(env, s);
    assert AgreesAt(g, w);
    OnlyLeaf(BaseTree(g.windows[w].layout), p);
    hide Agrees, AgreesAt, PaneIds;
    HiddenPaneCommits(env, s, w, cwd, command);
    LastShownPaneGoes(env, g, Exec(env, s, CreatePane(w, cwd, command)), w, n, p);
  }

  lemma SupplyIsUnused(env: Env, s: State)
    requires Valid(env, s)
    ensures s.supply !in s.snap.panes
  {
    hide Naming, AllWithinCapacity, SessionsListWindows, WindowsAreListed, PanesHaveWindows, WindowsHavePanes,
         ZoomedPanesLive;
  }

  lemma HiddenPaneCommits(env: Env, s: State, w: WindowId, cwd: string, command: seq<string>)
    requires AddsHiddenPane(env, s, CreatePane(w, cwd, command))
    ensures Exec(env, s, CreatePane(w, cwd, command)).snap
            == Ops.Tick(s.snap.(panes := s.snap.panes[s.supply := GraphModel.NewPane(env, w, cwd, command)]))
  {
    hide CapacityError, KeepLive;
  }

  lemma LastShownPaneGoes(env: Env, g: Snapshot, s: State, w: WindowId, n: nat, p: PaneId)
    requires w in g.windows && BaseTree(g.windows[w].layout) == Leaf(p) && g.windows[w].active == p && n !in g.panes
    requires LivesIn(g, p, w) && forall q :: LivesIn(g, q, w) ==> q == p
    requires s.snap.windows == g.windows && s.snap.panes.Keys == g.panes.Keys + {n} && LivesIn(s.snap, n, w)
    requires forall q :: q in g.panes ==> s.snap.panes[q] == g.panes[q]
    ensures var s' := Exec(env, s, DestroyPane(p, None));
            && w in s'.snap.windows && p !in s'.snap.panes
            && s'.snap.windows[w].active == p && s'.snap.windows[w].layout.tree == Leaf(p)
            && WindowPanes(s'.snap, w) == {n}
  {
    hide KeepLive;
    forall q
      ensures q in WindowPanes(s.snap, w) <==> q == p || q == n
    {
      assert q != n ==> (q in WindowPanes(s.snap, w) <==> LivesIn(g, q, w));
    }
    assert WindowPanes(s.snap, w) == {p, n};
    var g' := Exec(env, s, DestroyPane(p, None)).snap;
    assert WindowPanes(g', w) == WindowPanes(s.snap, w) - {p};
  }

  lemma OnlyLeaf(t: Node, p: PaneId)
    requires PaneIds(t) == [p]
    ensures t == Leaf(p)
  {
    assert t.Split? ==> |PaneIds(t)| >= 2;
  }
}
