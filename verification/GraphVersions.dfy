/** Optimistic concurrency: a version seen twice means the very same record. */
module GraphVersions {
  import opened Wrappers
  import opened Layout
  import opened WindowLayouts
  import opened GraphModel
  import opened GraphSteps
  import opened GraphRuns
  import opened GraphInvariants
  import opened GraphAgreement
  import Ops = GraphOps
  import Batch = GraphBatch

  /** Records of old ids come from before, and are unchanged or of a later version. */
  ghost predicate SessionsProgress(g: Snapshot, g': Snapshot, n: nat) {
    forall id :: id in g'.sessions && id < n ==>
      id in g.sessions && (g.sessions[id] == g'.sessions[id] || g.sessions[id].version < g'.sessions[id].version)
  }

  ghost predicate WindowsProgress(g: Snapshot, g': Snapshot, n: nat) {
    forall id :: id in g'.windows && id < n ==>
      id in g.windows && (g.windows[id] == g'.windows[id] || g.windows[id].version < g'.windows[id].version)
  }

  ghost predicate PanesProgress(g: Snapshot, g': Snapshot, n: nat) {
    forall id :: id in g'.panes && id < n ==>
      id in g.panes && (g.panes[id] == g'.panes[id] || g.panes[id].version < g'.panes[id].version)
  }

  ghost predicate Progress(g: Snapshot, n: nat, g': Snapshot, n': nat) {
    n <= n' && SessionsProgress(g, g', n) && WindowsProgress(g, g', n) && PanesProgress(g, g', n)
  }

  lemma ProgressChains(g1: Snapshot, n1: nat, g2: Snapshot, n2: nat, g3: Snapshot, n3: nat)
    requires Progress(g1, n1, g2, n2) && Progress(g2, n2, g3, n3)
    ensures Progress(g1, n1, g3, n3)
  {
  }

  lemma NewSessionProgresses(env: Env, g: Snapshot, n: nat, name: string, title: string, cwd: string,
                             command: seq<string>,
                             c: Change)
    requires FitsNewSession(env, g, n, name, title, cwd, command, c)
    ensures Progress(g, n, c.snap, c.supply)
  {
    hide HasRoom, IsSessionName, NameTaken;
  }

  lemma NewWindowProgresses(env: Env, g: Snapshot, n: nat, session: SessionId, title: string, cwd: string,
                            command: seq<string>, c: Change)
    requires FitsNewWindow(env, g, n, session, title, cwd, command, c)
    ensures Progress(g, n, c.snap, c.supply)
  {
    hide HasRoom, TitleTaken;
  }

  lemma NewPaneProgresses(env: Env, g: Snapshot, n: nat, window: WindowId, cwd: string, command: seq<string>, c: Change)
    requires FitsNewPane(env, g, n, window, cwd, command, c)
    ensures Progress(g, n, c.snap, c.supply)
  {
    hide HasRoom;
  }

  lemma NewSplitProgresses(env: Env, g: Snapshot, n: nat, target: PaneId, dir: Direction, ratio: real, cwd: string,
                           command: seq<string>, c: Change)
    requires FitsNewSplit(env, g, n, target, dir, ratio, cwd, command, c)
    ensures Progress(g, n, c.snap, c.supply)
  {
    hide HasRoom, SplitIn;
  }

  lemma EditSessionProgresses(env: Env, g: Snapshot, n: nat, id: SessionId, s: Session, c: Change)
    requires FitsEditSession(env, g, n, id, s, c)
    ensures Progress(g, n, c.snap, c.supply)
  {
    hide IsSessionName, NameTaken, NoDuplicates;
  }

  lemma EditTitleProgresses(g: Snapshot, n: nat, id: WindowId, title: string, c: Change)
    requires FitsEditTitle(g, n, id, title, c)
    ensures Progress(g, n, c.snap, c.supply)
  {
    hide Ops.TitleClashes;
  }

  lemma EditLayoutProgresses(g: Snapshot, n: nat, id: WindowId, l: LayoutState, active: PaneId, all: bool,
                             focus: seq<Event>, c: Change)
    requires FitsEditLayout(g, n, id, l, active, all, focus, c)
    ensures Progress(g, n, c.snap, c.supply)
  {
    hide KeepsLeaves, ZoomEvents;
  }

  lemma EditPaneProgresses(g: Snapshot, n: nat, id: PaneId, p: Pane, c: Change)
    requires FitsEditPane(g, n, id, p, c)
    ensures Progress(g, n, c.snap, c.supply)
  {
    hide PaneNews;
  }

  lemma DropsProgress(env: Env, g: Snapshot, n: nat, e: Edit, c: Change)
    requires (e.DropPane? || e.DropWindow? || e.DropSession? || e.OnlyTick?) && Fits(env, g, n, e, c)
    ensures Progress(g, n, c.snap, c.supply)
  {
    hide RemoveIn, PaneIds, WindowPanes, Ops.Exits, Ops.WindowKills, Without;
  }

  lemma EditProgresses(env: Env, g: Snapshot, n: nat, e: Edit, c: Change)
    requires Fits(env, g, n, e, c)
    ensures Progress(g, n, c.snap, c.supply)
  {
    hide Progress, FitsNewSession, FitsNewWindow, FitsNewPane, FitsNewSplit, FitsEditSession, FitsEditTitle,
         FitsEditLayout,
         FitsEditPane, FitsDropPane, FitsDropWindow, FitsDropSession, Ops.Tick;
    match e
    case NewSession(name, title, cwd, command) => NewSessionProgresses(env, g, n, name, title, cwd, command, c);
    case NewWindow(session, title, cwd, command) => NewWindowProgresses(env, g, n, session, title, cwd, command, c);
    case NewPane(window, cwd, command) => NewPaneProgresses(env, g, n, window, cwd, command, c);
    case NewSplit(target, dir, ratio, cwd, command) =>
      NewSplitProgresses(env, g, n, target, dir, ratio, cwd, command, c);
    case EditSession(id, s) => EditSessionProgresses(env, g, n, id, s, c);
    case EditTitle(id, title) => EditTitleProgresses(g, n, id, title, c);
    case EditLayout(id, l, active, all, focus) => EditLayoutProgresses(g, n, id, l, active, all, focus, c);
    case EditPane(id, p) => EditPaneProgresses(g, n, id, p, c);
    case _ => DropsProgress(env, g, n, e, c);
  }

  lemma {:induction false} MovesProgress(env: Env, s: State, ms: seq<Move>)
    requires EnabledAll(env, s, ms)
    ensures var s' := AfterAll(s, ms); Progress(s.snap, s.supply, s'.snap, s'.supply)
    decreases |ms|
  {
    if ms != [] {
      var s1 := After(s, ms[0]);
      if ms[0].Edited? {
        EditProgresses(env, s.snap, s.supply, ms[0].edit, ms[0].change);
      }
      assert Progress(s.snap, s.supply, s1.snap, s1.supply);
      hide Progress, Fits, Enabled, After;
      MovesProgress(env, s1, ms[1..]);
      var s' := AfterAll(s, ms);
      ProgressChains(s.snap, s.supply, s1.snap, s1.supply, s'.snap, s'.supply);
    }
  }

  /** Two sightings of the same ids: no version goes back, and equal versions are equal records. */
  ghost predicate Sound(g: Snapshot, g': Snapshot) {
    && (forall id :: id in g.sessions && id in g'.sessions ==>
          && g.sessions[id].version <= g'.sessions[id].version
          && (g.sessions[id].version == g'.sessions[id].version ==> g.sessions[id] == g'.sessions[id]))
    && (forall id :: id in g.windows && id in g'.windows ==>
          && g.windows[id].version <= g'.windows[id].version
          && (g.windows[id].version == g'.windows[id].version ==> g.windows[id] == g'.windows[id]))
    && (forall id :: id in g.panes && id in g'.panes ==>
          && g.panes[id].version <= g'.panes[id].version
          && (g.panes[id].version == g'.panes[id].version ==> g.panes[id] == g'.panes[id]))
  }

  lemma ProgressIsSound(g: Snapshot, n: nat, g': Snapshot, n': nat)
    requires IdsBelow(g, n) && Progress(g, n, g', n')
    ensures Sound(g, g')
  {
  }

  /** No id of the earlier graph comes back once it is gone. */
  ghost predicate NoReturn(g: Snapshot, n: nat, g': Snapshot) {
    && (forall id :: id in g'.sessions && id < n ==> id in g.sessions)
    && (forall id :: id in g'.windows && id < n ==> id in g.windows)
    && (forall id :: id in g'.panes && id < n ==> id in g.panes)
  }

  /** Between any two points of any run: versions are sound, and what is gone stays gone. */
  lemma VersionsAreSound(env: Env, before: seq<Command>, after: seq<Command>)
    ensures var s := Run(env, EMPTY, before);
            var s' := Run(env, s, after);
            Sound(s.snap, s'.snap) && NoReturn(s.snap, s.supply, s'.snap)
  {
    hide Sound, Progress, Exec, Naming, AllWithinCapacity, SessionsListWindows, WindowsAreListed, PanesHaveWindows,
         WindowsHavePanes, ZoomedPanesLive, IdsBelow;
    ReachableGraphsAreValid(env, before);
    var s := Run(env, EMPTY, before);
    var ms := RunMoves(env, s, after);
    var s' := AfterAll(s, ms);
    MovesProgress(env, s, ms);
    ProgressIsSound(s.snap, s.supply, s'.snap, s'.supply);
    ProgressHasNoReturn(s.snap, s.supply, s'.snap, s'.supply);
  }

  lemma ProgressHasNoReturn(g: Snapshot, n: nat, g': Snapshot, n': nat)
    requires Progress(g, n, g', n')
    ensures NoReturn(g, n, g')
  {
  }

  // ----- What a pane's version says about its window's layout -----

  /** What an edit that changes the layout of `w` does to a pane that stays in it. */
  ghost predicate TellsPane(g: Snapshot, g': Snapshot, e: Edit, w: WindowId, p: PaneId)
    requires w in g.windows && w in g'.windows && p in g.panes && p in g'.panes
  {
    g'.windows[w].layout != g.windows[w].layout ==>
      || (e.EditLayout? && g'.panes[p].version == g.panes[p].version + 1)
      || ((e.NewSplit? || e.DropPane?) && g'.panes[p] == g.panes[p])
  }

  lemma EditLayoutTells(env: Env, g: Snapshot, n: nat, e: Edit, c: Change, w: WindowId, p: PaneId)
    requires e.EditLayout? && Fits(env, g, n, e, c) && LivesIn(g, p, w) && w in g.windows
    requires p in c.snap.panes && w in c.snap.windows
    ensures TellsPane(g, c.snap, e, w, p)
  {
    hide KeepsLeaves, ZoomEvents;
  }

  lemma NewSplitTells(env: Env, g: Snapshot, n: nat, e: Edit, c: Change, w: WindowId, p: PaneId)
    requires e.NewSplit? && Fits(env, g, n, e, c) && LivesIn(g, p, w) && w in g.windows && p != n
    requires p in c.snap.panes && w in c.snap.windows
    ensures TellsPane(g, c.snap, e, w, p)
  {
    hide HasRoom, SplitIn;
  }

  lemma DropPaneTells(env: Env, g: Snapshot, n: nat, e: Edit, c: Change, w: WindowId, p: PaneId)
    requires e.DropPane? && Fits(env, g, n, e, c) && LivesIn(g, p, w) && w in g.windows
    requires p in c.snap.panes && w in c.snap.windows
    ensures TellsPane(g, c.snap, e, w, p)
  {
    hide RemoveIn, PaneIds, WindowPanes;
  }

  lemma AsideAddsTell(env: Env, g: Snapshot, n: nat, e: Edit, c: Change, w: WindowId, p: PaneId)
    requires (e.NewSession? || e.NewWindow? || e.NewPane?) && Fits(env, g, n, e, c) && w in g.windows && p in g.panes
    requires w < n && p in c.snap.panes && w in c.snap.windows
    ensures TellsPane(g, c.snap, e, w, p)
  {
    hide HasRoom, IsSessionName, NameTaken, TitleTaken;
  }

  lemma AsideEditsTell(env: Env, g: Snapshot, n: nat, e: Edit, c: Change, w: WindowId, p: PaneId)
    requires (e.EditSession? || e.EditTitle? || e.EditPane? || e.OnlyTick?) && Fits(env, g, n, e, c)
    requires w in g.windows && p in g.panes && p in c.snap.panes && w in c.snap.windows
    ensures TellsPane(g, c.snap, e, w, p)
  {
    hide IsSessionName, NameTaken, NoDuplicates, Ops.TitleClashes, PaneNews;
  }

  lemma AsideDropsTell(env: Env, g: Snapshot, n: nat, e: Edit, c: Change, w: WindowId, p: PaneId)
    requires (e.DropWindow? || e.DropSession?) && Fits(env, g, n, e, c)
    requires w in g.windows && p in g.panes && p in c.snap.panes && w in c.snap.windows
    ensures TellsPane(g, c.snap, e, w, p)
  {
    hide Ops.Exits, Ops.WindowKills, Without;
  }

  lemma EditTells(env: Env, g: Snapshot, n: nat, e: Edit, c: Change, w: WindowId, p: PaneId)
    requires IdsBelow(g, n) && Fits(env, g, n, e, c) && LivesIn(g, p, w) && w in g.windows
    requires p in c.snap.panes && w in c.snap.windows
    ensures TellsPane(g, c.snap, e, w, p)
  {
    assert p < n && w < n;
    hide Fits, TellsPane, IdsBelow;
    if e.EditLayout? {
      EditLayoutTells(env, g, n, e, c, w, p);
    } else if e.NewSplit? {
      NewSplitTells(env, g, n, e, c, w, p);
    } else if e.DropPane? {
      DropPaneTells(env, g, n, e, c, w, p);
    } else if e.NewSession? || e.NewWindow? || e.NewPane? {
      AsideAddsTell(env, g, n, e, c, w, p);
    } else if e.DropWindow? || e.DropSession? {
      AsideDropsTell(env, g, n, e, c, w, p);
    } else {
      AsideEditsTell(env, g, n, e, c, w, p);
    }
  }

  /** The commands that change layouts and leave the versions of the panes already there. */
  predicate LeavesSiblings(c: Command) {
    c.SplitPane? || c.DestroyPane? || c.DestroyPaneAndEmptyParents? || c.ApplyBatch?
  }

  lemma StatusKeepsWindows(s: State, id: PaneId, u: Ops.StatusUpdate)
    ensures Ops.SetProgramStatus(s, id, u).0.snap.windows == s.snap.windows
  {
    hide KeepLive;
  }

  lemma ClaimKeepsWindows(s: State, id: PaneId, incarnation: nat)
    ensures Ops.ClaimPanePty(s, id, incarnation).0.snap.windows == s.snap.windows
  {
    hide KeepLive;
  }

  lemma ExitKeepsWindows(s: State, id: PaneId, exit: ProgramExit)
    ensures Finish(s, Ops.SetPaneExit(s.snap, s.supply, id, exit)).0.snap.windows == s.snap.windows
  {
    hide KeepLive;
  }

  /** Claims, statuses and owned exits never touch a window. */
  lemma SideCommandsKeepWindows(env: Env, s: State, c: Command)
    requires c.ClaimPanePty? || c.SetProgramStatus? || c.SetExitOwned?
    ensures Exec(env, s, c).snap.windows == s.snap.windows
  {
    hide Ops.SetProgramStatus, Ops.ClaimPanePty, Ops.SetPaneExit, Finish;
    match c
    case ClaimPanePty(id, incarnation) => ClaimKeepsWindows(s, id, incarnation);
    case SetProgramStatus(id, update) => StatusKeepsWindows(s, id, update);
    case SetExitOwned(id, exit, incarnation, last) =>
      var s' := if last.Some? then Ops.SetProgramStatus(s, id, last.value).0 else s;
      if last.Some? {
        StatusKeepsWindows(s, id, last.value);
      }
      ExitKeepsWindows(s', id, exit);
  }

  lemma StagingKeepsRecord(env: Env, b: Batch.Staged, op: Batch.Op, p: PaneId)
    requires p in b.change.snap.panes && p < b.change.supply
    ensures var r := Batch.StageNext(env, b, op);
            r.Ok? ==>
              && p in r.value.change.snap.panes && r.value.change.snap.panes[p] == b.change.snap.panes[p]
              && p < r.value.change.supply
  {
    hide CapacityError, CheckWindowTitle, SplitIn, DefaultTitle;
  }

  lemma {:induction false} BatchKeepsRecord(env: Env, b: Batch.Staged, ops: seq<Batch.Op>, p: PaneId)
    requires p in b.change.snap.panes && p < b.change.supply
    ensures var r := Batch.StageAll(env, b, ops);
            r.Ok? ==> p in r.value.change.snap.panes && r.value.change.snap.panes[p] == b.change.snap.panes[p]
    decreases |ops|
  {
    hide Batch.StageNext;
    if ops != [] {
      StagingKeepsRecord(env, b, ops[0], p);
      var r := Batch.StageNext(env, b, ops[0]);
      if r.Ok? {
        BatchKeepsRecord(env, r.value, ops[1..], p);
      }
    }
  }

  lemma PlainTells(env: Env, s: State, c: Command, w: WindowId, p: PaneId)
    requires IsPlain(c) && IdsBelow(s.snap, s.supply) && LivesIn(s.snap, p, w) && w in s.snap.windows
    requires p in Exec(env, s, c).snap.panes && w in Exec(env, s, c).snap.windows
    requires Exec(env, s, c).snap.windows[w].layout != s.snap.windows[w].layout
    ensures var p' := Exec(env, s, c).snap.panes[p];
            if LeavesSiblings(c) then p' == s.snap.panes[p] else p'.version == s.snap.panes[p].version + 1
  {
    hide Fits, Plan, KeepLive, IdsBelow, LivesIn;
    ExecPlain(env, s, c);
    var e := PlanMakes(env, s.snap, s.supply, c);
    var o := Plan(env, s.snap, s.supply, c);
    if o.Changed? {
      EditTells(env, s.snap, s.supply, e, o.change, w, p);
    }
  }

  /**
   How far it holds that a layout command moves the version of every pane of its window. Of a pane that stays in a
   window whose layout a command changes: the version moves, by one, if and only if the command is not a split, a
   destroy, a closing with its empty parents, or a batch; those leave the whole record as it was.
   */
  lemma LayoutChangesMoveVersionsIff(env: Env, s: State, c: Command, w: WindowId, p: PaneId)
    requires IdsBelow(s.snap, s.supply) && LivesIn(s.snap, p, w) && w in s.snap.windows
    requires p in Exec(env, s, c).snap.panes && w in Exec(env, s, c).snap.windows
    requires Exec(env, s, c).snap.windows[w].layout != s.snap.windows[w].layout
    ensures var p' := Exec(env, s, c).snap.panes[p];
            && (p'.version != s.snap.panes[p].version <==> !LeavesSiblings(c))
            && (if LeavesSiblings(c) then p' == s.snap.panes[p] else p'.version == s.snap.panes[p].version + 1)
  {
    if c.ApplyBatch? {
      assert p < s.supply;
      hide Batch.StageAll, KeepLive;
      BatchKeepsRecord(env, Batch.Start(s), c.ops, p);
    } else if IsPlain(c) {
      hide Exec, IdsBelow, LivesIn;
      PlainTells(env, s, c, w, p);
    } else {
      SideCommandsKeepWindows(env, s, c);
    }
  }

  // ----- Command by command -----

  /** Resizing, zooming, swapping and a focus that unzooms move the version of every pane of the window. */
  lemma LayoutEditsTouchEveryPane(g: Snapshot, n: nat, id: PaneId, other: PaneId, dir: Direction, delta: real,
                                  expected: Option<nat>, p: PaneId)
    requires id in g.panes && LivesIn(g, p, g.panes[id].window)
    ensures var o := Ops.ResizePane(g, n, id, dir, delta, expected);
            o.Changed? ==> p in o.change.snap.panes && o.change.snap.panes[p].version == g.panes[p].version + 1
    ensures var o := Ops.ZoomPane(g, n, id, expected);
            o.Changed? ==> p in o.change.snap.panes && o.change.snap.panes[p].version == g.panes[p].version + 1
    ensures var o := Ops.SwapPanes(g, n, id, other, expected);
            o.Changed? ==> p in o.change.snap.panes && o.change.snap.panes[p].version == g.panes[p].version + 1
    ensures var o := Ops.FocusPane(g, n, id);
            o.Changed? ==>
              var l := g.windows[g.panes[id].window].layout;
              && p in o.change.snap.panes
              && o.change.snap.panes[p].version
                 == g.panes[p].version + if l.zoom.Some? && l.zoom.value.pane != id then 1 else 0
  {
    hide Layout.ResizePane, Layout.SwapPanes, ToggleZoom;
  }

  /** Splitting changes the window's tree and leaves the records of its other panes as they were. */
  lemma SplitsTouchNoOtherPane(env: Env, g: Snapshot, n: nat, target: PaneId, dir: Direction, ratio: real,
                               command: seq<string>, p: PaneId)
    requires p in g.panes && p != n
    requires target in g.panes && g.panes[target].window in g.windows
    requires !Contains(BaseTree(g.windows[g.panes[target].window].layout), n)
    ensures var o := Ops.SplitPane(env, g, n, target, dir, ratio, command);
            o.Changed? ==>
              && p in o.change.snap.panes && o.change.snap.panes[p] == g.panes[p]
              && BaseTree(o.change.snap.windows[g.panes[target].window].layout)
                 != BaseTree(g.windows[g.panes[target].window].layout)
  {
    hide CapacityError;
    var window := g.panes[target].window;
    var tree := BaseTree(g.windows[window].layout);
    SplitPaneLeaves(tree, target, n, dir, ratio);
    if Contains(tree, target) {
      InsertAfterHasAdded(PaneIds(tree), target, n);
    }
  }

  lemma {:induction false} InsertAfterHasAdded(s: seq<PaneId>, target: PaneId, added: PaneId)
    requires target in s
    ensures added in InsertAfter(s, target, added)
  {
    if s[0] != target {
      InsertAfterHasAdded(s[1..], target, added);
    }
  }

  /** Destroying a pane of the tree changes the window's tree and leaves the records of other panes as they were. */
  lemma DestroysTouchNoOtherPane(env: Env, g: Snapshot, n: nat, id: PaneId, expected: Option<nat>, p: PaneId)
    requires Agrees(g) && p in g.panes && p != id
    ensures var o := Ops.DestroyPane(g, n, id, expected);
            o.Changed? ==>
              var w := g.panes[id].window;
              && p in o.change.snap.panes && o.change.snap.panes[p] == g.panes[p]
              && w in g.windows && w in o.change.snap.windows
              && BaseTree(o.change.snap.windows[w].layout) != BaseTree(g.windows[w].layout)
    ensures var o := Ops.DestroyPaneAndEmptyParents(env, g, n, id);
            o.Changed? && p in o.change.snap.panes ==> o.change.snap.panes[p] == g.panes[p]
  {
    DestroyChangesTree(g, n, id, expected);
    hide RemoveIn, WindowPanes, PaneIds, Agrees, Ops.Exits, Ops.WindowKills, Without;
  }

  lemma DestroyChangesTree(g: Snapshot, n: nat, id: PaneId, expected: Option<nat>)
    requires Agrees(g)
    ensures var o := Ops.DestroyPane(g, n, id, expected);
            o.Changed? ==>
              var w := g.panes[id].window;
              && id in g.panes && w in g.windows && w in o.change.snap.windows
              && BaseTree(o.change.snap.windows[w].layout) != BaseTree(g.windows[w].layout)
  {
    hide RemoveIn, PaneIds, WindowPanes, NoDuplicates;
    var o := Ops.DestroyPane(g, n, id, expected);
    if o.Changed? {
      var w := g.panes[id].window;
      assert AgreesAt(g, w);
      var other := AnotherPane(g, w, id);
      var g' := o.change.snap;
      RemoveAgrees(g, g', w, g.windows[w].layout, id, other);
      assert id in PaneIds(BaseTree(g.windows[w].layout)) && !LivesIn(g', id, w);
    }
  }

  /**
   The version check of a swap does not see a split: after any split in the window, a swap that expects the version
   its anchor pane had before goes through.
   */
  lemma StaleSwapPassesAfterSplit(env: Env, s: State, target: PaneId, dir: Direction, ratio: real, command: seq<string>,
                                  a: PaneId, b: PaneId)
    requires Valid(env, s) && Agrees(s.snap) && a != b
    requires a in s.snap.panes && b in s.snap.panes && target in s.snap.panes
    requires s.snap.panes[a].window == s.snap.panes[b].window == s.snap.panes[target].window
    requires Ops.SplitPane(env, s.snap, s.supply, target, dir, ratio, command).Changed?
    ensures var s1 := Exec(env, s, SplitPane(target, dir, ratio, command));
            Ops.SwapPanes(s1.snap, s1.supply, a, b, Some(s.snap.panes[a].version)).Changed?
  {
    hide Valid, Agrees, Ops.SplitPane, Exec;
    var c := SplitPane(target, dir, ratio, command);
    var s1 := Exec(env, s, c);
    SplitKeepsOthers(env, s, c, a);
    SplitKeepsOthers(env, s, c, b);
    AgreeingStep(env, s, c);
    ValidAtHome(env, s1);
    SwapNeedsBoth(s1.snap, s1.supply, a, b, s.snap.panes[a].version);
  }

  /** A split keeps the records of the panes already there. */
  lemma SplitKeepsOthers(env: Env, s: State, c: Command, p: PaneId)
    requires Valid(env, s) && c.SplitPane? && p in s.snap.panes
    ensures var s1 := Exec(env, s, c); p in s1.snap.panes && s1.snap.panes[p] == s.snap.panes[p]
  {
    hide CapacityError, SplitIn, KeepLive, Naming, AllWithinCapacity, SessionsListWindows, WindowsAreListed,
         PanesHaveWindows,
         WindowsHavePanes, ZoomedPanesLive;
    assert p < s.supply;
  }

  lemma ValidAtHome(env: Env, s: State)
    requires Valid(env, s)
    ensures PanesHaveWindows(s.snap)
  {
  }

  lemma AgreeingStep(env: Env, s: State, c: Command)
    requires Valid(env, s) && Agrees(s.snap) && !c.CreatePane?
    ensures Valid(env, Exec(env, s, c)) && Agrees(Exec(env, s, c).snap)
  {
    hide References, Naming, AllWithinCapacity, Agrees, Exec, Enabled, After;
    var ms := ExecMoves(env, s, c);
    MovesKeep(env, s, ms);
    MovesAgree(env, s, ms);
  }

  lemma SwapNeedsBoth(g: Snapshot, n: nat, a: PaneId, b: PaneId, version: nat)
    requires Agrees(g) && PanesHaveWindows(g) && a != b && a in g.panes && b in g.panes
    requires g.panes[a].window == g.panes[b].window && g.panes[a].version == version
    ensures Ops.SwapPanes(g, n, a, b, Some(version)).Changed?
  {
    hide NoDuplicates, SwapInner;
    var w := g.panes[a].window;
    assert AgreesAt(g, w) && LivesIn(g, a, w) && LivesIn(g, b, w);
  }
}
