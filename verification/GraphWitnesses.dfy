/** Short runs from the empty graph on which the promises that fail do fail. */
module GraphWitnesses {
  import opened Wrappers
  import opened Layout
  import opened WindowLayouts
  import opened GraphModel
  import opened GraphSteps
  import opened GraphRuns
  import opened GraphInvariants
  import opened GraphAgreement
  import opened GraphVersions
  import opened GraphOwnership
  import opened GraphOutcomes
  import Ops = GraphOps

  /** Surroundings in which a session named `s`, of shells in the root directory, is nothing unusual. */
  predicate Ordinary(env: Env) {
    env.alphanumeric('s') && env.jsonBytes([], "/") <= 100
  }

  /** A handful of shells in the root directory. */
  ghost predicate Small(g: Snapshot, n: nat) {
    n <= 5 && forall p :: p in g.panes ==> p < n && g.panes[p].command == [] && g.panes[p].cwd == "/"
  }

  lemma {:induction false} FewBytes(env: Env, g: Snapshot, session: SessionId, n: nat, k: nat)
    requires Ordinary(env) && Small(g, n) && k <= n
    ensures SessionBytes(env, g, session, k) <= 100 * k
    decreases k
  {
    if k > 0 {
      FewBytes(env, g, session, n, k - 1);
    }
  }

  lemma SmallHasRoom(env: Env, g: Snapshot, n: nat, session: SessionId)
    requires Ordinary(env) && Small(g, n)
    ensures HasRoom(env, g, n, session, [], "/")
  {
    FewBytes(env, g, session, n, n);
    assert SessionPanes(g, session) <= {0, 1, 2, 3, 4};
    SubsetSmaller(SessionPanes(g, session), {0, 1, 2, 3, 4});
  }

  const OPEN := CreateSession("s", "/", [])
  const SPLIT := SplitPane(0, Vertical, 0.5, [])

  lemma OpenGoesThrough(env: Env)
    requires Ordinary(env)
    ensures Ops.CreateSession(env, EMPTY_SNAPSHOT, 0, "s", "/", []).Changed?
  {
    hide CapacityError, DefaultTitle, Ops.AddSession;
    SmallHasRoom(env, EMPTY_SNAPSHOT, 0, 2);
    assert "s"[0] == 's' && IsSessionName(env, "s");
  }

  /** The first session: pane 0 alone in window 1 of session 2. */
  lemma Opened(env: Env)
    requires Ordinary(env)
    ensures var s := Exec(env, EMPTY, OPEN);
            && s.supply == 3 && Small(s.snap, 3) && LivesIn(s.snap, 0, 1)
            && 1 in s.snap.windows && s.snap.windows[1].layout == NewLayout(0)
  {
    OpenGoesThrough(env);
    CreateCommits(env, EMPTY, "s", "/", []);
    OpenTakesThree(env);
    hide Exec, Ops.CreateSession, DefaultTitle, KeepLive, Ordinary;
  }

  lemma OpenTakesThree(env: Env)
    requires Ops.CreateSession(env, EMPTY_SNAPSHOT, 0, "s", "/", []).Changed?
    ensures Exec(env, EMPTY, OPEN).supply == 3
  {
    hide CapacityError, DefaultTitle, Ops.AddSession, KeepLive, NameTaken, SessionNameError;
  }

  /** Splitting pane 0 goes through while there are few panes. */
  lemma SplitGoesThrough(env: Env, s: State)
    requires Ordinary(env) && Valid(env, s) && Agrees(s.snap) && Small(s.snap, s.supply) && 0 in s.snap.panes
    ensures Ops.SplitPane(env, s.snap, s.supply, 0, Vertical, 0.5, []).Changed?
  {
    hide Valid, Small, Layout.SplitPane, NoDuplicates, CapacityError;
    ValidAtHome(env, s);
    var (g, n) := (s.snap, s.supply);
    var w := g.panes[0].window;
    SmallHasRoom(env, g, n, g.windows[w].session);
    InRoot(g, n, 0);
    assert AgreesAt(g, w) && LivesIn(g, 0, w);
    SplitPaneLeaves(BaseTree(g.windows[w].layout), 0, n, Vertical, 0.5);
  }

  lemma InRoot(g: Snapshot, n: nat, p: PaneId)
    requires Small(g, n) && p in g.panes
    ensures g.panes[p].cwd == "/"
  {
  }

  lemma SplitStaysSmall(env: Env, s: State)
    requires Small(s.snap, s.supply) && s.supply < 5 && 0 in s.snap.panes
    requires Ops.SplitPane(env, s.snap, s.supply, 0, Vertical, 0.5, []).Changed?
    ensures var s' := Exec(env, s, SPLIT);
            && s'.supply == s.supply + 1 && Small(s'.snap, s'.supply)
            && LivesIn(s'.snap, s.supply, s.snap.panes[0].window)
  {
    hide CapacityError, SplitIn, KeepLive;
  }

  lemma RunTwo(env: Env, c: Command, d: Command)
    ensures Run(env, EMPTY, [c, d]) == Exec(env, Exec(env, EMPTY, c), d)
  {
    hide Exec, Run;
    RunThen(env, EMPTY, [c], [d]);
    RunOne(env, EMPTY, c);
    RunOne(env, Exec(env, EMPTY, c), d);
    assert [c] + [d] == [c, d];
  }

  lemma RunThree(env: Env, c: Command, d: Command, e: Command)
    ensures Run(env, EMPTY, [c, d, e]) == Exec(env, Exec(env, Exec(env, EMPTY, c), d), e)
  {
    hide Exec, Run;
    RunTwo(env, c, d);
    RunThen(env, EMPTY, [c, d], [e]);
    RunOne(env, Exec(env, Exec(env, EMPTY, c), d), e);
    assert [c, d] + [e] == [c, d, e];
  }

  /**
   Open a session, split its pane 0 to get pane 3, read pane 0's version, and split again: the window has a third pane,
   pane 0 still has the version read, and a swap of 0 and 3 that expects that version commits.
   */
  lemma StaleSwapRun(env: Env)
    requires Ordinary(env)
    ensures var before := Run(env, EMPTY, [OPEN, SPLIT]);
            var after := Run(env, EMPTY, [OPEN, SPLIT, SPLIT]);
            && 0 in before.snap.panes && 0 in after.snap.panes
            && 1 in before.snap.windows && 1 in after.snap.windows
            && after.snap.windows[1].layout != before.snap.windows[1].layout
            && after.snap.panes[0].version == before.snap.panes[0].version
            && Ops.SwapPanes(after.snap, after.supply, 0, 3, Some(before.snap.panes[0].version)).Changed?
  {
    hide Valid, Agrees, Exec, Run, Small, Ops.SplitPane, Ops.SwapPanes;
    Opened(env);
    var s1 := Exec(env, EMPTY, OPEN);
    RunOne(env, EMPTY, OPEN);
    ReachableGraphsAreValid(env, [OPEN]);
    LayoutsAgree(env, [OPEN]);
    SplitGoesThrough(env, s1);
    SplitStaysSmall(env, s1);
    var s2 := Exec(env, s1, SPLIT);
    RunTwo(env, OPEN, SPLIT);
    ReachableGraphsAreValid(env, [OPEN, SPLIT]);
    LayoutsAgree(env, [OPEN, SPLIT]);
    SplitKeepsOthers(env, s1, SPLIT, 0);
    SplitGoesThrough(env, s2);
    RunThree(env, OPEN, SPLIT, SPLIT);
    SplitKeepsOthers(env, s2, SPLIT, 0);
    StaleSwapPassesAfterSplit(env, s2, 0, Vertical, 0.5, [], 0, 3);
    SplitShows(env, s2);
  }

  lemma SplitShows(env: Env, s: State)
    requires Valid(env, s) && Agrees(s.snap) && LivesIn(s.snap, 0, 1)
    requires Ops.SplitPane(env, s.snap, s.supply, 0, Vertical, 0.5, []).Changed?
    ensures var s' := Exec(env, s, SPLIT);
            1 in s.snap.windows && 1 in s'.snap.windows && s'.snap.windows[1].layout != s.snap.windows[1].layout
  {
    hide Valid, Agrees, Exec, Ops.SplitPane, SplitIn;
    SupplyIsUnused(env, s);
    SplitCommits(env, s, 0, Vertical, 0.5, []);
    SplitIsNew(s.snap, s.supply);
  }

  lemma SplitIsNew(g: Snapshot, n: nat)
    requires Agrees(g) && LivesIn(g, 0, 1) && 1 in g.windows && n !in g.panes
    ensures var (l, ok) := SplitIn(g.windows[1].layout, 0, n, Vertical, 0.5); ok ==> l != g.windows[1].layout
  {
    hide NoDuplicates, Layout.SplitPane;
    assert AgreesAt(g, 1);
    var tree := BaseTree(g.windows[1].layout);
    assert n !in PaneIds(tree);
    SplitPaneLeaves(tree, 0, n, Vertical, 0.5);
    InsertAfterHasAdded(PaneIds(tree), 0, n);
  }

  /** Open a session, add a pane behind the layout's back, destroy the pane shown: tree and focus name the dead one. */
  lemma OrphanRun(env: Env)
    requires Ordinary(env)
    ensures var s := Run(env, EMPTY, [OPEN, CreatePane(1, "/", []), DestroyPane(0, None)]);
            && 1 in s.snap.windows && 0 !in s.snap.panes && LivesIn(s.snap, 3, 1)
            && s.snap.windows[1].active == 0 && s.snap.windows[1].layout.tree == Leaf(0)
  {
    hide Valid, Agrees, Exec, Run, Small;
    Opened(env);
    var s1 := Exec(env, EMPTY, OPEN);
    RunOne(env, EMPTY, OPEN);
    ReachableGraphsAreValid(env, [OPEN]);
    LayoutsAgree(env, [OPEN]);
    SmallHasRoom(env, s1.snap, 3, s1.snap.windows[1].session);
    RunThree(env, OPEN, CreatePane(1, "/", []), DestroyPane(0, None));
    HiddenPaneOrphansTheLayout(env, s1, 1, "/", [], 0);
    var s := Run(env, EMPTY, [OPEN, CreatePane(1, "/", []), DestroyPane(0, None)]);
    assert 3 in WindowPanes(s.snap, 1);
  }
}
