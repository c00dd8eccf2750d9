/** What every reachable graph keeps: references, names, titles, capacity, live side maps. */
module GraphInvariants {
  import opened Layout
  import opened WindowLayouts
  import opened Titles
  import opened GraphModel
  import opened GraphSteps
  import opened GraphRuns
  import Ops = GraphOps

  ghost predicate IdsBelow(g: Snapshot, n: nat) {
    && (forall s :: s in g.sessions ==> s < n)
    && (forall w :: w in g.windows ==> w < n)
    && (forall p :: p in g.panes ==> p < n)
  }

  /** Non-empty, duplicate-free window lists that hold the active window and only the session's own windows. */
  ghost predicate ListsItsWindows(g: Snapshot, id: SessionId)
    requires id in g.sessions
  {
    var s := g.sessions[id];
    && s.windows != [] && NoDuplicates(s.windows) && s.active in s.windows
    && forall w :: w in s.windows ==> w in g.windows && g.windows[w].session == id
  }

  ghost predicate SessionsListWindows(g: Snapshot) {
    forall id :: id in g.sessions ==> ListsItsWindows(g, id)
  }

  ghost predicate IsListed(g: Snapshot, w: Window, id: WindowId) {
    w.session in g.sessions && id in g.sessions[w.session].windows
  }

  ghost predicate WindowsAreListed(g: Snapshot) {
    forall id :: id in g.windows ==> IsListed(g, g.windows[id], id)
  }

  ghost predicate PanesHaveWindows(g: Snapshot) {
    forall p :: p in g.panes ==> g.panes[p].window in g.windows
  }

  ghost predicate HasPane(g: Snapshot, w: WindowId) {
    exists p :: LivesIn(g, p, w)
  }

  ghost predicate WindowsHavePanes(g: Snapshot) {
    forall w :: w in g.windows ==> HasPane(g, w)
  }

  ghost predicate ZoomedPanesLive(g: Snapshot) {
    forall w :: w in g.windows && g.windows[w].layout.zoom.Some? ==> LivesIn(g, g.windows[w].layout.zoom.value.pane, w)
  }

  ghost predicate NamesValid(env: Env, g: Snapshot) {
    forall s :: s in g.sessions ==> IsSessionName(env, g.sessions[s].name)
  }

  ghost predicate NamesDistinct(g: Snapshot) {
    forall s, t :: s in g.sessions && t in g.sessions && g.sessions[s].name == g.sessions[t].name ==> s == t
  }

  ghost predicate TitlesValid(g: Snapshot) {
    forall w :: w in g.windows ==> IsWindowTitle(g.windows[w].title)
  }

  predicate SameLabel(v: Window, w: Window) {
    v.session == w.session && v.title == w.title
  }

  ghost predicate TitlesDistinct(g: Snapshot) {
    forall v, w :: v in g.windows && w in g.windows && SameLabel(g.windows[v], g.windows[w]) ==> v == w
  }

  ghost predicate WithinCapacity(env: Env, g: Snapshot, n: nat, session: SessionId) {
    && |SessionPanes(g, session)| <= MAX_PANES_PER_SESSION
    && SessionBytes(env, g, session, n) <= MAX_SESSION_PANE_BYTES
  }

  ghost predicate AllWithinCapacity(env: Env, g: Snapshot, n: nat) {
    forall session :: WithinCapacity(env, g, n, session)
  }

  ghost predicate References(g: Snapshot, n: nat) {
    && IdsBelow(g, n) && SessionsListWindows(g) && WindowsAreListed(g) && PanesHaveWindows(g)
    && WindowsHavePanes(g) && ZoomedPanesLive(g)
  }

  ghost predicate Naming(env: Env, g: Snapshot) {
    NamesValid(env, g) && NamesDistinct(g) && TitlesValid(g) && TitlesDistinct(g)
  }

  /** The invariant of the session graph. */
  ghost predicate Valid(env: Env, s: State) {
    References(s.snap, s.supply) && Naming(env, s.snap) && AllWithinCapacity(env, s.snap, s.supply) && SideMapsLive(s)
  }

  // ----- Capacity -----

  /** All panes but the newest were there before, in the same session, with the same command and directory. */
  ghost predicate PanesFrom(g: Snapshot, g': Snapshot, n: nat) {
    && (forall p :: p in g'.panes && p != n ==>
          && p in g.panes && g'.panes[p].window == g.panes[p].window
          && g'.panes[p].command == g.panes[p].command && g'.panes[p].cwd == g.panes[p].cwd)
    && (forall w :: w in g'.windows && w in g.windows ==> g'.windows[w].session == g.windows[w].session)
  }

  /** A pane added to a session had room there. */
  ghost predicate NewestHadRoom(env: Env, g: Snapshot, g': Snapshot, n: nat) {
    n in g'.panes && g'.panes[n].window in g'.windows ==>
      HasRoom(env, g, n, g'.windows[g'.panes[n].window].session, g'.panes[n].command, g'.panes[n].cwd)
  }

  ghost predicate SomeFrom(g: Snapshot, g': Snapshot, n: nat, session: SessionId) {
    forall p :: p != n && InSession(g', p, session) ==>
      && InSession(g, p, session)
      && g'.panes[p].command == g.panes[p].command && g'.panes[p].cwd == g.panes[p].cwd
  }

  lemma {:induction false} BytesFrom(env: Env, g: Snapshot, g': Snapshot, session: SessionId, n: nat, k: nat)
    requires SomeFrom(g, g', n, session) && k <= n
    ensures SessionBytes(env, g', session, k) <= SessionBytes(env, g, session, k)
    decreases k
  {
    if k > 0 {
      BytesFrom(env, g, g', session, n, k - 1);
    }
  }

  lemma {:induction false} BytesStop(env: Env, g: Snapshot, session: SessionId, n: nat, k: nat)
    requires (forall p :: p in g.panes ==> p < n) && n <= k
    ensures SessionBytes(env, g, session, k) == SessionBytes(env, g, session, n)
    decreases k
  {
    if k > n {
      BytesStop(env, g, session, n, k - 1);
    }
  }

  lemma SubsetSmaller<T>(a: set<T>, b: set<T>)
    requires a <= b
    ensures |a| <= |b|
  {
    assert b == a + (b - a);
  }

  lemma SessionStaysWithin(env: Env, g: Snapshot, g': Snapshot, n: nat, n': nat, session: SessionId)
    requires WithinCapacity(env, g, n, session) && SomeFrom(g, g', n, session)
    requires n <= n' && (forall p :: p in g'.panes ==> p <= n && p < n')
    requires InSession(g', n, session) ==> HasRoom(env, g, n, session, g'.panes[n].command, g'.panes[n].cwd)
    ensures WithinCapacity(env, g', n', session)
  {
    BytesFrom(env, g, g', session, n, n);
    var (before, after) := (SessionPanes(g, session), SessionPanes(g', session));
    if InSession(g', n, session) {
      assert after <= before + {n};
      SubsetSmaller(after, before + {n});
      BytesStop(env, g', session, n + 1, n');
    } else {
      assert after <= before;
      SubsetSmaller(after, before);
      LeaveOut(env, g', session, n);
      if n < n' {
        BytesStop(env, g', session, n + 1, n');
      }
    }
  }

  lemma LeaveOut(env: Env, g: Snapshot, session: SessionId, n: nat)
    requires !InSession(g, n, session)
    ensures SessionBytes(env, g, session, n + 1) == SessionBytes(env, g, session, n)
  {
  }

  lemma CapacityKept(env: Env, g: Snapshot, g': Snapshot, n: nat, n': nat)
    requires AllWithinCapacity(env, g, n) && PanesHaveWindows(g) && IdsBelow(g, n)
    requires PanesFrom(g, g', n) && NewestHadRoom(env, g, g', n) && n <= n' && (n in g'.panes ==> n < n')
    ensures AllWithinCapacity(env, g', n')
  {
    hide HasRoom;
    forall session
      ensures WithinCapacity(env, g', n', session)
    {
      hide WithinCapacity;
      assert WithinCapacity(env, g, n, session);
      SessionStaysWithin(env, g, g', n, n', session);
    }
  }

  // ----- References, edit by edit -----

  /** What an edit does to the panes, as capacity sees it. */
  ghost predicate PanesTold(env: Env, g: Snapshot, g': Snapshot, n: nat, n': nat) {
    && PanesFrom(g, g', n) && NewestHadRoom(env, g, g', n) && n <= n' && (n in g'.panes ==> n < n')
  }

  /** Sessions as they were, and every window still in its session. */
  ghost predicate SameHomes(g: Snapshot, g': Snapshot) {
    && g'.sessions == g.sessions && g'.windows.Keys == g.windows.Keys
    && forall w :: w in g.windows ==> g'.windows[w].session == g.windows[w].session
  }

  /** Every pane but those dropped is still in its window, and a new one is in a window that was there. */
  ghost predicate SamePanes(g: Snapshot, g': Snapshot, n: nat, dropped: set<PaneId>) {
    && (forall p :: p in g.panes && p !in dropped ==> LivesIn(g', p, g.panes[p].window))
    && (n in g'.panes ==> g'.panes[n].window in g.windows)
  }

  /** A zoom is as it was, or on a live pane of its window. */
  ghost predicate SameZooms(g: Snapshot, g': Snapshot) {
    forall w :: w in g'.windows && g'.windows[w].layout.zoom.Some? ==>
      (w in g.windows && ZoomedPane(g'.windows[w].layout) == ZoomedPane(g.windows[w].layout))
      || LivesIn(g', g'.windows[w].layout.zoom.value.pane, w)
  }

  lemma SessionsStay(g: Snapshot, g': Snapshot)
    requires SessionsListWindows(g) && WindowsAreListed(g) && SameHomes(g, g')
    ensures SessionsListWindows(g') && WindowsAreListed(g')
  {
    hide NoDuplicates;
    forall id | id in g'.sessions
      ensures ListsItsWindows(g', id)
    {
      assert ListsItsWindows(g, id);
    }
  }

  lemma WindowsStayPopulated(g: Snapshot, g': Snapshot, n: nat)
    requires WindowsHavePanes(g) && g'.windows.Keys <= g.windows.Keys && SamePanes(g, g', n, {})
    ensures WindowsHavePanes(g')
  {
    forall w | w in g'.windows
      ensures HasPane(g', w)
    {
      var p :| LivesIn(g, p, w);
      assert LivesIn(g', p, w);
    }
  }

  lemma PanesStayHome(g: Snapshot, g': Snapshot, n: nat, n': nat, dropped: set<PaneId>)
    requires IdsBelow(g, n) && PanesHaveWindows(g) && SameHomes(g, g') && PanesFrom(g, g', n)
    requires SamePanes(g, g', n, dropped) && n <= n' && (n in g'.panes ==> n < n')
    ensures IdsBelow(g', n') && PanesHaveWindows(g')
  {
  }

  lemma ZoomsStay(g: Snapshot, g': Snapshot, n: nat)
    requires ZoomedPanesLive(g) && SameZooms(g, g') && SamePanes(g, g', n, {})
    ensures ZoomedPanesLive(g')
  {
  }

  /** Edits within the tree of sessions and windows. */
  lemma InPlace(env: Env, g: Snapshot, g': Snapshot, n: nat, n': nat)
    requires References(g, n) && PanesTold(env, g, g', n, n')
    requires SameHomes(g, g') && SamePanes(g, g', n, {}) && SameZooms(g, g')
    ensures References(g', n')
  {
    hide HasRoom, PanesFrom, NewestHadRoom, SamePanes, SameZooms, IdsBelow, SessionsListWindows, WindowsAreListed,
         PanesHaveWindows, WindowsHavePanes, ZoomedPanesLive;
    SessionsStay(g, g');
    WindowsStayPopulated(g, g', n);
    PanesStayHome(g, g', n, n', {});
    ZoomsStay(g, g', n);
  }

  lemma AbsentWhenFresh(g: Snapshot, n: nat)
    requires References(g, n)
    ensures n !in g.panes && n + 1 !in g.windows && n + 2 !in g.sessions
  {
    hide SessionsListWindows, WindowsAreListed, PanesHaveWindows, WindowsHavePanes, ZoomedPanesLive;
  }

  lemma NewPaneFacts(env: Env, g: Snapshot, n: nat, window: WindowId, cwd: string, command: seq<string>, c: Change)
    requires n !in g.panes && FitsNewPane(env, g, n, window, cwd, command, c)
    ensures PanesTold(env, g, c.snap, n, c.supply)
    ensures SameHomes(g, c.snap) && SamePanes(g, c.snap, n, {}) && SameZooms(g, c.snap)
  {
    hide HasRoom;
  }

  lemma NewSplitFacts(env: Env, g: Snapshot, n: nat, target: PaneId, dir: Direction, ratio: real, cwd: string,
                      command: seq<string>, c: Change)
    requires n !in g.panes && FitsNewSplit(env, g, n, target, dir, ratio, cwd, command, c)
    ensures PanesTold(env, g, c.snap, n, c.supply)
    ensures SameHomes(g, c.snap) && SamePanes(g, c.snap, n, {}) && SameZooms(g, c.snap)
  {
    hide HasRoom, Layout.SplitPane, PaneIds;
  }

  lemma EditTitleFacts(env: Env, g: Snapshot, n: nat, id: WindowId, title: string, c: Change)
    requires n !in g.panes && FitsEditTitle(g, n, id, title, c)
    ensures PanesTold(env, g, c.snap, n, c.supply)
    ensures SameHomes(g, c.snap) && SamePanes(g, c.snap, n, {}) && SameZooms(g, c.snap)
  {
    hide HasRoom, IsWindowTitle, Ops.TitleClashes;
  }

  lemma EditLayoutFacts(env: Env, g: Snapshot, n: nat, id: WindowId, l: LayoutState, active: PaneId, all: bool,
                        focus: seq<Event>, c: Change)
    requires n !in g.panes && FitsEditLayout(g, n, id, l, active, all, focus, c)
    ensures PanesTold(env, g, c.snap, n, c.supply)
    ensures SameHomes(g, c.snap) && SamePanes(g, c.snap, n, {}) && SameZooms(g, c.snap)
  {
    hide HasRoom, KeepsLeaves, ZoomEvents;
  }

  lemma EditPaneFacts(env: Env, g: Snapshot, n: nat, id: PaneId, p: Pane, c: Change)
    requires n !in g.panes && FitsEditPane(g, n, id, p, c)
    ensures PanesTold(env, g, c.snap, n, c.supply)
    ensures SameHomes(g, c.snap) && SamePanes(g, c.snap, n, {}) && SameZooms(g, c.snap)
  {
    hide HasRoom, PaneNews;
  }

  lemma TickFacts(env: Env, g: Snapshot, n: nat)
    requires n !in g.panes
    ensures PanesTold(env, g, Ops.Tick(g), n, n)
    ensures SameHomes(g, Ops.Tick(g)) && SamePanes(g, Ops.Tick(g), n, {}) && SameZooms(g, Ops.Tick(g))
  {
    hide HasRoom;
  }

  lemma InPlaceRefers(env: Env, g: Snapshot, n: nat, e: Edit, c: Change)
    requires e.NewPane? || e.NewSplit? || e.EditTitle? || e.EditLayout? || e.EditPane? || e.OnlyTick?
    requires References(g, n) && Fits(env, g, n, e, c)
    ensures References(c.snap, c.supply) && PanesTold(env, g, c.snap, n, c.supply)
  {
    hide References, PanesTold, SameHomes, SamePanes, SameZooms, FitsNewPane, FitsNewSplit, FitsEditTitle,
         FitsEditLayout,
         FitsEditPane;
    AbsentWhenFresh(g, n);
    match e {
      case NewPane(window, cwd, command) => NewPaneFacts(env, g, n, window, cwd, command, c);
      case NewSplit(target, dir, ratio, cwd, command) => NewSplitFacts(env, g, n, target, dir, ratio, cwd, command, c);
      case EditTitle(id, title) => EditTitleFacts(env, g, n, id, title, c);
      case EditLayout(id, l, active, all, focus) => EditLayoutFacts(env, g, n, id, l, active, all, focus, c);
      case EditPane(id, p) => EditPaneFacts(env, g, n, id, p, c);
      case OnlyTick => TickFacts(env, g, n);
    }
    InPlace(env, g, c.snap, n, c.supply);
  }

  lemma AnotherPane(g: Snapshot, w: WindowId, id: PaneId) returns (p: PaneId)
    requires |WindowPanes(g, w)| > 1
    ensures LivesIn(g, p, w) && p != id
  {
    var s := WindowPanes(g, w);
    if s - {id} == {} {
      SubsetSmaller(s, {id});
    }
    p :| p in s - {id};
  }

  lemma DropPaneFacts(env: Env, g: Snapshot, n: nat, id: PaneId, c: Change)
    requires n !in g.panes && FitsDropPane(g, n, id, c)
    ensures PanesTold(env, g, c.snap, n, c.supply) && c.supply == n
    ensures SameHomes(g, c.snap) && SamePanes(g, c.snap, n, {id})
    ensures forall w :: w in c.snap.windows && c.snap.windows[w].layout.zoom.Some? ==>
              w != g.panes[id].window && c.snap.windows[w] == g.windows[w]
  {
    hide HasRoom, WindowPanes, Layout.RemovePane, PaneIds;
  }

  lemma DropPaneLeavesOthers(g: Snapshot, g': Snapshot, n: nat, id: PaneId)
    requires id in g.panes && WindowsHavePanes(g) && g'.windows.Keys == g.windows.Keys && SamePanes(g, g', n, {id})
    requires |WindowPanes(g, g.panes[id].window)| > 1
    ensures WindowsHavePanes(g')
  {
    hide WindowPanes;
    var window := g.panes[id].window;
    var other := AnotherPane(g, window, id);
    forall w | w in g'.windows
      ensures HasPane(g', w)
    {
      if w == window {
        assert LivesIn(g', other, w);
      } else {
        var p :| LivesIn(g, p, w);
        assert LivesIn(g', p, w);
      }
    }
  }

  lemma DropPaneZooms(g: Snapshot, g': Snapshot, n: nat, id: PaneId)
    requires id in g.panes && ZoomedPanesLive(g) && SamePanes(g, g', n, {id}) && g'.windows.Keys == g.windows.Keys
    requires forall w :: w in g'.windows && g'.windows[w].layout.zoom.Some? ==>
               w != g.panes[id].window && g'.windows[w] == g.windows[w]
    ensures ZoomedPanesLive(g')
  {
  }

  lemma DropPaneRefers(env: Env, g: Snapshot, n: nat, id: PaneId, c: Change)
    requires References(g, n) && FitsDropPane(g, n, id, c)
    ensures References(c.snap, c.supply) && PanesTold(env, g, c.snap, n, c.supply)
  {
    AbsentWhenFresh(g, n);
    DropPaneFacts(env, g, n, id, c);
    hide WindowPanes, Ops.DropPane, NewestHadRoom, PanesFrom, SamePanes, SessionsListWindows, WindowsAreListed,
         PanesHaveWindows, WindowsHavePanes, ZoomedPanesLive, IdsBelow;
    SessionsStay(g, c.snap);
    PanesStayHome(g, c.snap, n, n, {id});
    DropPaneLeavesOthers(g, c.snap, n, id);
    DropPaneZooms(g, c.snap, n, id);
  }

  // ----- Edits of a session's list of windows -----

  /** One session gains the windows `added` or loses the windows `removed` with their panes; all else stays. */
  ghost predicate Rehomed(g: Snapshot, g': Snapshot, n: nat, id: SessionId, added: set<WindowId>,
                          removed: set<WindowId>) {
    && (forall s :: s != id ==> (s in g'.sessions <==> s in g.sessions))
    && (forall s :: s != id && s in g.sessions ==> g'.sessions[s] == g.sessions[s])
    && (forall w :: w in g'.windows <==> (w in g.windows && w !in removed) || w in added)
    && (forall w :: w in g'.windows && w !in added ==> g'.windows[w] == g.windows[w])
    && (forall w :: w in added ==>
          w !in g.windows && g'.windows[w].session == id && g'.windows[w].layout.zoom.None? && LivesIn(g', n, w))
    && (forall w :: w in removed ==> w in g.windows && g.windows[w].session == id)
    && (forall p :: p != n ==> (p in g'.panes <==> p in g.panes && g.panes[p].window !in removed))
    && (forall p :: p != n && p in g'.panes ==> g'.panes[p] == g.panes[p])
    && (n in g'.panes ==> g'.panes[n].window in added)
  }

  ghost predicate Relisted(g: Snapshot, g': Snapshot, id: SessionId, added: set<WindowId>, removed: set<WindowId>) {
    if id in g'.sessions then
      var s := g'.sessions[id];
      && s.windows != [] && NoDuplicates(s.windows) && s.active in s.windows
      && forall w :: w in s.windows <==>
           w in added || (id in g.sessions && w in g.sessions[id].windows && w !in removed)
    else
      id in g.sessions && added == {} && forall w :: w in g.sessions[id].windows ==> w in removed
  }

  lemma RehomedLists(g: Snapshot, g': Snapshot, n: nat, id: SessionId, added: set<WindowId>, removed: set<WindowId>)
    requires SessionsListWindows(g) && Rehomed(g, g', n, id, added, removed) && Relisted(g, g', id, added, removed)
    ensures SessionsListWindows(g')
  {
    hide NoDuplicates, LivesIn;
    forall s | s in g'.sessions
      ensures ListsItsWindows(g', s)
    {
      assert s in g.sessions ==> ListsItsWindows(g, s);
    }
  }

  lemma RehomedListed(g: Snapshot, g': Snapshot, n: nat, id: SessionId, added: set<WindowId>, removed: set<WindowId>)
    requires WindowsAreListed(g) && SessionsListWindows(g)
    requires Rehomed(g, g', n, id, added, removed) && Relisted(g, g', id, added, removed)
    ensures WindowsAreListed(g')
  {
    hide NoDuplicates, LivesIn;
    forall w | w in g'.windows
      ensures IsListed(g', g'.windows[w], w)
    {
      if w !in added {
        assert IsListed(g, g.windows[w], w);
      }
    }
  }

  lemma RehomedPanes(g: Snapshot, g': Snapshot, n: nat, n': nat, id: SessionId, added: set<WindowId>,
                     removed: set<WindowId>)
    requires IdsBelow(g, n) && PanesHaveWindows(g) && WindowsHavePanes(g) && ZoomedPanesLive(g)
    requires Rehomed(g, g', n, id, added, removed)
    requires n <= n' && (id in g'.sessions ==> id < n')
    requires (forall w :: w in added ==> w < n') && (n in g'.panes ==> n < n')
    ensures IdsBelow(g', n') && PanesHaveWindows(g') && WindowsHavePanes(g') && ZoomedPanesLive(g')
  {
    forall w | w in g'.windows
      ensures HasPane(g', w)
    {
      if w in added {
        assert LivesIn(g', n, w);
      } else {
        var p :| LivesIn(g, p, w);
        assert LivesIn(g', p, w);
      }
    }
  }

  lemma RehomedRefers(g: Snapshot, g': Snapshot, n: nat, n': nat, id: SessionId, added: set<WindowId>,
                      removed: set<WindowId>)
    requires References(g, n) && Rehomed(g, g', n, id, added, removed) && Relisted(g, g', id, added, removed)
    requires n <= n' && (id in g'.sessions ==> id < n')
    requires (forall w :: w in added ==> w < n') && (n in g'.panes ==> n < n')
    ensures References(g', n')
  {
    hide Rehomed, Relisted, SessionsListWindows, WindowsAreListed, PanesHaveWindows, WindowsHavePanes, ZoomedPanesLive,
         IdsBelow;
    RehomedLists(g, g', n, id, added, removed);
    RehomedListed(g, g', n, id, added, removed);
    RehomedPanes(g, g', n, n', id, added, removed);
  }

  lemma NewestBelow(env: Env, g: Snapshot, g': Snapshot, n: nat, n': nat)
    requires PanesTold(env, g, g', n, n')
    ensures n <= n' && (n in g'.panes ==> n < n')
  {
  }

  lemma SessionIsListed(g: Snapshot, n: nat, id: SessionId)
    requires References(g, n) && id in g.sessions
    ensures ListsItsWindows(g, id) && id < n
    ensures n + 1 !in g.sessions[id].windows
  {
    hide WindowsAreListed, PanesHaveWindows, WindowsHavePanes, ZoomedPanesLive, NoDuplicates;
    assert ListsItsWindows(g, id);
    assert n + 1 in g.sessions[id].windows ==> n + 1 in g.windows;
  }

  lemma NewSessionTold(env: Env, g: Snapshot, n: nat, name: string, title: string, cwd: string, command: seq<string>,
                       c: Change)
    requires n + 1 !in g.windows && FitsNewSession(env, g, n, name, title, cwd, command, c)
    ensures PanesTold(env, g, c.snap, n, c.supply) && c.supply == n + 3
    ensures n + 2 in c.snap.sessions && c.snap.sessions[n + 2].windows == [n + 1]
    ensures c.snap.sessions[n + 2].active == n + 1
  {
    hide HasRoom, IsSessionName, NameTaken, IsWindowTitle, Sanitize;
  }

  lemma NewSessionFacts(env: Env, g: Snapshot, n: nat, name: string, title: string, cwd: string, command: seq<string>,
                        c: Change)
    requires n !in g.panes && n + 1 !in g.windows && n + 2 !in g.sessions
    requires FitsNewSession(env, g, n, name, title, cwd, command, c)
    ensures PanesTold(env, g, c.snap, n, c.supply)
    ensures Rehomed(g, c.snap, n, n + 2, {n + 1}, {}) && Relisted(g, c.snap, n + 2, {n + 1}, {})
    ensures c.supply == n + 3
  {
    hide HasRoom, IsSessionName, NameTaken, IsWindowTitle, Sanitize, PanesTold;
    NewSessionTold(env, g, n, name, title, cwd, command, c);
  }

  lemma AppendDistinct(s: seq<WindowId>, x: WindowId)
    requires NoDuplicates(s) && x !in s
    ensures NoDuplicates(s + [x]) && s + [x] != [] && x in s + [x]
    ensures forall w :: w in s + [x] <==> w in s || w == x
  {
  }

  lemma NewWindowFacts(env: Env, g: Snapshot, n: nat, session: SessionId, title: string, cwd: string,
                       command: seq<string>, c: Change)
    requires n !in g.panes && n + 1 !in g.windows && FitsNewWindow(env, g, n, session, title, cwd, command, c)
    ensures PanesTold(env, g, c.snap, n, c.supply)
    ensures Rehomed(g, c.snap, n, session, {n + 1}, {})
    ensures c.supply == n + 2 && session in g.sessions && session in c.snap.sessions
    ensures var s := c.snap.sessions[session]; s.windows == g.sessions[session].windows + [n + 1] && s.active == n + 1
  {
    hide HasRoom, TitleTaken, IsWindowTitle, Sanitize;
  }

  lemma NewWindowRefers(env: Env, g: Snapshot, n: nat, session: SessionId, title: string, cwd: string,
                        command: seq<string>, c: Change)
    requires References(g, n) && FitsNewWindow(env, g, n, session, title, cwd, command, c)
    ensures References(c.snap, c.supply) && PanesTold(env, g, c.snap, n, c.supply)
  {
    hide FitsNewWindow, PanesTold, NoDuplicates, Rehomed, References;
    AbsentWhenFresh(g, n);
    NewWindowFacts(env, g, n, session, title, cwd, command, c);
    SessionIsListed(g, n, session);
    NewestBelow(env, g, c.snap, n, c.supply);
    AppendDistinct(g.sessions[session].windows, n + 1);
    RehomedRefers(g, c.snap, n, c.supply, session, {n + 1}, {});
  }

  lemma EditSessionFacts(env: Env, g: Snapshot, n: nat, id: SessionId, s: Session, c: Change)
    requires n !in g.panes && FitsEditSession(env, g, n, id, s, c)
    ensures PanesTold(env, g, c.snap, n, c.supply) && c.supply == n
    ensures Rehomed(g, c.snap, n, id, {}, {}) && id in g.sessions && id in c.snap.sessions
    ensures var (was, s') := (g.sessions[id], c.snap.sessions[id]);
            && (NoDuplicates(was.windows) ==> NoDuplicates(s'.windows))
            && (forall w :: w in was.windows <==> w in s'.windows)
            && (s'.active == was.active || s'.active in s'.windows)
  {
    hide HasRoom, IsSessionName, NameTaken, NoDuplicates;
  }

  lemma EditSessionRefers(env: Env, g: Snapshot, n: nat, id: SessionId, s: Session, c: Change)
    requires References(g, n) && FitsEditSession(env, g, n, id, s, c)
    ensures References(c.snap, c.supply) && PanesTold(env, g, c.snap, n, c.supply)
  {
    hide FitsEditSession, PanesTold, NoDuplicates, Rehomed, References;
    AbsentWhenFresh(g, n);
    EditSessionFacts(env, g, n, id, s, c);
    SessionIsListed(g, n, id);
    NewestBelow(env, g, c.snap, n, c.supply);
    assert g.sessions[id].windows[0] in c.snap.sessions[id].windows;
    RehomedRefers(g, c.snap, n, c.supply, id, {}, {});
  }

  lemma RemainingWindows(s: seq<WindowId>, id: WindowId)
    requires NoDuplicates(s) && |s| > 1
    ensures NoDuplicates(Without(s, id)) && Without(s, id) != []
    ensures forall w :: w in Without(s, id) <==> w in s && w != id
  {
    WithoutElements(s, id);
    assert forall w :: w in Without(s, id) <==> w in Elements(Without(s, id));
    assert forall w :: w in s <==> w in Elements(s);
    assert s[0] != s[1];
    assert s[0] in Elements(s) && s[1] in Elements(s);
  }

  lemma DropWindowFacts(env: Env, g: Snapshot, n: nat, id: WindowId, c: Change)
    requires n !in g.panes && FitsDropWindow(env, g, n, id, c)
    ensures PanesTold(env, g, c.snap, n, c.supply) && c.supply == n
    ensures Rehomed(g, c.snap, n, g.windows[id].session, {}, {id})
    ensures g.windows[id].session in c.snap.sessions
    ensures var (s, s') := (g.sessions[g.windows[id].session], c.snap.sessions[g.windows[id].session]);
            && s'.windows == Without(s.windows, id)
            && s'.active == if s.active == id && s'.windows != [] then s'.windows[0] else s.active
  {
    hide HasRoom, Ops.Exits, Without;
  }

  lemma DropWindowRefers(env: Env, g: Snapshot, n: nat, id: WindowId, c: Change)
    requires References(g, n) && FitsDropWindow(env, g, n, id, c)
    ensures References(c.snap, c.supply) && PanesTold(env, g, c.snap, n, c.supply)
  {
    hide Ops.DropWindow, Ops.Exits, PanesTold, NoDuplicates, Rehomed, References, Without;
    AbsentWhenFresh(g, n);
    DropWindowFacts(env, g, n, id, c);
    var session := g.windows[id].session;
    SessionIsListed(g, n, session);
    NewestBelow(env, g, c.snap, n, c.supply);
    RemainingWindows(g.sessions[session].windows, id);
    RehomedRefers(g, c.snap, n, c.supply, session, {}, {id});
  }

  lemma DropSessionFacts(env: Env, g: Snapshot, n: nat, id: SessionId, c: Change)
    requires n !in g.panes && FitsDropSession(env, g, n, id, c) && ListsItsWindows(g, id)
    ensures PanesTold(env, g, c.snap, n, c.supply) && c.supply == n && id !in c.snap.sessions
    ensures var removed := set w | w in g.sessions[id].windows;
            Rehomed(g, c.snap, n, id, {}, removed) && Relisted(g, c.snap, id, {}, removed)
  {
    hide HasRoom, Ops.Exits, Ops.WindowKills, NoDuplicates;
  }

  lemma DropSessionRefers(env: Env, g: Snapshot, n: nat, id: SessionId, c: Change)
    requires References(g, n) && FitsDropSession(env, g, n, id, c)
    ensures References(c.snap, c.supply) && PanesTold(env, g, c.snap, n, c.supply)
  {
    AbsentWhenFresh(g, n);
    assert ListsItsWindows(g, id);
    DropSessionFacts(env, g, n, id, c);
    hide FitsDropSession, References, Rehomed, Relisted, PanesTold;
    RehomedRefers(g, c.snap, n, c.supply, id, {}, set w | w in g.sessions[id].windows);
  }

  lemma NewSessionRefers(env: Env, g: Snapshot, n: nat, name: string, title: string, cwd: string, command: seq<string>,
                         c: Change)
    requires References(g, n) && FitsNewSession(env, g, n, name, title, cwd, command, c)
    ensures References(c.snap, c.supply) && PanesTold(env, g, c.snap, n, c.supply)
  {
    AbsentWhenFresh(g, n);
    NewSessionFacts(env, g, n, name, title, cwd, command, c);
    hide FitsNewSession, References, Rehomed, Relisted, PanesTold;
    assert n in c.snap.panes ==> n < c.supply;
    RehomedRefers(g, c.snap, n, c.supply, n + 2, {n + 1}, {});
  }

  /** Every edit keeps the references. */
  lemma EditRefers(env: Env, g: Snapshot, n: nat, e: Edit, c: Change)
    requires References(g, n) && Fits(env, g, n, e, c)
    ensures References(c.snap, c.supply) && PanesTold(env, g, c.snap, n, c.supply)
  {
    hide References, PanesTold, FitsNewSession, FitsNewWindow, FitsNewPane, FitsNewSplit, FitsEditSession,
         FitsEditTitle,
         FitsEditLayout, FitsEditPane, FitsDropPane, FitsDropWindow, FitsDropSession;
    match e
    case NewSession(name, title, cwd, command) => NewSessionRefers(env, g, n, name, title, cwd, command, c);
    case NewWindow(session, title, cwd, command) => NewWindowRefers(env, g, n, session, title, cwd, command, c);
    case EditSession(id, s) => EditSessionRefers(env, g, n, id, s, c);
    case DropPane(id) => DropPaneRefers(env, g, n, id, c);
    case DropWindow(id) => DropWindowRefers(env, g, n, id, c);
    case DropSession(id) => DropSessionRefers(env, g, n, id, c);
    case _ => InPlaceRefers(env, g, n, e, c);
  }

  // ----- Names and titles -----

  /** The labels of sessions and windows that stay are as they were, but perhaps for one of each. */
  ghost predicate Relabels(g: Snapshot, g': Snapshot, sessions: set<SessionId>, windows: set<WindowId>) {
    && (forall s :: s in g'.sessions && s !in sessions ==> s in g.sessions && g'.sessions[s].name == g.sessions[s].name)
    && (forall w :: w in g'.windows && w !in windows ==> w in g.windows && SameLabel(g'.windows[w], g.windows[w]))
  }

  lemma NamesKept(env: Env, g: Snapshot, g': Snapshot, id: SessionId, windows: set<WindowId>)
    requires Naming(env, g) && Relabels(g, g', {id}, windows)
    requires id in g'.sessions ==>
               var name := g'.sessions[id].name;
               (id in g.sessions && name == g.sessions[id].name) || (IsSessionName(env, name) && !NameTaken(g, name))
    ensures NamesValid(env, g') && NamesDistinct(g')
  {
    hide IsSessionName, IsWindowTitle;
  }

  lemma NamesStay(env: Env, g: Snapshot, g': Snapshot, windows: set<WindowId>)
    requires NamesValid(env, g) && NamesDistinct(g) && Relabels(g, g', {}, windows)
    ensures NamesValid(env, g') && NamesDistinct(g')
  {
    hide IsSessionName, SameLabel;
  }

  lemma TitlesKept(env: Env, g: Snapshot, g': Snapshot, sessions: set<SessionId>, id: WindowId)
    requires Naming(env, g) && Relabels(g, g', sessions, {id})
    requires id in g'.windows ==> IsWindowTitle(g'.windows[id].title)
    requires id in g'.windows ==> forall w :: w in g.windows && SameLabel(g.windows[w], g'.windows[id]) ==> w == id
    ensures TitlesValid(g') && TitlesDistinct(g')
  {
    hide IsSessionName, IsWindowTitle;
  }

  lemma NewSessionLabels(env: Env, g: Snapshot, n: nat, name: string, title: string, cwd: string, command: seq<string>,
                         c: Change)
    requires FitsNewSession(env, g, n, name, title, cwd, command, c)
    ensures Relabels(g, c.snap, {n + 2}, {n + 1})
    ensures n + 2 in c.snap.sessions && c.snap.sessions[n + 2].name == name
    ensures n + 1 in c.snap.windows && c.snap.windows[n + 1].session == n + 2 && c.snap.windows[n + 1].title == title
    ensures IsSessionName(env, name) && !NameTaken(g, name) && IsWindowTitle(title)
  {
    SanitizeIsClean(title);
    hide HasRoom, IsSessionName, NameTaken, IsWindowNumber, IsClean, Sanitize;
  }

  lemma NewSessionNames(env: Env, g: Snapshot, n: nat, name: string, title: string, cwd: string, command: seq<string>,
                        c: Change)
    requires References(g, n) && Naming(env, g) && FitsNewSession(env, g, n, name, title, cwd, command, c)
    ensures Naming(env, c.snap)
  {
    NewSessionLabels(env, g, n, name, title, cwd, command, c);
    AbsentWhenFresh(g, n);
    hide FitsNewSession, Relabels, IsSessionName, IsWindowTitle, SessionsListWindows, PanesHaveWindows,
         WindowsHavePanes,
         ZoomedPanesLive, NamesValid, NamesDistinct, TitlesValid, TitlesDistinct, NameTaken;
    NamesKept(env, g, c.snap, n + 2, {n + 1});
    TitlesKept(env, g, c.snap, {n + 2}, n + 1);
  }

  lemma NewWindowLabels(env: Env, g: Snapshot, n: nat, session: SessionId, title: string, cwd: string,
                        command: seq<string>, c: Change)
    requires FitsNewWindow(env, g, n, session, title, cwd, command, c)
    ensures Relabels(g, c.snap, {}, {n + 1}) && IsWindowTitle(title) && !TitleTaken(g, session, Sanitize(title))
    ensures n + 1 in c.snap.windows && c.snap.windows[n + 1].session == session && c.snap.windows[n + 1].title == title
  {
    SanitizeIsClean(title);
    hide HasRoom, TitleTaken, IsWindowNumber, IsClean, Sanitize;
  }

  /** The session's windows are all listed there, so an unlisted title is a new one. */
  lemma UnlistedTitle(g: Snapshot, session: SessionId, title: string, w: WindowId)
    requires WindowsAreListed(g) && !TitleTaken(g, session, title) && IsClean(title)
    requires w in g.windows && g.windows[w].session == session
    ensures g.windows[w].title != title
  {
    SanitizeIsClean(title);
    hide IsClean, Sanitize;
    assert IsListed(g, g.windows[w], w);
  }

  lemma NewWindowNames(env: Env, g: Snapshot, n: nat, session: SessionId, title: string, cwd: string,
                       command: seq<string>, c: Change)
    requires References(g, n) && Naming(env, g) && FitsNewWindow(env, g, n, session, title, cwd, command, c)
    ensures Naming(env, c.snap)
  {
    hide FitsNewWindow, References, Naming, Relabels, IsWindowTitle, TitleTaken, Sanitize;
    NewWindowLabels(env, g, n, session, title, cwd, command, c);
    NewWindowTitles(env, g, c.snap, n, session, title);
  }

  lemma NewWindowTitles(env: Env, g: Snapshot, g': Snapshot, n: nat, session: SessionId, title: string)
    requires References(g, n) && Naming(env, g) && Relabels(g, g', {}, {n + 1})
    requires IsWindowTitle(title) && !TitleTaken(g, session, Sanitize(title))
    requires n + 1 in g'.windows && g'.windows[n + 1].session == session && g'.windows[n + 1].title == title
    ensures Naming(env, g')
  {
    hide Relabels, IsSessionName, IsClean, IsWindowNumber, Sanitize, SessionsListWindows, PanesHaveWindows,
         WindowsHavePanes, ZoomedPanesLive, NamesValid, NamesDistinct, TitlesValid, TitlesDistinct, TitleTaken,
         IdsBelow, WindowsAreListed;
    SanitizeIsClean(title);
    NamesStay(env, g, g', {n + 1});
    forall w | w in g.windows
      ensures !SameLabel(g.windows[w], g'.windows[n + 1])
    {
      if g.windows[w].session == session {
        UnlistedTitle(g, session, title, w);
      }
    }
    TitlesKept(env, g, g', {}, n + 1);
  }

  lemma EditSessionNames(env: Env, g: Snapshot, n: nat, id: SessionId, s: Session, c: Change)
    requires Naming(env, g) && FitsEditSession(env, g, n, id, s, c)
    ensures Naming(env, c.snap)
  {
    hide IsSessionName, IsWindowTitle, NoDuplicates;
    NamesKept(env, g, c.snap, id, {});
  }

  lemma EditTitleLabels(g: Snapshot, n: nat, id: WindowId, title: string, c: Change)
    requires FitsEditTitle(g, n, id, title, c)
    ensures Relabels(g, c.snap, {}, {id}) && IsWindowTitle(title)
    ensures id in c.snap.windows && c.snap.windows[id].session == g.windows[id].session
    ensures c.snap.windows[id].title == title
  {
    hide IsWindowTitle, Ops.TitleClashes;
  }

  /** A title no sibling bears is no sibling's label. */
  lemma UnclashingTitle(g: Snapshot, session: SessionId, id: WindowId, title: string, w: WindowId)
    requires WindowsAreListed(g) && session in g.sessions && !Ops.TitleClashes(g, session, id, title)
    requires w in g.windows && w != id && g.windows[w].session == session
    ensures g.windows[w].title != title
  {
    assert IsListed(g, g.windows[w], w);
  }

  lemma EditTitleNames(env: Env, g: Snapshot, n: nat, id: WindowId, title: string, c: Change)
    requires References(g, n) && Naming(env, g) && FitsEditTitle(g, n, id, title, c)
    ensures Naming(env, c.snap)
  {
    EditTitleLabels(g, n, id, title, c);
    hide IsWindowTitle, Relabels, Ops.TitleClashes, Ops.PutWindow, IsSessionName, SessionsListWindows, PanesHaveWindows,
         WindowsHavePanes, ZoomedPanesLive, IdsBelow, WindowsAreListed, NamesValid, NamesDistinct, TitlesValid,
         TitlesDistinct;
    forall w | w in g.windows && w != id
      ensures !SameLabel(g.windows[w], c.snap.windows[id])
    {
      if g.windows[w].session == g.windows[id].session {
        UnclashingTitle(g, g.windows[id].session, id, title, w);
      }
    }
    NamesStay(env, g, c.snap, {id});
    TitlesKept(env, g, c.snap, {}, id);
  }

  lemma OthersName(env: Env, g: Snapshot, g': Snapshot)
    requires Naming(env, g) && Relabels(g, g', {}, {})
    ensures Naming(env, g')
  {
    hide IsSessionName, IsWindowTitle;
  }

  lemma LayoutAndPaneLabels(env: Env, g: Snapshot, n: nat, e: Edit, c: Change)
    requires e.NewPane? || e.NewSplit? || e.EditLayout? || e.EditPane? || e.OnlyTick?
    requires References(g, n) && Fits(env, g, n, e, c)
    ensures Relabels(g, c.snap, {}, {})
  {
    hide HasRoom, KeepsLeaves, ZoomEvents, PaneNews, SplitIn, References;
  }

  lemma DropLabels(env: Env, g: Snapshot, n: nat, e: Edit, c: Change)
    requires e.DropPane? || e.DropWindow? || e.DropSession?
    requires Fits(env, g, n, e, c)
    ensures Relabels(g, c.snap, {}, {})
  {
    hide HasRoom, RemoveIn, PaneIds, Ops.Exits, Ops.WindowKills, WindowPanes;
  }

  lemma EditNames(env: Env, g: Snapshot, n: nat, e: Edit, c: Change)
    requires References(g, n) && Naming(env, g) && Fits(env, g, n, e, c)
    ensures Naming(env, c.snap)
  {
    hide References, Naming, Relabels, FitsNewSession, FitsNewWindow, FitsNewPane, FitsNewSplit, FitsEditSession,
         FitsEditTitle, FitsEditLayout, FitsEditPane, FitsDropPane, FitsDropWindow, FitsDropSession;
    match e
    case NewSession(name, title, cwd, command) => NewSessionNames(env, g, n, name, title, cwd, command, c);
    case NewWindow(session, title, cwd, command) => NewWindowNames(env, g, n, session, title, cwd, command, c);
    case EditSession(id, s) => EditSessionNames(env, g, n, id, s, c);
    case EditTitle(id, title) => EditTitleNames(env, g, n, id, title, c);
    case _ =>
      if e.DropPane? || e.DropWindow? || e.DropSession? {
        DropLabels(env, g, n, e, c);
      } else {
        LayoutAndPaneLabels(env, g, n, e, c);
      }
      OthersName(env, g, c.snap);
  }

  // ----- Runs -----

  lemma EditKeeps(env: Env, g: Snapshot, n: nat, e: Edit, c: Change)
    requires References(g, n) && Naming(env, g) && AllWithinCapacity(env, g, n) && Fits(env, g, n, e, c)
    ensures References(c.snap, c.supply) && Naming(env, c.snap) && AllWithinCapacity(env, c.snap, c.supply)
  {
    EditRefers(env, g, n, e, c);
    EditNames(env, g, n, e, c);
    hide Fits, Naming, AllWithinCapacity, PanesFrom, NewestHadRoom, SessionsListWindows, WindowsAreListed,
         WindowsHavePanes,
         ZoomedPanesLive, IdsBelow, PanesHaveWindows;
    CapacityKept(env, g, c.snap, n, c.supply);
  }

  lemma MoveKeeps(env: Env, s: State, m: Move)
    requires Valid(env, s) && Enabled(env, s, m)
    ensures Valid(env, After(s, m))
  {
    hide Fits, References, Naming, AllWithinCapacity, SideMapsLive, KeepLive;
    MoveKeepsSideMapsLive(env, s, m);
    if m.Edited? {
      EditKeeps(env, s.snap, s.supply, m.edit, m.change);
    }
  }

  lemma {:induction false} MovesKeep(env: Env, s: State, ms: seq<Move>)
    requires Valid(env, s) && EnabledAll(env, s, ms)
    ensures Valid(env, AfterAll(s, ms))
    decreases |ms|
  {
    hide Valid, Enabled, After;
    if ms != [] {
      MoveKeeps(env, s, ms[0]);
      MovesKeep(env, After(s, ms[0]), ms[1..]);
    }
  }

  lemma EmptyIsValid(env: Env)
    ensures Valid(env, EMPTY)
  {
    forall session
      ensures WithinCapacity(env, EMPTY_SNAPSHOT, 0, session)
    {
      assert SessionPanes(EMPTY_SNAPSHOT, session) == {};
    }
  }

  /** Every graph reachable from the empty one satisfies the invariant. */
  lemma ReachableGraphsAreValid(env: Env, cs: seq<Command>)
    ensures Valid(env, Run(env, EMPTY, cs))
  {
    EmptyIsValid(env);
    hide References, Naming, AllWithinCapacity;
    var ms := RunMoves(env, EMPTY, cs);
    MovesKeep(env, EMPTY, ms);
  }

  /** A run from any valid graph keeps it valid. */
  lemma RunsKeepValid(env: Env, s: State, cs: seq<Command>)
    requires Valid(env, s)
    ensures Valid(env, Run(env, s, cs))
  {
    hide References, Naming, AllWithinCapacity;
    var ms := RunMoves(env, s, cs);
    MovesKeep(env, s, ms);
  }
}
