/**
 What the graph publishes is true, field by field, of the snapshots before and
 after the commit, and what happens to a pane does not go unpublished.
 */
module GraphEvents {
  import opened Wrappers
  import opened Layout
  import opened WindowLayouts
  import opened Titles
  import opened GraphModel
  import opened GraphSteps
  import opened GraphRuns
  import opened GraphInvariants
  import Ops = GraphOps

  ghost predicate SessionEventIsTrue(g: Snapshot, g': Snapshot, e: Event)
    requires e.SessionCreated? || e.SessionRenamed? || e.SessionKilled?
  {
    match e
    case SessionCreated(s, name) => s !in g.sessions && s in g'.sessions && g'.sessions[s].name == name
    case SessionRenamed(s, o, n) =>
      s in g.sessions && s in g'.sessions && g.sessions[s].name == o && g'.sessions[s].name == n && o != n
    case SessionKilled(s, name) => s in g.sessions && g.sessions[s].name == name && s !in g'.sessions
  }

  ghost predicate WindowEventIsTrue(g: Snapshot, g': Snapshot, e: Event)
    requires e.WindowCreated? || e.WindowRenamed? || e.WindowKilled?
  {
    match e
    case WindowCreated(w, s, title, index) =>
      && w !in g.windows && w in g'.windows && g'.windows[w].session == s && g'.windows[w].title == title
      && s in g'.sessions && index == |g'.sessions[s].windows| >= 1 && g'.sessions[s].windows[index - 1] == w
    case WindowRenamed(w, s, o, n) =>
      && w in g.windows && w in g'.windows && g.windows[w].session == s && g.windows[w].title == o
      && g'.windows[w].title == n
    case WindowKilled(w, s) => w in g.windows && g.windows[w].session == s && w !in g'.windows
  }

  /** The pane of the event is, in this snapshot, in the window and session the event names. */
  predicate Placed(g: Snapshot, p: PaneId, w: WindowId, s: SessionId) {
    p in g.panes && g.panes[p].window == w && w in g.windows && g.windows[w].session == s
  }

  ghost predicate PaneEventHolds(g: Snapshot, g': Snapshot, e: Event)
    requires !e.SessionCreated? && !e.SessionRenamed? && !e.SessionKilled?
    requires !e.WindowCreated? && !e.WindowRenamed? && !e.WindowKilled?
  {
    match e
    case PaneCreated(p, w, s, command) => p !in g.panes && Placed(g', p, w, s) && g'.panes[p].command == command
    case PaneFocused(p, w, s, previous) =>
      && w in g.windows && w in g'.windows && g'.windows[w].session == s && g'.windows[w].active == p
      && previous == if g.windows[w].active == p then None else Some(g.windows[w].active)
    case PaneZoomed(p, w, s, zoomed) =>
      && w in g.windows && w in g'.windows && g'.windows[w].session == s
      && (zoomed ==> ZoomedPane(g'.windows[w].layout) == Some(p))
      && (!zoomed ==> ZoomedPane(g.windows[w].layout) == Some(p) && ZoomedPane(g'.windows[w].layout) != Some(p))
    case PaneTitleChanged(p, w, s, o, n) =>
      Placed(g, p, w, s) && p in g'.panes && g.panes[p].title == o && g'.panes[p].title == n && o != n
    case PaneExited(p, w, s, exit, command) =>
      && Placed(g, p, w, s) && g.panes[p].command == command
      && (if exit.Some? then p in g'.panes && g'.panes[p].exit == exit else p !in g'.panes)
    case PaneRespawned(p, w, s, command) =>
      && Placed(g, p, w, s) && p in g'.panes && g.panes[p].command == command
      && g.panes[p].exit.Some? && g'.panes[p].exit.None?
    case PaneStatusChanged(p, w, s, o, n, seen, enabled) =>
      && Placed(g, p, w, s) && p in g'.panes && g.panes[p].status == o
      && g'.panes[p].status == n && g'.panes[p].seen == seen && g'.panes[p].enabled == enabled
    case _ => true
  }

  /** The event is true of the step from `g` to `g'`. */
  ghost predicate IsTrue(g: Snapshot, g': Snapshot, e: Event) {
    if e.SessionCreated? || e.SessionRenamed? || e.SessionKilled? then SessionEventIsTrue(g, g', e)
    else if e.WindowCreated? || e.WindowRenamed? || e.WindowKilled? then WindowEventIsTrue(g, g', e)
    else PaneEventHolds(g, g', e)
  }

  ghost predicate AllTrue(g: Snapshot, g': Snapshot, es: seq<Event>) {
    forall i :: 0 <= i < |es| ==> IsTrue(g, g', es[i])
  }

  lemma AllTrueConcat(g: Snapshot, g': Snapshot, es: seq<Event>, fs: seq<Event>)
    requires AllTrue(g, g', es) && AllTrue(g, g', fs)
    ensures AllTrue(g, g', es + fs)
  {
    hide IsTrue;
  }

  // ----- Edit by edit -----

  lemma NewSessionTells(env: Env, g: Snapshot, n: nat, e: Edit, c: Change)
    requires e.NewSession? && Fits(env, g, n, e, c)
    requires n !in g.panes && n + 1 !in g.windows && n + 2 !in g.sessions
    ensures AllTrue(g, c.snap, c.events)
  {
    hide HasRoom, IsSessionName, NameTaken, IsClean, IsWindowNumber, Sanitize;
    SanitizeIsClean(e.title);
  }

  lemma NewWindowTells(env: Env, g: Snapshot, n: nat, e: Edit, c: Change)
    requires e.NewWindow? && Fits(env, g, n, e, c) && n !in g.panes && n + 1 !in g.windows
    ensures AllTrue(g, c.snap, c.events)
  {
    hide HasRoom, TitleTaken, IsClean, IsWindowNumber, Sanitize;
    SanitizeIsClean(e.title);
  }

  lemma NewPaneTells(env: Env, g: Snapshot, n: nat, e: Edit, c: Change)
    requires e.NewPane? && Fits(env, g, n, e, c) && n !in g.panes
    ensures AllTrue(g, c.snap, c.events)
  {
    hide HasRoom;
  }

  lemma NewSplitTells(env: Env, g: Snapshot, n: nat, e: Edit, c: Change)
    requires e.NewSplit? && Fits(env, g, n, e, c) && n !in g.panes
    ensures AllTrue(g, c.snap, c.events)
  {
    hide HasRoom, Layout.SplitPane, PaneIds;
  }

  lemma EditSessionTells(env: Env, g: Snapshot, n: nat, e: Edit, c: Change)
    requires (e.EditSession? || e.EditTitle? || e.OnlyTick?) && Fits(env, g, n, e, c)
    ensures AllTrue(g, c.snap, c.events)
  {
    hide IsSessionName, NameTaken, NoDuplicates, Ops.TitleClashes, IsWindowTitle;
  }

  lemma EditLayoutTells(env: Env, g: Snapshot, n: nat, e: Edit, c: Change)
    requires e.EditLayout? && Fits(env, g, n, e, c)
    ensures AllTrue(g, c.snap, c.events)
  {
    hide KeepsLeaves;
  }

  lemma EditPaneTells(env: Env, g: Snapshot, n: nat, e: Edit, c: Change)
    requires e.EditPane? && Fits(env, g, n, e, c)
    ensures AllTrue(g, c.snap, c.events)
  {
    hide TitleInSync;
  }

  lemma DropPaneTells(env: Env, g: Snapshot, n: nat, e: Edit, c: Change)
    requires e.DropPane? && Fits(env, g, n, e, c)
    ensures AllTrue(g, c.snap, c.events)
  {
    hide Layout.RemovePane, PaneIds, WindowPanes;
  }

  lemma {:induction false} ExitsTell(
      g: Snapshot, g': Snapshot, order: seq<PaneId>, windows: seq<WindowId>, s: SessionId)
    requires forall p :: p in g'.panes ==> p in g.panes && g.panes[p].window !in windows
    requires forall w :: w in windows ==> w in g.windows && g.windows[w].session == s
    ensures AllTrue(g, g', Ops.Exits(g, order, windows, s))
    decreases |order|
  {
    if order != [] {
      ExitsTell(g, g', order[1..], windows, s);
    }
  }

  lemma DropWindowTells(env: Env, g: Snapshot, n: nat, e: Edit, c: Change)
    requires e.DropWindow? && Fits(env, g, n, e, c)
    ensures AllTrue(g, c.snap, c.events)
  {
    hide Ops.Exits, Without;
    var (id, session) := (e.window, g.windows[e.window].session);
    ExitsTell(g, c.snap, env.walk(g), [id], session);
    AllTrueConcat(g, c.snap, Ops.Exits(g, env.walk(g), [id], session), [WindowKilled(id, session)]);
  }

  lemma DropSessionTells(env: Env, g: Snapshot, n: nat, e: Edit, c: Change)
    requires e.DropSession? && Fits(env, g, n, e, c) && ListsItsWindows(g, e.session)
    ensures AllTrue(g, c.snap, c.events)
  {
    hide Ops.Exits, NoDuplicates;
    var (id, s) := (e.session, g.sessions[e.session]);
    var (exits, kills) := (Ops.Exits(g, env.walk(g), s.windows, id), Ops.WindowKills(s.windows, id));
    ExitsTell(g, c.snap, env.walk(g), s.windows, id);
    assert AllTrue(g, c.snap, kills);
    AllTrueConcat(g, c.snap, exits, kills);
    AllTrueConcat(g, c.snap, exits + kills, [SessionKilled(id, s.name)]);
  }

  /** Every event of every commit is true of it. */
  lemma CommitsTellTheTruth(env: Env, g: Snapshot, n: nat, e: Edit, c: Change)
    requires References(g, n) && Fits(env, g, n, e, c)
    ensures AllTrue(g, c.snap, c.events)
  {
    hide References, Fits, AllTrue;
    AbsentWhenFresh(g, n);
    match e
    case NewSession(_, _, _, _) => NewSessionTells(env, g, n, e, c);
    case NewWindow(_, _, _, _) => NewWindowTells(env, g, n, e, c);
    case NewPane(_, _, _) => NewPaneTells(env, g, n, e, c);
    case NewSplit(_, _, _, _, _) => NewSplitTells(env, g, n, e, c);
    case EditLayout(_, _, _, _, _) => EditLayoutTells(env, g, n, e, c);
    case EditPane(_, _) => EditPaneTells(env, g, n, e, c);
    case DropPane(_) => DropPaneTells(env, g, n, e, c);
    case DropWindow(_) => DropWindowTells(env, g, n, e, c);
    case DropSession(id) => DropSessionListed(env, g, n, e, c);
    case _ => EditSessionTells(env, g, n, e, c);
  }

  lemma DropSessionListed(env: Env, g: Snapshot, n: nat, e: Edit, c: Change)
    requires e.DropSession? && References(g, n) && Fits(env, g, n, e, c)
    ensures AllTrue(g, c.snap, c.events)
  {
    hide IdsBelow, WindowsAreListed, PanesHaveWindows, WindowsHavePanes, ZoomedPanesLive, Ops.Exits, Ops.DropSession,
         Ops.WindowKills, AllTrue;
    assert ListsItsWindows(g, e.session);
    DropSessionTells(env, g, n, e, c);
  }

  /** Every event a command publishes, in whatever state the run is in, is true of what the command did. */
  lemma CommandsTellTheTruth(env: Env, s: State, c: Command)
    requires Valid(env, s) && IsPlain(c)
    ensures var s' := Exec(env, s, c);
            && |s.events| <= |s'.events| && s'.events[..|s.events|] == s.events
            && AllTrue(s.snap, s'.snap, s'.events[|s.events|..])
  {
    hide References, Naming, AllWithinCapacity, Fits, Plan, AllTrue, KeepLive;
    ExecPlain(env, s, c);
    var e := PlanMakes(env, s.snap, s.supply, c);
    var o := Plan(env, s.snap, s.supply, c);
    if o.Changed? {
      CommitsTellTheTruth(env, s.snap, s.supply, e, o.change);
      assert (s.events + o.change.events)[|s.events|..] == o.change.events;
    } else {
      NothingToTell(s.snap);
      assert s.events[|s.events|..] == [];
    }
  }

  lemma NothingToTell(g: Snapshot)
    ensures AllTrue(g, g, [])
  {
  }

  // ----- Nothing in silence -----

  /** The events hold one about the pane that tells of the change. */
  ghost predicate ToldOf(es: seq<Event>, p: PaneId, was: Pane, now: Pane) {
    && (now.title != was.title ==>
          exists i :: 0 <= i < |es| && es[i].PaneTitleChanged? && es[i].pane == p && es[i].newTitle == now.title)
    && (now.exit != was.exit ==>
          exists i :: 0 <= i < |es| && (es[i].PaneExited? || es[i].PaneRespawned?) && es[i].pane == p)
    && (now.status != was.status || now.seen != was.seen || now.enabled != was.enabled ==>
          exists i :: 0 <= i < |es| && es[i].PaneStatusChanged? && es[i].pane == p && es[i].newStatus == now.status)
  }

  lemma EditPaneTold(env: Env, g: Snapshot, n: nat, e: Edit, c: Change, p: PaneId)
    requires e.EditPane? && Fits(env, g, n, e, c) && p in g.panes && p in c.snap.panes
    ensures ToldOf(c.events, p, g.panes[p], c.snap.panes[p])
  {
    hide TitleInSync;
  }

  lemma OthersUntold(env: Env, g: Snapshot, n: nat, e: Edit, c: Change, p: PaneId)
    requires !e.EditPane? && Fits(env, g, n, e, c) && p in g.panes && p in c.snap.panes && p < n
    ensures ToldOf(c.events, p, g.panes[p], c.snap.panes[p])
  {
    hide HasRoom, IsSessionName, NameTaken, TitleTaken, NoDuplicates, KeepsLeaves, ZoomEvents, SplitIn, RemoveIn,
         PaneIds, WindowPanes, Ops.Exits, Ops.WindowKills, Without, Ops.TitleClashes, IsWindowTitle,
         Sanitize, TellsFocusTruly;
  }

  /** No commit changes what a surviving pane shows, how it ended or its status without publishing it. */
  lemma NothingHappensInSilence(env: Env, s: State, m: Move, p: PaneId)
    requires Valid(env, s) && Enabled(env, s, m) && p in s.snap.panes && p in After(s, m).snap.panes
    ensures var s' := After(s, m);
            && |s.events| <= |s'.events| && s'.events[..|s.events|] == s.events
            && ToldOf(s'.events[|s.events|..], p, s.snap.panes[p], s'.snap.panes[p])
  {
    hide Valid, Fits, KeepLive, ToldOf;
    BelowTheSupply(env, s, p);
    var s' := After(s, m);
    if m.Edited? {
      assert s'.events[|s.events|..] == m.change.events;
      if m.edit.EditPane? {
        EditPaneTold(env, s.snap, s.supply, m.edit, m.change, p);
      } else {
        OthersUntold(env, s.snap, s.supply, m.edit, m.change, p);
      }
    } else {
      NothingToTellOf(s'.events[|s.events|..], p, s.snap.panes[p]);
    }
  }

  lemma NothingToTellOf(es: seq<Event>, p: PaneId, pane: Pane)
    ensures ToldOf(es, p, pane, pane)
  {
  }

  lemma BelowTheSupply(env: Env, s: State, p: PaneId)
    requires Valid(env, s) && p in s.snap.panes
    ensures p < s.supply
  {
    hide Naming, AllWithinCapacity, SessionsListWindows, WindowsAreListed, PanesHaveWindows, WindowsHavePanes,
         ZoomedPanesLive;
  }
}
