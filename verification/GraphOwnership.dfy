/**
 Who may speak for a pane: the newest PTY incarnation that claimed it, the
 newest status publication, and nobody's status between exit and respawn.
 */
module GraphOwnership {
  import opened Wrappers
  import opened Layout
  import opened WindowLayouts
  import opened GraphModel
  import opened GraphSteps
  import opened GraphRuns
  import opened GraphInvariants
  import opened GraphVersions
  import Ops = GraphOps

  // ----- Side maps only advance -----

  /** For every pane that had an entry and still lives, the entry is there and no smaller. */
  ghost predicate MapAdvances(m: map<PaneId, nat>, m': map<PaneId, nat>, g': Snapshot) {
    forall p :: p in m && p in g'.panes ==> p in m' && m[p] <= m'[p]
  }

  ghost predicate SidesAdvance(s: State, s': State) {
    MapAdvances(s.owners, s'.owners, s'.snap) && MapAdvances(s.generations, s'.generations, s'.snap)
  }

  lemma AdvancesChain(m1: map<PaneId, nat>, m2: map<PaneId, nat>, m3: map<PaneId, nat>, g1: Snapshot, n1: nat,
                      g2: Snapshot,
                      n2: nat, g3: Snapshot)
    requires m1.Keys <= g1.panes.Keys && (forall p :: p in g1.panes ==> p < n1) && n1 <= n2
    requires MapAdvances(m1, m2, g2) && MapAdvances(m2, m3, g3) && PanesProgress(g2, g3, n2)
    ensures MapAdvances(m1, m3, g3)
  {
  }

  lemma MoveAdvances(env: Env, s: State, m: Move)
    requires Enabled(env, s, m)
    ensures SidesAdvance(s, After(s, m))
  {
    hide Fits;
  }

  lemma ValidGives(env: Env, s: State)
    requires Valid(env, s)
    ensures SideMapsLive(s) && forall p :: p in s.snap.panes ==> p < s.supply
  {
    hide Naming, AllWithinCapacity, SessionsListWindows, WindowsAreListed, PanesHaveWindows, WindowsHavePanes,
         ZoomedPanesLive;
  }

  lemma MoveProgresses(env: Env, s: State, m: Move)
    requires Enabled(env, s, m)
    ensures s.supply <= After(s, m).supply && PanesProgress(s.snap, After(s, m).snap, s.supply)
  {
    hide Fits, KeepLive;
    if m.Edited? {
      EditProgresses(env, s.snap, s.supply, m.edit, m.change);
    }
  }

  lemma {:induction false} MovesAdvance(env: Env, s: State, ms: seq<Move>)
    requires Valid(env, s) && EnabledAll(env, s, ms)
    ensures SidesAdvance(s, AfterAll(s, ms))
    decreases |ms|
  {
    hide Valid, Enabled, After, MapAdvances, PanesProgress, SessionsProgress, WindowsProgress;
    if ms != [] {
      var s1 := After(s, ms[0]);
      MoveKeeps(env, s, ms[0]);
      MoveAdvances(env, s, ms[0]);
      MoveProgresses(env, s, ms[0]);
      MovesAdvance(env, s1, ms[1..]);
      MovesProgress(env, s1, ms[1..]);
      ValidGives(env, s);
      var s' := AfterAll(s, ms);
      AdvancesChain(s.owners, s1.owners, s'.owners, s.snap, s.supply, s1.snap, s1.supply, s'.snap);
      AdvancesChain(s.generations, s1.generations, s'.generations, s.snap, s.supply, s1.snap, s1.supply, s'.snap);
    } else {
      NothingAdvances(s);
    }
  }

  lemma NothingAdvances(s: State)
    ensures SidesAdvance(s, s)
  {
  }

  /** While a pane lives its owning incarnation and its status watermark never go back. */
  lemma OwnersNeverGoBack(env: Env, before: seq<Command>, after: seq<Command>)
    ensures SidesAdvance(Run(env, EMPTY, before), Run(env, Run(env, EMPTY, before), after))
  {
    hide Valid, Exec, Enabled, After, SidesAdvance, SideMapsLive;
    ReachableGraphsAreValid(env, before);
    var s := Run(env, EMPTY, before);
    ValidGives(env, s);
    var ms := RunMoves(env, s, after);
    MovesAdvance(env, s, ms);
  }

  /** Once an incarnation has claimed a pane, no exit of an earlier one changes or publishes anything. */
  lemma ReplacedPtyCannotExit(env: Env, before: seq<Command>, p: PaneId, incarnation: nat, between: seq<Command>,
                              earlier: nat, exit: ProgramExit, last: Option<Ops.StatusUpdate>)
    requires Ops.ClaimPanePty(Run(env, EMPTY, before), p, incarnation).1 == Ok(true)
    requires earlier < incarnation
    ensures var s := Run(env, EMPTY, before + [ClaimPanePty(p, incarnation)] + between);
            Exec(env, s, SetExitOwned(p, exit, earlier, last)) == s
  {
    hide Ops.ClaimPanePty, Ops.SetExitOwned, Valid, Run, SideMapsLive, SidesAdvance;
    var claim := ClaimPanePty(p, incarnation);
    var s0 := Run(env, EMPTY, before);
    ReachableGraphsAreValid(env, before);
    ValidGives(env, s0);
    ClaimTakes(s0, p, incarnation);
    RunThen(env, EMPTY, before, [claim]);
    RunOne(env, s0, claim);
    RunThen(env, EMPTY, before + [claim], between);
    OwnersNeverGoBack(env, before + [claim], between);
    var s := Run(env, EMPTY, before + [claim] + between);
    ReachableGraphsAreValid(env, before + [claim] + between);
    ValidGives(env, s);
    LaterOwnerStays(Run(env, EMPTY, before + [claim]), s, p, incarnation);
    ForeignExitIsNothing(s, p, exit, earlier, last);
  }

  lemma LaterOwnerStays(s: State, s': State, p: PaneId, incarnation: nat)
    requires SidesAdvance(s, s') && SideMapsLive(s') && p in s.owners && s.owners[p] == incarnation
    ensures p in s'.owners ==> incarnation <= s'.owners[p]
  {
  }

  /** An exit from any incarnation but the owner changes and publishes nothing. */
  lemma ForeignExitIsNothing(s: State, p: PaneId, exit: ProgramExit, incarnation: nat, last: Option<Ops.StatusUpdate>)
    ensures p !in s.owners || s.owners[p] != incarnation ==>
              Ops.SetExitOwned(s, p, exit, incarnation, last) == (s, Ok(()))
  {
  }

  lemma ClaimTakes(s: State, p: PaneId, incarnation: nat)
    requires SideMapsLive(s) && Ops.ClaimPanePty(s, p, incarnation).1 == Ok(true)
    ensures var s' := Ops.ClaimPanePty(s, p, incarnation).0; p in s'.owners && s'.owners[p] == incarnation
  {
  }

  lemma {:induction false} RunThen(env: Env, s: State, cs: seq<Command>, ds: seq<Command>)
    ensures Run(env, s, cs + ds) == Run(env, Run(env, s, cs), ds)
    decreases |cs|
  {
    hide Exec;
    if cs == [] {
      assert cs + ds == ds;
    } else {
      assert (cs + ds)[1..] == cs[1..] + ds;
      RunThen(env, Exec(env, s, cs[0]), cs[1..], ds);
    }
  }

  lemma RunOne(env: Env, s: State, c: Command)
    ensures Run(env, s, [c]) == Exec(env, s, c)
  {
    hide Exec;
    assert [c][1..] == [];
    assert Run(env, Exec(env, s, c), []) == Exec(env, s, c);
  }

  // ----- Accepted publications -----

  /** The status publication a command brings for a pane, if it may be considered at all. */
  function Offered(s: State, c: Command, p: PaneId): Option<Ops.StatusUpdate> {
    match c
    case SetProgramStatus(id, u) => if id == p then Some(u) else None
    case SetExitOwned(id, _, incarnation, last) =>
      if id == p && id in s.owners && s.owners[id] == incarnation then last else None
    case _ => None
  }

  predicate Accepted(s: State, c: Command, p: PaneId) {
    && Offered(s, c, p).Some? && p in s.snap.panes && s.snap.panes[p].exit.None?
    && Offered(s, c, p).value.generation > if p in s.generations then s.generations[p] else 0
  }

  /** An accepted publication becomes the pane's status and its watermark; any other is as if never sent. */
  lemma AcceptedTakesEffect(env: Env, s: State, c: Command, p: PaneId)
    requires Valid(env, s) && Offered(s, c, p).Some?
    ensures var s' := Exec(env, s, c);
            var u := Offered(s, c, p).value;
            if Accepted(s, c, p) then
              && p in s'.generations && s'.generations[p] == u.generation && p in s'.snap.panes
              && s'.snap.panes[p].status == u.summary
              && s'.snap.panes[p].seen == u.seen && s'.snap.panes[p].enabled == u.enabled
            else
              p in s.snap.panes ==>
                && p in s'.snap.panes && s'.snap.panes[p].status == s.snap.panes[p].status
                && forall i :: |s.events| <= i < |s'.events| ==> !s'.events[i].PaneStatusChanged?
  {
    hide Naming, AllWithinCapacity, SessionsListWindows, WindowsAreListed, WindowsHavePanes, ZoomedPanesLive, IdsBelow;
    var u := Offered(s, c, p).value;
    StatusTakesEffect(s, p, u);
    if c.SetExitOwned? {
      var (s1, r) := Ops.SetProgramStatus(s, p, u);
      hide Ops.SetProgramStatus;
      ExitKeepsStatus(s1, p, c.exit);
    }
  }

  lemma StatusTakesEffect(s: State, p: PaneId, u: Ops.StatusUpdate)
    requires PanesHaveWindows(s.snap)
    ensures var (s', r) := Ops.SetProgramStatus(s, p, u);
            var accepted := p in s.snap.panes && s.snap.panes[p].exit.None?
                            && u.generation > (if p in s.generations then s.generations[p] else 0);
            && (p in s.snap.panes ==> p in s'.snap.panes && r.Ok?)
            && (if accepted then
                  && p in s'.generations && s'.generations[p] == u.generation
                  && s'.snap.panes[p].status == u.summary && s'.snap.panes[p].seen == u.seen
                  && s'.snap.panes[p].enabled == u.enabled
                else s'.snap == s.snap && s'.events == s.events)
  {
  }

  lemma ExitKeepsStatus(s: State, p: PaneId, exit: ProgramExit)
    requires p in s.snap.panes
    ensures var s' := Finish(s, Ops.SetPaneExit(s.snap, s.supply, p, exit)).0;
            && p in s'.snap.panes && s'.snap.panes[p].status == s.snap.panes[p].status
            && s'.snap.panes[p].seen == s.snap.panes[p].seen && s'.snap.panes[p].enabled == s.snap.panes[p].enabled
            && (p in s.generations ==> p in s'.generations && s'.generations[p] == s.generations[p])
            && |s.events| <= |s'.events| && s'.events[..|s.events|] == s.events
            && forall i :: |s.events| <= i < |s'.events| ==> !s'.events[i].PaneStatusChanged?
  {
  }

  /** Of two publications accepted for a pane, the later has the larger generation. */
  lemma AcceptedGenerationsIncrease(env: Env, before: seq<Command>, first: Command, between: seq<Command>,
                                    second: Command, p: PaneId)
    requires Accepted(Run(env, EMPTY, before), first, p)
    requires Accepted(Run(env, EMPTY, before + [first] + between), second, p)
    ensures Offered(Run(env, EMPTY, before), first, p).value.generation
            < Offered(Run(env, EMPTY, before + [first] + between), second, p).value.generation
  {
    hide Valid, Run, Exec, SideMapsLive, MapAdvances, Offered;
    var s0 := Run(env, EMPTY, before);
    var s := Run(env, EMPTY, before + [first] + between);
    ReachableGraphsAreValid(env, before);
    AcceptedTakesEffect(env, s0, first, p);
    RunThen(env, EMPTY, before, [first]);
    RunOne(env, s0, first);
    RunThen(env, EMPTY, before + [first], between);
    OwnersNeverGoBack(env, before + [first], between);
    WatermarkStays(Run(env, EMPTY, before + [first]).generations, s.generations, s.snap, p);
  }

  lemma WatermarkStays(m: map<PaneId, nat>, m': map<PaneId, nat>, g': Snapshot, p: PaneId)
    requires MapAdvances(m, m', g') && p in m && p in g'.panes
    ensures p in m' && m[p] <= m'[p]
  {
  }

  // ----- Nothing between exit and respawn -----

  /** The last the events say of the pane's life is that it exited. */
  predicate Sealed(es: seq<Event>, p: PaneId)
    decreases |es|
  {
    if es == [] then false else
    match es[|es| - 1]
    case PaneExited(q, _, _, _, _) => q == p || Sealed(es[..|es| - 1], p)
    case PaneRespawned(q, _, _, _) => q != p && Sealed(es[..|es| - 1], p)
    case _ => Sealed(es[..|es| - 1], p)
  }

  /** No status change is published for a pane that has exited and not come back. */
  ghost predicate NoStatusWhileSealed(es: seq<Event>) {
    forall i :: 0 <= i < |es| && es[i].PaneStatusChanged? ==> !Sealed(es[..i], es[i].pane)
  }

  /** The records agree with the events, and panes not yet made have no past. */
  ghost predicate SealsAgree(s: State) {
    && (forall p :: p in s.snap.panes ==> (Sealed(s.events, p) <==> s.snap.panes[p].exit.Some?))
    && (forall p :: p >= s.supply ==> !Sealed(s.events, p))
    && NoStatusWhileSealed(s.events)
  }

  /** The event is about the life of no pane but those gone. */
  predicate CalmEvent(g: Snapshot, g': Snapshot, e: Event) {
    && !e.PaneStatusChanged? && !e.PaneRespawned?
    && (e.PaneExited? ==> e.pane in g.panes && e.pane !in g'.panes)
  }

  ghost predicate Calm(g: Snapshot, g': Snapshot, es: seq<Event>) {
    forall i :: 0 <= i < |es| ==> CalmEvent(g, g', es[i])
  }

  lemma {:induction false} CalmSeals(g: Snapshot, g': Snapshot, es: seq<Event>, fs: seq<Event>, p: PaneId)
    requires Calm(g, g', fs) && (p in g'.panes || p !in g.panes)
    ensures Sealed(es + fs, p) == Sealed(es, p)
    decreases |fs|
  {
    if fs == [] {
      assert es + fs == es;
    } else {
      var k := |fs| - 1;
      assert (es + fs)[..|es + fs| - 1] == es + fs[..k];
      assert CalmEvent(g, g', fs[k]);
      CalmSeals(g, g', es, fs[..k], p);
    }
  }

  lemma CalmKeepsQuiet(g: Snapshot, g': Snapshot, es: seq<Event>, fs: seq<Event>)
    requires Calm(g, g', fs) && NoStatusWhileSealed(es)
    ensures NoStatusWhileSealed(es + fs)
  {
    forall i | 0 <= i < |es + fs| && (es + fs)[i].PaneStatusChanged?
      ensures !Sealed((es + fs)[..i], (es + fs)[i].pane)
    {
      assert i >= |es| ==> CalmEvent(g, g', fs[i - |es|]);
      assert (es + fs)[..i] == es[..i];
    }
  }

  /** What a calm edit leaves of each pane's record. */
  ghost predicate ExitsKept(g: Snapshot, g': Snapshot, n: nat) {
    forall p :: p in g'.panes ==>
         if p in g.panes then g'.panes[p].exit == g.panes[p].exit else p >= n && g'.panes[p].exit.None?
  }

  lemma CalmKeepsSeals(s: State, c: Change)
    requires SealsAgree(s) && Calm(s.snap, c.snap, c.events) && ExitsKept(s.snap, c.snap, s.supply)
    requires s.supply <= c.supply && forall p :: p in s.snap.panes ==> p < s.supply
    ensures SealsAgree(Commit(s, c))
  {
    hide Calm, NoStatusWhileSealed, Sealed, KeepLive;
    forall p | p in c.snap.panes || p >= c.supply
      ensures Sealed(s.events + c.events, p) == Sealed(s.events, p)
    {
      CalmSeals(s.snap, c.snap, s.events, c.events, p);
    }
    CalmKeepsQuiet(s.snap, c.snap, s.events, c.events);
  }

  lemma {:induction false} ExitsAreCalm(g: Snapshot, g': Snapshot, order: seq<PaneId>, windows: seq<WindowId>,
                                        session: SessionId)
    requires forall p :: p in g'.panes ==> p in g.panes && g.panes[p].window !in windows
    ensures Calm(g, g', Ops.Exits(g, order, windows, session))
    decreases |order|
  {
    if order != [] {
      ExitsAreCalm(g, g', order[1..], windows, session);
    }
  }

  lemma AddsAreCalm(env: Env, g: Snapshot, n: nat, e: Edit, c: Change)
    requires (e.NewSession? || e.NewWindow? || e.NewPane? || e.NewSplit?) && Fits(env, g, n, e, c) && n !in g.panes
    ensures Calm(g, c.snap, c.events) && ExitsKept(g, c.snap, n)
  {
    hide HasRoom, IsSessionName, NameTaken, TitleTaken, SplitIn;
  }

  lemma EditsAreCalm(env: Env, g: Snapshot, n: nat, e: Edit, c: Change)
    requires (e.EditSession? || e.EditTitle? || e.EditLayout? || e.OnlyTick?) && Fits(env, g, n, e, c)
    ensures Calm(g, c.snap, c.events) && ExitsKept(g, c.snap, n)
  {
    hide IsSessionName, NameTaken, NoDuplicates, Ops.TitleClashes, KeepsLeaves;
  }

  lemma DropsAreCalm(env: Env, g: Snapshot, n: nat, e: Edit, c: Change)
    requires (e.DropPane? || e.DropWindow? || e.DropSession?) && Fits(env, g, n, e, c)
    ensures Calm(g, c.snap, c.events) && ExitsKept(g, c.snap, n)
  {
    hide RemoveIn, PaneIds, WindowPanes, Ops.Exits, Without;
    match e
    case DropPane(id) =>
    case DropWindow(id) => ExitsAreCalm(g, c.snap, env.walk(g), [id], g.windows[id].session);
    case DropSession(id) => ExitsAreCalm(g, c.snap, env.walk(g), g.sessions[id].windows, id);
  }

  lemma PaneEventSeals(es: seq<Event>, id: PaneId, was: Pane, p: Pane, e: Event, q: PaneId)
    requires PaneNews(id, was, p, e) && (q == id ==> (Sealed(es, q) <==> was.exit.Some?))
    ensures q != id ==> Sealed(es + [e], q) == Sealed(es, q)
    ensures q == id ==> (Sealed(es + [e], q) <==> p.exit.Some?)
  {
    assert (es + [e])[..|es|] == es;
  }

  lemma PaneEventQuiet(es: seq<Event>, id: PaneId, was: Pane, p: Pane, e: Event)
    requires PaneNews(id, was, p, e) && (Sealed(es, id) <==> was.exit.Some?) && NoStatusWhileSealed(es)
    ensures NoStatusWhileSealed(es + [e])
  {
    forall i | 0 <= i < |es + [e]| && (es + [e])[i].PaneStatusChanged?
      ensures !Sealed((es + [e])[..i], (es + [e])[i].pane)
    {
      assert (es + [e])[..i] == es[..i];
      if i == |es| {
        assert es[..i] == es;
      }
    }
  }

  lemma PaneEditKeepsSeals(s: State, id: PaneId, p: Pane, c: Change)
    requires SealsAgree(s) && FitsEditPane(s.snap, s.supply, id, p, c) && forall q :: q in s.snap.panes ==> q < s.supply
    ensures SealsAgree(Commit(s, c))
  {
    hide NoStatusWhileSealed, Sealed, KeepLive, PaneNews;
    if c.events == [] {
      assert s.events + c.events == s.events;
    } else {
      var (was, e) := (s.snap.panes[id], c.events[0]);
      assert c.events == [e];
      PaneEventQuiet(s.events, id, was, p, e);
      forall q
        ensures q != id ==> Sealed(s.events + [e], q) == Sealed(s.events, q)
        ensures q == id ==> (Sealed(s.events + [e], q) <==> p.exit.Some?)
      {
        PaneEventSeals(s.events, id, was, p, e, q);
      }
    }
  }

  lemma MoveKeepsSeals(env: Env, s: State, m: Move)
    requires Valid(env, s) && SealsAgree(s) && Enabled(env, s, m)
    ensures SealsAgree(After(s, m))
  {
    hide Valid, SealsAgree, Calm, ExitsKept, FitsNewSession, FitsNewWindow, FitsNewPane, FitsNewSplit, FitsEditSession,
         FitsEditTitle, FitsEditLayout, FitsEditPane, FitsDropPane, FitsDropWindow, FitsDropSession, PanesProgress,
         Commit;
    ValidGives(env, s);
    if m.Edited? {
      var (e, c) := (m.edit, m.change);
      MoveProgresses(env, s, m);
      CommitSupply(s, c);
      if e.EditPane? {
        PaneEditKeepsSeals(s, e.pane, e.p, c);
      } else {
        if e.NewSession? || e.NewWindow? || e.NewPane? || e.NewSplit? {
          AddsAreCalm(env, s.snap, s.supply, e, c);
        } else if e.DropPane? || e.DropWindow? || e.DropSession? {
          DropsAreCalm(env, s.snap, s.supply, e, c);
        } else {
          EditsAreCalm(env, s.snap, s.supply, e, c);
        }
        CalmKeepsSeals(s, c);
      }
    } else {
      SidesDoNotSeal(s, After(s, m));
    }
  }

  lemma CommitSupply(s: State, c: Change)
    ensures Commit(s, c).supply == c.supply
  {
  }

  lemma SidesDoNotSeal(s: State, s': State)
    requires SealsAgree(s) && s'.snap == s.snap && s'.events == s.events && s'.supply == s.supply
    ensures SealsAgree(s')
  {
  }

  lemma {:induction false} MovesKeepSeals(env: Env, s: State, ms: seq<Move>)
    requires Valid(env, s) && SealsAgree(s) && EnabledAll(env, s, ms)
    ensures SealsAgree(AfterAll(s, ms))
    decreases |ms|
  {
    hide Valid, SealsAgree, Enabled, After;
    if ms != [] {
      MoveKeeps(env, s, ms[0]);
      MoveKeepsSeals(env, s, ms[0]);
      MovesKeepSeals(env, After(s, ms[0]), ms[1..]);
    }
  }

  /** Over every run: after `pane.exited` no `pane.status_changed` for the pane before its `pane.respawned`. */
  lemma NoStatusBetweenExitAndRespawn(env: Env, cs: seq<Command>)
    ensures NoStatusWhileSealed(Run(env, EMPTY, cs).events)
  {
    EmptyIsValid(env);
    assert SealsAgree(EMPTY);
    hide Valid, Exec, Enabled, After, NoStatusWhileSealed;
    var ms := RunMoves(env, EMPTY, cs);
    MovesKeepSeals(env, EMPTY, ms);
  }
}
