/** The commands the writer serves, runs of them, and the moves every run is made of. */
module GraphRuns {
  import opened Wrappers
  import opened Layout
  import opened WindowLayouts
  import opened GraphModel
  import opened GraphSteps
  import Ops = GraphOps
  import Batch = GraphBatch

  datatype Command =
    | CreateSession(name: string, cwd: string, command: seq<string>)
    | DestroySession(session: SessionId, expected: Option<nat>)
    | RenameSession(session: SessionId, name: string, expected: Option<nat>)
    | SetSessionTag(session: SessionId, key: string, value: string)
    | SetSessionTheme(session: SessionId, theme: Option<string>)
    | CreateWindow(session: SessionId, title: string, cwd: string, command: seq<string>)
    | DestroyWindow(window: WindowId, expected: Option<nat>)
    | RenameWindow(window: WindowId, title: string, expected: Option<nat>)
    | FocusWindow(window: WindowId, expected: Option<nat>)
    | ReorderWindow(window: WindowId, index: nat, expected: Option<nat>)
    | CreatePane(window: WindowId, cwd: string, command: seq<string>)
    | SplitPane(pane: PaneId, dir: Direction, ratio: real, command: seq<string>)
    | DestroyPane(pane: PaneId, expected: Option<nat>)
    | DestroyPaneAndEmptyParents(pane: PaneId)
    | SetPaneTag(pane: PaneId, key: string, value: string)
    | SetPaneTheme(pane: PaneId, theme: Option<string>)
    | SetPaneTitle(pane: PaneId, manual: Option<string>, auto: Option<bool>)
    | SetPaneOscTitle(pane: PaneId, title: string)
    | SetPaneExit(pane: PaneId, exit: ProgramExit)
    | FocusPane(pane: PaneId)
    | FocusPaneDirection(window: WindowId, toward: NavDirection, viewport: Rect)
    | ResizePane(pane: PaneId, dir: Direction, delta: real, expected: Option<nat>)
    | ZoomPane(pane: PaneId, expected: Option<nat>)
    | ZoomPaneIfFocused(pane: PaneId, focused: PaneId)
    | SwapPanes(pane: PaneId, other: PaneId, expected: Option<nat>)
    | ClaimPanePty(pane: PaneId, incarnation: nat)
    | SetProgramStatus(pane: PaneId, update: Ops.StatusUpdate)
    | SetExitOwned(pane: PaneId, exit: ProgramExit, incarnation: nat, last: Option<Ops.StatusUpdate>)
    | ApplyBatch(ops: seq<Batch.Op>)

  /** The commands that read the snapshot, commit at most once and leave the side maps to the commit. */
  predicate IsPlain(c: Command) {
    !c.ClaimPanePty? && !c.SetProgramStatus? && !c.SetExitOwned? && !c.ApplyBatch?
  }

  function Forget<R>(o: Outcome<R>): (f: Outcome<()>)
    ensures f.Changed? == o.Changed? && (f.Changed? ==> f.change == o.change)
  {
    match o
    case Changed(c, _) => Changed(c, ())
    case Unchanged(_) => Unchanged(())
    case Failed(e) => Failed(e)
  }

  function OnSessions(env: Env, g: Snapshot, n: nat, c: Command): Outcome<()>
    requires c.CreateSession? || c.DestroySession? || c.RenameSession? || c.SetSessionTag? || c.SetSessionTheme?
  {
    match c
    case CreateSession(name, cwd, command) => Forget(Ops.CreateSession(env, g, n, name, cwd, command))
    case DestroySession(id, expected) => Ops.DestroySession(env, g, n, id, expected)
    case RenameSession(id, name, expected) => Ops.RenameSession(env, g, n, id, name, expected)
    case SetSessionTag(id, key, value) => Ops.SetSessionTag(g, n, id, key, value)
    case SetSessionTheme(id, theme) => Ops.SetSessionTheme(g, n, id, theme)
  }

  function OnWindows(env: Env, g: Snapshot, n: nat, c: Command): Outcome<()>
    requires c.CreateWindow? || c.DestroyWindow? || c.RenameWindow? || c.FocusWindow? || c.ReorderWindow?
  {
    match c
    case CreateWindow(id, title, cwd, command) => Forget(Ops.CreateWindow(env, g, n, id, title, cwd, command))
    case DestroyWindow(id, expected) => Ops.DestroyWindow(env, g, n, id, expected)
    case RenameWindow(id, title, expected) => Ops.RenameWindow(g, n, id, title, expected)
    case FocusWindow(id, expected) => Forget(Ops.FocusWindow(g, n, id, expected))
    case ReorderWindow(id, index, expected) => Ops.ReorderWindow(g, n, id, index, expected)
  }

  predicate IsOnPanes(c: Command) {
    || c.CreatePane? || c.SplitPane? || c.DestroyPane? || c.DestroyPaneAndEmptyParents? || c.SetPaneTag?
    || c.SetPaneTheme? || c.SetPaneTitle? || c.SetPaneOscTitle? || c.SetPaneExit?
  }

  function OnPanes(env: Env, g: Snapshot, n: nat, c: Command): Outcome<()>
    requires IsOnPanes(c)
  {
    match c
    case CreatePane(id, cwd, command) => Forget(Ops.CreatePane(env, g, n, id, cwd, command))
    case SplitPane(id, dir, ratio, command) => Forget(Ops.SplitPane(env, g, n, id, dir, ratio, command))
    case DestroyPane(id, expected) => Ops.DestroyPane(g, n, id, expected)
    case DestroyPaneAndEmptyParents(id) => Ops.DestroyPaneAndEmptyParents(env, g, n, id)
    case SetPaneTag(id, key, value) => Ops.SetPaneTag(g, n, id, key, value)
    case SetPaneTheme(id, theme) => Ops.SetPaneTheme(g, n, id, theme)
    case SetPaneTitle(id, manual, auto) => Ops.SetPaneTitle(env, g, n, id, manual, auto)
    case SetPaneOscTitle(id, title) => Ops.SetPaneOscTitle(env, g, n, id, title)
    case SetPaneExit(id, exit) => Ops.SetPaneExit(g, n, id, exit)
  }

  predicate IsOnLayouts(c: Command) {
    || c.FocusPane? || c.FocusPaneDirection? || c.ResizePane? || c.ZoomPane? || c.ZoomPaneIfFocused? || c.SwapPanes?
  }

  function OnLayouts(g: Snapshot, n: nat, c: Command): Outcome<()>
    requires IsOnLayouts(c)
  {
    match c
    case FocusPane(id) => Forget(Ops.FocusPane(g, n, id))
    case FocusPaneDirection(id, toward, v) => Forget(Ops.FocusPaneDirection(g, n, id, toward, v))
    case ResizePane(id, dir, delta, expected) => Ops.ResizePane(g, n, id, dir, delta, expected)
    case ZoomPane(id, expected) => Forget(Ops.ZoomPane(g, n, id, expected))
    case ZoomPaneIfFocused(id, focused) => Forget(Ops.ZoomPaneIfFocused(g, n, id, focused))
    case SwapPanes(a, b, expected) => Ops.SwapPanes(g, n, a, b, expected)
  }

  function Plan(env: Env, g: Snapshot, n: nat, c: Command): Outcome<()>
    requires IsPlain(c)
  {
    if IsOnPanes(c) then OnPanes(env, g, n, c)
    else if IsOnLayouts(c) then OnLayouts(g, n, c)
    else if c.CreateSession? || c.DestroySession? || c.RenameSession? || c.SetSessionTag? || c.SetSessionTheme?
    then OnSessions(env, g, n, c)
    else OnWindows(env, g, n, c)
  }

  /** The state after one command. */
  function Exec(env: Env, s: State, c: Command): State {
    match c
    case ClaimPanePty(id, incarnation) => Ops.ClaimPanePty(s, id, incarnation).0
    case SetProgramStatus(id, update) => Ops.SetProgramStatus(s, id, update).0
    case SetExitOwned(id, exit, incarnation, last) => Ops.SetExitOwned(s, id, exit, incarnation, last).0
    case ApplyBatch(ops) => Batch.ApplyBatch(env, s, ops).0
    case _ => Finish(s, Plan(env, s.snap, s.supply, c)).0
  }

  function Run(env: Env, s: State, cs: seq<Command>): State
    decreases |cs|
  {
    if cs == [] then s else Run(env, Exec(env, s, cs[0]), cs[1..])
  }

  // ----- Moves -----

  /** What a run is made of: commits, and advances of a live pane's owner or status watermark. */
  datatype Move =
    | Edited(edit: Edit, change: Change)
    | Owned(pane: PaneId, incarnation: nat)
    | Watermarked(pane: PaneId, generation: nat)

  predicate Advances(s: State, m: map<PaneId, nat>, p: PaneId, v: nat) {
    p in s.snap.panes && (p in m ==> m[p] <= v)
  }

  ghost predicate Enabled(env: Env, s: State, m: Move) {
    match m
    case Edited(e, c) => Fits(env, s.snap, s.supply, e, c)
    case Owned(p, v) => Advances(s, s.owners, p, v)
    case Watermarked(p, v) => Advances(s, s.generations, p, v)
  }

  function After(s: State, m: Move): State {
    match m
    case Edited(_, c) => Commit(s, c)
    case Owned(p, v) => s.(owners := s.owners[p := v])
    case Watermarked(p, v) => s.(generations := s.generations[p := v])
  }

  function AfterAll(s: State, ms: seq<Move>): State
    decreases |ms|
  {
    if ms == [] then s else AfterAll(After(s, ms[0]), ms[1..])
  }

  ghost predicate EnabledAll(env: Env, s: State, ms: seq<Move>)
    decreases |ms|
  {
    ms == [] || (Enabled(env, s, ms[0]) && EnabledAll(env, After(s, ms[0]), ms[1..]))
  }

  /** The move adds no pane behind the layout's back. */
  predicate IsShown(m: Move) {
    m.Edited? ==> !m.edit.NewPane?
  }

  ghost predicate AllShown(ms: seq<Move>) {
    forall i :: 0 <= i < |ms| ==> IsShown(ms[i])
  }

  lemma {:induction false} MovesConcat(env: Env, s: State, ms: seq<Move>, ns: seq<Move>)
    requires EnabledAll(env, s, ms) && EnabledAll(env, AfterAll(s, ms), ns)
    ensures EnabledAll(env, s, ms + ns)
    ensures AfterAll(s, ms + ns) == AfterAll(AfterAll(s, ms), ns)
    decreases |ms|
  {
    hide Enabled, After;
    if ms == [] {
      assert ms + ns == ns;
    } else {
      assert (ms + ns)[1..] == ms[1..] + ns;
      MovesConcat(env, After(s, ms[0]), ms[1..], ns);
    }
  }

  lemma OneMove(env: Env, s: State, m: Move)
    requires Enabled(env, s, m)
    ensures EnabledAll(env, s, [m]) && AfterAll(s, [m]) == After(s, m)
  {
    hide Enabled, After;
    assert [m][1..] == [];
    assert EnabledAll(env, After(s, m), []);
    assert AfterAll(After(s, m), []) == After(s, m);
  }

  // ----- Plain commands are one commit -----

  /** Which commands make which edits of a window's panes and layout. */
  predicate Suits(c: Command, e: Edit) {
    && (e.NewPane? ==> c.CreatePane?)
    && (e.NewSplit? ==> c.SplitPane?)
    && (e.DropPane? ==> c.DestroyPane? || c.DestroyPaneAndEmptyParents?)
    && (e.EditLayout? ==> IsOnLayouts(c))
  }

  lemma SessionsMake(env: Env, g: Snapshot, n: nat, c: Command) returns (e: Edit)
    requires c.CreateSession? || c.DestroySession? || c.RenameSession? || c.SetSessionTag? || c.SetSessionTheme?
    ensures Makes(env, g, n, OnSessions(env, g, n, c), e) && IsAside(e)
  {
    hide Fits, Ops.CreateSession, Ops.DestroySession, Ops.RenameSession, Ops.SetSessionTag, Ops.SetSessionTheme;
    match c
    case CreateSession(name, cwd, command) => e := CreateSessionMakes(env, g, n, name, cwd, command);
    case DestroySession(id, expected) => var a, _, _ := DestroysMake(env, g, n, id, 0, expected); e := a;
    case RenameSession(id, name, expected) =>
      var a, _, _ := SessionEditsMake(env, g, n, id, name, expected, "", "", None);
      e := a;
    case SetSessionTag(id, key, value) =>
      var _, a, _ := SessionEditsMake(env, g, n, id, "", None, key, value, None);
      e := a;
    case SetSessionTheme(id, theme) => var _, _, a := SessionEditsMake(env, g, n, id, "", None, "", "", theme); e := a;
  }

  lemma OnWindowsMake(env: Env, g: Snapshot, n: nat, c: Command) returns (e: Edit)
    requires c.CreateWindow? || c.DestroyWindow? || c.RenameWindow? || c.FocusWindow? || c.ReorderWindow?
    ensures Makes(env, g, n, OnWindows(env, g, n, c), e) && IsAside(e)
  {
    hide Fits, Ops.CreateWindow, Ops.DestroyWindow, Ops.RenameWindow, Ops.FocusWindow, Ops.ReorderWindow;
    match c
    case CreateWindow(id, title, cwd, command) => e := CreateWindowMakes(env, g, n, id, title, cwd, command);
    case DestroyWindow(id, expected) => var _, a := WindowsMake(env, g, n, id, "", expected); e := a;
    case RenameWindow(id, title, expected) => var a, _ := WindowsMake(env, g, n, id, title, expected); e := a;
    case FocusWindow(id, expected) => var a, _ := WindowOrderMakes(env, g, n, id, 0, expected); e := a;
    case ReorderWindow(id, index, expected) => var _, a := WindowOrderMakes(env, g, n, id, index, expected); e := a;
  }

  lemma CreatePaneMakes(env: Env, g: Snapshot, n: nat, window: WindowId, cwd: string, command: seq<string>)
    ensures Makes(env, g, n, Ops.CreatePane(env, g, n, window, cwd, command), NewPane(window, cwd, command))
  {
    hide CapacityError;
  }

  lemma OnPanesMake(env: Env, g: Snapshot, n: nat, c: Command) returns (e: Edit)
    requires IsOnPanes(c)
    ensures Makes(env, g, n, OnPanes(env, g, n, c), e) && Suits(c, e)
  {
    hide Fits, Ops.CreatePane, Ops.SplitPane, Ops.DestroyPane, Ops.DestroyPaneAndEmptyParents, Ops.SetPaneTag,
         Ops.SetPaneTheme, Ops.SetPaneTitle, Ops.SetPaneOscTitle, Ops.SetPaneExit;
    match c
    case CreatePane(id, cwd, command) => CreatePaneMakes(env, g, n, id, cwd, command); e := NewPane(id, cwd, command);
    case SplitPane(id, dir, ratio, command) => e := SplitPaneMakes(env, g, n, id, dir, ratio, command, None);
    case DestroyPane(id, expected) => var _, a, _ := DestroysMake(env, g, n, 0, id, expected); e := a;
    case DestroyPaneAndEmptyParents(id) => var _, _, a := DestroysMake(env, g, n, 0, id, None); e := a;
    case SetPaneTag(id, key, value) =>
      var a, _, _ := PaneEditsMake(env, g, n, id, key, value, None, ProgramExit(0, None, false));
      e := a;
    case SetPaneTheme(id, theme) =>
      var _, a, _ := PaneEditsMake(env, g, n, id, "", "", theme, ProgramExit(0, None, false));
      e := a;
    case SetPaneTitle(id, manual, auto) => e := SetTitleMakes(env, g, n, id, manual, auto);
    case SetPaneOscTitle(id, title) => e := SetOscTitleMakes(env, g, n, id, title);
    case SetPaneExit(id, exit) => var _, _, a := PaneEditsMake(env, g, n, id, "", "", None, exit); e := a;
  }

  lemma OnLayoutsMake(env: Env, g: Snapshot, n: nat, c: Command) returns (e: Edit)
    requires IsOnLayouts(c)
    ensures Makes(env, g, n, OnLayouts(g, n, c), e) && (e.EditLayout? || e.OnlyTick?)
  {
    hide Fits, Ops.FocusPane, Ops.FocusPaneDirection, Ops.ResizePane, Ops.ZoomPane, Ops.ZoomPaneIfFocused,
         Ops.SwapPanes;
    match c
    case FocusPane(id) => e := FocusMakes(env, g, n, id);
    case FocusPaneDirection(id, toward, v) => e := FocusDirectionMakes(env, g, n, id, toward, v);
    case ResizePane(id, dir, delta, expected) => e := ResizeMakes(env, g, n, id, dir, delta, expected);
    case ZoomPane(id, expected) => e := ZoomMakes(env, g, n, id, expected);
    case ZoomPaneIfFocused(id, focused) => e := ZoomIfFocusedMakes(env, g, n, id, focused);
    case SwapPanes(a, b, expected) => e := SwapMakes(env, g, n, a, b, expected);
  }

  lemma PlanMakes(env: Env, g: Snapshot, n: nat, c: Command) returns (e: Edit)
    requires IsPlain(c)
    ensures Makes(env, g, n, Plan(env, g, n, c), e) && Suits(c, e)
  {
    hide Fits, OnPanes, OnLayouts, OnSessions, OnWindows;
    if IsOnPanes(c) {
      e := OnPanesMake(env, g, n, c);
    } else if IsOnLayouts(c) {
      e := OnLayoutsMake(env, g, n, c);
    } else if c.CreateSession? || c.DestroySession? || c.RenameSession? || c.SetSessionTag? || c.SetSessionTheme? {
      e := SessionsMake(env, g, n, c);
    } else {
      e := OnWindowsMake(env, g, n, c);
    }
  }

  lemma OutcomeMoves<R>(env: Env, s: State, o: Outcome<R>, e: Edit) returns (ms: seq<Move>)
    requires Makes(env, s.snap, s.supply, o, e)
    ensures EnabledAll(env, s, ms) && AfterAll(s, ms) == Finish(s, o).0
    ensures !e.NewPane? ==> AllShown(ms)
  {
    hide Fits, Commit;
    if o.Changed? {
      ms := [Edited(e, o.change)];
      OneMove(env, s, ms[0]);
    } else {
      ms := [];
    }
  }

  // ----- Commands on the side maps -----

  lemma StatusMoves(env: Env, s: State, id: PaneId, u: Ops.StatusUpdate) returns (ms: seq<Move>)
    ensures EnabledAll(env, s, ms) && AfterAll(s, ms) == Ops.SetProgramStatus(s, id, u).0
    ensures AllShown(ms)
  {
    hide KeepLive, Ops.PutPane;
    var after := Ops.SetProgramStatus(s, id, u).0;
    ms := [];
    if id in s.snap.panes && s.snap.panes[id].exit.None? && s.snap.panes[id].window in s.snap.windows {
      var p := s.snap.panes[id];
      var last := if id in s.generations then s.generations[id] else 0;
      var m := Watermarked(id, Max(last, u.generation));
      OneMove(env, s, m);
      ms := [m];
      var s' := After(s, m);
      if u.generation > last && (p.status != u.summary || p.seen != u.seen || p.enabled != u.enabled) {
        var c := Change(Ops.PutPane(s.snap, id, p.(status := u.summary, seen := u.seen, enabled := u.enabled)),
                        [PaneStatusChanged(id, p.window, s.snap.windows[p.window].session, p.status, u.summary, u.seen,
                                           u.enabled)],
                        s.supply);
        var m' := Edited(EditPane(id, p.(status := u.summary, seen := u.seen, enabled := u.enabled)), c);
        assert Enabled(env, s', m');
        OneMove(env, s', m');
        MovesConcat(env, s, [m], [m']);
        ms := [m] + [m'];
      }
    }
  }

  lemma ClaimMoves(env: Env, s: State, id: PaneId, incarnation: nat) returns (ms: seq<Move>)
    ensures EnabledAll(env, s, ms) && AfterAll(s, ms) == Ops.ClaimPanePty(s, id, incarnation).0
    ensures AllShown(ms)
  {
    hide KeepLive, Ops.PutPane;
    ms := [];
    if id in s.snap.panes && (id in s.owners ==> s.owners[id] <= incarnation) {
      var p := s.snap.panes[id];
      var m := Owned(id, incarnation);
      OneMove(env, s, m);
      ms := [m];
      var s' := After(s, m);
      if p.exit.Some? && p.window in s.snap.windows {
        var c := Change(Ops.PutPane(s.snap, id, p.(exit := None)),
                        [PaneRespawned(id, p.window, s.snap.windows[p.window].session, p.command)], s.supply);
        var m' := Edited(EditPane(id, p.(exit := None)), c);
        assert Enabled(env, s', m');
        OneMove(env, s', m');
        MovesConcat(env, s, [m], [m']);
        ms := [m] + [m'];
      }
    }
  }

  lemma ExitMoves(env: Env, s: State, id: PaneId, exit: ProgramExit, incarnation: nat, last: Option<Ops.StatusUpdate>)
    returns (ms: seq<Move>)
    ensures EnabledAll(env, s, ms) && AfterAll(s, ms) == Ops.SetExitOwned(s, id, exit, incarnation, last).0
    ensures AllShown(ms)
  {
    hide Fits, Enabled, Commit, Ops.SetProgramStatus, Ops.SetPaneExit;
    ms := [];
    if id in s.owners && s.owners[id] == incarnation {
      var (s', r) := if last.Some? then Ops.SetProgramStatus(s, id, last.value) else (s, Ok(()));
      if last.Some? {
        ms := StatusMoves(env, s, id, last.value);
      }
      assert EnabledAll(env, s, ms) && AfterAll(s, ms) == s';
      if r.Ok? {
        var _, _, e := PaneEditsMake(env, s'.snap, s'.supply, id, "", "", None, exit);
        var ns := OutcomeMoves(env, s', Ops.SetPaneExit(s'.snap, s'.supply, id, exit), e);
        MovesConcat(env, s, ms, ns);
        ms := ms + ns;
      }
    }
  }

  // ----- Batches -----

  /** Side maps speak of live panes only. */
  ghost predicate SideMapsLive(s: State) {
    s.owners.Keys <= s.snap.panes.Keys && s.generations.Keys <= s.snap.panes.Keys
  }

  lemma CommitKeepsSideMapsLive(s: State, c: Change)
    ensures SideMapsLive(Commit(s, c))
  {
  }

  lemma MoveKeepsSideMapsLive(env: Env, s: State, m: Move)
    requires SideMapsLive(s) && Enabled(env, s, m)
    ensures SideMapsLive(After(s, m))
  {
    hide Fits, Commit;
    if m.Edited? {
      CommitKeepsSideMapsLive(s, m.change);
    }
  }

  lemma {:induction false} MovesKeepSideMapsLive(env: Env, s: State, ms: seq<Move>)
    requires SideMapsLive(s) && EnabledAll(env, s, ms)
    ensures SideMapsLive(AfterAll(s, ms))
    decreases |ms|
  {
    hide Enabled, After, SideMapsLive;
    if ms != [] {
      MoveKeepsSideMapsLive(env, s, ms[0]);
      MovesKeepSideMapsLive(env, After(s, ms[0]), ms[1..]);
    }
  }

  lemma StageOpMakes(env: Env, b: Batch.Staged, op: Batch.Op) returns (e: Edit)
    ensures var r := Batch.StageOp(env, b, op);
            r.Ok? ==> Makes(env, b.change.snap, b.change.supply, r.value, e) && !r.value.Unchanged?
    ensures !e.NewPane?
  {
    hide Fits, Batch.StageCreateSession, Batch.StageCreateWindow, Batch.StageSplitPane, Batch.SessionName,
         Batch.WindowCwd;
    StagesCommit(env, b, op);
    var (g, n) := (b.change.snap, b.change.supply);
    match op
    case CreateSession(name, cwd, command, title) =>
      e := StageCreateSessionMakes(env, g, n, Batch.SessionName(g, name), cwd, command, title);
    case CreateWindow(session, title, cwd, command) =>
      var r := Batch.ResolveSession(session, b.outputs);
      var id := if r.Ok? then r.value else 0;
      e := CreateWindowMakes(env, g, n, id, title, Batch.WindowCwd(env, g, id, cwd), command);
    case SplitPane(target, dir, ratio, command, cwd) =>
      var r := Batch.ResolvePane(target, b.outputs);
      var id := if r.Ok? then r.value else 0;
      e := SplitPaneMakes(env, g, n, id, dir, ratio, command, cwd);
  }

  lemma StagesCommit(env: Env, b: Batch.Staged, op: Batch.Op)
    ensures var r := Batch.StageOp(env, b, op); r.Ok? ==> !r.value.Unchanged?
  {
    hide CapacityError, CheckWindowTitle, SplitIn, Ops.AddSession, Ops.AddWindow, Ops.AddSplit, DefaultTitle;
  }

  /** Staging adds panes and takes none away. */
  lemma StagingKeepsPanes(env: Env, b: Batch.Staged, op: Batch.Op)
    ensures var r := Batch.StageNext(env, b, op); r.Ok? ==> b.change.snap.panes.Keys <= r.value.change.snap.panes.Keys
  {
    hide CapacityError, CheckWindowTitle, SplitIn, DefaultTitle;
  }

  /** The state a staged copy stands for. */
  function StateOf(s: State, b: Batch.Staged): State {
    State(b.change.snap, s.owners, s.generations, s.events + b.change.events, b.change.supply)
  }

  lemma KeepLiveAll(m: map<PaneId, nat>, panes: map<PaneId, Pane>)
    requires m.Keys <= panes.Keys
    ensures KeepLive(m, panes) == m
  {
  }

  lemma StageNextMoves(env: Env, s: State, b: Batch.Staged, op: Batch.Op) returns (m: Move)
    requires SideMapsLive(StateOf(s, b)) && Batch.StageNext(env, b, op).Ok?
    ensures var b' := Batch.StageNext(env, b, op).value;
            Enabled(env, StateOf(s, b), m) && After(StateOf(s, b), m) == StateOf(s, b') && SideMapsLive(StateOf(s, b'))
    ensures IsShown(m)
  {
    hide Fits, Batch.StageOp, KeepLive;
    StagingKeepsPanes(env, b, op);
    var e := StageOpMakes(env, b, op);
    var c := Batch.StageOp(env, b, op).value.change;
    m := Edited(e, c);
    KeepLiveAll(s.owners, c.snap.panes);
    KeepLiveAll(s.generations, c.snap.panes);
  }

  lemma {:induction false} StageAllMoves(env: Env, s: State, b: Batch.Staged,
                                         ops: seq<Batch.Op>) returns (ms: seq<Move>)
    requires SideMapsLive(StateOf(s, b)) && Batch.StageAll(env, b, ops).Ok?
    ensures var b' := Batch.StageAll(env, b, ops).value;
            EnabledAll(env, StateOf(s, b), ms) && AfterAll(StateOf(s, b), ms) == StateOf(s, b')
            && SideMapsLive(StateOf(s, b'))
    ensures AllShown(ms)
    decreases |ops|
  {
    hide Enabled, After, Batch.StageNext, SideMapsLive, StateOf;
    if ops == [] {
      ms := [];
    } else {
      var m := StageNextMoves(env, s, b, ops[0]);
      var b' := Batch.StageNext(env, b, ops[0]).value;
      var rest := StageAllMoves(env, s, b', ops[1..]);
      ms := [m] + rest;
      assert ms[1..] == rest;
    }
  }

  lemma BatchMoves(env: Env, s: State, ops: seq<Batch.Op>) returns (ms: seq<Move>)
    requires SideMapsLive(s)
    ensures EnabledAll(env, s, ms) && AfterAll(s, ms) == Batch.ApplyBatch(env, s, ops).0
    ensures AllShown(ms)
  {
    hide Batch.StageAll, KeepLive, Enabled, After;
    ms := [];
    if ops != [] && Batch.StageAll(env, Batch.Start(s), ops).Ok? {
      var b := Batch.StageAll(env, Batch.Start(s), ops).value;
      assert StateOf(s, Batch.Start(s)) == s;
      ms := StageAllMoves(env, s, Batch.Start(s), ops);
      KeepLiveAll(s.owners, b.change.snap.panes);
      KeepLiveAll(s.generations, b.change.snap.panes);
    }
  }

  // ----- Runs are moves -----

  lemma PlainMoves(env: Env, s: State, c: Command) returns (ms: seq<Move>)
    requires IsPlain(c)
    ensures EnabledAll(env, s, ms) && AfterAll(s, ms) == Finish(s, Plan(env, s.snap, s.supply, c)).0
    ensures !c.CreatePane? ==> AllShown(ms)
  {
    hide Fits, Plan, EnabledAll, AfterAll, Finish;
    var e := PlanMakes(env, s.snap, s.supply, c);
    ms := OutcomeMoves(env, s, Plan(env, s.snap, s.supply, c), e);
  }

  lemma ExecPlain(env: Env, s: State, c: Command)
    requires IsPlain(c)
    ensures Exec(env, s, c) == Finish(s, Plan(env, s.snap, s.supply, c)).0
  {
    hide Plan, Finish;
  }

  lemma ExecMoves(env: Env, s: State, c: Command) returns (ms: seq<Move>)
    requires SideMapsLive(s)
    ensures EnabledAll(env, s, ms) && AfterAll(s, ms) == Exec(env, s, c)
    ensures !c.CreatePane? ==> AllShown(ms)
  {
    hide EnabledAll, AfterAll, AllShown, Finish, SideMapsLive, Plan, Ops.ClaimPanePty, Ops.SetProgramStatus,
         Ops.SetExitOwned, Batch.ApplyBatch;
    if IsPlain(c) {
      ExecPlain(env, s, c);
      ms := PlainMoves(env, s, c);
    } else {
      match c
      case ClaimPanePty(id, incarnation) => ms := ClaimMoves(env, s, id, incarnation);
      case SetProgramStatus(id, update) => ms := StatusMoves(env, s, id, update);
      case SetExitOwned(id, exit, incarnation, last) => ms := ExitMoves(env, s, id, exit, incarnation, last);
      case ApplyBatch(ops) => ms := BatchMoves(env, s, ops);
    }
  }

  /** Every run, batches included, is a sequence of enabled moves. */
  lemma {:induction false} RunMoves(env: Env, s: State, cs: seq<Command>) returns (ms: seq<Move>)
    requires SideMapsLive(s)
    ensures EnabledAll(env, s, ms) && AfterAll(s, ms) == Run(env, s, cs)
    ensures SideMapsLive(Run(env, s, cs))
    ensures (forall i :: 0 <= i < |cs| ==> !cs[i].CreatePane?) ==> AllShown(ms)
    decreases |cs|
  {
    hide Enabled, After, Exec, SideMapsLive;
    if cs == [] {
      ms := [];
    } else {
      var first := ExecMoves(env, s, cs[0]);
      MovesKeepSideMapsLive(env, s, first);
      var rest := RunMoves(env, Exec(env, s, cs[0]), cs[1..]);
      MovesConcat(env, s, first, rest);
      ms := first + rest;
    }
  }
}
