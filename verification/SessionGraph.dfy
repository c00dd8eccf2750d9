/**
 The single writer: the snapshot it swaps, its per-pane side maps and what it
 has published. Each method is the operation of the same name, run on them.
 */
module SessionGraphs {
  import opened Wrappers
  import opened Layout
  import opened WindowLayouts
  import opened Titles
  import opened GraphModel
  import Ops = GraphOps
  import Batch = GraphBatch
  import Runs = GraphRuns
  import Invariants = GraphInvariants
  import Replay = GraphReplay
  import Ownership = GraphOwnership
  import Outcomes = GraphOutcomes

  // ----- What every command keeps -----

  /**
   The invariant of the graph, in one predicate: references, names, titles and capacity; a subscriber in step with the
   snapshot; no status published between a pane's exit and its respawn; stored titles in sync with their sources.
   */
  ghost predicate Good(env: Env, s: State) {
    && Invariants.Valid(env, s) && Replay.InStep(s) && Ownership.SealsAgree(s) && Outcomes.TitlesInSync(env, s.snap)
  }

  lemma EmptyIsGood(env: Env)
    ensures Good(env, EMPTY)
  {
    Invariants.EmptyIsValid(env);
    hide Invariants.Valid;
    assert Replay.MirrorOf(EMPTY_SNAPSHOT) == Replay.NOTHING;
  }

  /** Every command keeps it. */
  lemma CommandKeeps(env: Env, s: State, c: Runs.Command)
    requires WalksAll(env) && Good(env, s)
    ensures Good(env, Runs.Exec(env, s, c))
  {
    SideMapsOf(env, s);
    hide WalksAll, Invariants.Valid, Replay.InStep, Ownership.SealsAgree, Outcomes.TitlesInSync, Runs.Exec,
         Runs.SideMapsLive,
         Runs.EnabledAll, Runs.AfterAll;
    var ms := Runs.ExecMoves(env, s, c);
    Invariants.MovesKeep(env, s, ms);
    Replay.MovesReplay(env, s, ms);
    Ownership.MovesKeepSeals(env, s, ms);
    Outcomes.MovesKeepTitles(env, s, ms);
  }

  lemma SideMapsOf(env: Env, s: State)
    requires Good(env, s)
    ensures Runs.SideMapsLive(s) && forall p :: p in s.snap.panes ==> p < s.supply
  {
    hide Replay.InStep, Ownership.SealsAgree, Outcomes.TitlesInSync, Invariants.Valid;
    Ownership.ValidGives(env, s);
  }

  /** The same for a command planned as the outcome of one operation. */
  lemma PlanKeeps<R>(env: Env, s: State, o: Outcome<R>, c: Runs.Command)
    requires WalksAll(env) && Good(env, s) && Runs.IsPlain(c)
    requires Runs.Plan(env, s.snap, s.supply, c) == Runs.Forget(o)
    ensures Good(env, Finish(s, o).0)
  {
    hide WalksAll, Good, Runs.Plan, Commit;
    CommandKeeps(env, s, c);
    Runs.ExecPlain(env, s, c);
  }

  // ----- Loops over the pane table -----

  /** Bytes over those of the session's panes numbered below `n` that are in `among`. */
  ghost function BytesAmong(env: Env, g: Snapshot, session: SessionId, n: nat, among: set<PaneId>): nat {
    if n == 0 then 0
    else BytesAmong(env, g, session, n - 1, among)
         + (if n - 1 in among && InSession(g, n - 1, session) then PaneBytes(env, g.panes[n - 1]) else 0)
  }

  lemma {:induction false} OneMore(env: Env, g: Snapshot, session: SessionId, n: nat, among: set<PaneId>, p: PaneId)
    requires p !in among
    ensures BytesAmong(env, g, session, n, among + {p})
            == BytesAmong(env, g, session, n, among)
               + if p < n && InSession(g, p, session) then PaneBytes(env, g.panes[p]) else 0
  {
    if n > 0 {
      OneMore(env, g, session, n - 1, among, p);
    }
  }

  lemma {:induction false} AmongAll(env: Env, g: Snapshot, session: SessionId, n: nat)
    ensures BytesAmong(env, g, session, n, g.panes.Keys) == SessionBytes(env, g, session, n)
    ensures BytesAmong(env, g, session, n, {}) == 0
  {
    if n > 0 {
      AmongAll(env, g, session, n - 1);
    }
  }

  /** The fold that sizes a session up comes out the same in whatever order the table is walked. */
  method SessionUsage(env: Env, g: Snapshot, order: seq<PaneId>, n: nat, session: SessionId)
    returns (count: nat, used: nat)
    requires Lists(order, g.panes.Keys) && forall p :: p in g.panes ==> p < n
    ensures count == |SessionPanes(g, session)|
    ensures used == SessionBytes(env, g, session, n)
  {
    count, used := 0, 0;
    ghost var walked: set<PaneId> := {};
    ghost var counted: set<PaneId> := {};
    AmongAll(env, g, session, n);
    for i := 0 to |order|
      invariant forall p :: p in walked <==> p in order[..i]
      invariant counted == set p | p in walked && InSession(g, p, session)
      invariant count == |counted| && used == BytesAmong(env, g, session, n, walked)
    {
      var p := order[i];
      NextInOrder(order, i);
      OneMore(env, g, session, n, walked, p);
      walked := walked + {p};
      if InSession(g, p, session) {
        counted := counted + {p};
        count, used := count + 1, used + PaneBytes(env, g.panes[p]);
      }
    }
    assert order[..|order|] == order;
    assert forall p :: p in walked <==> p in g.panes;
    assert walked == g.panes.Keys;
    assert counted == SessionPanes(g, session);
  }

  function Bumped(p: Pane, w: WindowId): Pane {
    if p.window == w then p.(version := p.version + 1) else p
  }

  /** Move the version of every pane of the window, pane by pane as the table is walked. */
  method BumpEach(panes: map<PaneId, Pane>, order: seq<PaneId>, w: WindowId) returns (r: map<PaneId, Pane>)
    requires Lists(order, panes.Keys)
    ensures r == BumpPanes(panes, w)
  {
    r := panes;
    ghost var walked: set<PaneId> := {};
    for i := 0 to |order|
      invariant r.Keys == panes.Keys
      invariant forall p :: p in walked <==> p in order[..i]
      invariant forall p :: p in panes ==> r[p] == if p in walked then Bumped(panes[p], w) else panes[p]
    {
      hide Bumped;
      var p := order[i];
      NextInOrder(order, i);
      r := r[p := Bumped(r[p], w)];
      walked := walked + {p};
    }
    assert order[..|order|] == order;
  }

  lemma NextInOrder(order: seq<PaneId>, i: nat)
    requires NoDuplicates(order) && i < |order|
    ensures order[i] in order && order[i] !in order[..i]
    ensures forall p :: p in order[..i + 1] <==> p in order[..i] || p == order[i]
  {
    assert order[..i + 1] == order[..i] + [order[i]];
  }

  /** Take down the panes of the listed windows, and list their exits, as the table is walked. */
  method RemoveEach(g: Snapshot, order: seq<PaneId>, windows: seq<WindowId>, session: SessionId)
    returns (panes: map<PaneId, Pane>, exits: seq<Event>)
    requires Lists(order, g.panes.Keys)
    ensures panes == g.panes - Ops.PanesOfWindows(g, windows)
    ensures exits == Ops.Exits(g, order, windows, session)
  {
    hide Ops.Exits, Ops.PanesOfWindows;
    panes, exits := g.panes, [];
    ghost var gone: set<PaneId> := {};
    assert order[0..] == order;
    for i := 0 to |order|
      invariant panes == g.panes - gone
      invariant forall p :: p in gone <==> p in order[..i] && DiesWith(g, p, windows)
      invariant exits + Ops.Exits(g, order[i..], windows, session) == Ops.Exits(g, order, windows, session)
    {
      var p := order[i];
      NextInOrder(order, i);
      ExitsNext(g, order, i, windows, session);
      if g.panes[p].window in windows {
        panes := panes - {p};
        gone := gone + {p};
        exits := exits + [PaneExited(p, g.panes[p].window, session, None, g.panes[p].command)];
      }
    }
    WalkedOut(g, order, windows, session, gone);
  }

  ghost predicate DiesWith(g: Snapshot, p: PaneId, windows: seq<WindowId>) {
    p in g.panes && g.panes[p].window in windows
  }

  lemma WalkedOut(g: Snapshot, order: seq<PaneId>, windows: seq<WindowId>, session: SessionId, gone: set<PaneId>)
    requires Lists(order, g.panes.Keys) && forall p :: p in gone <==> p in order[..|order|] && DiesWith(g, p, windows)
    ensures gone == Ops.PanesOfWindows(g, windows) && Ops.Exits(g, order[|order|..], windows, session) == []
  {
    assert order[..|order|] == order;
  }

  lemma ExitsNext(g: Snapshot, order: seq<PaneId>, i: nat, windows: seq<WindowId>, session: SessionId)
    requires i < |order| && order[i] in g.panes
    ensures var p := order[i];
            Ops.Exits(g, order[i..], windows, session)
            == (if g.panes[p].window in windows
                then [PaneExited(p, g.panes[p].window, session, None, g.panes[p].command)] else [])
               + Ops.Exits(g, order[i + 1..], windows, session)
  {
    assert order[i..][0] == order[i] && order[i..][1..] == order[i + 1..];
  }

  lemma WalkLists(env: Env, g: Snapshot)
    requires WalksAll(env)
    ensures Lists(env.walk(g), g.panes.Keys)
  {
  }

  /** Whether one more pane would take the session past either bound. */
  method CheckCapacity(env: Env, g: Snapshot, n: nat, session: SessionId, command: seq<string>, cwd: string)
    returns (error: Option<GraphError>)
    requires WalksAll(env) && forall p :: p in g.panes ==> p < n
    ensures error == CapacityError(env, g, n, session, command, cwd)
  {
    WalkLists(env, g);
    hide WalksAll, Lists, SessionBytes, SessionPanes;
    var count, used := SessionUsage(env, g, env.walk(g), n, session);
    var adding := env.jsonBytes(command, cwd);
    if count >= MAX_PANES_PER_SESSION {
      error := Some(SessionPaneLimit(MAX_PANES_PER_SESSION));
    } else if used + adding > MAX_SESSION_PANE_BYTES {
      error := Some(SessionPaneBytes(used, adding, MAX_SESSION_PANE_BYTES));
    } else {
      error := None;
    }
  }

  /** Scan for a `session-N` that no session bears. */
  method UnusedName(g: Snapshot) returns (name: string)
    ensures name == Batch.FreeName(g, |g.sessions| + 1)
    ensures !NameTaken(g, name)
  {
    var i: nat := |g.sessions| + 1;
    name := Batch.Candidate(i);
    while NameTaken(g, name)
      invariant name == Batch.Candidate(i) && Batch.FreeName(g, i) == Batch.FreeName(g, |g.sessions| + 1)
      decreases |Batch.Blocking(g, i)|
    {
      Batch.ScanAdvances(g, i);
      i := i + 1;
      name := Batch.Candidate(i);
    }
  }

  // ----- Staging -----

  ghost predicate BelowSupply(c: Change) {
    forall p :: p in c.snap.panes ==> p < c.supply
  }

  lemma StagingStaysBelow(env: Env, b: Batch.Staged, op: Batch.Op)
    requires BelowSupply(b.change)
    ensures var r := Batch.StageNext(env, b, op); r.Ok? ==> BelowSupply(r.value.change)
  {
    hide CapacityError, CheckWindowTitle, SplitIn, DefaultTitle, Batch.SessionName, Batch.WindowCwd;
  }

  method StageSession(env: Env, g: Snapshot, n: nat, name: string, cwd: string, command: seq<string>,
                      title: Option<string>)
    returns (o: Outcome<Batch.OpOutput>)
    requires WalksAll(env) && forall p :: p in g.panes ==> p < n
    ensures o == Batch.StageCreateSession(env, g, n, name, cwd, command, title)
  {
    hide WalksAll, CapacityError, CheckWindowTitle, Sanitize;
    var error := SessionNameError(env, name);
    if error.Some? {
      return Failed(error.value);
    }
    if NameTaken(g, name) {
      return Failed(SessionNameExists(name));
    }
    var (pane, window, session) := (n, n + 1, n + 2);
    var full := CheckCapacity(env, g, n, session, command, cwd);
    if full.Some? {
      return Failed(full.value);
    }
    var chosen := DefaultTitle(env, command, cwd);
    if title.Some? && title.value != "" {
      var checked := CheckWindowTitle(title.value);
      if checked.Err? {
        return Failed(checked.error);
      }
      chosen := checked.value;
    }
    var g' := g.(version := g.version + 1);
    g' := g'.(panes := g'.panes[pane := NewPane(env, window, cwd, command)]);
    g' := g'.(windows := g'.windows[window := NewWindow(session, chosen, pane)]);
    g' := g'.(sessions := g'.sessions[session := NewSession(name, window)]);
    o := Changed(Change(g', [SessionCreated(session, name), WindowCreated(window, session, chosen, 1),
                             PaneCreated(pane, window, session, command)], n + 3),
                 Batch.OpOutput(Some(session), Some(window), Some(pane)));
  }

  method StageWindow(env: Env, g: Snapshot, n: nat, session: SessionId, rawTitle: string, cwd: string,
                     command: seq<string>)
    returns (o: Outcome<Batch.OpOutput>)
    requires WalksAll(env) && forall p :: p in g.panes ==> p < n
    ensures o == Batch.StageCreateWindow(env, g, n, session, rawTitle, cwd, command)
  {
    hide WalksAll, CapacityError, CheckWindowTitle, TitleTaken, Sanitize;
    if session !in g.sessions {
      return Failed(SessionNotFound(session));
    }
    var checked := CheckWindowTitle(rawTitle);
    if checked.Err? {
      return Failed(checked.error);
    }
    var title := checked.value;
    if TitleTaken(g, session, title) {
      return Failed(WindowNameConflict(title));
    }
    var full := CheckCapacity(env, g, n, session, command, cwd);
    if full.Some? {
      return Failed(full.value);
    }
    var (pane, window) := (n, n + 1);
    var g' := g.(version := g.version + 1);
    g' := g'.(panes := g'.panes[pane := NewPane(env, window, cwd, command)]);
    g' := g'.(windows := g'.windows[window := NewWindow(session, title, pane)]);
    var s := g'.sessions[session];
    s := s.(windows := s.windows + [window], active := window, version := s.version + 1);
    g' := g'.(sessions := g'.sessions[session := s]);
    o := Changed(Change(g', [WindowCreated(window, session, title, |s.windows|),
                             PaneCreated(pane, window, session, command)], n + 2),
                 Batch.OpOutput(Some(session), Some(window), Some(pane)));
  }

  method StageSplit(env: Env, g: Snapshot, n: nat, target: PaneId, dir: Direction, ratio: real, command: seq<string>,
                    cwdOverride: Option<string>) returns (o: Outcome<Batch.OpOutput>)
    requires WalksAll(env) && forall p :: p in g.panes ==> p < n
    ensures o == Batch.StageSplitPane(env, g, n, target, dir, ratio, command, cwdOverride)
  {
    hide WalksAll, CapacityError, Layout.SplitPane;
    if target !in g.panes {
      return Failed(PaneNotFound(target));
    }
    var window := g.panes[target].window;
    var cwd := if cwdOverride.Some? then cwdOverride.value else g.panes[target].cwd;
    if window !in g.windows {
      return Failed(WindowNotFound(window));
    }
    var w := g.windows[window];
    var full := CheckCapacity(env, g, n, w.session, command, cwd);
    if full.Some? {
      return Failed(full.value);
    }
    var layout := new WindowLayout.Resume(w.layout);
    var ok := layout.Split(target, n, dir, ratio);
    if !ok {
      return Failed(LayoutError);
    }
    var g' := g.(version := g.version + 1);
    g' := g'.(windows := g'.windows[window := w.(layout := layout.Value(), active := n, version := w.version + 1)]);
    g' := g'.(panes := g'.panes[n := NewPane(env, window, cwd, command)]);
    o := Changed(Change(g', Ops.Unzoomed(w.layout, window, w.session) + [PaneCreated(n, window, w.session, command)],
                        n + 1),
                 Batch.OpOutput(Some(w.session), Some(window), Some(n)));
  }

  /** Resolve one operation against what came before it, and stage it. */
  method StageOne(env: Env, b: Batch.Staged, op: Batch.Op) returns (next: Result<Batch.Staged, Batch.BatchError>)
    requires WalksAll(env) && BelowSupply(b.change)
    ensures next == Batch.StageNext(env, b, op)
  {
    hide WalksAll, Batch.StageCreateSession, Batch.StageCreateWindow, Batch.StageSplitPane, Batch.WindowCwd, NameTaken;
    var (g, n) := (b.change.snap, b.change.supply);
    var o: Outcome<Batch.OpOutput>;
    match op {
      case CreateSession(name, cwd, command, title) =>
        var chosen := "";
        if name.Some? {
          chosen := name.value;
        } else {
          chosen := UnusedName(g);
        }
        o := StageSession(env, g, n, chosen, cwd, command, title);
      case CreateWindow(session, title, cwd, command) =>
        var id := Batch.ResolveSession(session, b.outputs);
        if id.Err? {
          return Err(id.error);
        }
        o := StageWindow(env, g, n, id.value, title, Batch.WindowCwd(env, g, id.value, cwd), command);
      case SplitPane(target, dir, ratio, command, cwd) =>
        var id := Batch.ResolvePane(target, b.outputs);
        if id.Err? {
          return Err(id.error);
        }
        o := StageSplit(env, g, n, id.value, dir, ratio, command, cwd);
    }
    match o
    case Changed(c, output) =>
      next := Ok(Batch.Staged(Change(c.snap, b.change.events + c.events, c.supply), b.outputs + [output]));
    case Unchanged(output) => next := Ok(Batch.Staged(b.change, b.outputs + [output]));
    case Failed(e) => next := Err(Batch.OpFailed(|b.outputs|, e));
  }

  class SessionGraph {
    const env: Env
    var snapshot: Snapshot
    var ptyOwners: map<PaneId, nat>
    var statusGenerations: map<PaneId, nat>
    var published: seq<Event>
    var supply: nat

    ghost function Value(): State
      reads this
    {
      State(snapshot, ptyOwners, statusGenerations, published, supply)
    }

    /** The invariant every method keeps. */
    ghost predicate Valid()
      reads this
    {
      WalksAll(env) && Good(env, Value())
    }

    constructor (env: Env)
      requires WalksAll(env)
      ensures Valid() && Value() == EMPTY && this.env == env
    {
      this.env := env;
      snapshot := EMPTY_SNAPSHOT;
      ptyOwners, statusGenerations, published, supply := map[], map[], [], 0;
      new;
      EmptyIsGood(env);
    }

    /** Side maps never outlive their pane; events go out after the swap. */
    method CommitSnapshot(g: Snapshot, events: seq<Event>, n: nat)
      modifies this
      ensures Value() == Commit(old(Value()), Change(g, events, n))
    {
      ptyOwners := map p | p in ptyOwners && p in g.panes :: ptyOwners[p];
      statusGenerations := map p | p in statusGenerations && p in g.panes :: statusGenerations[p];
      snapshot := g;
      published := published + events;
      supply := n;
    }

    method CreateSession(name: string, cwd: string, command: seq<string>) returns (r: Result<SessionId, GraphError>)
      requires Valid()
      modifies this
      ensures Valid()
      ensures (Value(), r)
              == Finish(old(Value()), Ops.CreateSession(env, old(snapshot), old(supply), name, cwd, command))
    {
      hide Good, WalksAll, CapacityError, NameTaken, DefaultTitle, Sanitize;
      PlanKeeps(env, Value(), Ops.CreateSession(env, snapshot, supply, name, cwd, command),
                Runs.CreateSession(name, cwd, command));
      SideMapsOf(env, Value());
      var error := SessionNameError(env, name);
      if error.Some? {
        return Err(error.value);
      }
      if NameTaken(snapshot, name) {
        return Err(SessionNameExists(name));
      }
      var (pane, window, session) := (supply, supply + 1, supply + 2);
      var full := CheckCapacity(env, snapshot, supply, session, command, cwd);
      if full.Some? {
        return Err(full.value);
      }
      var title := DefaultTitle(env, command, cwd);
      var g := snapshot.(version := snapshot.version + 1);
      g := g.(panes := g.panes[pane := NewPane(env, window, cwd, command)]);
      g := g.(windows := g.windows[window := NewWindow(session, title, pane)]);
      g := g.(sessions := g.sessions[session := NewSession(name, window)]);
      CommitSnapshot(g, [SessionCreated(session, name), WindowCreated(window, session, title, 1),
                         PaneCreated(pane, window, session, command)], supply + 3);
      r := Ok(session);
    }

    method DestroySession(id: SessionId, expected: Option<nat>) returns (r: Result<(), GraphError>)
      requires Valid()
      modifies this
      ensures Valid()
      ensures (Value(), r) == Finish(old(Value()), Ops.DestroySession(env, old(snapshot), old(supply), id, expected))
    {
      hide Good, WalksAll;
      PlanKeeps(env, Value(), Ops.DestroySession(env, snapshot, supply, id, expected),
                Runs.DestroySession(id, expected));
      if id !in snapshot.sessions {
        return Err(SessionNotFound(id));
      }
      var s := snapshot.sessions[id];
      if Conflicts(expected, s.version) {
        return Err(VersionConflict(expected.value, s.version));
      }
      WalkLists(env, snapshot);
      var panes, exits := RemoveEach(snapshot, env.walk(snapshot), s.windows, id);
      var g := snapshot.(version := snapshot.version + 1, panes := panes);
      g := g.(windows := g.windows - set w | w in s.windows);
      g := g.(sessions := g.sessions - {id});
      CommitSnapshot(g, exits + Ops.WindowKills(s.windows, id) + [SessionKilled(id, s.name)], supply);
      r := Ok(());
    }

    method RenameSession(id: SessionId, name: string, expected: Option<nat>) returns (r: Result<(), GraphError>)
      requires Valid()
      modifies this
      ensures Valid()
      ensures (Value(), r)
              == Finish(old(Value()), Ops.RenameSession(env, old(snapshot), old(supply), id, name, expected))
    {
      hide Good, WalksAll;
      PlanKeeps(env, Value(), Ops.RenameSession(env, snapshot, supply, id, name, expected),
                Runs.RenameSession(id, name, expected));
      var error := SessionNameError(env, name);
      if error.Some? {
        return Err(error.value);
      }
      if id !in snapshot.sessions {
        return Err(SessionNotFound(id));
      }
      var s := snapshot.sessions[id];
      if Conflicts(expected, s.version) {
        return Err(VersionConflict(expected.value, s.version));
      }
      if NameTaken(snapshot, name) {
        return Err(SessionNameExists(name));
      }
      var g := snapshot.(version := snapshot.version + 1);
      g := g.(sessions := g.sessions[id := s.(name := name, version := s.version + 1)]);
      CommitSnapshot(g, [SessionRenamed(id, s.name, name)], supply);
      r := Ok(());
    }

    method CreateWindow(session: SessionId, rawTitle: string, cwd: string, command: seq<string>)
      returns (r: Result<WindowId, GraphError>)
      requires Valid()
      modifies this
      ensures Valid()
      ensures (Value(), r)
              == Finish(old(Value()),
                        Ops.CreateWindow(env, old(snapshot), old(supply), session, rawTitle, cwd, command))
    {
      hide Good, WalksAll, CapacityError, CheckWindowTitle, TitleTaken, Sanitize;
      PlanKeeps(env, Value(), Ops.CreateWindow(env, snapshot, supply, session, rawTitle, cwd, command),
                Runs.CreateWindow(session, rawTitle, cwd, command));
      SideMapsOf(env, Value());
      var checked := CheckWindowTitle(rawTitle);
      if checked.Err? {
        return Err(checked.error);
      }
      var title := checked.value;
      if session !in snapshot.sessions {
        return Err(SessionNotFound(session));
      }
      if TitleTaken(snapshot, session, title) {
        return Err(WindowNameConflict(title));
      }
      var full := CheckCapacity(env, snapshot, supply, session, command, cwd);
      if full.Some? {
        return Err(full.value);
      }
      var (pane, window) := (supply, supply + 1);
      var g := snapshot.(version := snapshot.version + 1);
      g := g.(panes := g.panes[pane := NewPane(env, window, cwd, command)]);
      g := g.(windows := g.windows[window := NewWindow(session, title, pane)]);
      var s := g.sessions[session];
      s := s.(windows := s.windows + [window], active := window, version := s.version + 1);
      g := g.(sessions := g.sessions[session := s]);
      CommitSnapshot(g, [WindowCreated(window, session, title, |s.windows|),
                         PaneCreated(pane, window, session, command)], supply + 2);
      r := Ok(window);
    }

    method DestroyWindow(id: WindowId, expected: Option<nat>) returns (r: Result<(), GraphError>)
      requires Valid()
      modifies this
      ensures Valid()
      ensures (Value(), r) == Finish(old(Value()), Ops.DestroyWindow(env, old(snapshot), old(supply), id, expected))
    {
      hide Good, WalksAll;
      PlanKeeps(env, Value(), Ops.DestroyWindow(env, snapshot, supply, id, expected), Runs.DestroyWindow(id, expected));
      if id !in snapshot.windows {
        return Err(WindowNotFound(id));
      }
      var w := snapshot.windows[id];
      if Conflicts(expected, w.version) {
        return Err(VersionConflict(expected.value, w.version));
      }
      if w.session !in snapshot.sessions {
        return Err(SessionNotFound(w.session));
      }
      if |snapshot.sessions[w.session].windows| <= 1 {
        return Err(LastWindow);
      }
      WalkLists(env, snapshot);
      var panes, exits := RemoveEach(snapshot, env.walk(snapshot), [id], w.session);
      var g := snapshot.(version := snapshot.version + 1, panes := panes);
      var s := g.sessions[w.session];
      s := s.(windows := Without(s.windows, id));
      if s.active == id && s.windows != [] {
        s := s.(active := s.windows[0]);
      }
      g := g.(sessions := g.sessions[w.session := s.(version := s.version + 1)]);
      g := g.(windows := g.windows - {id});
      CommitSnapshot(g, exits + [WindowKilled(id, w.session)], supply);
      r := Ok(());
    }

    method RenameWindow(id: WindowId, rawTitle: string, expected: Option<nat>) returns (r: Result<(), GraphError>)
      requires Valid()
      modifies this
      ensures Valid()
      ensures (Value(), r) == Finish(old(Value()), Ops.RenameWindow(old(snapshot), old(supply), id, rawTitle, expected))
    {
      hide Good, WalksAll;
      PlanKeeps(env, Value(), Ops.RenameWindow(snapshot, supply, id, rawTitle, expected),
                Runs.RenameWindow(id, rawTitle, expected));
      var checked := CheckWindowTitle(rawTitle);
      if checked.Err? {
        return Err(checked.error);
      }
      var title := checked.value;
      if id !in snapshot.windows {
        return Err(WindowNotFound(id));
      }
      var w := snapshot.windows[id];
      if Conflicts(expected, w.version) {
        return Err(VersionConflict(expected.value, w.version));
      }
      if w.session !in snapshot.sessions {
        return Err(SessionNotFound(w.session));
      }
      var siblings := snapshot.sessions[w.session].windows;
      for i := 0 to |siblings|
        invariant Value() == old(Value())
        invariant forall j :: 0 <= j < i ==>
                    || siblings[j] == id || siblings[j] !in snapshot.windows
                    || snapshot.windows[siblings[j]].title != title
      {
        var v := siblings[i];
        if v != id && v in snapshot.windows && snapshot.windows[v].title == title {
          return Err(WindowNameConflict(title));
        }
      }
      var g := snapshot.(version := snapshot.version + 1);
      g := g.(windows := g.windows[id := w.(title := title, version := w.version + 1)]);
      CommitSnapshot(g, [WindowRenamed(id, w.session, w.title, title)], supply);
      r := Ok(());
    }

    method FocusWindow(id: WindowId, expected: Option<nat>) returns (r: Result<Option<WindowId>, GraphError>)
      requires Valid()
      modifies this
      ensures Valid()
      ensures (Value(), r) == Finish(old(Value()), Ops.FocusWindow(old(snapshot), old(supply), id, expected))
    {
      hide Good, WalksAll;
      PlanKeeps(env, Value(), Ops.FocusWindow(snapshot, supply, id, expected), Runs.FocusWindow(id, expected));
      if id !in snapshot.windows {
        return Err(WindowNotFound(id));
      }
      var w := snapshot.windows[id];
      if Conflicts(expected, w.version) {
        return Err(VersionConflict(expected.value, w.version));
      }
      if w.session !in snapshot.sessions {
        return Err(SessionNotFound(w.session));
      }
      var s := snapshot.sessions[w.session];
      if id !in s.windows {
        return Err(WindowNotFound(id));
      }
      var previous := if s.active != id then Some(s.active) else None;
      var g := snapshot.(version := snapshot.version + 1);
      g := g.(sessions := g.sessions[w.session := s.(active := id, version := s.version + 1)]);
      CommitSnapshot(g, [], supply);
      r := Ok(previous);
    }

    method ReorderWindow(id: WindowId, index: nat, expected: Option<nat>) returns (r: Result<(), GraphError>)
      requires Valid()
      modifies this
      ensures Valid()
      ensures (Value(), r) == Finish(old(Value()), Ops.ReorderWindow(old(snapshot), old(supply), id, index, expected))
    {
      hide Good, WalksAll;
      PlanKeeps(env, Value(), Ops.ReorderWindow(snapshot, supply, id, index, expected),
                Runs.ReorderWindow(id, index, expected));
      if id !in snapshot.windows {
        return Err(WindowNotFound(id));
      }
      var w := snapshot.windows[id];
      if Conflicts(expected, w.version) {
        return Err(VersionConflict(expected.value, w.version));
      }
      if w.session !in snapshot.sessions {
        return Err(SessionNotFound(w.session));
      }
      var s := snapshot.sessions[w.session];
      if index >= |s.windows| {
        return Err(WindowIndexOutOfRange(index, |s.windows|));
      }
      var g := snapshot.(version := snapshot.version + 1);
      if id in s.windows {
        var left := Ops.RemoveFirst(s.windows, id);
        s := s.(windows := left[..index] + [id] + left[index..], version := s.version + 1);
        g := g.(sessions := g.sessions[w.session := s]);
      }
      CommitSnapshot(g, [], supply);
      r := Ok(());
    }

    method CreatePane(window: WindowId, cwd: string, command: seq<string>) returns (r: Result<PaneId, GraphError>)
      requires Valid()
      modifies this
      ensures Valid()
      ensures (Value(), r)
              == Finish(old(Value()), Ops.CreatePane(env, old(snapshot), old(supply), window, cwd, command))
    {
      hide Good, WalksAll;
      PlanKeeps(env, Value(), Ops.CreatePane(env, snapshot, supply, window, cwd, command),
                Runs.CreatePane(window, cwd, command));
      SideMapsOf(env, Value());
      if window !in snapshot.windows {
        return Err(WindowNotFound(window));
      }
      var session := snapshot.windows[window].session;
      var full := CheckCapacity(env, snapshot, supply, session, command, cwd);
      if full.Some? {
        return Err(full.value);
      }
      var pane := supply;
      var g := snapshot.(version := snapshot.version + 1);
      g := g.(panes := g.panes[pane := NewPane(env, window, cwd, command)]);
      CommitSnapshot(g, [PaneCreated(pane, window, session, command)], supply + 1);
      r := Ok(pane);
    }

    method SplitPane(target: PaneId, dir: Direction, ratio: real, command: seq<string>)
      returns (r: Result<PaneId, GraphError>)
      requires Valid()
      modifies this
      ensures Valid()
      ensures (Value(), r)
              == Finish(old(Value()), Ops.SplitPane(env, old(snapshot), old(supply), target, dir, ratio, command))
    {
      hide Good, WalksAll, CapacityError, Layout.SplitPane;
      PlanKeeps(env, Value(), Ops.SplitPane(env, snapshot, supply, target, dir, ratio, command),
                Runs.SplitPane(target, dir, ratio, command));
      SideMapsOf(env, Value());
      if target !in snapshot.panes {
        return Err(PaneNotFound(target));
      }
      var (window, cwd) := (snapshot.panes[target].window, snapshot.panes[target].cwd);
      if window !in snapshot.windows {
        return Err(WindowNotFound(window));
      }
      var w := snapshot.windows[window];
      var full := CheckCapacity(env, snapshot, supply, w.session, command, cwd);
      if full.Some? {
        return Err(full.value);
      }
      var pane := supply;
      var layout := new WindowLayout.Resume(w.layout);
      var ok := layout.Split(target, pane, dir, ratio);
      if !ok {
        return Err(LayoutError);
      }
      var g := snapshot.(version := snapshot.version + 1);
      g := g.(windows := g.windows[window := w.(layout := layout.Value(), active := pane, version := w.version + 1)]);
      g := g.(panes := g.panes[pane := NewPane(env, window, cwd, command)]);
      CommitSnapshot(g, Ops.Unzoomed(w.layout, window, w.session) + [PaneCreated(pane, window, w.session, command)],
                     supply + 1);
      r := Ok(pane);
    }

    method DestroyPane(id: PaneId, expected: Option<nat>) returns (r: Result<(), GraphError>)
      requires Valid()
      modifies this
      ensures Valid()
      ensures (Value(), r) == Finish(old(Value()), Ops.DestroyPane(old(snapshot), old(supply), id, expected))
    {
      hide Good, WalksAll, Layout.RemovePane;
      PlanKeeps(env, Value(), Ops.DestroyPane(snapshot, supply, id, expected), Runs.DestroyPane(id, expected));
      if id !in snapshot.panes {
        return Err(PaneNotFound(id));
      }
      var p := snapshot.panes[id];
      if Conflicts(expected, p.version) {
        return Err(VersionConflict(expected.value, p.version));
      }
      if |WindowPanes(snapshot, p.window)| <= 1 {
        return Err(LastPane);
      }
      if p.window !in snapshot.windows {
        return Err(WindowNotFound(p.window));
      }
      var w := snapshot.windows[p.window];
      var layout := new WindowLayout.Resume(w.layout);
      var _ := layout.Remove(id);
      var active := if w.active == id then PaneIds(layout.tree)[0] else w.active;
      var g := snapshot.(version := snapshot.version + 1, panes := snapshot.panes - {id});
      g := g.(windows := g.windows[p.window := w.(layout := layout.Value(), active := active,
                                                  version := w.version + 1)]);
      CommitSnapshot(g, Ops.Unzoomed(w.layout, p.window, w.session)
                        + [PaneExited(id, p.window, w.session, None, p.command)], supply);
      r := Ok(());
    }

    method DestroyPaneAndEmptyParents(id: PaneId) returns (r: Result<(), GraphError>)
      requires Valid()
      modifies this
      ensures Valid()
      ensures (Value(), r) == Finish(old(Value()), Ops.DestroyPaneAndEmptyParents(env, old(snapshot), old(supply), id))
    {
      hide Good, WalksAll, Commit, Ops.DropPane, Ops.DropWindow, Ops.DropSession, Ops.Exits, Ops.WindowKills,
           WindowPanes;
      r := DestroyPane(id, None);
      if r != Err(LastPane) {
        return;
      }
      var window := snapshot.panes[id].window;
      if window !in snapshot.windows {
        return Err(WindowNotFound(window));
      }
      var session := snapshot.windows[window].session;
      r := DestroyWindow(window, None);
      if r == Err(LastWindow) {
        r := DestroySession(session, None);
      }
    }

    /** A newer claim stands; an exited pane claimed again is running again. */
    method ClaimPanePty(id: PaneId, incarnation: nat) returns (r: Result<bool, GraphError>)
      requires Valid()
      modifies this
      ensures Valid()
      ensures (Value(), r) == Ops.ClaimPanePty(old(Value()), id, incarnation)
    {
      hide Good, WalksAll, KeepLive;
      CommandKeeps(env, Value(), Runs.ClaimPanePty(id, incarnation));
      if id !in snapshot.panes {
        return Err(PaneNotFound(id));
      }
      var p := snapshot.panes[id];
      if id in ptyOwners && ptyOwners[id] > incarnation {
        return Ok(false);
      }
      ptyOwners := ptyOwners[id := incarnation];
      if p.exit.None? {
        return Ok(true);
      }
      if p.window !in snapshot.windows {
        return Err(WindowNotFound(p.window));
      }
      var g := snapshot.(version := snapshot.version + 1);
      g := g.(panes := g.panes[id := p.(exit := None, version := p.version + 1)]);
      CommitSnapshot(g, [PaneRespawned(id, p.window, g.windows[p.window].session, p.command)], supply);
      r := Ok(true);
    }

    method SetPaneExit(id: PaneId, exit: ProgramExit) returns (r: Result<(), GraphError>)
      requires Valid()
      modifies this
      ensures Valid()
      ensures (Value(), r) == Finish(old(Value()), Ops.SetPaneExit(old(snapshot), old(supply), id, exit))
    {
      hide Good, WalksAll;
      PlanKeeps(env, Value(), Ops.SetPaneExit(snapshot, supply, id, exit), Runs.SetPaneExit(id, exit));
      if id !in snapshot.panes {
        return Err(PaneNotFound(id));
      }
      var p := snapshot.panes[id];
      if p.window !in snapshot.windows {
        return Err(WindowNotFound(p.window));
      }
      var g := snapshot.(version := snapshot.version + 1);
      g := g.(panes := g.panes[id := p.(exit := Some(exit), version := p.version + 1)]);
      CommitSnapshot(g, [PaneExited(id, p.window, g.windows[p.window].session, Some(exit), p.command)], supply);
      r := Ok(());
    }

    /** A newer publication advances the watermark even if it says nothing new; then only the commit is spared. */
    method SetProgramStatus(id: PaneId, u: Ops.StatusUpdate) returns (r: Result<(), GraphError>)
      requires Valid()
      modifies this
      ensures Valid()
      ensures (Value(), r) == Ops.SetProgramStatus(old(Value()), id, u)
    {
      hide Good, WalksAll, KeepLive;
      CommandKeeps(env, Value(), Runs.SetProgramStatus(id, u));
      if id !in snapshot.panes {
        return Err(PaneNotFound(id));
      }
      var p := snapshot.panes[id];
      if p.exit.Some? {
        return Ok(());
      }
      if p.window !in snapshot.windows {
        return Err(WindowNotFound(p.window));
      }
      if id !in statusGenerations {
        statusGenerations := statusGenerations[id := 0];
      }
      assert statusGenerations == old(statusGenerations)[id := statusGenerations[id]];
      if u.generation <= statusGenerations[id] {
        return Ok(());
      }
      statusGenerations := statusGenerations[id := u.generation];
      assert statusGenerations == old(statusGenerations)[id := u.generation];
      if p.status == u.summary && p.seen == u.seen && p.enabled == u.enabled {
        return Ok(());
      }
      var g := snapshot.(version := snapshot.version + 1);
      var p' := p.(status := u.summary, seen := u.seen, enabled := u.enabled);
      g := g.(panes := g.panes[id := p'.(version := p'.version + 1)]);
      CommitSnapshot(g, [PaneStatusChanged(id, p.window, g.windows[p.window].session, p.status, u.summary, u.seen,
                                           u.enabled)],
                     supply);
      r := Ok(());
    }

    method SetExitOwned(id: PaneId, exit: ProgramExit, incarnation: nat, last: Option<Ops.StatusUpdate>)
      returns (r: Result<(), GraphError>)
      requires Valid()
      modifies this
      ensures Valid()
      ensures (Value(), r) == Ops.SetExitOwned(old(Value()), id, exit, incarnation, last)
    {
      hide Good, WalksAll, Ops.SetProgramStatus, Ops.SetPaneExit, Commit;
      if id !in ptyOwners || ptyOwners[id] != incarnation {
        return Ok(());
      }
      if last.Some? {
        var status := SetProgramStatus(id, last.value);
        if status.Err? {
          return status;
        }
      }
      r := SetPaneExit(id, exit);
    }

    /** A pane that is out of sight behind another's zoom is brought back into sight. */
    method FocusPane(id: PaneId) returns (r: Result<Option<PaneId>, GraphError>)
      requires Valid()
      modifies this
      ensures Valid()
      ensures (Value(), r) == Finish(old(Value()), Ops.FocusPane(old(snapshot), old(supply), id))
    {
      hide Good, WalksAll, BumpPanes, PaneIds, PaneCount;
      PlanKeeps(env, Value(), Ops.FocusPane(snapshot, supply, id), Runs.FocusPane(id));
      if id !in snapshot.panes {
        return Err(PaneNotFound(id));
      }
      var window := snapshot.panes[id].window;
      if window !in snapshot.windows {
        return Err(WindowNotFound(window));
      }
      var w := snapshot.windows[window];
      var previous := if w.active != id then Some(w.active) else None;
      var (layout, panes, events) := (w.layout, snapshot.panes, []);
      if w.layout.zoom.Some? && w.layout.zoom.value.pane != id {
        var zoomed := w.layout.zoom.value.pane;
        var shown := new WindowLayout.Resume(w.layout);
        shown.Toggle(zoomed);
        layout := shown.Value();
        WalkLists(env, snapshot);
        panes := BumpEach(panes, env.walk(snapshot), window);
        events := [PaneZoomed(zoomed, window, w.session, false)];
      }
      var g := snapshot.(version := snapshot.version + 1, panes := panes);
      g := g.(windows := g.windows[window := w.(layout := layout, active := id, version := w.version + 1)]);
      CommitSnapshot(g, events + [PaneFocused(id, window, w.session, previous)], supply);
      r := Ok(previous);
    }

    /** Commit a window's new layout and focus, with every pane of the window moved on. */
    method CommitLayout(id: WindowId, w: Window, events: seq<Event>)
      requires WalksAll(env)
      modifies this
      ensures Value() == Commit(old(Value()), Change(Ops.PutWindow(old(snapshot), id, w, true), events, old(supply)))
    {
      hide BumpPanes;
      WalkLists(env, snapshot);
      var panes := BumpEach(snapshot.panes, env.walk(snapshot), id);
      var g := snapshot.(version := snapshot.version + 1, panes := panes);
      g := g.(windows := g.windows[id := w.(version := w.version + 1)]);
      CommitSnapshot(g, events, supply);
    }

    method ResizePane(id: PaneId, dir: Direction, delta: real, expected: Option<nat>)
      returns (r: Result<(), GraphError>)
      requires Valid()
      modifies this
      ensures Valid()
      ensures (Value(), r) == Finish(old(Value()), Ops.ResizePane(old(snapshot), old(supply), id, dir, delta, expected))
    {
      hide Good, WalksAll, Layout.ResizePane, Commit, Ops.PutWindow;
      PlanKeeps(env, Value(), Ops.ResizePane(snapshot, supply, id, dir, delta, expected),
                Runs.ResizePane(id, dir, delta, expected));
      var error := Ops.PaneError(snapshot, id, expected);
      if error.Some? {
        return Err(error.value);
      }
      var window := snapshot.panes[id].window;
      var w := snapshot.windows[window];
      var tree := Layout.ResizePane(BaseTree(w.layout), id, dir, delta);
      if tree.Some? {
        CommitLayout(window, w.(layout := LayoutState(tree.value, None)), Ops.Unzoomed(w.layout, window, w.session));
      }
      r := Ok(());
    }

    method ZoomPane(id: PaneId, expected: Option<nat>) returns (r: Result<bool, GraphError>)
      requires Valid()
      modifies this
      ensures Valid()
      ensures (Value(), r) == Finish(old(Value()), Ops.ZoomPane(old(snapshot), old(supply), id, expected))
    {
      hide Good, WalksAll, Commit, Ops.PutWindow, PaneIds, PaneCount;
      PlanKeeps(env, Value(), Ops.ZoomPane(snapshot, supply, id, expected), Runs.ZoomPane(id, expected));
      var error := Ops.PaneError(snapshot, id, expected);
      if error.Some? {
        return Err(error.value);
      }
      var window := snapshot.panes[id].window;
      var w := snapshot.windows[window];
      var shown := new WindowLayout.Resume(w.layout);
      shown.Toggle(id);
      var layout := shown.Value();
      var zoomed := layout.zoom.Some?;
      if ZoomedPane(w.layout) == ZoomedPane(layout) {
        return Ok(zoomed);
      }
      var refocus := zoomed && w.active != id;
      var active := if refocus then id else w.active;
      var events := Ops.Unzoomed(w.layout, window, w.session) + Ops.Zoomed(layout, window, w.session);
      CommitLayout(window, w.(layout := layout, active := active),
                   events + if refocus then [PaneFocused(id, window, w.session, Some(w.active))] else []);
      r := Ok(zoomed);
    }

    method SwapPanes(a: PaneId, b: PaneId, expected: Option<nat>) returns (r: Result<(), GraphError>)
      requires Valid()
      modifies this
      ensures Valid()
      ensures (Value(), r) == Finish(old(Value()), Ops.SwapPanes(old(snapshot), old(supply), a, b, expected))
    {
      hide Good, WalksAll, Layout.SwapPanes, Commit, Ops.PutWindow;
      PlanKeeps(env, Value(), Ops.SwapPanes(snapshot, supply, a, b, expected), Runs.SwapPanes(a, b, expected));
      if a == b {
        return Err(PaneSwapSelf);
      }
      if a !in snapshot.panes {
        return Err(PaneNotFound(a));
      }
      if b !in snapshot.panes {
        return Err(PaneNotFound(b));
      }
      var window := snapshot.panes[a].window;
      if window != snapshot.panes[b].window {
        return Err(PaneCrossWindow);
      }
      if Conflicts(expected, snapshot.panes[a].version) {
        return Err(VersionConflict(expected.value, snapshot.panes[a].version));
      }
      if window !in snapshot.windows {
        return Err(WindowNotFound(window));
      }
      var w := snapshot.windows[window];
      var tree := Layout.SwapPanes(BaseTree(w.layout), a, b);
      if tree.None? {
        return Err(LayoutError);
      }
      CommitLayout(window, w.(layout := LayoutState(tree.value, None)), Ops.Unzoomed(w.layout, window, w.session));
      r := Ok(());
    }

    method SetSessionTag(id: SessionId, key: string, value: string) returns (r: Result<(), GraphError>)
      requires Valid()
      modifies this
      ensures Valid()
      ensures (Value(), r) == Finish(old(Value()), Ops.SetSessionTag(old(snapshot), old(supply), id, key, value))
    {
      hide Good, WalksAll;
      PlanKeeps(env, Value(), Ops.SetSessionTag(snapshot, supply, id, key, value), Runs.SetSessionTag(id, key, value));
      if id !in snapshot.sessions {
        return Err(SessionNotFound(id));
      }
      var s := snapshot.sessions[id];
      s := s.(tags := s.tags[key := value], version := s.version + 1);
      var g := snapshot.(version := snapshot.version + 1);
      g := g.(sessions := g.sessions[id := s]);
      CommitSnapshot(g, [], supply);
      r := Ok(());
    }

    method SetSessionTheme(id: SessionId, theme: Option<string>) returns (r: Result<(), GraphError>)
      requires Valid()
      modifies this
      ensures Valid()
      ensures (Value(), r) == Finish(old(Value()), Ops.SetSessionTheme(old(snapshot), old(supply), id, theme))
    {
      hide Good, WalksAll;
      PlanKeeps(env, Value(), Ops.SetSessionTheme(snapshot, supply, id, theme), Runs.SetSessionTheme(id, theme));
      if id !in snapshot.sessions {
        return Err(SessionNotFound(id));
      }
      var s := snapshot.sessions[id];
      s := s.(theme := theme, version := s.version + 1);
      var g := snapshot.(version := snapshot.version + 1);
      g := g.(sessions := g.sessions[id := s]);
      CommitSnapshot(g, [], supply);
      r := Ok(());
    }

    method SetPaneTag(id: PaneId, key: string, value: string) returns (r: Result<(), GraphError>)
      requires Valid()
      modifies this
      ensures Valid()
      ensures (Value(), r) == Finish(old(Value()), Ops.SetPaneTag(old(snapshot), old(supply), id, key, value))
    {
      hide Good, WalksAll;
      PlanKeeps(env, Value(), Ops.SetPaneTag(snapshot, supply, id, key, value), Runs.SetPaneTag(id, key, value));
      if id !in snapshot.panes {
        return Err(PaneNotFound(id));
      }
      var p := snapshot.panes[id];
      p := p.(tags := p.tags[key := value], version := p.version + 1);
      var g := snapshot.(version := snapshot.version + 1);
      g := g.(panes := g.panes[id := p]);
      CommitSnapshot(g, [], supply);
      r := Ok(());
    }

    method SetPaneTheme(id: PaneId, theme: Option<string>) returns (r: Result<(), GraphError>)
      requires Valid()
      modifies this
      ensures Valid()
      ensures (Value(), r) == Finish(old(Value()), Ops.SetPaneTheme(old(snapshot), old(supply), id, theme))
    {
      hide Good, WalksAll;
      PlanKeeps(env, Value(), Ops.SetPaneTheme(snapshot, supply, id, theme), Runs.SetPaneTheme(id, theme));
      if id !in snapshot.panes {
        return Err(PaneNotFound(id));
      }
      var p := snapshot.panes[id];
      p := p.(theme := theme, version := p.version + 1);
      var g := snapshot.(version := snapshot.version + 1);
      g := g.(panes := g.panes[id := p]);
      CommitSnapshot(g, [], supply);
      r := Ok(());
    }

    /** Only a change of the displayed title is published. */
    method SetPaneTitle(id: PaneId, title: Option<string>, auto: Option<bool>) returns (r: Result<(), GraphError>)
      requires Valid()
      modifies this
      ensures Valid()
      ensures (Value(), r) == Finish(old(Value()), Ops.SetPaneTitle(env, old(snapshot), old(supply), id, title, auto))
    {
      hide Good, WalksAll, SanitizeClamped, Retitle;
      PlanKeeps(env, Value(), Ops.SetPaneTitle(env, snapshot, supply, id, title, auto),
                Runs.SetPaneTitle(id, title, auto));
      if id !in snapshot.panes {
        return Err(PaneNotFound(id));
      }
      var was := snapshot.panes[id];
      if was.window !in snapshot.windows {
        return Err(WindowNotFound(was.window));
      }
      var p := was;
      if auto.Some? && auto.value != p.auto {
        p := Retitle(env, p.(auto := auto.value));
      }
      p := p.(manual := if title.None? then None else Some(SanitizeClamped(title.value)));
      p := Retitle(env, p);
      CommitTitle(id, was, p);
      r := Ok(());
    }

    /** The fast path leaves a repeated title that is not shown without a commit. */
    method SetPaneOscTitle(id: PaneId, title: string) returns (r: Result<(), GraphError>)
      requires Valid()
      modifies this
      ensures Valid()
      ensures (Value(), r) == Finish(old(Value()), Ops.SetPaneOscTitle(env, old(snapshot), old(supply), id, title))
    {
      hide Good, WalksAll, SanitizeClamped, Retitle;
      PlanKeeps(env, Value(), Ops.SetPaneOscTitle(env, snapshot, supply, id, title), Runs.SetPaneOscTitle(id, title));
      if id !in snapshot.panes {
        return Err(PaneNotFound(id));
      }
      var was := snapshot.panes[id];
      if was.window !in snapshot.windows {
        return Err(WindowNotFound(was.window));
      }
      if was.osc == Some(title) && (was.manual.Some? || !was.auto) {
        return Ok(());
      }
      var clean := SanitizeClamped(title);
      var osc := if clean == "" then None else Some(clean);
      var p := was;
      if p.osc != osc {
        p := Retitle(env, p.(osc := osc));
      }
      CommitTitle(id, was, p);
      r := Ok(());
    }

    method CommitTitle(id: PaneId, was: Pane, p: Pane)
      requires id in snapshot.panes && snapshot.panes[id] == was && was.window in snapshot.windows
      modifies this
      ensures Value() == Commit(old(Value()), Change(Ops.PutPane(old(snapshot), id, p),
                                                     Ops.Retitled(old(snapshot), id, p), old(supply)))
    {
      var g := snapshot.(version := snapshot.version + 1);
      g := g.(panes := g.panes[id := p.(version := p.version + 1)]);
      var events := [];
      if was.title != p.title {
        events := [PaneTitleChanged(id, was.window, g.windows[was.window].session, was.title, p.title)];
      }
      CommitSnapshot(g, events, supply);
    }

    method FocusPaneDirection(window: WindowId, dir: NavDirection, v: Rect)
      returns (r: Result<Option<PaneId>, GraphError>)
      requires Valid()
      modifies this
      ensures Valid()
      ensures (Value(), r) == Finish(old(Value()), Ops.FocusPaneDirection(old(snapshot), old(supply), window, dir, v))
    {
      hide Good, WalksAll, Commit, Ops.FocusPane, Neighbor;
      if window !in snapshot.windows {
        return Err(WindowNotFound(window));
      }
      var w := snapshot.windows[window];
      var target := DirectionalFocus(w.layout.tree, w.active, dir, v);
      if target.None? {
        return Ok(None);
      }
      var focused := FocusPane(target.value);
      r := if focused.Ok? then Ok(target) else Err(focused.error);
    }

    method ZoomPaneIfFocused(id: PaneId, focused: PaneId) returns (r: Result<bool, GraphError>)
      requires Valid()
      modifies this
      ensures Valid()
      ensures (Value(), r) == Finish(old(Value()), Ops.ZoomPaneIfFocused(old(snapshot), old(supply), id, focused))
    {
      hide Good, WalksAll, Commit, Ops.ZoomPane;
      if id !in snapshot.panes {
        return Err(PaneNotFound(id));
      }
      var window := snapshot.panes[id].window;
      if window !in snapshot.windows {
        return Err(WindowNotFound(window));
      }
      var w := snapshot.windows[window];
      if w.active != focused || w.layout.zoom.Some? || PaneCount(w.layout.tree) < 2 {
        return Ok(false);
      }
      r := ZoomPane(id, None);
    }

    /** Stage every operation on a copy; commit the copy once if all of them pass. */
    method ApplyBatch(ops: seq<Batch.Op>) returns (r: Result<seq<Batch.OpOutput>, Batch.BatchError>)
      requires Valid()
      modifies this
      ensures Valid()
      ensures (Value(), r) == Batch.ApplyBatch(env, old(Value()), ops)
    {
      hide Good, WalksAll, Batch.StageNext, Commit;
      CommandKeeps(env, Value(), Runs.ApplyBatch(ops));
      SideMapsOf(env, Value());
      if ops == [] {
        return Err(Batch.Empty);
      }
      var staged := Batch.Staged(Change(snapshot, [], supply), []);
      ghost var outcome := Batch.StageAll(env, staged, ops);
      for i := 0 to |ops|
        invariant Value() == old(Value())
        invariant Batch.StageAll(env, staged, ops[i..]) == outcome && BelowSupply(staged.change)
      {
        assert ops[i..][0] == ops[i] && ops[i..][1..] == ops[i + 1..];
        StagingStaysBelow(env, staged, ops[i]);
        var next := StageOne(env, staged, ops[i]);
        if next.Err? {
          return Err(next.error);
        }
        staged := next.value;
      }
      CommitSnapshot(staged.change.snap, staged.change.events, staged.change.supply);
      r := Ok(staged.outputs);
    }
  }
}
