/** A batch is all or nothing, and does what its operations would have done one by one. */
module GraphBatchLaws {
  import opened Wrappers
  import opened Layout
  import opened WindowLayouts
  import opened Titles
  import opened GraphModel
  import opened GraphBatch
  import opened GraphRuns
  import opened GraphSteps
  import Commands = GraphCommands
  import Ops = GraphOps

  // ----- All or nothing -----

  lemma {:induction false} StagingCounts(env: Env, b: Staged, ops: seq<Op>)
    requires StageAll(env, b, ops).Ok?
    ensures var b' := StageAll(env, b, ops).value;
            |b'.outputs| == |b.outputs| + |ops| && b'.change.snap.version == b.change.snap.version + |ops|
    decreases |ops|
  {
    hide StageNext;
    if ops != [] {
      StageTicks(env, b, ops[0]);
      StagingCounts(env, StageNext(env, b, ops[0]).value, ops[1..]);
    }
  }

  lemma StageTicks(env: Env, b: Staged, op: Op)
    ensures var r := StageNext(env, b, op); r.Ok? ==> r.value.change.snap.version == b.change.snap.version + 1
  {
    hide CapacityError, CheckWindowTitle, SplitIn, DefaultTitle;
    StagesCommit(env, b, op);
  }

  /** A failing batch changes and publishes nothing; a successful one has staged every operation. */
  lemma AllOrNothing(env: Env, s: State, ops: seq<Op>)
    ensures var (s', r) := GraphBatch.ApplyBatch(env, s, ops);
            if r.Err? then s' == s
            else |r.value| == |ops| > 0 && s'.snap.version == s.snap.version + |ops| && s.events <= s'.events
  {
    hide StageAll, KeepLive;
    if ops != [] && StageAll(env, Start(s), ops).Ok? {
      StagingCounts(env, Start(s), ops);
    }
  }

  // ----- Back-references -----

  function BackRef(op: Op): Option<nat> {
    match op
    case CreateSession(_, _, _, _) => None
    case CreateWindow(SessionOf(k), _, _, _) => Some(k)
    case CreateWindow(SessionById(_), _, _, _) => None
    case SplitPane(PaneOf(k), _, _, _, _) => Some(k)
    case SplitPane(PaneById(_), _, _, _, _) => None
  }

  /** Every operation makes, or works in, a session, a window and a pane. */
  predicate Complete(outputs: seq<OpOutput>) {
    forall i :: 0 <= i < |outputs| ==> outputs[i].session.Some? && outputs[i].window.Some? && outputs[i].pane.Some?
  }

  lemma StageResolves(env: Env, b: Staged, op: Op)
    requires Complete(b.outputs)
    ensures var r := StageNext(env, b, op);
            && (r.Ok? ==> Complete(r.value.outputs) && (BackRef(op).Some? ==> BackRef(op).value < |b.outputs|))
            && (r.Err? ==> !r.error.BackRefWrongType?)
            && (BackRef(op).Some? && BackRef(op).value >= |b.outputs| ==>
                  r == Err(BackRefOutOfRange(|b.outputs|, BackRef(op).value, |b.outputs|)))
  {
    hide CapacityError, CheckWindowTitle, SplitIn, DefaultTitle, Ops.AddSession, Ops.AddWindow, Ops.AddSplit,
         SessionName,
         WindowCwd;
    StagesCommit(env, b, op);
  }

  /** In a batch that succeeds every back-reference reaches an earlier operation; one that does not is why it fails. */
  lemma {:induction false} BackRefsReachBack(env: Env, b: Staged, ops: seq<Op>)
    requires Complete(b.outputs)
    ensures var r := StageAll(env, b, ops);
            && (r.Ok? ==> Complete(r.value.outputs)
                          && forall i :: 0 <= i < |ops| && BackRef(ops[i]).Some? ==>
                               BackRef(ops[i]).value < |b.outputs| + i)
            && (r.Err? ==> !r.error.BackRefWrongType?)
    decreases |ops|
  {
    hide StageNext, Complete, BackRef;
    if ops != [] {
      StageResolves(env, b, ops[0]);
      var next := StageNext(env, b, ops[0]);
      if next.Ok? {
        BackRefsReachBack(env, next.value, ops[1..]);
      }
    }
  }

  // ----- One by one -----

  /** No title of its own for a session's first window, and no directory of its own for a split. */
  predicate HasNoOverride(op: Op) {
    && (op.CreateSession? ==> op.title.None? || op.title == Some(""))
    && (op.SplitPane? ==> op.cwdOverride.None?)
  }

  /** What a caller can look up about the window and pane it was given. */
  function OutputOf(g: Snapshot, window: WindowId): OpOutput {
    if window in g.windows then OpOutput(Some(g.windows[window].session), Some(window), Some(g.windows[window].active))
    else OpOutput(None, None, None)
  }

  /** One operation by its own command, references and defaults resolved by the caller; what it made is looked up. */
  function Directly(env: Env, s: State, op: Op, outputs: seq<OpOutput>): Option<(State, OpOutput)> {
    var (g, n) := (s.snap, s.supply);
    match op
    case CreateSession(name, cwd, command, _) =>
      var (s', r) := Finish(s, Ops.CreateSession(env, g, n, SessionName(g, name), cwd, command));
      if r.Ok? && r.value in s'.snap.sessions
      then Some((s', OutputOf(s'.snap, s'.snap.sessions[r.value].active))) else None
    case CreateWindow(session, title, cwd, command) =>
      var id := ResolveSession(session, outputs);
      if id.Err? then None else
      var (s', r) := Finish(s, Ops.CreateWindow(env, g, n, id.value, title, WindowCwd(env, g, id.value, cwd), command));
      if r.Ok? then Some((s', OutputOf(s'.snap, r.value))) else None
    case SplitPane(target, dir, ratio, command, _) =>
      var id := ResolvePane(target, outputs);
      if id.Err? then None else
      var (s', r) := Finish(s, Ops.SplitPane(env, g, n, id.value, dir, ratio, command));
      if r.Ok? && r.value in s'.snap.panes then Some((s', OutputOf(s'.snap, s'.snap.panes[r.value].window))) else None
  }

  function OneByOne(env: Env, s: State, ops: seq<Op>, outputs: seq<OpOutput>): Option<(State, seq<OpOutput>)>
    decreases |ops|
  {
    if ops == [] then Some((s, outputs)) else
    match Directly(env, s, ops[0], outputs)
    case None => None
    case Some((s', output)) => OneByOne(env, s', ops[1..], outputs + [output])
  }

  lemma SessionsStageAlike(env: Env, g: Snapshot, n: nat, name: string, cwd: string, command: seq<string>,
                           title: Option<string>)
    requires title.None? || title == Some("")
    ensures var (o, o') := (StageCreateSession(env, g, n, name, cwd, command, title),
                            Ops.CreateSession(env, g, n, name, cwd, command));
            && o.Changed? == o'.Changed? && !o'.Unchanged?
            && (o.Changed? ==>
                  && o.change == o'.change && o'.reply in o.change.snap.sessions
                  && o.reply == OutputOf(o.change.snap, o.change.snap.sessions[o'.reply].active))
  {
    hide CapacityError, CheckWindowTitle, NameTaken, SessionNameError, DefaultTitle, Sanitize;
  }

  lemma WindowsStageAlike(env: Env, g: Snapshot, n: nat, session: SessionId, title: string, cwd: string,
                          command: seq<string>)
    ensures var (o, o') := (StageCreateWindow(env, g, n, session, title, cwd, command),
                            Ops.CreateWindow(env, g, n, session, title, cwd, command));
            && o.Changed? == o'.Changed? && !o'.Unchanged?
            && (o.Changed? ==> o.change == o'.change && o.reply == OutputOf(o.change.snap, o'.reply))
  {
    hide CapacityError, CheckWindowTitle, TitleTaken, Sanitize;
  }

  lemma SplitsStageAlike(env: Env, g: Snapshot, n: nat, target: PaneId, dir: Direction, ratio: real,
                         command: seq<string>)
    ensures var (o, o') := (StageSplitPane(env, g, n, target, dir, ratio, command, None),
                            Ops.SplitPane(env, g, n, target, dir, ratio, command));
            && o.Changed? == o'.Changed? && !o'.Unchanged?
            && (o.Changed? ==>
                  && o.change == o'.change && o'.reply in o.change.snap.panes
                  && o.reply == OutputOf(o.change.snap, o.change.snap.panes[o'.reply].window))
  {
    hide CapacityError, SplitIn;
  }

  /** Committing one staged operation's change is moving to the next staged state. */
  lemma StagedCommit(s: State, b: Staged, c: Change, output: OpOutput)
    requires SideMapsLive(StateOf(s, b)) && b.change.snap.panes.Keys <= c.snap.panes.Keys
    ensures Commit(StateOf(s, b), c)
            == StateOf(s, Staged(Change(c.snap, b.change.events + c.events, c.supply), b.outputs + [output]))
  {
    hide KeepLive;
    KeepLiveAll(s.owners, c.snap.panes);
    KeepLiveAll(s.generations, c.snap.panes);
    assert s.events + b.change.events + c.events == s.events + (b.change.events + c.events);
  }

  lemma StagesOneDirectly(env: Env, s: State, b: Staged, op: Op)
    requires SideMapsLive(StateOf(s, b)) && HasNoOverride(op)
    ensures var (r, d) := (StageNext(env, b, op), Directly(env, StateOf(s, b), op, b.outputs));
            && r.Ok? == d.Some?
            && (r.Ok? ==> d.value.0 == StateOf(s, r.value) && r.value.outputs == b.outputs + [d.value.1]
                          && SideMapsLive(StateOf(s, r.value)))
  {
    hide StageCreateSession, StageCreateWindow, StageSplitPane, Ops.CreateSession, Ops.CreateWindow, Ops.SplitPane,
         SessionName, WindowCwd, Commit, OutputOf;
    StagingKeepsPanes(env, b, op);
    StagesCommit(env, b, op);
    var (g, n) := (b.change.snap, b.change.supply);
    match op {
      case CreateSession(name, cwd, command, title) =>
        SessionsStageAlike(env, g, n, SessionName(g, name), cwd, command, title);
      case CreateWindow(session, title, cwd, command) =>
        var id := ResolveSession(session, b.outputs);
        if id.Ok? {
          WindowsStageAlike(env, g, n, id.value, title, WindowCwd(env, g, id.value, cwd), command);
        }
      case SplitPane(target, dir, ratio, command, _) =>
        var id := ResolvePane(target, b.outputs);
        if id.Ok? {
          SplitsStageAlike(env, g, n, id.value, dir, ratio, command);
        }
    }
    var o := StageOp(env, b, op);
    if o.Ok? && o.value.Changed? {
      StagedCommit(s, b, o.value.change, o.value.reply);
      CommitSnap(StateOf(s, b), o.value.change);
    }
  }

  lemma CommitSnap(s: State, c: Change)
    ensures Commit(s, c).snap == c.snap
  {
  }

  lemma {:induction false} StagesDirectly(env: Env, s: State, b: Staged, ops: seq<Op>)
    requires SideMapsLive(StateOf(s, b)) && forall i :: 0 <= i < |ops| ==> HasNoOverride(ops[i])
    ensures var (r, d) := (StageAll(env, b, ops), OneByOne(env, StateOf(s, b), ops, b.outputs));
            r.Ok? == d.Some? && (r.Ok? ==> d.value == (StateOf(s, r.value), r.value.outputs))
    decreases |ops|
  {
    hide StageNext, Directly, StateOf, SideMapsLive, HasNoOverride;
    if ops != [] {
      StagesOneDirectly(env, s, b, ops[0]);
      var r := StageNext(env, b, ops[0]);
      if r.Ok? {
        StagesDirectly(env, s, r.value, ops[1..]);
      }
    }
  }

  /**
   A batch without overrides succeeds exactly when its operations succeed one by one, with the same ids, and then
   leaves the same graph, the same side maps and the same events in the same order.
   */
  lemma BatchIsOneByOne(env: Env, s: State, ops: seq<Op>)
    requires SideMapsLive(s) && ops != [] && forall i :: 0 <= i < |ops| ==> HasNoOverride(ops[i])
    ensures var (s', r) := GraphBatch.ApplyBatch(env, s, ops);
            OneByOne(env, s, ops, []) == if r.Ok? then Some((s', r.value)) else None
  {
    hide StageAll, OneByOne, KeepLive, HasNoOverride;
    assert StateOf(s, Start(s)) == s;
    StagesDirectly(env, s, Start(s), ops);
    var r := StageAll(env, Start(s), ops);
    if r.Ok? {
      StagingKeepsAllPanes(env, Start(s), ops);
      KeepLiveAll(s.owners, r.value.change.snap.panes);
      KeepLiveAll(s.generations, r.value.change.snap.panes);
    }
  }

  lemma {:induction false} StagingKeepsAllPanes(env: Env, b: Staged, ops: seq<Op>)
    requires StageAll(env, b, ops).Ok?
    ensures b.change.snap.panes.Keys <= StageAll(env, b, ops).value.change.snap.panes.Keys
    decreases |ops|
  {
    hide StageNext;
    if ops != [] {
      StagingKeepsPanes(env, b, ops[0]);
      StagingKeepsAllPanes(env, StageNext(env, b, ops[0]).value, ops[1..]);
    }
  }

  // ----- Overrides and defaults -----

  /**
   A staged session has the name, directory and command asked for; its first window has the title asked for, sanitized,
   or the default one where none or an empty one is given.
   */
  lemma StagedSessionIsAsAsked(env: Env, g: Snapshot, n: nat, name: string, cwd: string, command: seq<string>,
                               title: Option<string>)
    requires n !in g.panes && n + 1 !in g.windows && n + 2 !in g.sessions
    ensures var o := StageCreateSession(env, g, n, name, cwd, command, title);
            o.Changed? ==>
              var g' := o.change.snap;
              && o.reply == OpOutput(Some(n + 2), Some(n + 1), Some(n))
              && Commands.MadeSession(g, g', n + 2, name, cwd, command)
              && n + 1 in g'.windows && g'.windows[n + 1].active == n && g'.windows[n + 1].session == n + 2
              && (title.Some? && title.value != "" ==> g'.windows[n + 1].title == Sanitize(title.value))
              && (title.None? || title.value == "" ==> g'.windows[n + 1].title == DefaultTitle(env, command, cwd))
  {
    hide CapacityError, NameTaken, SessionNameError, DefaultTitle, Ops.AddSession, Commands.MadeSession,
         CheckWindowTitle, Sanitize, IsWindowTitle;
    DefaultTitleIsTitle(env, command, cwd);
    var chosen := if title.Some? && title.value != "" then Sanitize(title.value) else DefaultTitle(env, command, cwd);
    Commands.AddSessionMakes(env, g, n, name, chosen, cwd, command);
    if title.Some? {
      CleanTwice(title.value);
    }
    CleanDefault(DefaultTitle(env, command, cwd));
    FirstWindowOf(env, g, n, name, chosen, cwd, command);
  }

  lemma CleanTwice(raw: string)
    ensures Sanitize(Sanitize(raw)) == Sanitize(raw)
  {
    SanitizeIsClean(raw);
  }

  lemma CleanDefault(title: string)
    requires IsWindowTitle(title)
    ensures Sanitize(title) == title
  {
    SanitizeIsClean(title);
  }

  lemma FirstWindowOf(env: Env, g: Snapshot, n: nat, name: string, title: string, cwd: string, command: seq<string>)
    ensures var g' := Ops.AddSession(env, g, n + 2, n + 1, n, name, title, cwd, command);
            && n + 1 in g'.windows && g'.windows[n + 1].active == n && g'.windows[n + 1].session == n + 2
            && g'.windows[n + 1].title == Sanitize(title)
  {
    hide Sanitize;
  }

  /** A staged split's pane runs the command in the directory given, or in the target's where none is. */
  lemma StagedSplitIsAsAsked(env: Env, g: Snapshot, n: nat, target: PaneId, dir: Direction, ratio: real,
                             command: seq<string>, cwd: Option<string>)
    requires n !in g.panes
    ensures var o := StageSplitPane(env, g, n, target, dir, ratio, command, cwd);
            o.Changed? ==>
              var g' := o.change.snap;
              && target in g.panes
              && var w := g.panes[target].window;
              && w in g.windows && o.reply == OpOutput(Some(g.windows[w].session), Some(w), Some(n))
              && Commands.MadePane(g, g', n, w, if cwd.Some? then cwd.value else g.panes[target].cwd, command)
              && w in g'.windows && g'.windows[w].active == n
              && g'.windows[w].layout == SplitIn(g.windows[w].layout, target, n, dir, ratio).0
  {
    hide CapacityError, SplitIn;
  }

  /** A window with no directory of its own starts where some pane of its session is, or in `.` if it has none. */
  lemma {:induction false} InheritedCwdIsAPanes(g: Snapshot, order: seq<PaneId>, session: SessionId)
    ensures var cwd := InheritedCwd(g, order, session);
            if exists p :: p in order && InSession(g, p, session)
            then exists p :: p in order && InSession(g, p, session) && g.panes[p].cwd == cwd
            else cwd == "."
  {
    hide InSession;
    if order != [] {
      assert forall p :: p in order <==> p == order[0] || p in order[1..];
      if InSession(g, order[0], session) {
        assert order[0] in order;
      } else {
        InheritedCwdIsAPanes(g, order[1..], session);
      }
    }
  }

  lemma WindowCwdIsAPanes(env: Env, g: Snapshot, session: SessionId, cwd: Option<string>)
    requires WalksAll(env)
    ensures cwd.Some? ==> WindowCwd(env, g, session, cwd) == cwd.value
    ensures cwd.None? && SessionPanes(g, session) != {} ==>
              exists p :: p in SessionPanes(g, session) && g.panes[p].cwd == WindowCwd(env, g, session, cwd)
    ensures cwd.None? && SessionPanes(g, session) == {} ==> WindowCwd(env, g, session, cwd) == "."
  {
    assert Lists(env.walk(g), g.panes.Keys);
    hide WalksAll, InheritedCwd;
    InheritedCwdIsAPanes(g, env.walk(g), session);
    assert forall p :: InSession(g, p, session) <==> p in SessionPanes(g, session);
    if SessionPanes(g, session) != {} {
      var p :| p in SessionPanes(g, session);
      assert p in env.walk(g) && InSession(g, p, session);
    }
  }
}
