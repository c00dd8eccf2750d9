/**
 Atomic batches: operations staged one after another on a copy of the
 snapshot, committed once if all of them pass.
 */
module GraphBatch {
  import opened Wrappers
  import opened Layout
  import opened WindowLayouts
  import opened GraphModel
  import Ops = GraphOps

  datatype SessionRef = SessionById(id: SessionId) | SessionOf(op: nat)

  datatype PaneRef = PaneById(id: PaneId) | PaneOf(op: nat)

  datatype Op =
    | CreateSession(name: Option<string>, cwd: string, command: seq<string>, title: Option<string>)
    | CreateWindow(session: SessionRef, windowTitle: string, cwdOverride: Option<string>, command: seq<string>)
    | SplitPane(target: PaneRef, dir: Direction, ratio: real, command: seq<string>, cwdOverride: Option<string>)

  /** What an operation made; its index is its position. */
  datatype OpOutput = OpOutput(session: Option<SessionId>, window: Option<WindowId>, pane: Option<PaneId>)

  datatype BatchError =
    | Empty
    | BackRefOutOfRange(op: nat, ref: nat, prior: nat)
    | BackRefWrongType(op: nat, ref: nat)
    | OpFailed(op: nat, source: GraphError)

  // ----- Names for sessions that ask for none -----

  function Digit(d: nat): char
    requires d < 10
  {
    '0' + d as char
  }

  function Decimal(n: nat): (s: string)
    ensures |s| >= 1 && (|s| == 1 <==> n < 10)
  {
    if n < 10 then [Digit(n)] else Decimal(n / 10) + [Digit(n % 10)]
  }

  lemma {:induction false} DecimalInjective(m: nat, n: nat)
    requires Decimal(m) == Decimal(n)
    ensures m == n
    decreases m
  {
    var s := Decimal(m);
    assert s[|s| - 1] == Digit(m % 10) == Digit(n % 10);
    if m >= 10 {
      assert s[..|s| - 1] == Decimal(m / 10) == Decimal(n / 10);
      DecimalInjective(m / 10, n / 10);
    }
  }

  function Candidate(i: nat): string {
    "session-" + Decimal(i)
  }

  lemma CandidateInjective(i: nat, j: nat)
    requires Candidate(i) == Candidate(j)
    ensures i == j
  {
    assert Decimal(i) == Candidate(i)[8..];
    assert Decimal(j) == Candidate(j)[8..];
    DecimalInjective(i, j);
  }

  ghost predicate CandidateFrom(name: string, i: nat) {
    exists j :: j >= i && name == Candidate(j)
  }

  /** The sessions whose names the scan may still run into. */
  ghost function Blocking(g: Snapshot, i: nat): set<SessionId> {
    set s | s in g.sessions && CandidateFrom(g.sessions[s].name, i)
  }

  lemma ScanAdvances(g: Snapshot, i: nat)
    requires NameTaken(g, Candidate(i))
    ensures |Blocking(g, i + 1)| < |Blocking(g, i)|
  {
    var s :| s in g.sessions && g.sessions[s].name == Candidate(i);
    if CandidateFrom(Candidate(i), i + 1) {
      var j :| j >= i + 1 && Candidate(i) == Candidate(j);
      CandidateInjective(i, j);
    }
    assert s in Blocking(g, i) && s !in Blocking(g, i + 1);
    Smaller(Blocking(g, i + 1), Blocking(g, i), s);
  }

  lemma Smaller<T>(a: set<T>, b: set<T>, x: T)
    requires a <= b && x in b && x !in a
    ensures |a| < |b|
  {
    assert b == a + (b - a);
    assert x in b - a;
  }

  /** The first candidate at or after `i` that no session bears. */
  function FreeName(g: Snapshot, i: nat): (name: string)
    ensures !NameTaken(g, name)
    ensures exists k :: k >= i && name == Candidate(k) && forall j :: i <= j < k ==> NameTaken(g, Candidate(j))
    decreases |Blocking(g, i)|
  {
    if NameTaken(g, Candidate(i)) then ScanAdvances(g, i); FreeName(g, i + 1) else Candidate(i)
  }

  // ----- References -----

  function ResolveSession(r: SessionRef, outputs: seq<OpOutput>): Result<SessionId, BatchError> {
    match r
    case SessionById(id) => Ok(id)
    case SessionOf(op) =>
      if op >= |outputs| then Err(BackRefOutOfRange(|outputs|, op, |outputs|))
      else if outputs[op].session.None? then Err(BackRefWrongType(|outputs|, op))
      else Ok(outputs[op].session.value)
  }

  function ResolvePane(r: PaneRef, outputs: seq<OpOutput>): Result<PaneId, BatchError> {
    match r
    case PaneById(id) => Ok(id)
    case PaneOf(op) =>
      if op >= |outputs| then Err(BackRefOutOfRange(|outputs|, op, |outputs|))
      else if outputs[op].pane.None? then Err(BackRefWrongType(|outputs|, op))
      else Ok(outputs[op].pane.value)
  }

  // ----- Staging -----

  function StageCreateSession(env: Env, g: Snapshot, n: nat, name: string, cwd: string, command: seq<string>,
                              title: Option<string>): Outcome<OpOutput> {
    var error := SessionNameError(env, name);
    if error.Some? then Failed(error.value)
    else if NameTaken(g, name) then Failed(SessionNameExists(name)) else
    var (pane, window, session) := (n, n + 1, n + 2);
    var full := CapacityError(env, g, n, session, command, cwd);
    if full.Some? then Failed(full.value) else
    var checked := if title.Some? && title.value != "" then CheckWindowTitle(title.value)
                   else Ok(DefaultTitle(env, command, cwd));
    match checked
    case Err(e) => Failed(e)
    case Ok(title) =>
      Changed(Change(Ops.AddSession(env, g, session, window, pane, name, title, cwd, command),
                     [SessionCreated(session, name), WindowCreated(window, session, title, 1),
                      PaneCreated(pane, window, session, command)], n + 3),
              OpOutput(Some(session), Some(window), Some(pane)))
  }

  /** The session is looked up before the title is checked. */
  function StageCreateWindow(env: Env, g: Snapshot, n: nat, session: SessionId, rawTitle: string, cwd: string,
                             command: seq<string>): Outcome<OpOutput> {
    if session !in g.sessions then Failed(SessionNotFound(session)) else
    match CheckWindowTitle(rawTitle)
    case Err(e) => Failed(e)
    case Ok(title) =>
      if TitleTaken(g, session, title) then Failed(WindowNameConflict(title)) else
      var full := CapacityError(env, g, n, session, command, cwd);
      if full.Some? then Failed(full.value) else
      var (pane, window) := (n, n + 1);
      Changed(Change(Ops.AddWindow(env, g, session, window, pane, title, cwd, command),
                     [WindowCreated(window, session, title, |g.sessions[session].windows| + 1),
                      PaneCreated(pane, window, session, command)], n + 2),
              OpOutput(Some(session), Some(window), Some(pane)))
  }

  function StageSplitPane(env: Env, g: Snapshot, n: nat, target: PaneId, dir: Direction, ratio: real,
                          command: seq<string>, cwdOverride: Option<string>): Outcome<OpOutput> {
    if target !in g.panes then Failed(PaneNotFound(target)) else
    var window := g.panes[target].window;
    var cwd := if cwdOverride.Some? then cwdOverride.value else g.panes[target].cwd;
    if window !in g.windows then Failed(WindowNotFound(window)) else
    var w := g.windows[window];
    var full := CapacityError(env, g, n, w.session, command, cwd);
    if full.Some? then Failed(full.value) else
    var (layout, ok) := SplitIn(w.layout, target, n, dir, ratio);
    if !ok then Failed(LayoutError) else
    Changed(Change(Ops.AddSplit(env, g, window, n, layout, cwd, command),
                   Ops.Unzoomed(w.layout, window, w.session) + [PaneCreated(n, window, w.session, command)], n + 1),
            OpOutput(Some(w.session), Some(window), Some(n)))
  }

  /** The directory of the first pane of the session that the table yields. */
  function InheritedCwd(g: Snapshot, order: seq<PaneId>, session: SessionId): string {
    if order == [] then "."
    else if InSession(g, order[0], session) then g.panes[order[0]].cwd
    else InheritedCwd(g, order[1..], session)
  }

  function SessionName(g: Snapshot, name: Option<string>): string {
    if name.Some? then name.value else FreeName(g, |g.sessions| + 1)
  }

  function WindowCwd(env: Env, g: Snapshot, session: SessionId, cwd: Option<string>): string {
    if cwd.Some? then cwd.value else InheritedCwd(g, env.walk(g), session)
  }

  /** The staged copy so far: its snapshot, events and supply, and what each operation made. */
  datatype Staged = Staged(change: Change, outputs: seq<OpOutput>)

  function StageOp(env: Env, b: Staged, op: Op): Result<Outcome<OpOutput>, BatchError> {
    var (g, n) := (b.change.snap, b.change.supply);
    match op
    case CreateSession(name, cwd, command, title) =>
      Ok(StageCreateSession(env, g, n, SessionName(g, name), cwd, command, title))
    case CreateWindow(session, title, cwd, command) =>
      (match ResolveSession(session, b.outputs)
       case Err(e) => Err(e)
       case Ok(id) => Ok(StageCreateWindow(env, g, n, id, title, WindowCwd(env, g, id, cwd), command)))
    case SplitPane(target, dir, ratio, command, cwd) =>
      match ResolvePane(target, b.outputs)
      case Err(e) => Err(e)
      case Ok(id) => Ok(StageSplitPane(env, g, n, id, dir, ratio, command, cwd))
  }

  function StageNext(env: Env, b: Staged, op: Op): (r: Result<Staged, BatchError>)
    ensures r.Ok? ==> |r.value.outputs| == |b.outputs| + 1
  {
    match StageOp(env, b, op)
    case Err(e) => Err(e)
    case Ok(Changed(c, output)) =>
      Ok(Staged(Change(c.snap, b.change.events + c.events, c.supply), b.outputs + [output]))
    case Ok(Unchanged(output)) => Ok(Staged(b.change, b.outputs + [output]))
    case Ok(Failed(e)) => Err(OpFailed(|b.outputs|, e))
  }

  function StageAll(env: Env, b: Staged, ops: seq<Op>): (r: Result<Staged, BatchError>)
    decreases |ops|
  {
    if ops == [] then Ok(b) else
    match StageNext(env, b, ops[0])
    case Err(e) => Err(e)
    case Ok(b') => StageAll(env, b', ops[1..])
  }

  function Start(s: State): Staged {
    Staged(Change(s.snap, [], s.supply), [])
  }

  /** Commit once if every operation staged; otherwise nothing happened. */
  function ApplyBatch(env: Env, s: State, ops: seq<Op>): (State, Result<seq<OpOutput>, BatchError>) {
    if ops == [] then (s, Err(Empty)) else
    match StageAll(env, Start(s), ops)
    case Err(e) => (s, Err(e))
    case Ok(b) => (Commit(s, b.change), Ok(b.outputs))
  }
}
