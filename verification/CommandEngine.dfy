/**
 The command execution engine: one running command per pane, each fed by the
 pane's byte stream until its END marker, a timeout, a cancel or the pane's end
 freezes its result, with a bounded number of finished results kept.

 `EngineState` is the engine's value; the functions on it specify the methods
 of `CommandEngine` and carry the laws about runs. Captured output is the raw
 bytes; stripping escapes from it is not modelled.
 */
module CommandEngines {
  import opened Wrappers
  import opened ByteStrings
  import opened CommandScanner

  type CommandId = nat
  type PaneKey = nat

  /** How many results are remembered after their commands have let go of their panes. */
  const KEEP_FINISHED: nat := 64

  datatype CommandState = Running | Completed | TimedOut | Cancelled | PaneGone

  datatype CommandResult = CommandResult(
    id: CommandId, state: CommandState, exitCode: Option<nat>, output: seq<Byte>, truncated: bool)

  /** A caller waiting for the result: none, not yet answered, or answered. */
  datatype Waiter = NoWaiter | Unanswered | Answered

  datatype Tracked = Tracked(
    pane: PaneKey,
    marker: seq<Byte>,
    deadline: nat,
    state: CommandState,
    waiter: Waiter,
    begun: bool,
    capture: seq<Byte>,
    truncated: bool,
    result: Option<CommandResult>)

  /** `answers` is what was sent to waiters, in order; `issued` is every id ever registered. */
  datatype EngineState = EngineState(
    commands: map<CommandId, Tracked>,
    active: map<PaneKey, CommandId>,
    pending: map<PaneKey, seq<Byte>>,
    finished: seq<CommandId>,
    answers: seq<CommandResult>,
    issued: set<CommandId>)

  const EMPTY := EngineState(map[], map[], map[], [], [], {})

  // ----- Markers -----

  function BeginNeedle(marker: seq<Byte>): (n: seq<Byte>)
    ensures |n| > 0
  {
    Bytes("SHUX_BEGIN") + marker
  }

  function EndNeedle(marker: seq<Byte>): (n: seq<Byte>)
    ensures |n| > 0
  {
    Bytes("SHUX_MARKER") + marker + Bytes("EXIT")
  }

  predicate IsHexDigit(b: Byte) {
    48 <= b <= 57 || 97 <= b <= 102
  }

  /** The marker of the command whose id has these hexadecimal digits. */
  function MarkerOf(hex: seq<Byte>): seq<Byte> {
    Bytes("__SHUX_CMD_") + hex + Bytes("__")
  }

  /** Every marker the engine makes gives an END prefix that cannot overlap itself: its final T occurs nowhere else. */
  lemma MarkersAreEndPrefixes(hex: seq<Byte>)
    requires forall i :: 0 <= i < |hex| ==> IsHexDigit(hex[i])
    ensures IsEndPrefix(EndNeedle(MarkerOf(hex)))
  {
    var end := EndNeedle(MarkerOf(hex));
    var T: Byte := 84;
    assert end[|end| - 1] == T;
    assert T !in Bytes("SHUX_MARKER") && T !in Bytes("__SHUX_CMD_") && T !in Bytes("__") && T !in Bytes("EXI");
    var front := Bytes("SHUX_MARKER") + (Bytes("__SHUX_CMD_") + hex + Bytes("__")) + Bytes("EXI");
    assert Bytes("EXIT")[..3] == Bytes("EXI");
    assert end[..|end| - 1] == front;
    assert T !in front;
    assert forall i :: 0 <= i < |end| - 1 ==> end[i] == front[i];
  }

  // ----- Capturing -----

  /** Add payload to a capture. What exceeds the limit is lost and marked; once there is a result nothing is added. */
  function Keep(c: Tracked, payload: seq<Byte>): Tracked {
    if c.result.Some? then c else
    var room := Max(0, CAPTURE_LIMIT - |c.capture|);
    c.(capture := c.capture + payload[..Min(|payload|, room)], truncated := c.truncated || |payload| > room)
  }

  /** Keeping piece by piece is keeping all at once. */
  lemma KeepTwice(c: Tracked, x: seq<Byte>, y: seq<Byte>)
    ensures Keep(Keep(c, x), y) == Keep(c, x + y)
  {
    var room := Max(0, CAPTURE_LIMIT - |c.capture|);
    if |x| <= room {
      var more := Min(|y|, room - |x|);
      assert (x + y)[..Min(|x + y|, room)] == x + y[..more];
      assert c.capture + (x + y[..more]) == c.capture + x + y[..more];
    } else {
      assert (x + y)[..room] == x[..room];
    }
  }

  // ----- Operations -----

  function Lookup(m: map<PaneKey, seq<Byte>>, pane: PaneKey): seq<Byte> {
    if pane in m then m[pane] else []
  }

  function Register(e: EngineState, pane: PaneKey, id: CommandId, marker: seq<Byte>, deadline: nat, waits: bool)
    : (EngineState, Result<CommandId, CommandId>)
  {
    if pane in e.active then (e, Err(e.active[pane])) else
    var cmd := Tracked(pane, marker, deadline, Running, if waits then Unanswered else NoWaiter, false, [], false, None);
    (e.(commands := e.commands[id := cmd], active := e.active[pane := id], issued := e.issued + {id}), Ok(id))
  }

  /** The held-back bytes a command ended early still owns: all up to an END marker already begun. */
  function OwnHeldBytes(held: seq<Byte>, end: seq<Byte>): seq<Byte>
    requires |end| > 0
  {
    match Find(held, end)
    case None => held
    case Some(at) => held[..at]
  }

  /** Fix the result of a command still running and send it to whoever waits. The pane stays taken. */
  function Finish(e: EngineState, id: CommandId, state: CommandState, code: Option<nat>)
    : (EngineState, Option<CommandResult>)
  {
    if id !in e.commands || e.commands[id].state != Running then (e, None) else
    var cmd := e.commands[id];
    var cmd' :=
      if state != Completed && cmd.begun
      then Keep(cmd, OwnHeldBytes(Lookup(e.pending, cmd.pane), EndNeedle(cmd.marker)))
      else cmd;
    var r := CommandResult(id, state, code, cmd'.capture, cmd'.truncated);
    var answers := if cmd.waiter == Unanswered then e.answers + [r] else e.answers;
    var waiter := if cmd.waiter == Unanswered then Answered else cmd.waiter;
    var done := cmd'.(state := state, capture := [], waiter := waiter, result := Some(r));
    (e.(commands := e.commands[id := done], answers := answers), Some(r))
  }

  /** Forget the oldest finished commands past the number kept. */
  function Trim(e: EngineState): EngineState
    decreases |e.finished|
  {
    if |e.finished| <= KEEP_FINISHED then e
    else Trim(e.(finished := e.finished[1..], commands := e.commands - {e.finished[0]}))
  }

  lemma TrimKeepsPanes(e: EngineState)
    ensures var e' := Trim(e);
            && e'.active == e.active && e'.pending == e.pending
            && e'.answers == e.answers && e'.issued == e.issued
    decreases |e.finished|
  {
  }

  function Release(e: EngineState, id: CommandId): EngineState {
    if id !in e.commands then e else
    var pane := e.commands[id].pane;
    if pane !in e.active || e.active[pane] != id then e else
    Trim(e.(active := e.active - {pane}, pending := e.pending - {pane}, finished := e.finished + [id]))
  }

  /** Feed a pane's output; at most one command completes. */
  function Process(e: EngineState, pane: PaneKey, output: seq<Byte>): (EngineState, seq<CommandResult>) {
    if pane !in e.active then (e, []) else
    var id := e.active[pane];
    var buf := Lookup(e.pending, pane) + output;
    var taken := e.(pending := e.pending - {pane});
    if id !in e.commands then (taken, []) else
    var cmd := e.commands[id];
    var c := Consume(cmd.begun, buf, BeginNeedle(cmd.marker), EndNeedle(cmd.marker));
    var fed := taken.(commands := taken.commands[id := Keep(cmd.(begun := c.begun), c.kept)]);
    match c.exit
    case None => (fed.(pending := fed.pending[pane := c.rest]), [])
    case Some(code) =>
      var (done, r) := Finish(fed, id, Completed, Some(code));
      (Release(done, id), if r.Some? then [r.value] else [])
  }

  function Cancel(e: EngineState, id: CommandId): (EngineState, Option<PaneKey>) {
    if id !in e.commands then (e, None) else
    var pane := e.commands[id].pane;
    if pane !in e.active || e.active[pane] != id then (e, None) else
    (Release(Finish(e, id, Cancelled, None).0, id), Some(pane))
  }

  function Forget(e: EngineState, pane: PaneKey): EngineState {
    var e' :=
      if pane in e.active then Release(Finish(e, e.active[pane], PaneGone, None).0, e.active[pane]) else e;
    e'.(pending := e'.pending - {pane})
  }

  predicate IsDue(e: EngineState, id: CommandId, now: nat) {
    id in e.commands && e.commands[id].state == Running && now >= e.commands[id].deadline
  }

  /** Time out the commands listed, in order. */
  function TimeOut(e: EngineState, ids: seq<CommandId>): EngineState
    decreases |ids|
  {
    if ids == [] then e else TimeOut(Finish(e, ids[0], TimedOut, None).0, ids[1..])
  }

  // ----- What every engine keeps -----

  predicate Distinct<T(==)>(s: seq<T>) {
    forall i, j :: 0 <= i < j < |s| ==> s[i] != s[j]
  }

  /** The pane a command holds is the one it runs in. */
  predicate PanesHeld(e: EngineState) {
    && (forall p :: p in e.active ==> e.active[p] in e.commands && e.commands[e.active[p]].pane == p)
    && e.pending.Keys <= e.active.Keys
  }

  /** A command holds its pane. */
  predicate Holds(e: EngineState, id: CommandId) {
    id in e.commands && e.commands[id].pane in e.active && e.active[e.commands[id].pane] == id
  }

  /**
   Tracked commands are the ones holding a pane and the finished ones, of which there are few and each has a result.
   */
  predicate Tracking(e: EngineState) {
    && (forall id :: id in e.commands ==> (Holds(e, id) <==> id !in e.finished))
    && (forall id :: id in e.finished ==> id in e.commands && e.commands[id].result.Some?)
    && Distinct(e.finished) && |e.finished| <= KEEP_FINISHED
  }

  /** A result is there exactly when the command no longer runs, and its waiter has then been answered. */
  predicate ResultsAgree(e: EngineState) {
    forall id :: id in e.commands ==>
      var c := e.commands[id];
      && (c.result.Some? <==> c.state != Running)
      && (c.result.Some? ==> c.result.value.id == id && c.result.value.state == c.state && c.waiter != Unanswered)
      && (c.result.None? ==> c.waiter != Answered)
  }

  predicate HasAnswer(answers: seq<CommandResult>, id: CommandId) {
    exists i :: 0 <= i < |answers| && answers[i].id == id
  }

  /** No waiter is answered twice, and the tracked commands with an answer are exactly those whose waiter had one. */
  predicate AnswersAgree(e: EngineState) {
    && (forall i, j :: 0 <= i < j < |e.answers| ==> e.answers[i].id != e.answers[j].id)
    && (forall i :: 0 <= i < |e.answers| ==> e.answers[i].id in e.issued)
    && (forall id :: id in e.commands ==>
         id in e.issued && (e.commands[id].waiter == Answered <==> HasAnswer(e.answers, id)))
  }

  predicate Valid(e: EngineState) {
    PanesHeld(e) && Tracking(e) && ResultsAgree(e) && AnswersAgree(e)
  }

  // ----- Reads make no difference -----

  /** Feeding `x` and then `y` leaves the engine, and completes the commands, that feeding `x + y` does. */
  lemma ProcessSplits(e: EngineState, pane: PaneKey, x: seq<Byte>, y: seq<Byte>)
    requires PanesHeld(e)
    ensures var (e1, r1) := Process(e, pane, x);
            var (e2, r2) := Process(e1, pane, y);
            Process(e, pane, x + y) == (e2, r1 + r2)
  {
    hide Consume, EndNeedle, BeginNeedle, Keep, Finish, Release;
    if pane in e.active {
      var id := e.active[pane];
      var cmd := e.commands[id];
      var held := Lookup(e.pending, pane);
      var begin, end := BeginNeedle(cmd.marker), EndNeedle(cmd.marker);
      ConsumeSplits(cmd.begun, held + x, y, begin, end);
      assert held + (x + y) == held + x + y;
      var c := Consume(cmd.begun, held + x, begin, end);
      var (e1, r1) := Process(e, pane, x);
      if c.exit.None? {
        var c' := Consume(c.begun, c.rest + y, begin, end);
        KeptFields(cmd.(begun := c.begun), c.kept);
        FeedTwice(cmd, c.begun, c.kept, c'.begun, c'.kept);
        assert e1.pending - {pane} == e.pending - {pane};
        var k := Keep(cmd.(begun := c.begun), c.kept);
        var k' := Keep(k.(begun := c'.begun), c'.kept);
        assert e1.commands[id := k'] == e.commands[id := k'];
        var fed1 := e1.(pending := e1.pending - {pane}, commands := e1.commands[id := k']);
        var fed := e.(pending := e.pending - {pane}, commands := e.commands[id := k']);
        assert fed1 == fed;
        var r2 := Process(e1, pane, y).1;
        assert r1 + r2 == r2;
      } else {
        CompletingReleases(e, pane, x);
        assert Process(e1, pane, y) == (e1, []);
        assert r1 + [] == r1;
      }
    } else {
      var (e1, r1) := Process(e, pane, x);
      assert r1 + r1 == r1;
    }
  }

  lemma KeptFields(c: Tracked, payload: seq<Byte>)
    ensures var k := Keep(c, payload);
            k == c.(capture := k.capture, truncated := k.truncated)
  {
  }

  lemma FeedTwice(cmd: Tracked, b: bool, k: seq<Byte>, b': bool, k': seq<Byte>)
    ensures Keep(Keep(cmd.(begun := b), k).(begun := b'), k') == Keep(cmd.(begun := b'), k + k')
  {
    KeepTwice(cmd.(begun := b'), k, k');
  }

  /** A completed command's pane is free. */
  lemma CompletingReleases(e: EngineState, pane: PaneKey, x: seq<Byte>)
    requires PanesHeld(e) && pane in e.active
    ensures var cmd := e.commands[e.active[pane]];
            var c := Consume(cmd.begun, Lookup(e.pending, pane) + x, BeginNeedle(cmd.marker), EndNeedle(cmd.marker));
            c.exit.Some? ==> pane !in Process(e, pane, x).0.active
  {
    hide Consume, Keep, Trim;
    var id := e.active[pane];
    var cmd := e.commands[id];
    var c := Consume(cmd.begun, Lookup(e.pending, pane) + x, BeginNeedle(cmd.marker), EndNeedle(cmd.marker));
    KeptFields(cmd.(begun := c.begun), c.kept);
    if c.exit.Some? {
      var fed := e.(pending := e.pending - {pane}, commands := e.commands[id := Keep(cmd.(begun := c.begun), c.kept)]);
      var done := Finish(fed, id, Completed, Some(c.exit.value)).0;
      TrimKeepsPanes(done.(active := done.active - {pane}, pending := done.pending - {pane},
                           finished := done.finished + [id]));
    }
  }

  // ----- One step -----

  /** What no step undoes: ids are never reissued, results never change, answers are never taken back. */
  predicate Evolves(e: EngineState, e': EngineState) {
    && e.issued <= e'.issued
    && e.answers <= e'.answers
    && (forall id :: id in e'.commands ==> id in e.commands || id !in e.issued)
    && (forall id :: id in e.commands && id in e'.commands && e.commands[id].result.Some? ==>
          e'.commands[id].result == e.commands[id].result)
  }

  lemma EvolvesTransitive(e: EngineState, m: EngineState, e': EngineState)
    requires Valid(e) && Evolves(e, m) && Evolves(m, e')
    ensures Evolves(e, e')
  {
    forall id | id in e.commands && id in e'.commands && e.commands[id].result.Some?
      ensures e'.commands[id].result == e.commands[id].result
    {
      assert id in e.issued;
      assert id in m.commands;
    }
  }

  /** The same commands, in the same panes, tracked the same way. */
  predicate SameTracking(e: EngineState, e': EngineState) {
    && e'.active == e.active && e'.finished == e.finished && e'.issued == e.issued
    && e'.commands.Keys == e.commands.Keys
    && forall k :: k in e.commands ==> e'.commands[k].pane == e.commands[k].pane
  }

  lemma SameTrackingKeeps(e: EngineState, e': EngineState)
    requires PanesHeld(e) && Tracking(e) && SameTracking(e, e')
    requires e'.pending.Keys <= e.active.Keys
    requires forall k :: k in e.finished && k in e.commands ==> e'.commands[k].result.Some?
    ensures PanesHeld(e') && Tracking(e')
  {
    assert forall k :: k in e.commands ==> (Holds(e', k) <==> Holds(e, k));
  }

  lemma FinishKeeps(e: EngineState, id: CommandId, state: CommandState, code: Option<nat>)
    requires Valid(e) && state != Running
    ensures Valid(Finish(e, id, state, code).0) && Evolves(e, Finish(e, id, state, code).0)
    ensures id in e.commands ==> var e' := Finish(e, id, state,
                                                  code).0; id in e'.commands && e'.commands[id].result.Some?
  {
    hide Keep, OwnHeldBytes, EndNeedle, Holds, HasAnswer;
    var (e', r) := Finish(e, id, state, code);
    if r.Some? {
      var cmd := e.commands[id];
      KeptFields(cmd, OwnHeldBytes(Lookup(e.pending, cmd.pane), EndNeedle(cmd.marker)));
      assert e'.commands[id].pane == cmd.pane && e'.commands[id].state == state;
      assert e'.commands[id].result == r && r.value.id == id && r.value.state == state;
      FinishedKeeps(e, e', id, r.value);
    }
  }

  lemma FinishedKeeps(e: EngineState, e': EngineState, id: CommandId, r: CommandResult)
    requires Valid(e) && id in e.commands && e.commands[id].result.None? && r.id == id && r.state != Running
    requires e' == e.(commands := e'.commands, answers := e'.answers) && e'.commands.Keys == e.commands.Keys
    requires forall k :: k in e.commands && k != id ==> e'.commands[k] == e.commands[k]
    requires e'.commands[id].pane == e.commands[id].pane
    requires e'.commands[id].state == r.state && e'.commands[id].result == Some(r)
    requires if e.commands[id].waiter == Unanswered
             then e'.commands[id].waiter == Answered && e'.answers == e.answers + [r]
             else e'.commands[id].waiter == NoWaiter && e'.answers == e.answers
    ensures Valid(e') && Evolves(e, e')
  {
    hide Holds, HasAnswer;
    assert SameTracking(e, e');
    SameTrackingKeeps(e, e');
    AnsweringKeeps(e, e', id, r);
    hide Tracking, PanesHeld, SameTracking, AnswersAgree;
  }

  lemma AnsweringKeeps(e: EngineState, e': EngineState, id: CommandId, r: CommandResult)
    requires AnswersAgree(e) && id in e.commands && r.id == id && e.commands[id].waiter != Answered
    requires e'.commands.Keys == e.commands.Keys && e'.issued == e.issued
    requires forall k :: k in e.commands && k != id ==> e'.commands[k] == e.commands[k]
    requires if e.commands[id].waiter == Unanswered
             then e'.commands[id].waiter == Answered && e'.answers == e.answers + [r]
             else e'.commands[id].waiter == NoWaiter && e'.answers == e.answers
    ensures AnswersAgree(e')
  {
    assert !HasAnswer(e.answers, id);
    HasAnswerAppend(e.answers, r);
  }

  lemma HasAnswerAppend(answers: seq<CommandResult>, r: CommandResult)
    ensures forall id :: HasAnswer(answers + [r], id) <==> HasAnswer(answers, id) || id == r.id
  {
    var all := answers + [r];
    assert all[|answers|] == r;
    forall id | HasAnswer(answers, id)
      ensures HasAnswer(all, id)
    {
      var i :| 0 <= i < |answers| && answers[i].id == id;
      assert all[i].id == id;
    }
  }

  lemma ReleaseKeeps(e: EngineState, id: CommandId)
    requires Valid(e) && (id in e.commands ==> e.commands[id].result.Some?)
    ensures Valid(Release(e, id)) && Evolves(e, Release(e, id))
  {
    if Holds(e, id) {
      var pane := e.commands[id].pane;
      var m := e.(active := e.active - {pane}, pending := e.pending - {pane}, finished := e.finished + [id]);
      FreeingKeeps(e, m, id);
      hide Holds, Distinct, HasAnswer;
      if |m.finished| > KEEP_FINISHED {
        TrimmingKeeps(m);
      }
      RestrictingKeeps(e, Trim(m));
    }
  }

  /** Forgetting commands changes nothing about the others. */
  lemma RestrictingKeeps(e: EngineState, e': EngineState)
    requires ResultsAgree(e) && AnswersAgree(e)
    requires e'.answers == e.answers && e'.issued == e.issued
    requires forall k :: k in e'.commands ==> k in e.commands && e'.commands[k] == e.commands[k]
    ensures ResultsAgree(e') && AnswersAgree(e') && Evolves(e, e')
  {
    hide HasAnswer;
  }

  /** Moving a command from its pane to the finished list; the list may be one too long. */
  lemma FreeingKeeps(e: EngineState, m: EngineState, id: CommandId)
    requires PanesHeld(e) && Tracking(e) && Holds(e, id) && e.commands[id].result.Some?
    requires var pane := e.commands[id].pane;
             m == e.(active := e.active - {pane}, pending := e.pending - {pane}, finished := e.finished + [id])
    ensures PanesHeld(m) && Distinct(m.finished)
    ensures forall k :: k in m.commands ==> (Holds(m, k) <==> k !in m.finished)
    ensures forall k :: k in m.finished ==> k in m.commands && m.commands[k].result.Some?
  {
    assert forall k :: k in m.finished <==> k == id || k in e.finished;
    assert forall k :: k in e.commands && k != id ==> (Holds(m, k) <==> Holds(e, k));
    assert id !in e.finished;
  }

  /** Forgetting the oldest finished command when the list is one too long. */
  lemma TrimmingKeeps(m: EngineState)
    requires PanesHeld(m) && Distinct(m.finished) && |m.finished| == KEEP_FINISHED + 1
    requires forall k :: k in m.commands ==> (Holds(m, k) <==> k !in m.finished)
    requires forall k :: k in m.finished ==> k in m.commands && m.commands[k].result.Some?
    ensures PanesHeld(Trim(m)) && Tracking(Trim(m)) && Trim(m).commands == m.commands - {m.finished[0]}
  {
    var oldest, rest := m.finished[0], m.finished[1..];
    var e' := m.(finished := rest, commands := m.commands - {oldest});
    assert Trim(e') == e' && Trim(m) == e';
    assert forall i :: 0 <= i < |rest| ==> rest[i] == m.finished[i + 1];
    assert forall k :: k in m.finished <==> k == oldest || k in rest;
    assert forall k :: k in e'.commands ==> (Holds(e', k) <==> Holds(m, k));
  }

  /** Replacing a command by one with the same state, result and waiter. */
  lemma SameOutcomeKeeps(e: EngineState, e': EngineState)
    requires ResultsAgree(e) && AnswersAgree(e)
    requires e'.commands.Keys == e.commands.Keys && e'.answers == e.answers && e'.issued == e.issued
    requires forall k :: k in e.commands ==>
               && e'.commands[k].state == e.commands[k].state && e'.commands[k].result == e.commands[k].result
               && e'.commands[k].waiter == e.commands[k].waiter
    ensures ResultsAgree(e') && AnswersAgree(e') && Evolves(e, e')
  {
    hide HasAnswer;
  }

  /** Updating a command's scan state, and what is held for its pane, keeps every invariant. */
  lemma FeedingKeeps(e: EngineState, e': EngineState, pane: PaneKey, begun: bool, kept: seq<Byte>)
    requires Valid(e) && pane in e.active
    requires var id := e.active[pane];
             && e'.commands == e.commands[id := Keep(e.commands[id].(begun := begun), kept)]
             && e' == e.(commands := e'.commands, pending := e'.pending)
             && e'.pending.Keys <= e.pending.Keys + {pane}
    ensures Valid(e') && Evolves(e, e')
  {
    hide Keep, Holds, HasAnswer;
    var id := e.active[pane];
    KeptFields(e.commands[id].(begun := begun), kept);
    assert SameTracking(e, e');
    SameTrackingKeeps(e, e');
    SameOutcomeKeeps(e, e');
    hide Tracking, PanesHeld, ResultsAgree, AnswersAgree, Evolves;
  }

  lemma ProcessKeeps(e: EngineState, pane: PaneKey, output: seq<Byte>)
    requires Valid(e)
    ensures Valid(Process(e, pane, output).0) && Evolves(e, Process(e, pane, output).0)
  {
    hide Keep, Consume, Finish, Release, Valid, Evolves;
    assert PanesHeld(e) by { ValidHolds(e); }
    if pane in e.active {
      var id := e.active[pane];
      var cmd := e.commands[id];
      var c := Consume(cmd.begun, Lookup(e.pending, pane) + output, BeginNeedle(cmd.marker), EndNeedle(cmd.marker));
      var fed := e.(pending := e.pending - {pane}, commands := e.commands[id := Keep(cmd.(begun := c.begun), c.kept)]);
      if c.exit.None? {
        FeedingKeeps(e, fed.(pending := fed.pending[pane := c.rest]), pane, c.begun, c.kept);
      } else {
        FeedingKeeps(e, fed, pane, c.begun, c.kept);
        FinishKeeps(fed, id, Completed, c.exit);
        var done := Finish(fed, id, Completed, c.exit).0;
        ReleaseKeeps(done, id);
        EvolvesTransitive(e, fed, done);
        EvolvesTransitive(e, done, Release(done, id));
      }
    } else {
      EvolvesReflexive(e);
    }
  }

  lemma ValidHolds(e: EngineState)
    requires Valid(e)
    ensures PanesHeld(e)
  {
  }

  lemma EvolvesReflexive(e: EngineState)
    ensures Evolves(e, e)
  {
  }

  lemma FinishAndReleaseKeep(e: EngineState, id: CommandId, state: CommandState)
    requires Valid(e) && id in e.commands && state != Running
    ensures var e' := Release(Finish(e, id, state, None).0, id);
            Valid(e') && Evolves(e, e')
  {
    hide Finish, Release;
    FinishKeeps(e, id, state, None);
    var done := Finish(e, id, state, None).0;
    ReleaseKeeps(done, id);
    EvolvesTransitive(e, done, Release(done, id));
  }

  lemma {:induction false} TimeOutKeeps(e: EngineState, ids: seq<CommandId>)
    requires Valid(e)
    ensures Valid(TimeOut(e, ids)) && Evolves(e, TimeOut(e, ids))
    decreases |ids|
  {
    hide Finish;
    if ids != [] {
      FinishKeeps(e, ids[0], TimedOut, None);
      var m := Finish(e, ids[0], TimedOut, None).0;
      TimeOutKeeps(m, ids[1..]);
      EvolvesTransitive(e, m, TimeOut(m, ids[1..]));
    }
  }

  lemma RegisterKeeps(e: EngineState, pane: PaneKey, id: CommandId, marker: seq<Byte>, deadline: nat, waits: bool)
    requires Valid(e) && id !in e.issued
    ensures var e' := Register(e, pane, id, marker, deadline, waits).0;
            Valid(e') && Evolves(e, e')
  {
    var e' := Register(e, pane, id, marker, deadline, waits).0;
    assert id !in e.commands && id !in e.finished;
    if pane !in e.active {
      TrackingOneMore(e, e', pane, id);
      assert !HasAnswer(e.answers, id);
      OneMoreKeeps(e, e', id);
      hide HasAnswer, Tracking, PanesHeld, ResultsAgree, AnswersAgree, Evolves;
    }
  }

  /** Adding a running command that has no answer yet. */
  lemma OneMoreKeeps(e: EngineState, e': EngineState, id: CommandId)
    requires ResultsAgree(e) && AnswersAgree(e) && id !in e.issued && !HasAnswer(e.answers, id)
    requires e'.commands.Keys == e.commands.Keys + {id} && e'.answers == e.answers && e'.issued == e.issued + {id}
    requires e'.commands[id].state == Running && e'.commands[id].result.None? && e'.commands[id].waiter != Answered
    requires forall k :: k in e.commands ==> e'.commands[k] == e.commands[k]
    ensures ResultsAgree(e') && AnswersAgree(e') && Evolves(e, e')
  {
    hide HasAnswer;
  }

  lemma TrackingOneMore(e: EngineState, e': EngineState, pane: PaneKey, id: CommandId)
    requires PanesHeld(e) && Tracking(e) && id !in e.commands && pane !in e.active
    requires e'.finished == e.finished && e'.active == e.active[pane := id] && e'.pending == e.pending
    requires e'.commands.Keys == e.commands.Keys + {id} && e'.commands[id].pane == pane
    requires forall k :: k in e.commands ==> e'.commands[k] == e.commands[k]
    ensures PanesHeld(e') && Tracking(e')
  {
    assert forall k :: k in e.commands ==> (Holds(e', k) <==> Holds(e, k));
  }

  // ----- Runs -----

  /** One call into the engine. Timed-out commands may be finished in any order. */
  datatype Step =
    | DoRegister(pane: PaneKey, id: CommandId, marker: seq<Byte>, deadline: nat, waits: bool)
    | DoOutput(pane: PaneKey, output: seq<Byte>)
    | DoTimeouts(order: seq<CommandId>)
    | DoCancel(id: CommandId)
    | DoForget(pane: PaneKey)

  predicate Enabled(e: EngineState, s: Step) {
    s.DoRegister? ==> s.id !in e.issued
  }

  function Exec(e: EngineState, s: Step): EngineState {
    match s
    case DoRegister(pane, id, marker, deadline, waits) => Register(e, pane, id, marker, deadline, waits).0
    case DoOutput(pane, output) => Process(e, pane, output).0
    case DoTimeouts(order) => TimeOut(e, order)
    case DoCancel(id) => Cancel(e, id).0
    case DoForget(pane) => Forget(e, pane)
  }

  lemma StepKeeps(e: EngineState, s: Step)
    requires Valid(e) && Enabled(e, s)
    ensures Valid(Exec(e, s)) && Evolves(e, Exec(e, s))
  {
    hide Finish, Release, Process;
    match s
    case DoRegister(pane, id, marker, deadline, waits) => RegisterKeeps(e, pane, id, marker, deadline, waits);
    case DoOutput(pane, output) => ProcessKeeps(e, pane, output);
    case DoTimeouts(order) => TimeOutKeeps(e, order);
    case DoCancel(id) =>
      if Holds(e, id) {
        FinishAndReleaseKeep(e, id, Cancelled);
      }
    case DoForget(pane) => ForgetKeeps(e, pane);
  }

  lemma ForgetKeeps(e: EngineState, pane: PaneKey)
    requires Valid(e)
    ensures Valid(Forget(e, pane)) && Evolves(e, Forget(e, pane))
  {
    hide Finish, Release;
    if pane in e.active {
      FinishAndReleaseKeep(e, e.active[pane], PaneGone);
      var m := Release(Finish(e, e.active[pane], PaneGone, None).0, e.active[pane]);
      DroppingPendingKeeps(m, pane);
      EvolvesTransitive(e, m, m.(pending := m.pending - {pane}));
    } else {
      DroppingPendingKeeps(e, pane);
    }
  }

  lemma DroppingPendingKeeps(e: EngineState, pane: PaneKey)
    requires Valid(e)
    ensures var e' := e.(pending := e.pending - {pane}); Valid(e') && Evolves(e, e')
  {
    var e' := e.(pending := e.pending - {pane});
    assert forall k :: k in e.commands ==> (Holds(e', k) <==> Holds(e, k));
  }

  /** The states of a run: an empty engine, then one step after another. */
  ghost predicate IsRun(states: seq<EngineState>, steps: seq<Step>) {
    && |states| == |steps| + 1 && states[0] == EMPTY
    && forall i :: 0 <= i < |steps| ==> Enabled(states[i], steps[i]) && states[i + 1] == Exec(states[i], steps[i])
  }

  /**
   At every point of every run the engine is valid: each pane holds at most one command, tracked commands are
   exactly those holding a pane and at most 64 finished ones, a released command has a result, and no waiter is
   answered twice. Between any two points nothing issued, answered or resulted is undone.
   */
  lemma {:induction false} RunsKeep(states: seq<EngineState>, steps: seq<Step>, i: nat, j: nat)
    requires IsRun(states, steps) && i <= j < |states|
    ensures Valid(states[i]) && Valid(states[j]) && Evolves(states[i], states[j])
    decreases j
  {
    hide Exec;
    if j == 0 {
      assert Valid(EMPTY);
    } else {
      RunsKeep(states, steps, Min(i, j - 1), j - 1);
      StepKeeps(states[j - 1], steps[j - 1]);
      if i < j {
        EvolvesTransitive(states[i], states[j - 1], states[j]);
      } else {
        EvolvesReflexive(states[j]);
      }
    }
  }

  // ----- A command's whole stream -----

  function Concat(chunks: seq<seq<Byte>>): seq<Byte> {
    if chunks == [] then [] else chunks[0] + Concat(chunks[1..])
  }

  /** Feed a pane's reads one after another, collecting completed commands. */
  function FeedAll(e: EngineState, pane: PaneKey, chunks: seq<seq<Byte>>): (EngineState, seq<CommandResult>)
    decreases |chunks|
  {
    if chunks == [] then (e, []) else
    var (e1, r1) := Process(e, pane, chunks[0]);
    var (e2, r2) := FeedAll(e1, pane, chunks[1..]);
    (e2, r1 + r2)
  }

  /** However the stream is cut into reads, the engine ends in the same state and reports the same completions. */
  lemma {:induction false} ReadsMakeNoDifference(e: EngineState, pane: PaneKey, chunks: seq<seq<Byte>>)
    requires Valid(e) && chunks != []
    ensures FeedAll(e, pane, chunks) == Process(e, pane, Concat(chunks))
    decreases |chunks|
  {
    hide Process, Valid;
    var (e1, r1) := Process(e, pane, chunks[0]);
    ProcessKeeps(e, pane, chunks[0]);
    ValidHolds(e);
    if |chunks| == 1 {
      assert chunks[1..] == [];
      assert Concat(chunks) == chunks[0] + [] == chunks[0];
      assert r1 + [] == r1;
    } else {
      ReadsMakeNoDifference(e1, pane, chunks[1..]);
      ProcessSplits(e, pane, chunks[0], Concat(chunks[1..]));
    }
  }

  /** Payload cut at the capture limit. */
  function Cut(payload: seq<Byte>): seq<Byte> {
    payload[..Min(|payload|, CAPTURE_LIMIT)]
  }

  /**
   A command registered in a free pane and fed any reads completes exactly when its stream holds a BEGIN line
   and after it a genuine END marker. It then reports the first such marker's code and the bytes between,
   cut at the capture limit.
   */
  lemma CommandReportsItsOutput(
      e: EngineState, pane: PaneKey, id: CommandId, hex: seq<Byte>, deadline: nat, waits: bool,
      chunks: seq<seq<Byte>>, results: seq<CommandResult>)
    requires Valid(e) && pane !in e.active && id !in e.issued && chunks != []
    requires forall i :: 0 <= i < |hex| ==> IsHexDigit(hex[i])
    requires results == FeedAll(Register(e, pane, id, MarkerOf(hex), deadline, waits).0, pane, chunks).1
    ensures var stream, begin, end := Concat(chunks), BeginNeedle(MarkerOf(hex)), EndNeedle(MarkerOf(hex));
            && (forall n: nat, at: nat, code: nat ::
                  PayloadStarts(stream, begin, n) && n <= |stream| && FirstGenuineAt(stream[n..], end, at, code) ==>
                    n + at <= |stream|
                    && results == [CommandResult(id, Completed, Some(code), Cut(stream[n..n + at]),
                                                 at > CAPTURE_LIMIT)])
            && (results != [] ==> exists n: nat, at: nat, code: nat ::
                  PayloadStarts(stream, begin, n) && n <= |stream| && FirstGenuineAt(stream[n..], end, at, code))
  {
    hide Consume, PayloadStarts, FirstGenuineAt, FeedAll, Valid, EndNeedle, BeginNeedle, MarkerOf;
    var stream, begin, end := Concat(chunks), BeginNeedle(MarkerOf(hex)), EndNeedle(MarkerOf(hex));
    var e0 := Register(e, pane, id, MarkerOf(hex), deadline, waits).0;
    RegisterKeeps(e, pane, id, MarkerOf(hex), deadline, waits);
    ReadsMakeNoDifference(e0, pane, chunks);
    MarkersAreEndPrefixes(hex);
    NothingPending(e, pane);
    assert [] + stream == stream;
    var c := Consume(false, stream, begin, end);
    FreshCommandResult(e0, pane, id, stream, c);
    forall n: nat, at: nat, code: nat |
      PayloadStarts(stream, begin, n) && n <= |stream| && FirstGenuineAt(stream[n..], end, at, code)
      ensures n + at <= |stream|
              && results == [CommandResult(id, Completed, Some(code), Cut(stream[n..n + at]), at > CAPTURE_LIMIT)]
    {
      StreamMeaning(stream, begin, end, code);
    }
    if c.exit.Some? {
      StreamMeaning(stream, begin, end, c.exit.value);
    }
  }

  lemma NothingPending(e: EngineState, pane: PaneKey)
    requires Valid(e) && pane !in e.active
    ensures pane !in e.pending
  {
  }

  lemma FreshCommandResult(e: EngineState, pane: PaneKey, id: CommandId, stream: seq<Byte>, c: Consumed)
    requires pane in e.active && e.active[pane] == id && id in e.commands && pane !in e.pending
    requires var cmd := e.commands[id];
             && cmd.state == Running && cmd.result.None? && cmd.capture == [] && !cmd.truncated && !cmd.begun
             && c == Consume(false, stream, BeginNeedle(cmd.marker), EndNeedle(cmd.marker))
    ensures Process(e, pane, stream).1 ==
            match c.exit
            case None => []
            case Some(code) => [CommandResult(id, Completed, Some(code), Cut(c.kept), |c.kept| > CAPTURE_LIMIT)]
  {
    hide Consume, Release;
    assert [] + stream == stream;
    assert [] + Cut(c.kept) == Cut(c.kept);
  }

  // ----- Ended before the END marker -----

  /** An END marker begun at the end of the payload and still open. */
  predicate OpenMarker(tail: seq<Byte>, end: seq<Byte>) {
    end <= tail && ClassifyEnd(tail[|end|..]) == Incomplete
  }

  /** A command ended early owns its whole payload so far, but for an END marker already begun and still open. */
  lemma {:induction false} EarlyEndOwnsThePayload(payload: seq<Byte>, end: seq<Byte>)
    requires |end| > 0 && ScanPayload(payload, end).exit.None?
    ensures var s := ScanPayload(payload, end);
            var own := s.kept + OwnHeldBytes(s.rest, end);
            own <= payload && (own == payload || OpenMarker(payload[|own|..], end))
    decreases |payload|
  {
    hide Find, ClassifyEnd, ScanPayload, OwnHeldBytes, OpenMarker;
    if Find(payload, end).None? {
      NothingOpen(payload, end);
    } else {
      var n := Find(payload, end).value + |end|;
      if ClassifyEnd(payload[n..]).Incomplete? {
        MarkerOpen(payload, end);
      } else {
        AfterFalseMarker(payload, end, n);
        EarlyEndOwnsThePayload(payload[n..], end);
        var t := ScanPayload(payload[n..], end);
        var own := t.kept + OwnHeldBytes(t.rest, end);
        assert payload[..n] + t.kept + OwnHeldBytes(t.rest, end) == payload[..n] + own;
        assert payload[n..][..|own|] == own;
        assert payload[..n + |own|] == payload[..n] + own;
        assert payload[n + |own|..] == payload[n..][|own|..];
        assert payload == payload[..n] + payload[n..];
      }
    }
  }

  lemma AfterFalseMarker(payload: seq<Byte>, end: seq<Byte>, n: nat)
    requires |end| > 0 && Find(payload, end).Some? && n == Find(payload, end).value + |end|
    requires !ClassifyEnd(payload[n..]).Incomplete? && ScanPayload(payload, end).exit.None?
    ensures var t := ScanPayload(payload[n..], end); ScanPayload(payload, end) == t.(kept := payload[..n] + t.kept)
  {
    hide Find, ClassifyEnd;
  }

  lemma NothingOpen(payload: seq<Byte>, end: seq<Byte>)
    requires |end| > 0 && Find(payload, end).None?
    ensures var s := ScanPayload(payload, end); s.kept + OwnHeldBytes(s.rest, end) == payload
  {
    hide Find, ClassifyEnd;
    ScanConserves(payload, end);
    var s := ScanPayload(payload, end);
    FindAfterDrop(payload, [], end, |payload| - Min(|payload|, |end| - 1));
    assert payload + [] == payload && s.rest + [] == s.rest;
  }

  lemma MarkerOpen(payload: seq<Byte>, end: seq<Byte>)
    requires |end| > 0 && Find(payload, end).Some?
    requires ClassifyEnd(payload[Find(payload, end).value + |end|..]).Incomplete?
    ensures var s := ScanPayload(payload, end);
            var own := s.kept + OwnHeldBytes(s.rest, end);
            own <= payload && OpenMarker(payload[|own|..], end)
  {
    hide Find, ClassifyEnd;
    var at := Find(payload, end).value;
    var held := payload[at..];
    assert ScanPayload(payload, end) == Scan(payload[..at], held, None);
    FindAtStart(payload, end);
    assert OwnHeldBytes(held, end) == held[..0];
    assert payload[..at] + held[..0] == payload[..at];
    assert held[|end|..] == payload[at + |end|..];
  }

  // ----- The engine itself -----

  class CommandEngine {
    var commands: map<CommandId, Tracked>
    var active: map<PaneKey, CommandId>
    var pending: map<PaneKey, seq<Byte>>
    var finished: seq<CommandId>
    var answers: seq<CommandResult>
    ghost var issued: set<CommandId>

    ghost function View(): EngineState
      reads this
    {
      EngineState(commands, active, pending, finished, answers, issued)
    }

    constructor ()
      ensures View() == EMPTY && Valid(View())
    {
      commands, active, pending, finished, answers, issued := map[], map[], map[], [], [], {};
    }

    /** Give a free pane to the command; a pane that is taken names the command that has it. */
    method RegisterCommand(pane: PaneKey, id: CommandId, marker: seq<Byte>, deadline: nat, waits: bool)
      returns (r: Result<CommandId, CommandId>)
      modifies this
      ensures (View(), r) == Register(old(View()), pane, id, marker, deadline, waits)
    {
      if pane in active {
        return Err(active[pane]);
      }
      var waiter := if waits then Unanswered else NoWaiter;
      commands := commands[id := Tracked(pane, marker, deadline, Running, waiter, false, [], false, None)];
      active := active[pane := id];
      issued := issued + {id};
      r := Ok(id);
    }

    method FinishCommand(id: CommandId, state: CommandState, code: Option<nat>) returns (r: Option<CommandResult>)
      modifies this
      ensures (View(), r) == Finish(old(View()), id, state, code)
    {
      hide Keep, EndNeedle, Find;
      if id !in commands || commands[id].state != Running {
        return None;
      }
      var cmd := commands[id];
      var held := if cmd.pane in pending then pending[cmd.pane] else [];
      if state != Completed && cmd.begun {
        var end := EndNeedle(cmd.marker);
        var upTo := Find(held, end);
        var own := held[..if upTo.Some? then upTo.value else |held|];
        assert own == OwnHeldBytes(held, end);
        KeptFields(cmd, own);
        cmd := Keep(cmd, own);
      }
      var result := CommandResult(id, state, code, cmd.capture, cmd.truncated);
      if cmd.waiter == Unanswered {
        answers := answers + [result];
        cmd := cmd.(waiter := Answered);
      }
      cmd := cmd.(state := state, capture := [], result := Some(result));
      commands := commands[id := cmd];
      r := Some(result);
    }

    method ReleaseCommand(id: CommandId)
      modifies this
      ensures View() == Release(old(View()), id)
    {
      if id !in commands {
        return;
      }
      var pane := commands[id].pane;
      if pane !in active || active[pane] != id {
        return;
      }
      active := active - {pane};
      pending := pending - {pane};
      finished := finished + [id];
      TrimFinished();
    }

    method TrimFinished()
      modifies this
      ensures View() == Trim(old(View()))
    {
      while |finished| > KEEP_FINISHED
        invariant Trim(View()) == Trim(old(View()))
      {
        var oldest := finished[0];
        finished := finished[1..];
        commands := commands - {oldest};
      }
    }

    /** One read of a pane's stream, and the result it brought about. */
    method ProcessOutput(pane: PaneKey, output: seq<Byte>) returns (completed: seq<CommandResult>)
      modifies this
      ensures (View(), completed) == Process(old(View()), pane, output)
    {
      hide Keep, EndNeedle, BeginNeedle, Find, ClassifyEnd, ScanPayload, Finish, Release;
      completed := [];
      if pane !in active {
        return;
      }
      var id := active[pane];
      var buf := Lookup(pending, pane) + output;
      pending := pending - {pane};
      if id !in commands {
        return;
      }
      var cmd := commands[id];
      if !cmd.begun {
        var begin := BeginNeedle(cmd.marker);
        match Find(buf, begin)
        case None =>
          pending := pending[pane := buf[|buf| - Min(|buf|, |begin| - 1)..]];
          KeepNothing(cmd);
          assert commands[id := cmd] == commands;
          return;
        case Some(at) =>
          var line := buf[at + |begin|..];
          match Find(line, [NEWLINE])
          case None =>
            pending := pending[pane := buf[at..]];
            KeepNothing(cmd);
            assert commands[id := cmd] == commands;
            return;
          case Some(nl) =>
            buf := line[nl + 1..];
            cmd := cmd.(begun := true);
      }
      var kept, rest, exit := SplitPayload(buf, EndNeedle(cmd.marker));
      KeptFields(cmd, kept);
      commands := commands[id := Keep(cmd, kept)];
      match exit
      case None =>
        pending := pending[pane := rest];
      case Some(code) =>
        var r := FinishCommand(id, Completed, Some(code));
        if r.Some? {
          completed := [r.value];
        }
        ReleaseCommand(id);
    }

    /** Time out every overdue command, in whatever order the table yields them. */
    method CheckTimeouts(now: nat) returns (results: seq<(PaneKey, CommandResult)>, ghost order: seq<CommandId>)
      modifies this
      ensures Distinct(order) && forall id :: id in order <==> IsDue(old(View()), id, now)
      ensures View() == TimeOut(old(View()), order)
      ensures |results| == |order|
      ensures forall i :: 0 <= i < |order| ==>
                && order[i] in old(commands) && results[i].0 == old(commands)[order[i]].pane
                && results[i].1.id == order[i] && results[i].1.state == TimedOut
    {
      hide Finish, TimeOut;
      var due := set id | id in commands && commands[id].state == Running && now >= commands[id].deadline;
      ghost var all := due;
      results, order := [], [];
      UnfoldTimeOut(View(), []);
      while due != {}
        invariant due <= all && forall id :: id in all <==> IsDue(old(View()), id, now)
        invariant Distinct(order) && forall id :: id in order <==> id in all && id !in due
        invariant View() == TimeOut(old(View()), order)
        invariant forall id :: id in due ==> id in commands && commands[id] == old(commands)[id]
        invariant |results| == |order|
        invariant forall i :: 0 <= i < |order| ==>
                    && order[i] in old(commands) && results[i].0 == old(commands)[order[i]].pane
                    && results[i].1.id == order[i] && results[i].1.state == TimedOut
        decreases |due|
      {
        var id :| id in due;
        ghost var before := View();
        var pane := commands[id].pane;
        var r := FinishCommand(id, TimedOut, None);
        FinishOnlyTouches(before, id, TimedOut, None);
        TimeOutSnoc(old(View()), order, id);
        results := results + [(pane, r.value)];
        order := order + [id];
        due := due - {id};
      }
    }

    /** End the command and free its pane, provided it has one; a timeout beforehand makes no difference. */
    method CancelCommand(id: CommandId) returns (pane: Option<PaneKey>)
      modifies this
      ensures (View(), pane) == Cancel(old(View()), id)
    {
      hide Finish, Release;
      if id !in commands {
        return None;
      }
      var p := commands[id].pane;
      if p !in active || active[p] != id {
        return None;
      }
      var _ := FinishCommand(id, Cancelled, None);
      ReleaseCommand(id);
      pane := Some(p);
    }

    /** A pane that disappears ends the command in it there and then. */
    method ForgetPane(pane: PaneKey)
      modifies this
      ensures View() == Forget(old(View()), pane)
    {
      hide Finish, Release;
      if pane in active {
        var id := active[pane];
        var _ := FinishCommand(id, PaneGone, None);
        ReleaseCommand(id);
      }
      pending := pending - {pane};
    }
  }

  lemma KeepNothing(c: Tracked)
    ensures Keep(c, []) == c
  {
    assert c.capture + [] == c.capture;
  }

  /** The scanning loop: bytes to keep, bytes to hold, and the exit code once the END marker is there. */
  method SplitPayload(input: seq<Byte>, end: seq<Byte>) returns (kept: seq<Byte>, rest: seq<Byte>, exit: Option<nat>)
    requires |end| > 0
    ensures Scan(kept, rest, exit) == ScanPayload(input, end)
  {
    hide Find, ClassifyEnd;
    kept, rest, exit := [], input, None;
    while true
      invariant ScanPayload(input, end) == After(Scan(kept, [], None), ScanPayload(rest, end))
      decreases |rest|
    {
      match Find(rest, end)
      case None =>
        var take := |rest| - Min(|rest|, |end| - 1);
        kept, rest := kept + rest[..take], rest[take..];
        return;
      case Some(at) =>
        match ClassifyEnd(rest[at + |end|..])
        case Incomplete =>
          kept, rest := kept + rest[..at], rest[at..];
          return;
        case NotMarker =>
          var s := ScanPayload(rest[at + |end|..], end);
          assert kept + (rest[..at + |end|] + s.kept) == kept + rest[..at + |end|] + s.kept;
          kept, rest := kept + rest[..at + |end|], rest[at + |end|..];
        case Exit(code) =>
          kept, rest, exit := kept + rest[..at], [], Some(code);
          return;
    }
  }

  lemma FinishOnlyTouches(e: EngineState, id: CommandId, state: CommandState, code: Option<nat>)
    ensures var (e', r) := Finish(e, id, state, code);
            && e'.commands.Keys == e.commands.Keys
            && (forall k :: k in e.commands && k != id ==> e'.commands[k] == e.commands[k])
            && (id in e.commands && e.commands[id].state == Running ==>
                 r.Some? && r.value.id == id && r.value.state == state)
  {
  }

  lemma UnfoldTimeOut(e: EngineState, ids: seq<CommandId>)
    ensures TimeOut(e, ids) == if ids == [] then e else TimeOut(Finish(e, ids[0], TimedOut, None).0, ids[1..])
  {
  }

  lemma {:induction false} TimeOutSnoc(e: EngineState, ids: seq<CommandId>, id: CommandId)
    ensures TimeOut(e, ids + [id]) == Finish(TimeOut(e, ids), id, TimedOut, None).0
    decreases |ids|
  {
    hide Finish;
    if ids == [] {
      assert ids + [id] == [id];
    } else {
      assert (ids + [id])[1..] == ids[1..] + [id];
      TimeOutSnoc(Finish(e, ids[0], TimedOut, None).0, ids[1..], id);
    }
  }
}
