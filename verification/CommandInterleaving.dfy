/**
 Many panes share one engine. What a pane's command comes to depends on that
 pane's bytes alone, however calls about other panes fall in between.
 */
module CommandInterleavings {
  import opened Wrappers
  import opened ByteStrings
  import opened CommandScanner
  import opened CommandEngines

  /** All the engine holds for a pane: its command and the bytes held back. */
  datatype Share = Share(id: CommandId, command: Tracked, held: seq<Byte>)

  function PaneShare(e: EngineState, pane: PaneKey): Option<Share> {
    if pane in e.active && e.active[pane] in e.commands
    then Some(Share(e.active[pane], e.commands[e.active[pane]], Lookup(e.pending, pane)))
    else None
  }

  /** A call about other panes: it neither names this one nor ends its command. */
  predicate IsElsewhere(e: EngineState, s: Step, pane: PaneKey) {
    match s
    case DoRegister(q, _, _, _, _) => q != pane
    case DoOutput(q, _) => q != pane
    case DoTimeouts(order) => pane in e.active ==> e.active[pane] !in order
    case DoCancel(id) => pane in e.active ==> id != e.active[pane]
    case DoForget(q) => q != pane
  }

  // ----- Calls elsewhere -----

  lemma {:induction false} TrimSpares(e: EngineState, id: CommandId)
    requires id !in e.finished && id in e.commands
    ensures var e' := Trim(e); id in e'.commands && e'.commands[id] == e.commands[id]
    decreases |e.finished|
  {
    if |e.finished| > KEEP_FINISHED {
      var e1 := e.(finished := e.finished[1..], commands := e.commands - {e.finished[0]});
      TrimSpares(e1, id);
    }
  }

  lemma ReleaseSpares(e: EngineState, id: CommandId, pane: PaneKey)
    requires PaneShare(e, pane).Some? ==>
               PaneShare(e, pane).value.id != id && PaneShare(e, pane).value.id !in e.finished
    requires pane in e.active ==> e.active[pane] in e.commands
    requires id in e.commands ==> e.commands[id].pane != pane
    ensures PaneShare(Release(e, id), pane) == PaneShare(e, pane)
  {
    if id in e.commands && e.commands[id].pane in e.active && e.active[e.commands[id].pane] == id {
      var q := e.commands[id].pane;
      var e1 := e.(active := e.active - {q}, pending := e.pending - {q}, finished := e.finished + [id]);
      TrimKeepsPanes(e1);
      if pane in e.active {
        TrimSpares(e1, e.active[pane]);
      }
    }
  }

  lemma FinishSpares(e: EngineState, id: CommandId, state: CommandState, code: Option<nat>, pane: PaneKey)
    requires pane in e.active ==> id != e.active[pane]
    ensures var e' := Finish(e, id, state, code).0;
            && PaneShare(e', pane) == PaneShare(e, pane) && e'.active == e.active && e'.finished == e.finished
            && e'.commands.Keys == e.commands.Keys
            && forall k :: k in e.commands ==> e'.commands[k].pane == e.commands[k].pane
  {
    hide OwnHeldBytes, EndNeedle;
  }

  lemma {:induction false} TimeOutSpares(e: EngineState, order: seq<CommandId>, pane: PaneKey)
    requires pane in e.active ==> e.active[pane] !in order
    ensures PaneShare(TimeOut(e, order), pane) == PaneShare(e, pane)
    decreases |order|
  {
    hide Finish;
    if order != [] {
      FinishSpares(e, order[0], TimedOut, None, pane);
      TimeOutSpares(Finish(e, order[0], TimedOut, None).0, order[1..], pane);
    }
  }

  /** The command holding the pane is not the one holding another, and has not finished. */
  lemma HoldersDiffer(e: EngineState, pane: PaneKey, q: PaneKey)
    requires Valid(e) && pane in e.active
    ensures e.active[pane] in e.commands && e.active[pane] !in e.finished
    ensures q in e.active ==> e.active[q] in e.commands && e.commands[e.active[q]].pane == q
    ensures q in e.active && q != pane ==> e.active[q] != e.active[pane]
  {
    hide ResultsAgree, AnswersAgree;
    assert Holds(e, e.active[pane]);
  }

  lemma EndingSpares(e: EngineState, q: PaneKey, state: CommandState, pane: PaneKey)
    requires Valid(e) && q in e.active && q != pane
    ensures PaneShare(Release(Finish(e, e.active[q], state, None).0, e.active[q]), pane) == PaneShare(e, pane)
  {
    hide Valid, Finish, Release;
    HoldersDiffer(e, q, q);
    if pane in e.active {
      HoldersDiffer(e, pane, q);
    }
    FinishSpares(e, e.active[q], state, None, pane);
    ReleaseSpares(Finish(e, e.active[q], state, None).0, e.active[q], pane);
  }

  lemma OutputSpares(e: EngineState, q: PaneKey, output: seq<Byte>, pane: PaneKey)
    requires Valid(e) && q != pane
    ensures PaneShare(Process(e, q, output).0, pane) == PaneShare(e, pane)
  {
    if q in e.active {
      HoldersDiffer(e, q, q);
      if pane in e.active {
        HoldersDiffer(e, pane, q);
      }
      hide Valid, Consume, BeginNeedle, EndNeedle, Keep, Finish, Release;
      var id := e.active[q];
      var cmd := e.commands[id];
      var buf := Lookup(e.pending, q) + output;
      var c := Consume(cmd.begun, buf, BeginNeedle(cmd.marker), EndNeedle(cmd.marker));
      KeptFields(cmd.(begun := c.begun), c.kept);
      var fed := e.(pending := e.pending - {q}, commands := e.commands[id := Keep(cmd.(begun := c.begun), c.kept)]);
      assert PaneShare(fed, pane) == PaneShare(e, pane);
      if c.exit.Some? {
        FinishSpares(fed, id, Completed, c.exit, pane);
        ReleaseSpares(Finish(fed, id, Completed, c.exit).0, id, pane);
      }
    }
  }

  /** Calls elsewhere leave the pane's share of the engine as it is. */
  lemma ElsewhereSpares(e: EngineState, s: Step, pane: PaneKey)
    requires Valid(e) && Enabled(e, s) && IsElsewhere(e, s, pane)
    ensures PaneShare(Exec(e, s), pane) == PaneShare(e, pane)
  {
    hide Process, Release, Finish;
    match s
    case DoRegister(q, id, marker, deadline, waits) =>
      if pane in e.active {
        HoldersDiffer(e, pane, pane);
      }
    case DoOutput(q, output) => OutputSpares(e, q, output, pane);
    case DoTimeouts(order) => TimeOutSpares(e, order, pane);
    case DoCancel(id) =>
      if id in e.commands && e.commands[id].pane in e.active && e.active[e.commands[id].pane] == id {
        EndingSpares(e, e.commands[id].pane, Cancelled, pane);
      }
    case DoForget(q) =>
      if q in e.active {
        EndingSpares(e, q, PaneGone, pane);
      }
  }

  // ----- Output in the pane -----

  lemma FinishSeesShare(e: EngineState, f: EngineState, id: CommandId, code: nat)
    requires id in e.commands && id in f.commands && e.commands[id] == f.commands[id]
    ensures Finish(e, id, Completed, Some(code)).1 == Finish(f, id, Completed, Some(code)).1
  {
    hide OwnHeldBytes, EndNeedle;
  }

  lemma ReleaseFrees(e: EngineState, pane: PaneKey)
    requires pane in e.active && e.active[pane] in e.commands && e.commands[e.active[pane]].pane == pane
    ensures PaneShare(Release(e, e.active[pane]), pane) == None
  {
    var id := e.active[pane];
    TrimKeepsPanes(e.(active := e.active - {pane}, pending := e.pending - {pane}, finished := e.finished + [id]));
  }

  lemma FinishHolds(e: EngineState, pane: PaneKey, code: nat)
    requires pane in e.active && e.active[pane] in e.commands && e.commands[e.active[pane]].pane == pane
    ensures var e' := Finish(e, e.active[pane], Completed, Some(code)).0;
            && e'.active == e.active && e'.commands.Keys == e.commands.Keys && e'.commands[e.active[pane]].pane == pane
  {
    hide OwnHeldBytes, EndNeedle;
  }

  /** What a read reports, and what it leaves of the pane's share, follow from that share. */
  lemma OutputSeesShare(e: EngineState, f: EngineState, pane: PaneKey, output: seq<Byte>)
    requires Valid(e) && Valid(f) && PaneShare(e, pane) == PaneShare(f, pane)
    ensures Process(e, pane, output).1 == Process(f, pane, output).1
    ensures PaneShare(Process(e, pane, output).0, pane) == PaneShare(Process(f, pane, output).0, pane)
  {
    if pane in e.active {
      HoldersDiffer(e, pane, pane);
    }
    if pane in f.active {
      HoldersDiffer(f, pane, pane);
    }
    hide Valid, Consume, BeginNeedle, EndNeedle, Keep, Finish, Release;
    if pane in e.active {
      var id := e.active[pane];
      var cmd := e.commands[id];
      var buf := Lookup(e.pending, pane) + output;
      var c := Consume(cmd.begun, buf, BeginNeedle(cmd.marker), EndNeedle(cmd.marker));
      KeptFields(cmd.(begun := c.begun), c.kept);
      var kept := Keep(cmd.(begun := c.begun), c.kept);
      var e1 := e.(pending := e.pending - {pane}, commands := e.commands[id := kept]);
      var f1 := f.(pending := f.pending - {pane}, commands := f.commands[id := kept]);
      if c.exit.Some? {
        FinishSeesShare(e1, f1, id, c.exit.value);
        FinishHolds(e1, pane, c.exit.value);
        FinishHolds(f1, pane, c.exit.value);
        ReleaseFrees(Finish(e1, id, Completed, c.exit).0, pane);
        ReleaseFrees(Finish(f1, id, Completed, c.exit).0, pane);
      }
    }
  }

  // ----- Any interleaving -----

  /** The reads of one pane, in order. */
  function Reads(steps: seq<Step>, pane: PaneKey): seq<seq<Byte>> {
    if steps == [] then [] else
    (if steps[0].DoOutput? && steps[0].pane == pane then [steps[0].output] else []) + Reads(steps[1..], pane)
  }

  /** Run the calls, collecting what the pane's own reads complete. */
  function Play(e: EngineState, steps: seq<Step>, pane: PaneKey): (EngineState, seq<CommandResult>)
    decreases |steps|
  {
    if steps == [] then (e, []) else
    var s := steps[0];
    var mine := if s.DoOutput? && s.pane == pane then Process(e, pane, s.output).1 else [];
    var (e', rest) := Play(Exec(e, s), steps[1..], pane);
    (e', mine + rest)
  }

  /** Every call is a read of the pane or about others. */
  predicate Interleaves(e: EngineState, steps: seq<Step>, pane: PaneKey)
    decreases |steps|
  {
    steps == [] ||
    (&& Enabled(e, steps[0]) && ((steps[0].DoOutput? && steps[0].pane == pane) || IsElsewhere(e, steps[0], pane))
     && Interleaves(Exec(e, steps[0]), steps[1..], pane))
  }

  /** Calls about other panes, wherever they fall, change nothing of what the pane's reads report. */
  lemma {:induction false} InterleavingMakesNoDifference(e: EngineState, f: EngineState, steps: seq<Step>,
                                                         pane: PaneKey)
    requires Valid(e) && Valid(f) && PaneShare(e, pane) == PaneShare(f, pane) && Interleaves(e, steps, pane)
    ensures Play(e, steps, pane).1 == FeedAll(f, pane, Reads(steps, pane)).1
    ensures PaneShare(Play(e, steps, pane).0, pane) == PaneShare(FeedAll(f, pane, Reads(steps, pane)).0, pane)
    decreases |steps|
  {
    hide Valid, Process, PaneShare, IsElsewhere, Enabled;
    if steps != [] {
      var s := steps[0];
      StepKeeps(e, s);
      if s.DoOutput? && s.pane == pane {
        OutputSeesShare(e, f, pane, s.output);
        ProcessKeeps(f, pane, s.output);
        InterleavingMakesNoDifference(Exec(e, s), Process(f, pane, s.output).0, steps[1..], pane);
        assert Reads(steps, pane)[1..] == Reads(steps[1..], pane);
      } else {
        hide Exec;
        ElsewhereSpares(e, s, pane);
        InterleavingMakesNoDifference(Exec(e, s), f, steps[1..], pane);
        assert [] + Play(Exec(e, s), steps[1..], pane).1 == Play(Exec(e, s), steps[1..], pane).1;
        assert [] + Reads(steps[1..], pane) == Reads(steps[1..], pane);
      }
    }
  }

  /**
   A command registered in a free pane reports its output under every interleaving: it completes exactly when its own
   pane's bytes hold a BEGIN line and after it a genuine END marker, with that marker's code and the bytes between.
   */
  lemma InterleavedCommandReportsItsOutput(
      e: EngineState, pane: PaneKey, id: CommandId, hex: seq<Byte>, deadline: nat, waits: bool,
      steps: seq<Step>, results: seq<CommandResult>)
    requires Valid(e) && pane !in e.active && id !in e.issued && Reads(steps, pane) != []
    requires forall i :: 0 <= i < |hex| ==> IsHexDigit(hex[i])
    requires Interleaves(Register(e, pane, id, MarkerOf(hex), deadline, waits).0, steps, pane)
    requires results == Play(Register(e, pane, id, MarkerOf(hex), deadline, waits).0, steps, pane).1
    ensures var stream, begin, end := Concat(Reads(steps, pane)), BeginNeedle(MarkerOf(hex)), EndNeedle(MarkerOf(hex));
            && (forall n: nat, at: nat, code: nat ::
                  PayloadStarts(stream, begin, n) && n <= |stream| && FirstGenuineAt(stream[n..], end, at, code) ==>
                    n + at <= |stream|
                    && results == [CommandResult(id, Completed, Some(code), Cut(stream[n..n + at]),
                                                 at > CAPTURE_LIMIT)])
            && (results != [] ==> exists n: nat, at: nat, code: nat ::
                  PayloadStarts(stream, begin, n) && n <= |stream| && FirstGenuineAt(stream[n..], end, at, code))
  {
    hide Valid, FeedAll, Play, Register, Interleaves, PayloadStarts, FirstGenuineAt, MarkerOf, BeginNeedle, EndNeedle,
         Cut,
         Concat, Reads;
    var e0 := Register(e, pane, id, MarkerOf(hex), deadline, waits).0;
    RegisterKeeps(e, pane, id, MarkerOf(hex), deadline, waits);
    InterleavingMakesNoDifference(e0, e0, steps, pane);
    CommandReportsItsOutput(e, pane, id, hex, deadline, waits, Reads(steps, pane), results);
  }
}
