/**
 What callers of the command engine get: the result of a command that ran in
 its shell to the end, of one that was ended early, and what each call leaves
 of the panes and the results remembered.
 */
module CommandReports {
  import opened Wrappers
  import opened ByteStrings
  import opened CommandScanner
  import opened CommandEngines

  // ----- A command run to its end -----

  /** What the shell prints for the line typed into it, `payload` being what the command writes. */
  function ShellOutput(hex: seq<Byte>, payload: seq<Byte>, code: nat): seq<Byte> {
    var marker := Bytes("__SHUX_CMD_") + hex + Bytes("__");
    Bytes("SHUX_BEGIN") + marker + [10] + payload + Bytes("SHUX_MARKER") + marker + Bytes("EXIT") + Printed(code)
    + Bytes("SHUX_END") + [10]
  }

  /** `needle` occurs in `hay` first at its very end, where it is complete. */
  ghost predicate EndsWithFirst(hay: seq<Byte>, needle: seq<Byte>) {
    && |needle| <= |hay| && hay[|hay| - |needle|..] == needle
    && forall i: nat :: i < |hay| - |needle| ==> !OccursAt(hay, needle, i)
  }

  lemma SuffixSpelled()
    ensures Bytes("SHUX_END") == SUFFIX
  {
  }

  lemma FirstStaysFirst(before: seq<Byte>, needle: seq<Byte>, after: seq<Byte>)
    requires EndsWithFirst(before, needle)
    ensures var at := |before| - |needle|;
            OccursAt(before + after, needle, at) && forall i: nat :: i < at ==> !OccursAt(before + after, needle, i)
  {
    var (at, all) := (|before| - |needle|, before + after);
    assert all[at..at + |needle|] == before[at..];
    forall i: nat | i < at
      ensures !OccursAt(all, needle, i)
    {
      assert all[i..i + |needle|] == before[i..i + |needle|];
      assert !OccursAt(before, needle, i);
    }
  }

  lemma StartsAfterLine(echo: seq<Byte>, begin: seq<Byte>, after: seq<Byte>)
    requires EndsWithFirst(echo + begin, begin)
    ensures PayloadStarts(echo + begin + [NEWLINE] + after, begin, |echo| + |begin| + 1)
  {
    var (before, rest) := (echo + begin, [NEWLINE] + after);
    FirstStaysFirst(before, begin, rest);
    var stream := echo + begin + [NEWLINE] + after;
    assert stream == before + rest;
    assert stream[|before|] == NEWLINE;
    assert OccursAt(stream, begin, |echo|);
  }

  lemma MarkerAfterPayload(payload: seq<Byte>, end: seq<Byte>, code: nat, after: seq<Byte>)
    requires IsEndPrefix(end) && code < 1000
    requires forall i: nat, c: nat ::
               i < |payload| ==> !MarkerAt(payload + end + Printed(code) + SUFFIX + after, end, i, c)
    ensures FirstGenuineAt(payload + end + Printed(code) + SUFFIX + after, end, |payload|, code)
  {
    hide MarkerAt;
    var all := payload + end + Printed(code) + SUFFIX + after;
    MarkerIsThere(payload, end, code, after);
  }

  lemma MarkerIsThere(payload: seq<Byte>, end: seq<Byte>, code: nat, after: seq<Byte>)
    requires code < 1000
    ensures MarkerAt(payload + end + Printed(code) + SUFFIX + after, end, |payload|, code)
  {
    var all := payload + end + Printed(code) + SUFFIX + after;
    PrintedIsPadded(code);
    assert all[|payload|..|payload| + |end|] == end;
    var rest := all[|payload| + |end|..];
    assert rest == Printed(code) + SUFFIX + after;
    assert rest[..|Printed(code)| + |SUFFIX|] == Printed(code) + SUFFIX;
    assert ReadsExitIn(rest, code, |Printed(code)|);
  }

  /**
   A command's line typed into its pane makes the shell print the BEGIN line, the command's output and the END marker
   with its exit code. Whatever the pane shows before and after, and however the stream is cut into reads, the engine
   reports that code and that output, cut at the capture limit.
   */
  lemma ShellOutputIsReported(
      e: EngineState, pane: PaneKey, id: CommandId, hex: seq<Byte>, deadline: nat, waits: bool,
      echo: seq<Byte>, payload: seq<Byte>, code: nat, after: seq<Byte>, chunks: seq<seq<Byte>>)
    requires Valid(e) && pane !in e.active && id !in e.issued && chunks != []
    requires forall i :: 0 <= i < |hex| ==> IsHexDigit(hex[i])
    requires code < 1000 && Concat(chunks) == echo + ShellOutput(hex, payload, code) + after
    requires EndsWithFirst(echo + BeginNeedle(MarkerOf(hex)), BeginNeedle(MarkerOf(hex)))
    requires forall i: nat, c: nat :: i < |payload| ==>
               !MarkerAt(payload + EndNeedle(MarkerOf(hex)) + Printed(code) + SUFFIX + ([NEWLINE] + after),
                         EndNeedle(MarkerOf(hex)), i, c)
    ensures FeedAll(Register(e, pane, id, MarkerOf(hex), deadline, waits).0, pane, chunks).1
            == [CommandResult(id, Completed, Some(code), Cut(payload), |payload| > CAPTURE_LIMIT)]
  {
    hide Valid, FeedAll, Register, PayloadStarts, FirstGenuineAt, MarkerAt, Concat, EndsWithFirst, Printed, OccursAt,
         IsEndPrefix;
    var (begin, end) := (BeginNeedle(MarkerOf(hex)), EndNeedle(MarkerOf(hex)));
    var results := FeedAll(Register(e, pane, id, MarkerOf(hex), deadline, waits).0, pane, chunks).1;
    var tail := payload + end + Printed(code) + SUFFIX + ([NEWLINE] + after);
    StreamTaken(hex, echo, payload, code, after);
    var stream := echo + begin + [NEWLINE] + tail;
    var n := |echo| + |begin| + 1;
    MarkersAreEndPrefixes(hex);
    StartsAfterLine(echo, begin, tail);
    MarkerAfterPayload(payload, end, code, [NEWLINE] + after);
    assert stream[n..] == tail;
    CommandReportsItsOutput(e, pane, id, hex, deadline, waits, chunks, results);
    assert stream[n..n + |payload|] == payload;
  }

  lemma StreamTaken(hex: seq<Byte>, echo: seq<Byte>, payload: seq<Byte>, code: nat, after: seq<Byte>)
    ensures var (begin, end) := (BeginNeedle(MarkerOf(hex)), EndNeedle(MarkerOf(hex)));
            echo + ShellOutput(hex, payload, code) + after
            == echo + begin + [NEWLINE] + (payload + end + Printed(code) + SUFFIX + ([NEWLINE] + after))
  {
    hide Printed;
    SuffixSpelled();
    var marker := MarkerOf(hex);
    var (b, m, x) := (Bytes("SHUX_BEGIN"), Bytes("SHUX_MARKER"), Bytes("EXIT"));
    assert ShellOutput(hex, payload, code)
        == b + marker + [10] + payload + m + marker + x + Printed(code) + SUFFIX + [10];
    hide Bytes, MarkerOf, ShellOutput;
    assert echo + (b + marker + [10] + payload + m + marker + x + Printed(code) + SUFFIX + [10]) + after
        == echo + (b + marker) + [10] + (payload + (m + marker + x) + Printed(code) + SUFFIX + ([10] + after));
  }

  // ----- A command ended early -----

  /** How much of a payload belongs to a command ended now: all of it, but for an END marker begun and still open. */
  ghost predicate IsOwn(own: seq<Byte>, payload: seq<Byte>, end: seq<Byte>) {
    own <= payload && (own == payload || OpenMarker(payload[|own|..], end))
  }

  /** What feeding the whole stream leaves of a fresh command that did not complete. */
  lemma FedSoFar(e: EngineState, pane: PaneKey, id: CommandId, stream: seq<Byte>, c: Consumed)
    requires pane in e.active && e.active[pane] == id && id in e.commands && pane !in e.pending
    requires var cmd := e.commands[id];
             && cmd.pane == pane && cmd.state == Running && cmd.result.None? && cmd.capture == [] && !cmd.truncated
             && !cmd.begun && c == Consume(false, stream, BeginNeedle(cmd.marker), EndNeedle(cmd.marker))
    requires c.exit.None?
    ensures var e' := Process(e, pane, stream).0;
            && id in e'.commands && Lookup(e'.pending, pane) == c.rest
            && e'.commands[id] == Keep(e.commands[id].(begun := c.begun), c.kept)
  {
    hide Consume, Keep, BeginNeedle, EndNeedle;
    assert [] + stream == stream;
  }

  lemma KeptFromNothing(cmd: Tracked, x: seq<Byte>)
    requires cmd.result.None? && cmd.capture == [] && !cmd.truncated
    ensures Keep(cmd, x) == cmd.(capture := Cut(x), truncated := |x| > CAPTURE_LIMIT)
  {
    assert [] + Cut(x) == Cut(x);
  }

  lemma EndedResult(e: EngineState, id: CommandId, state: CommandState, cmd: Tracked, kept: seq<Byte>, held: seq<Byte>)
    requires id in e.commands && state != Completed && cmd.state == Running
    requires cmd.result.None? && cmd.capture == [] && !cmd.truncated
    requires e.commands[id] == Keep(cmd, kept) && Lookup(e.pending, cmd.pane) == held && (!cmd.begun ==> kept == [])
    ensures var own := if cmd.begun then kept + OwnHeldBytes(held, EndNeedle(cmd.marker)) else [];
            Finish(e, id, state, None).1 == Some(CommandResult(id, state, None, Cut(own), |own| > CAPTURE_LIMIT))
  {
    hide OwnHeldBytes, EndNeedle;
    KeptFromNothing(cmd, kept);
    if cmd.begun {
      var more := OwnHeldBytes(held, EndNeedle(cmd.marker));
      KeepTwice(cmd, kept, more);
      KeptFromNothing(cmd, kept + more);
    }
  }

  /** One call of a consumed stream: where the payload starts, and what of it is kept and held. */
  lemma ConsumedSoFar(stream: seq<Byte>, begin: seq<Byte>, end: seq<Byte>)
    requires |begin| > 0 && IsEndPrefix(end) && Consume(false, stream, begin, end).exit.None?
    ensures var c := Consume(false, stream, begin, end);
            && (c.begun <==> exists n: nat :: PayloadStarts(stream, begin, n))
            && (!c.begun ==> c.kept == [])
            && (forall n: nat :: PayloadStarts(stream, begin, n) ==>
                  n <= |stream| && IsOwn(c.kept + OwnHeldBytes(c.rest, end), stream[n..], end))
  {
    hide ScanBegin, ScanPayload, PayloadStarts, IsOwn, OwnHeldBytes;
    StartedWhere(stream, begin);
    match ScanBegin(stream, begin)
    case Waiting(_) =>
    case Started(payload) =>
      var m := |stream| - |payload|;
      Owned(payload, end);
      forall n: nat | PayloadStarts(stream, begin, n)
        ensures n == m
      {
        PayloadStartsOnce(stream, begin, n, m);
      }
  }

  lemma Owned(payload: seq<Byte>, end: seq<Byte>)
    requires |end| > 0 && ScanPayload(payload, end).exit.None?
    ensures var s := ScanPayload(payload, end); IsOwn(s.kept + OwnHeldBytes(s.rest, end), payload, end)
  {
    EarlyEndOwnsThePayload(payload, end);
  }

  /**
   A command that times out, is cancelled or loses its pane before its END marker reports all of its output so far,
   cut at the capture limit, or nothing if its BEGIN line has not come yet.
   */
  lemma EarlyEndIsReported(
      e: EngineState, pane: PaneKey, id: CommandId, hex: seq<Byte>, deadline: nat, waits: bool,
      chunks: seq<seq<Byte>>, state: CommandState) returns (own: seq<Byte>)
    requires Valid(e) && pane !in e.active && id !in e.issued && chunks != [] && state != Completed
    requires forall i :: 0 <= i < |hex| ==> IsHexDigit(hex[i])
    requires FeedAll(Register(e, pane, id, MarkerOf(hex), deadline, waits).0, pane, chunks).1 == []
    ensures var (stream, begin, end) := (Concat(chunks), BeginNeedle(MarkerOf(hex)), EndNeedle(MarkerOf(hex)));
            var fed := FeedAll(Register(e, pane, id, MarkerOf(hex), deadline, waits).0, pane, chunks).0;
            && Finish(fed, id, state, None).1 == Some(CommandResult(id, state, None, Cut(own), |own| > CAPTURE_LIMIT))
            && (forall n: nat :: PayloadStarts(stream, begin, n) ==> n <= |stream| && IsOwn(own, stream[n..], end))
            && ((forall n: nat :: !PayloadStarts(stream, begin, n)) ==> own == [])
  {
    hide Valid, FeedAll, PayloadStarts, IsOwn, MarkerOf, BeginNeedle, EndNeedle, Consume, Keep, OwnHeldBytes, Concat,
         IsEndPrefix, Process, Finish;
    var (stream, begin, end) := (Concat(chunks), BeginNeedle(MarkerOf(hex)), EndNeedle(MarkerOf(hex)));
    var e0 := Register(e, pane, id, MarkerOf(hex), deadline, waits).0;
    RegisterKeeps(e, pane, id, MarkerOf(hex), deadline, waits);
    ReadsMakeNoDifference(e0, pane, chunks);
    MarkersAreEndPrefixes(hex);
    NothingPending(e, pane);
    var c := Consume(false, stream, begin, end);
    FreshCommandResult(e0, pane, id, stream, c);
    FedSoFar(e0, pane, id, stream, c);
    ConsumedSoFar(stream, begin, end);
    var cmd := e0.commands[id].(begun := c.begun);
    own := if c.begun then c.kept + OwnHeldBytes(c.rest, end) else [];
    EndedResult(Process(e0, pane, stream).0, id, state, cmd, c.kept, c.rest);
  }

  // ----- What the calls leave -----

  /** The results remembered are those of the commands released last, up to the number kept. */
  lemma {:induction false} TrimKeepsTheLatest(e: EngineState)
    ensures var k := Max(0, |e.finished| - KEEP_FINISHED);
            && Trim(e).finished == e.finished[k..]
            && Trim(e).commands == e.commands - (set id | id in e.finished[..k])
    decreases |e.finished|
  {
    if |e.finished| <= KEEP_FINISHED {
      assert (set id | id in e.finished[..0]) == {};
    } else {
      var e1 := e.(finished := e.finished[1..], commands := e.commands - {e.finished[0]});
      TrimKeepsTheLatest(e1);
      var k := |e.finished| - KEEP_FINISHED;
      var (all, rest) := (e.finished[..k], e1.finished[..k - 1]);
      assert all == [e.finished[0]] + rest;
      assert e.commands - {e.finished[0]} - (set id | id in rest) == e.commands - (set id | id in all);
    }
  }

  /** Ending the command in a pane frees the pane, and gives the command a result if it had none. */
  lemma EndingFreesThePane(e: EngineState, pane: PaneKey, state: CommandState)
    requires Valid(e) && pane in e.active && state != Running
    ensures var id := e.active[pane];
            var e' := Release(Finish(e, id, state, None).0, id);
            && pane !in e'.active && pane !in e'.pending && e'.active == e.active - {pane}
            && id in e'.commands && id in e'.finished
            && e'.commands[id].state == (if e.commands[id].state == Running then state else e.commands[id].state)
            && e'.commands[id].result.Some? && e'.commands[id].result.value.state == e'.commands[id].state
  {
    var id := e.active[pane];
    assert Holds(e, id);
    var e1 := Finish(e, id, state, None).0;
    assert id in e1.commands && e1.commands[id].result.Some? && e1.finished == e.finished && e1.active == e.active
           && e1.commands[id].pane == pane;
    hide Valid, Finish, Trim;
    var e2 := e1.(active := e1.active - {pane}, pending := e1.pending - {pane}, finished := e1.finished + [id]);
    TrimKeepsPanes(e2);
    TrimKeepsTheLatest(e2);
    LatestStays(e1.finished, id, Max(0, |e2.finished| - KEEP_FINISHED));
  }

  lemma LatestStays(finished: seq<CommandId>, id: CommandId, k: nat)
    requires id !in finished && k <= |finished|
    ensures id in (finished + [id])[k..] && id !in (finished + [id])[..k]
  {
    assert (finished + [id])[k..] == finished[k..] + [id];
    assert (finished + [id])[..k] == finished[..k];
  }

  /** A cancel ends just the command that holds its pane, and says which pane that was. */
  lemma CancelEndsTheHolder(e: EngineState, id: CommandId)
    requires Valid(e)
    ensures Cancel(e, id).1.Some? <==> Holds(e, id)
    ensures Holds(e, id) ==>
              var (e', pane) := Cancel(e, id);
              && pane == Some(e.commands[id].pane) && pane.value !in e'.active && id in e'.commands
              && (e.commands[id].state == Running ==> e'.commands[id].state == Cancelled)
    ensures !Holds(e, id) ==> Cancel(e, id).0 == e
  {
    if Holds(e, id) {
      hide Valid, Finish, Release;
      EndingFreesThePane(e, e.commands[id].pane, Cancelled);
    }
  }

  /** A timeout gives a running command its result and leaves it in its pane. */
  lemma TimeoutKeepsThePane(e: EngineState, id: CommandId)
    requires id in e.commands
    ensures var e' := Finish(e, id, TimedOut, None).0;
            && e'.active == e.active && e'.pending == e.pending && e'.finished == e.finished
            && (e.commands[id].state == Running ==>
                  e'.commands[id].state == TimedOut && e'.commands[id].result.Some?)
            && (e.commands[id].state != Running ==> e' == e)
  {
    hide OwnHeldBytes, EndNeedle;
  }

  /** A pane that goes away ends its command, if it has one, and leaves nothing held for it. */
  lemma ForgetEndsTheCommand(e: EngineState, pane: PaneKey)
    requires Valid(e)
    ensures var e' := Forget(e, pane);
            && pane !in e'.active && pane !in e'.pending
            && (pane in e.active ==>
                  var id := e.active[pane];
                  id in e'.commands && (e.commands[id].state == Running ==> e'.commands[id].state == PaneGone))
  {
    if pane in e.active {
      hide Valid, Finish, Release;
      EndingFreesThePane(e, pane, PaneGone);
    }
  }

  /** A command is taken on exactly when its pane is free, and then runs there; otherwise the one there is named. */
  lemma RegisterTakesFreePanes(
      e: EngineState, pane: PaneKey, id: CommandId, marker: seq<Byte>, deadline: nat, waits: bool)
    ensures var (e', r) := Register(e, pane, id, marker, deadline, waits);
            if pane in e.active then e' == e && r == Err(e.active[pane])
            else
              && r == Ok(id) && pane in e'.active && e'.active[pane] == id && id in e'.commands
              && e'.commands[id].state == Running && e'.commands[id].pane == pane
              && e'.commands[id].deadline == deadline
              && (forall q :: q != pane ==> (q in e'.active <==> q in e.active))
              && (forall q :: q in e.active ==> e'.active[q] == e.active[q])
  {
  }
}
