/**
 One terminal's table of program-status records: capped at 256, least recently
 reported out first, read back in order of urgency.

 `Table` is the table's value; the functions on it specify `StatusTable`, and the
 laws are about every sequence of reports and lifetime events.
 */
module StatusTables {
  import opened Wrappers
  import opened ByteStrings
  import opened StatusModel

  const MAX_RECORDS: nat := 256

  /** The key of a record: a path, or `None` for the root. */
  type Key = Option<RecordId>

  /** `reported` drives eviction, `updated` display order; `stamp` and `stampIn` are the caller's stamps. */
  datatype Entry = Entry(key: Key, record: Record, reported: nat, updated: nat, stamp: nat, stampIn: map<State, nat>)

  datatype Table = Table(entries: seq<Entry>, clock: nat, revision: nat)

  const EMPTY := Table([], 0, 0)

  datatype Op =
    | Report(report: StatusModel.Report, stamp: nat)
    | PromptStart
    | ProcessExit
    | FullReset

  // ----- Lookups -----

  function IndexOf(entries: seq<Entry>, key: Key): (r: Option<nat>)
    ensures r.Some? ==> r.value < |entries| && entries[r.value].key == key
    ensures r.None? ==> forall i :: 0 <= i < |entries| ==> entries[i].key != key
  {
    if entries == [] then None
    else if entries[0].key == key then Some(0)
    else
      match IndexOf(entries[1..], key)
      case None => None
      case Some(k) => Some(k + 1)
  }

  /** The first entry whose last report is the oldest. */
  function OldestIndex(entries: seq<Entry>): (k: nat)
    requires entries != []
    ensures k < |entries|
    ensures forall i :: 0 <= i < |entries| ==> entries[k].reported <= entries[i].reported
  {
    if |entries| == 1 then 0 else
    var k := 1 + OldestIndex(entries[1..]);
    if entries[0].reported <= entries[k].reported then 0 else k
  }

  /** The last element takes the removed one's place. */
  function SwapRemove(entries: seq<Entry>, k: nat): (r: seq<Entry>)
    requires k < |entries|
    ensures |r| == |entries| - 1
    ensures forall i :: 0 <= i < |r| ==> r[i] == entries[if i == k then |entries| - 1 else i]
  {
    var front := entries[..|entries| - 1];
    if k == |entries| - 1 then front else front[k := entries[|entries| - 1]]
  }

  function Filter(entries: seq<Entry>, keep: Entry -> bool): seq<Entry> {
    if entries == [] then []
    else (if keep(entries[0]) then [entries[0]] else []) + Filter(entries[1..], keep)
  }

  // ----- Operations -----

  function SetRecord(t: Table, key: Key, record: Record, stamp: nat): Table {
    var now := t.clock + 1;
    match IndexOf(t.entries, key)
    case Some(k) =>
      var e := t.entries[k];
      var e' := e.(reported := now, stamp := stamp, stampIn := e.stampIn[record.state := stamp]);
      if e.record == record then Table(t.entries[k := e'], now, t.revision)
      else Table(t.entries[k := e'.(record := record, updated := now)], now, t.revision + 1)
    case None =>
      var kept :=
        if |t.entries| >= MAX_RECORDS then SwapRemove(t.entries, OldestIndex(t.entries)) else t.entries;
      Table(kept + [Entry(key, record, now, now, stamp, map[record.state := stamp])], now, t.revision + 1)
  }

  function Retain(t: Table, keep: Entry -> bool): Table {
    var kept := Filter(t.entries, keep);
    t.(entries := kept, revision := if |kept| != |t.entries| then t.revision + 1 else t.revision)
  }

  /** Whether an operation other than a `Set` lets a record stay. */
  predicate Stays(op: Op, key: Key, record: Record) {
    match op
    case Report(Set(_, _), _) => true
    case Report(Clear(None), _) => false
    case Report(Clear(Some(id)), _) => !(key.Some? && IsWithin(key.value, id))
    case PromptStart => SurvivesExit(record.state)
    case ProcessExit => SurvivesExit(record.state)
    case FullReset => false
  }

  function Apply(t: Table, op: Op): Table {
    match op
    case Report(Set(key, record), stamp) => SetRecord(t, key, record, stamp)
    case _ => Retain(t, (e: Entry) => Stays(op, e.key, e.record))
  }

  // ----- Contents -----

  predicate UniqueKeys(entries: seq<Entry>) {
    forall i, j :: 0 <= i < j < |entries| ==> entries[i].key != entries[j].key
  }

  /** What a reader can tell apart: which record each key holds. */
  ghost function Contents(t: Table): map<Key, Record> {
    map key | key in Keys(t.entries) :: t.entries[IndexOf(t.entries, key).value].record
  }

  ghost function Keys(entries: seq<Entry>): (s: set<Key>)
    ensures forall key :: key in s <==> IndexOf(entries, key).Some?
  {
    set i | 0 <= i < |entries| :: entries[i].key
  }

  /** With unique keys, an entry is the one its key finds. */
  lemma FoundAt(entries: seq<Entry>, i: nat)
    requires UniqueKeys(entries) && i < |entries|
    ensures IndexOf(entries, entries[i].key) == Some(i)
  {
    var r := IndexOf(entries, entries[i].key);
    assert r.Some?;
  }

  lemma ContentsAt(t: Table, i: nat)
    requires UniqueKeys(t.entries) && i < |t.entries|
    ensures t.entries[i].key in Contents(t) && Contents(t)[t.entries[i].key] == t.entries[i].record
  {
    FoundAt(t.entries, i);
  }

  // ----- What every table keeps -----

  /** The keys of the `Set` reports in `ops`, in order: the history eviction is about. */
  function Reports(ops: seq<Op>): seq<Key> {
    if ops == [] then [] else
    var rest := Reports(ops[..|ops| - 1]);
    match ops[|ops| - 1]
    case Report(Set(key, _), _) => rest + [key]
    case _ => rest
  }

  function Run(ops: seq<Op>): Table {
    if ops == [] then EMPTY else Apply(Run(ops[..|ops| - 1]), ops[|ops| - 1])
  }

  /** An entry's `reported` is when `history` last named its key. */
  predicate ReportedLast(e: Entry, history: seq<Key>) {
    1 <= e.reported <= |history| && history[e.reported - 1] == e.key && e.key !in history[e.reported..]
  }

  predicate Valid(t: Table, history: seq<Key>) {
    && UniqueKeys(t.entries)
    && |t.entries| <= MAX_RECORDS
    && t.clock == |history|
    && forall i :: 0 <= i < |t.entries| ==> ReportedLast(t.entries[i], history)
  }

  lemma {:induction false} FilterMembers(entries: seq<Entry>, keep: Entry -> bool)
    ensures forall e :: e in Filter(entries, keep) <==> e in entries && keep(e)
  {
    if entries != [] {
      FilterMembers(entries[1..], keep);
      assert entries == [entries[0]] + entries[1..];
    }
  }

  lemma {:induction false} FilterLength(entries: seq<Entry>, keep: Entry -> bool)
    ensures |Filter(entries, keep)| <= |entries|
    ensures |Filter(entries, keep)| == |entries| ==> Filter(entries, keep) == entries
    ensures |Filter(entries, keep)| != |entries| ==> exists i :: 0 <= i < |entries| && !keep(entries[i])
  {
    if entries != [] {
      var rest := entries[1..];
      FilterLength(rest, keep);
      if |Filter(rest, keep)| != |rest| {
        var i :| 0 <= i < |rest| && !keep(rest[i]);
        assert entries[i + 1] == rest[i];
      }
    }
  }

  lemma {:induction false} FilterUnique(entries: seq<Entry>, keep: Entry -> bool)
    requires UniqueKeys(entries)
    ensures UniqueKeys(Filter(entries, keep))
  {
    if entries != [] {
      var rest, f := entries[1..], Filter(entries[1..], keep);
      FilterUnique(rest, keep);
      FilterMembers(rest, keep);
      forall i | 0 <= i < |f|
        ensures f[i].key != entries[0].key
      {
        assert f[i] in f;
        var m :| 0 <= m < |rest| && rest[m] == f[i];
        assert rest[m] == entries[m + 1];
      }
    }
  }

  lemma FilterSubset(entries: seq<Entry>, keep: Entry -> bool)
    requires UniqueKeys(entries)
    ensures UniqueKeys(Filter(entries, keep)) && |Filter(entries, keep)| <= |entries|
    ensures |Filter(entries, keep)| == |entries| ==> Filter(entries, keep) == entries
    ensures |Filter(entries, keep)| != |entries| ==> exists i :: 0 <= i < |entries| && !keep(entries[i])
    ensures forall e :: e in Filter(entries, keep) <==> e in entries && keep(e)
  {
    hide Filter;
    FilterMembers(entries, keep);
    FilterLength(entries, keep);
    FilterUnique(entries, keep);
  }

  /** Every other entry is still there, at its old index or the freed one. */
  lemma SwapRemoveHas(entries: seq<Entry>, k: nat, i: nat)
    requires k < |entries| && i < |entries|
    ensures i != k ==> entries[i].key in Keys(SwapRemove(entries, k))
  {
    hide SwapRemove, IndexOf;
    var r := SwapRemove(entries, k);
    if i != k {
      var j := if i == |entries| - 1 then k else i;
      assert r[j].key == entries[i].key;
    }
  }

  lemma ReportedStays(e: Entry, history: seq<Key>, key: Key)
    requires ReportedLast(e, history) && e.key != key
    ensures ReportedLast(e, history + [key])
  {
    assert (history + [key])[e.reported..] == history[e.reported..] + [key];
  }

  lemma OthersStayReported(entries: seq<Entry>, history: seq<Key>, key: Key)
    requires forall i :: 0 <= i < |entries| ==> ReportedLast(entries[i], history)
    ensures forall i :: 0 <= i < |entries| && entries[i].key != key ==> ReportedLast(entries[i], history + [key])
  {
    forall i | 0 <= i < |entries| && entries[i].key != key
      ensures ReportedLast(entries[i], history + [key])
    {
      ReportedStays(entries[i], history, key);
    }
  }

  lemma SetKeeps(t: Table, history: seq<Key>, key: Key, record: Record, stamp: nat)
    requires Valid(t, history)
    ensures Valid(SetRecord(t, key, record, stamp), history + [key])
  {
    hide OldestIndex, ReportedLast, SwapRemove, IndexOf;
    OthersStayReported(t.entries, history, key);
    var t' := SetRecord(t, key, record, stamp);
    var h' := history + [key];
    if IndexOf(t.entries, key).Some? {
      var k := IndexOf(t.entries, key).value;
      JustReported(t'.entries[k], h');
      ReplacedKeeps(t, t', h', k);
    } else {
      var kept := if |t.entries| >= MAX_RECORDS then SwapRemove(t.entries, OldestIndex(t.entries)) else t.entries;
      assert UniqueKeys(kept);
      assert forall i :: 0 <= i < |kept| ==> kept[i].key != key && ReportedLast(kept[i], h');
      JustReported(t'.entries[|kept|], h');
      AppendedKeeps(kept, t', h');
    }
  }

  lemma ReplacedKeeps(t: Table, t': Table, history: seq<Key>, k: nat)
    requires UniqueKeys(t.entries) && |t.entries| <= MAX_RECORDS
    requires k < |t.entries| == |t'.entries| && t'.clock == |history|
    requires forall i :: 0 <= i < |t.entries| ==> t'.entries[i].key == t.entries[i].key
    requires forall i :: 0 <= i < |t.entries| && i != k ==>
               t'.entries[i] == t.entries[i] && ReportedLast(t.entries[i], history)
    requires ReportedLast(t'.entries[k], history)
    ensures Valid(t', history)
  {
    hide ReportedLast;
  }

  lemma AppendedKeeps(kept: seq<Entry>, t': Table, history: seq<Key>)
    requires UniqueKeys(kept) && |kept| < MAX_RECORDS && |t'.entries| == |kept| + 1 && t'.clock == |history|
    requires forall i :: 0 <= i < |kept| ==>
               t'.entries[i] == kept[i] && kept[i].key != t'.entries[|kept|].key && ReportedLast(kept[i], history)
    requires ReportedLast(t'.entries[|kept|], history)
    ensures Valid(t', history)
  {
    hide ReportedLast;
  }

  lemma JustReported(e: Entry, history: seq<Key>)
    requires history != [] && e.reported == |history| && e.key == history[|history| - 1]
    ensures ReportedLast(e, history)
  {
  }

  lemma RetainKeeps(t: Table, history: seq<Key>, keep: Entry -> bool)
    requires Valid(t, history)
    ensures Valid(Retain(t, keep), history)
  {
    FilterSubset(t.entries, keep);
    var kept := Filter(t.entries, keep);
    assert forall i :: 0 <= i < |kept| ==> kept[i] in t.entries;
  }

  /**
   After any operations the table holds at most 256 records under distinct keys, each stamped with its last report.
   */
  lemma {:induction false} RunsKeepValid(ops: seq<Op>)
    ensures Valid(Run(ops), Reports(ops))
  {
    if ops != [] {
      var before := ops[..|ops| - 1];
      RunsKeepValid(before);
      hide Valid, SetRecord, Retain;
      match ops[|ops| - 1]
      case Report(Set(key, record), stamp) => SetKeeps(Run(before), Reports(before), key, record, stamp);
      case op => RetainKeeps(Run(before), Reports(before), (e: Entry) => Stays(op, e.key, e.record));
    }
  }

  // ----- Why records leave -----

  /** The distinct keys reported after `key`'s last report. */
  ghost function ReportedSince(history: seq<Key>, n: nat): set<Key>
    requires n <= |history|
  {
    set i | n <= i < |history| :: history[i]
  }

  lemma {:induction false} KeyCount(entries: seq<Entry>)
    requires UniqueKeys(entries)
    ensures |Keys(entries)| == |entries|
  {
    if entries != [] {
      var rest := entries[1..];
      assert UniqueKeys(rest);
      KeyCount(rest);
      forall key
        ensures key in Keys(entries) <==> key == entries[0].key || key in Keys(rest)
      {
        if key in Keys(rest) {
          var k := IndexOf(rest, key).value;
          assert entries[k + 1].key == key;
        }
        if key in Keys(entries) && key != entries[0].key {
          var k := IndexOf(entries, key).value;
          assert rest[k - 1].key == key;
        }
      }
      assert Keys(entries) == {entries[0].key} + Keys(rest);
      assert entries[0].key !in Keys(rest);
    }
  }

  /** An evicted record was not reported while 256 other keys were. */
  lemma EvictedWasCrowdedOut(t: Table, history: seq<Key>, key: Key)
    requires Valid(t, history) && |t.entries| >= MAX_RECORDS && IndexOf(t.entries, key).None?
    ensures var e := t.entries[OldestIndex(t.entries)];
            CrowdedOut(history + [key], e.key, e.reported)
  {
    var k := OldestIndex(t.entries);
    var e := t.entries[k];
    hide OldestIndex, IndexOf;
    var h' := history + [key];
    var since := ReportedSince(h', e.reported);
    assert ReportedLast(e, history);
    forall i | 0 <= i < |t.entries| && i != k
      ensures t.entries[i].key in since
    {
      var x := t.entries[i];
      assert ReportedLast(x, history);
      assert x.reported != e.reported;
      assert h'[x.reported - 1] == x.key;
    }
    assert h'[|history|] == key;
    KeyCount(t.entries);
    ManyOthers(t.entries, k, key, since);
    assert h'[e.reported..] == history[e.reported..] + [key];
    assert forall i :: e.reported <= i < |h'| ==> h'[i] == h'[e.reported..][i - e.reported];
  }

  lemma ManyOthers(entries: seq<Entry>, k: nat, key: Key, since: set<Key>)
    requires k < |entries| && |Keys(entries)| == |entries| && IndexOf(entries, key).None? && key in since
    requires forall i :: 0 <= i < |entries| && i != k ==> entries[i].key in since
    ensures |since| >= |entries|
  {
    hide IndexOf;
    var e := entries[k];
    var others := Keys(entries) - {e.key};
    assert e.key in Keys(entries);
    forall x | x in others
      ensures x in since
    {
      var i := IndexOf(entries, x).value;
      assert entries[i].key == x;
    }
    assert |others + {key}| == |entries|;
    SubsetSize(others + {key}, since);
  }

  lemma {:induction false} SubsetSize<X>(a: set<X>, b: set<X>)
    requires a <= b
    ensures |a| <= |b|
  {
    if a != {} {
      var x :| x in a;
      SubsetSize(a - {x}, b - {x});
    }
  }

  /** `key` was last reported as report `n`, and 256 other keys have been reported since. */
  ghost predicate CrowdedOut(history: seq<Key>, key: Key, n: nat) {
    && 1 <= n <= |history| && history[n - 1] == key
    && key !in ReportedSince(history, n)
    && |ReportedSince(history, n)| >= MAX_RECORDS
  }

  /**
   The operation is one to take the record away: a clear of everything or a reset; a clear of a path whose segments the
   record's begin with; or a prompt or exit on a record that is neither done nor failed.
   */
  ghost predicate TakesAway(op: Op, key: Key, record: Record) {
    match op
    case Report(Set(_, _), _) => false
    case Report(Clear(None), _) => true
    case Report(Clear(Some(id)), _) => key.Some? && SplitOn(id, SLASH) <= SplitOn(key.value, SLASH)
    case PromptStart => record.state == Working || record.state == Blocked || record.state == Idle
    case ProcessExit => record.state == Working || record.state == Blocked || record.state == Idle
    case FullReset => true
  }

  lemma StaysMeans(op: Op, key: Key, record: Record)
    ensures Stays(op, key, record) <==> !TakesAway(op, key, record)
  {
    hide SplitOn, IsWithin;
    match op
    case Report(Clear(Some(id)), _) =>
      if key.Some? {
        IsWithinIffSegments(key.value, id);
      }
    case _ =>
  }

  /** What can take a record out of the table. */
  ghost predicate MayLeave(before: seq<Op>, op: Op, key: Key, record: Record) {
    || TakesAway(op, key, record)
    || (op.Report? && op.report.Set? && exists n: nat :: CrowdedOut(Reports(before) + [op.report.id], key, n))
  }

  /**
   In any run, a record leaves only by a clear that covers it, a lifetime event its state does not survive, a
   full reset, or at the cap after 256 other keys were reported since its own last report.
   */
  lemma RecordsLeaveOnlyFor(before: seq<Op>, op: Op, key: Key)
    requires key in Contents(Run(before)) && key !in Contents(Run(before + [op]))
    ensures MayLeave(before, op, key, Contents(Run(before))[key])
  {
    var ops := before + [op];
    assert ops[..|ops| - 1] == before;
    var t, t' := Run(before), Run(ops);
    assert t' == Apply(t, op);
    hide Run;
    RunsKeepValid(before);
    hide TakesAway;
    StaysMeans(op, key, Contents(t)[key]);
    match op
    case Report(Set(k, record), stamp) => LeavesAtTheCap(before, t, op, key);
    case _ => KeptKeysStay(t, key, (e: Entry) => Stays(op, e.key, e.record));
  }

  lemma KeptKeysStay(t: Table, key: Key, keep: Entry -> bool)
    requires UniqueKeys(t.entries) && key in Contents(t)
    ensures t.entries[IndexOf(t.entries, key).value].key == key
    ensures keep(t.entries[IndexOf(t.entries, key).value]) ==> key in Keys(Retain(t, keep).entries)
  {
    hide IndexOf;
    var e := t.entries[IndexOf(t.entries, key).value];
    FilterSubset(t.entries, keep);
    var kept := Filter(t.entries, keep);
    if keep(e) {
      assert e in kept;
      var j :| 0 <= j < |kept| && kept[j] == e;
      assert kept[j].key == key;
    }
  }

  lemma LeavesAtTheCap(before: seq<Op>, t: Table, op: Op, key: Key)
    requires op.Report? && op.report.Set? && Valid(t, Reports(before)) && key in Keys(t.entries)
    ensures key in Keys(Apply(t, op).entries) || MayLeave(before, op, key, Contents(t)[key])
  {
    hide IndexOf, OldestIndex, SwapRemove, CrowdedOut;
    var t' := Apply(t, op);
    var i := IndexOf(t.entries, key).value;
    if IndexOf(t.entries, op.report.id).Some? || |t.entries| < MAX_RECORDS {
      assert t'.entries[i].key == key;
    } else {
      var o := OldestIndex(t.entries);
      var kept := SwapRemove(t.entries, o);
      SwapRemoveHas(t.entries, o, i);
      if i != o {
        var j := IndexOf(kept, key).value;
        assert t'.entries[j].key == key;
      } else {
        EvictedWasCrowdedOut(t, Reports(before), op.report.id);
      }
    }
  }

  // ----- The revision -----

  /** The revision moves, by one, exactly when some key's record changes, appears or goes. */
  lemma RevisionTracksContents(t: Table, history: seq<Key>, op: Op)
    requires Valid(t, history)
    ensures var t' := Apply(t, op);
            t'.revision == if Contents(t') == Contents(t) then t.revision else t.revision + 1
  {
    hide SetRecord, Retain, Contents, Valid;
    match op
    case Report(Set(key, record), stamp) => SetTracksContents(t, history, key, record, stamp);
    case _ => RetainTracksContents(t, history, (e: Entry) => Stays(op, e.key, e.record));
  }

  lemma RetainTracksContents(t: Table, history: seq<Key>, keep: Entry -> bool)
    requires Valid(t, history)
    ensures var t' := Retain(t, keep);
            t'.revision == if Contents(t') == Contents(t) then t.revision else t.revision + 1
  {
    hide IndexOf, Filter;
    FilterSubset(t.entries, keep);
    var kept := Filter(t.entries, keep);
    if |kept| != |t.entries| {
      var i :| 0 <= i < |t.entries| && !keep(t.entries[i]);
      ContentsAt(t, i);
      DroppedKeyGoes(t.entries, kept, keep, i);
    }
  }

  lemma DroppedKeyGoes(entries: seq<Entry>, kept: seq<Entry>, keep: Entry -> bool, i: nat)
    requires UniqueKeys(entries) && i < |entries| && !keep(entries[i])
    requires forall e :: e in kept ==> e in entries && keep(e)
    ensures entries[i].key !in Keys(kept)
  {
    forall j | 0 <= j < |kept|
      ensures kept[j].key != entries[i].key
    {
      assert kept[j] in kept;
      var m :| 0 <= m < |entries| && entries[m] == kept[j];
      assert m != i;
    }
  }

  lemma SetTracksContents(t: Table, history: seq<Key>, key: Key, record: Record, stamp: nat)
    requires Valid(t, history)
    ensures var t' := SetRecord(t, key, record, stamp);
            t'.revision == if Contents(t') == Contents(t) then t.revision else t.revision + 1
    ensures var t' := SetRecord(t, key, record, stamp);
            key in Contents(t') && Contents(t')[key] == record
  {
    hide IndexOf, OldestIndex, SwapRemove;
    var t' := SetRecord(t, key, record, stamp);
    SetKeeps(t, history, key, record, stamp);
    if IndexOf(t.entries, key).Some? {
      var k := IndexOf(t.entries, key).value;
      ContentsAt(t, k);
      ContentsAt(t', k);
      if t.entries[k].record == record {
        SameContents(t, t');
      }
    } else {
      ContentsAt(t', |t'.entries| - 1);
    }
  }

  lemma SameContents(t: Table, t': Table)
    requires UniqueKeys(t.entries) && |t.entries| == |t'.entries|
    requires forall i :: 0 <= i < |t.entries| ==>
               t'.entries[i].key == t.entries[i].key && t'.entries[i].record == t.entries[i].record
    ensures Contents(t) == Contents(t')
  {
    hide IndexOf;
    forall key
      ensures IndexOf(t.entries, key) == IndexOf(t'.entries, key)
    {
      if IndexOf(t.entries, key).Some? {
        FoundAt(t'.entries, IndexOf(t.entries, key).value);
      }
    }
  }

  // ----- What entries remember -----

  ghost function Held(ops: seq<Op>, key: Key): Option<Record> {
    if key in Contents(Run(ops)) then Some(Contents(Run(ops))[key]) else None
  }

  /** The number of the report at which the record under `key` last changed: it appeared, or was replaced by another. */
  ghost function LastChange(ops: seq<Op>, key: Key): nat
    decreases |ops|
  {
    if ops == [] then 0 else
    var before := ops[..|ops| - 1];
    if Held(before, key) == Held(ops, key) then LastChange(before, key) else |Reports(ops)|
  }

  /** What the caller stamped on its latest report under `key`. */
  function LastStamp(ops: seq<Op>, key: Key): nat
    decreases |ops|
  {
    if ops == [] then 0 else
    match ops[|ops| - 1]
    case Report(Set(k, _), stamp) => if k == key then stamp else LastStamp(ops[..|ops| - 1], key)
    case _ => LastStamp(ops[..|ops| - 1], key)
  }

  /** The same for the latest report in state `s`, counting only those since the record now there appeared. */
  ghost function LastStampIn(ops: seq<Op>, key: Key, s: State): Option<nat>
    decreases |ops|
  {
    if ops == [] then None else
    var before := ops[..|ops| - 1];
    var earlier := if Held(before, key).Some? then LastStampIn(before, key, s) else None;
    match ops[|ops| - 1]
    case Report(Set(k, record), stamp) => if k == key && record.state == s then Some(stamp) else earlier
    case _ => earlier
  }

  function StampIn(e: Entry, s: State): Option<nat> {
    if s in e.stampIn then Some(e.stampIn[s]) else None
  }

  /** An entry's times are those of the reports its record got since it appeared. */
  ghost predicate Remembers(e: Entry, ops: seq<Op>) {
    && e.updated == LastChange(ops, e.key) && e.stamp == LastStamp(ops, e.key)
    && forall s: State :: StampIn(e, s) == LastStampIn(ops, e.key, s)
  }

  /** The entry was there already and the operation is not a report under its key. */
  ghost predicate Unreported(t: Table, op: Op, e: Entry) {
    e in t.entries && !(op.Report? && op.report.Set? && op.report.id == e.key)
  }

  /** Where an entry of the next table comes from: untouched, reported again, or new. */
  lemma EntryComesFrom(t: Table, op: Op, e: Entry)
    requires e in Apply(t, op).entries && UniqueKeys(t.entries)
    ensures || Unreported(t, op, e)
            || (&& op.Report? && op.report.Set? && op.report.id == e.key && e.record == op.report.record
                && e.stamp == op.stamp
                && if IndexOf(t.entries, e.key).Some? then
                     var was := t.entries[IndexOf(t.entries, e.key).value];
                     && e.stampIn == was.stampIn[e.record.state := e.stamp]
                     && e.updated == if was.record == e.record then was.updated else t.clock + 1
                   else e.stampIn == map[e.record.state := e.stamp] && e.updated == t.clock + 1)
  {
    match op
    case Report(Set(key, record), stamp) =>
      var j :| 0 <= j < |Apply(t, op).entries| && Apply(t, op).entries[j] == e;
      match IndexOf(t.entries, key) {
        case Some(k) =>
          if j != k {
            assert e == t.entries[j];
          }
        case None =>
      }
    case _ => FilterMembers(t.entries, (f: Entry) => Stays(op, f.key, f.record));
  }

  lemma HeldAt(ops: seq<Op>, e: Entry)
    requires UniqueKeys(Run(ops).entries) && e in Run(ops).entries
    ensures Held(ops, e.key) == Some(e.record) && IndexOf(Run(ops).entries, e.key).Some?
    ensures Run(ops).entries[IndexOf(Run(ops).entries, e.key).value] == e
  {
    var entries := Run(ops).entries;
    var i :| 0 <= i < |entries| && entries[i] == e;
    ContentsAt(Run(ops), i);
    FoundAt(entries, i);
  }

  lemma HeldMeans(ops: seq<Op>, key: Key)
    requires UniqueKeys(Run(ops).entries)
    ensures Held(ops, key).Some? <==> IndexOf(Run(ops).entries, key).Some?
    ensures IndexOf(Run(ops).entries, key).Some? ==>
              Held(ops, key) == Some(Run(ops).entries[IndexOf(Run(ops).entries, key).value].record)
  {
  }

  lemma OneMoreOp(ops: seq<Op>, op: Op)
    ensures (ops + [op])[..|ops|] == ops
    ensures Run(ops + [op]) == Apply(Run(ops), op)
    ensures |Reports(ops + [op])| == |Reports(ops)| + if op.Report? && op.report.Set? then 1 else 0
  {
    assert (ops + [op])[..|ops|] == ops;
  }

  lemma UntouchedRemembers(ops: seq<Op>, op: Op, e: Entry)
    requires UniqueKeys(Run(ops).entries) && UniqueKeys(Run(ops + [op]).entries)
    requires Unreported(Run(ops), op, e) && e in Run(ops + [op]).entries && Remembers(e, ops)
    ensures Remembers(e, ops + [op])
  {
    hide Run, Apply, Reports, Contents;
    OneMoreOp(ops, op);
    HeldAt(ops, e);
    HeldAt(ops + [op], e);
  }

  lemma ReportedRemembers(ops: seq<Op>, op: Op, e: Entry)
    requires UniqueKeys(Run(ops).entries) && UniqueKeys(Run(ops + [op]).entries) && Run(ops).clock == |Reports(ops)|
    requires e in Run(ops + [op]).entries && !Unreported(Run(ops), op, e)
    requires forall f :: f in Run(ops).entries ==> Remembers(f, ops)
    ensures Remembers(e, ops + [op])
  {
    hide Run, Apply, Reports, Contents;
    OneMoreOp(ops, op);
    EntryComesFrom(Run(ops), op, e);
    HeldAt(ops + [op], e);
    HeldMeans(ops, e.key);
    var t := Run(ops);
    if IndexOf(t.entries, e.key).Some? {
      var was := t.entries[IndexOf(t.entries, e.key).value];
      assert was in t.entries && was.key == e.key;
      assert Remembers(was, ops);
      forall s: State
        ensures StampIn(e, s) == LastStampIn(ops + [op], e.key, s)
      {
        assert StampIn(was, s) == LastStampIn(ops, e.key, s);
      }
    }
  }

  /** In every run each entry carries the time of its last change and the stamps of its last reports. */
  lemma {:induction false} EntriesRemember(ops: seq<Op>)
    ensures forall e :: e in Run(ops).entries ==> Remembers(e, ops)
    decreases |ops|
  {
    if ops != [] {
      var (before, op) := (ops[..|ops| - 1], ops[|ops| - 1]);
      assert ops == before + [op];
      EntriesRemember(before);
      RunsKeepValid(before);
      RunsKeepValid(ops);
      hide Run, Remembers, Unreported;
      forall e | e in Run(ops).entries
        ensures Remembers(e, ops)
      {
        if Unreported(Run(before), op, e) {
          UnreportedWas(before, op, e);
          UntouchedRemembers(before, op, e);
        } else {
          ReportedRemembers(before, op, e);
        }
      }
    }
  }

  lemma UnreportedWas(ops: seq<Op>, op: Op, e: Entry)
    requires Unreported(Run(ops), op, e)
    ensures e in Run(ops).entries
  {
  }

  // ----- Reading -----

  function Urgency(s: State): nat {
    match s
    case Blocked => 4
    case Error => 3
    case Done => 2
    case Working => 1
    case Idle => 0
  }

  /**
   Whether `e` is shown ahead of `f`: by urgency, the root before others of the same, and lastly by recency of
   change.
   */
  predicate Precedes(e: Entry, f: Entry) {
    if e.record.state != f.record.state then Urgency(e.record.state) > Urgency(f.record.state)
    else if e.key.None? != f.key.None? then e.key.None?
    else e.updated > f.updated
  }

  /** Put `e` in front of the first entry that does not precede it, so that equals keep their order. */
  function Insert(e: Entry, sorted: seq<Entry>): seq<Entry> {
    if sorted == [] || !Precedes(sorted[0], e) then [e] + sorted else [sorted[0]] + Insert(e, sorted[1..])
  }

  /** A stable sort by display order. */
  function Sort(entries: seq<Entry>): seq<Entry> {
    if entries == [] then [] else Insert(entries[0], Sort(entries[1..]))
  }

  ghost predicate Sorted(s: seq<Entry>) {
    forall i, j :: 0 <= i < j < |s| ==> !Precedes(s[j], s[i])
  }

  lemma {:induction false} InsertPermutes(e: Entry, s: seq<Entry>)
    ensures multiset(Insert(e, s)) == multiset{e} + multiset(s)
  {
    hide Precedes;
    if s != [] && Precedes(s[0], e) {
      InsertPermutes(e, s[1..]);
      assert s == [s[0]] + s[1..];
    }
  }

  lemma {:induction false} InsertSorts(e: Entry, s: seq<Entry>)
    requires Sorted(s)
    ensures Sorted(Insert(e, s))
  {
    if s == [] || !Precedes(s[0], e) {
      FirstSorts(e, s);
    } else {
      var tail := s[1..];
      assert Sorted(tail);
      InsertSorts(e, tail);
      InsertPermutes(e, tail);
      var t := Insert(e, tail);
      forall j | 0 <= j < |t|
        ensures !Precedes(t[j], s[0])
      {
        assert t[j] in multiset(t);
        assert t[j] == e || t[j] in tail;
      }
      hide Precedes;
      PrependSorts(s[0], t);
    }
  }

  lemma FirstSorts(e: Entry, s: seq<Entry>)
    requires Sorted(s) && (s != [] ==> !Precedes(s[0], e))
    ensures Sorted([e] + s)
  {
    forall j | 0 <= j < |s|
      ensures !Precedes(s[j], e)
    {
      assert j > 0 ==> !Precedes(s[j], s[0]);
    }
    hide Precedes;
    PrependSorts(e, s);
  }

  lemma PrependSorts(e: Entry, s: seq<Entry>)
    requires Sorted(s) && forall j :: 0 <= j < |s| ==> !Precedes(s[j], e)
    ensures Sorted([e] + s)
  {
    hide Precedes;
  }

  /** Reading lists every record once, most urgent first. */
  lemma {:induction false} SortIsOrderedListing(entries: seq<Entry>)
    ensures Sorted(Sort(entries)) && multiset(Sort(entries)) == multiset(entries)
  {
    if entries != [] {
      SortIsOrderedListing(entries[1..]);
      InsertSorts(entries[0], Sort(entries[1..]));
      InsertPermutes(entries[0], Sort(entries[1..]));
      assert entries == [entries[0]] + entries[1..];
    }
  }

  /** The first entry that no other precedes. */
  function TopIndex(entries: seq<Entry>): (k: nat)
    requires entries != []
    ensures k < |entries|
  {
    if |entries| == 1 then 0 else
    var k := 1 + TopIndex(entries[1..]);
    if Precedes(entries[k], entries[0]) then k else 0
  }

  /** The summary's leading record is the first one listed. */
  lemma {:induction false} TopIsHeadOfSort(entries: seq<Entry>)
    requires entries != []
    ensures Sort(entries) != [] && Sort(entries)[0] == entries[TopIndex(entries)]
  {
    if |entries| > 1 {
      TopIsHeadOfSort(entries[1..]);
    }
  }

  /** Where an entry may take its app from: itself, its enclosing records outward, and last the root. */
  function Lineage(key: Key): seq<Key>
    decreases if key.Some? then 1 + |key.value| else 0
  {
    if key.None? then [None] else [key] + Lineage(Parent(key.value))
  }

  function AppOf(entries: seq<Entry>, key: Key): Option<seq<Byte>> {
    match IndexOf(entries, key)
    case None => None
    case Some(k) => entries[k].record.app
  }

  function FirstApp(entries: seq<Entry>, keys: seq<Key>): Option<seq<Byte>> {
    if keys == [] then None
    else if AppOf(entries, keys[0]).Some? then AppOf(entries, keys[0])
    else FirstApp(entries, keys[1..])
  }

  /** The key of the root, of the record itself, or of a record whose path encloses it. */
  predicate Encloses(outer: Key, key: Key) {
    outer.None? || (key.Some? && IsWithin(key.value, outer.value))
  }

  /** The keys an entry inherits from are exactly the root and the paths it lies within. */
  lemma {:induction false} LineageIsEnclosing(id: RecordId, key: Key)
    ensures key in Lineage(Some(id)) <==> Encloses(key, Some(id))
    decreases |id|
  {
    var S := SplitOn(id, SLASH);
    ParentDropsLastSegment(id);
    assert Lineage(Some(id)) == [Some(id)] + Lineage(Parent(id));
    if key.Some? {
      var K := SplitOn(key.value, SLASH);
      IsWithinIffSegments(id, key.value);
      JoinUndoesSplit(id, SLASH);
      JoinUndoesSplit(key.value, SLASH);
      if Parent(id).Some? {
        var P := SplitOn(Parent(id).value, SLASH);
        LineageIsEnclosing(Parent(id).value, key);
        IsWithinIffSegments(Parent(id).value, key.value);
        assert P == S[..|S| - 1];
        assert K <= S <==> K == S || K <= P;
      } else {
        assert K <= S <==> K == S;
      }
    } else {
      NoneInLineage(Parent(id));
    }
  }

  lemma {:induction false} NoneInLineage(key: Key)
    ensures None in Lineage(key)
    decreases if key.Some? then 1 + |key.value| else 0
  {
    if key.Some? {
      NoneInLineage(Parent(key.value));
    }
  }

  datatype View = View(key: Key, state: State, kind: Option<Kind>, progress: Option<nat>, app: Option<seq<Byte>>,
                       title: Option<seq<Byte>>, msg: Option<seq<Byte>>, stamp: nat, stampIn: map<State, nat>)

  datatype Summary = Summary(state: State, kind: Option<Kind>, progress: Option<nat>, app: Option<seq<Byte>>,
                             key: Key, counts: map<State, nat>)

  /** An entry's own app, or the nearest enclosing one's, or the root's. */
  function EffectiveApp(entries: seq<Entry>, e: Entry): Option<seq<Byte>> {
    if e.record.app.Some? then e.record.app
    else if e.key.None? then None
    else FirstApp(entries, Lineage(Parent(e.key.value)))
  }

  /** How deep a key lies: the number of its segments, none for the root. */
  function KeyDepth(key: Key): nat {
    if key.None? then 0 else |SplitOn(key.value, SLASH)|
  }

  /** Outward means shallower. */
  lemma {:induction false} LineageRises(key: Key, i: nat, j: nat)
    requires i < j < |Lineage(key)|
    ensures KeyDepth(Lineage(key)[i]) > KeyDepth(Lineage(key)[j])
    decreases if key.Some? then 1 + |key.value| else 0
  {
    hide SplitOn, Parent, IsWithin;
    var id := key.value;
    ParentIsShallower(id);
    var rest := Lineage(Parent(id));
    assert rest[0] == Parent(id);
    if i > 0 {
      LineageRises(Parent(id), i - 1, j - 1);
    } else if j > 1 {
      LineageRises(Parent(id), 0, j - 1);
    }
  }

  lemma ParentIsShallower(id: RecordId)
    ensures KeyDepth(Parent(id)) < KeyDepth(Some(id))
  {
    ParentDropsLastSegment(id);
  }

  lemma {:induction false} FirstAppIs(entries: seq<Entry>, keys: seq<Key>)
    ensures FirstApp(entries, keys).None? <==> forall i :: 0 <= i < |keys| ==> AppOf(entries, keys[i]).None?
    ensures FirstApp(entries, keys).Some? ==>
              exists i :: 0 <= i < |keys| && AppOf(entries, keys[i]) == FirstApp(entries, keys)
                && forall j :: 0 <= j < i ==> AppOf(entries, keys[j]).None?
  {
    hide AppOf;
    if keys != [] {
      if AppOf(entries, keys[0]).Some? {
        assert AppOf(entries, keys[0]) == FirstApp(entries, keys);
      } else {
        var rest := keys[1..];
        FirstAppIs(entries, rest);
        if FirstApp(entries, keys).Some? {
          var i :| 0 <= i < |rest| && AppOf(entries, rest[i]) == FirstApp(entries, rest)
            && forall j :: 0 <= j < i ==> AppOf(entries, rest[j]).None?;
          assert AppOf(entries, keys[i + 1]) == FirstApp(entries, keys);
          assert forall j :: 0 < j < i + 1 ==> AppOf(entries, keys[j]) == AppOf(entries, rest[j - 1]);
        }
      }
    }
  }

  /** The key is that of an enclosing record with an app, other than `inner` itself, and none such lies deeper. */
  ghost predicate IsNearestWithApp(entries: seq<Entry>, inner: Key, key: Key) {
    && Encloses(key, inner) && key != inner && AppOf(entries, key).Some?
    && forall k :: Encloses(k, inner) && k != inner && AppOf(entries, k).Some? ==> KeyDepth(k) <= KeyDepth(key)
  }

  /** The app an entry goes by: its own if set, else that of the deepest record around it that sets one. */
  ghost predicate IsEffectiveApp(entries: seq<Entry>, e: Entry, app: Option<seq<Byte>>) {
    if e.record.app.Some? then app == e.record.app
    else if app.Some? then exists key :: IsNearestWithApp(entries, e.key, key) && AppOf(entries, key) == app
    else forall key :: Encloses(key, e.key) && key != e.key ==> AppOf(entries, key).None?
  }

  /** Walking outward finds the nearest. */
  lemma EffectiveAppIsNearest(entries: seq<Entry>, e: Entry)
    ensures IsEffectiveApp(entries, e, EffectiveApp(entries, e))
  {
    hide AppOf, FirstApp, Encloses;
    if e.record.app.None? {
      if e.key.None? {
        RootStandsAlone();
      } else {
        var id := e.key.value;
        var keys := Lineage(Parent(id));
        FirstAppIs(entries, keys);
        forall key
          ensures key in keys <==> Encloses(key, e.key) && key != e.key
        {
          StrictLineage(id, key);
        }
        if FirstApp(entries, keys).Some? {
          var i :| 0 <= i < |keys| && AppOf(entries, keys[i]) == FirstApp(entries, keys)
            && forall j :: 0 <= j < i ==> AppOf(entries, keys[j]).None?;
          forall k | Encloses(k, e.key) && k != e.key && AppOf(entries, k).Some?
            ensures KeyDepth(k) <= KeyDepth(keys[i])
          {
            var j :| 0 <= j < |keys| && keys[j] == k;
            if i < j {
              LineageRises(Parent(id), i, j);
            }
          }
          assert keys[i] in keys;
          assert IsNearestWithApp(entries, e.key, keys[i]);
        } else {
          forall key | Encloses(key, e.key) && key != e.key
            ensures AppOf(entries, key).None?
          {
            var j :| 0 <= j < |keys| && keys[j] == key;
          }
        }
      }
    }
  }

  lemma RootStandsAlone()
    ensures forall key :: Encloses(key, None) ==> key == None
  {
  }

  /** The keys outward of a path are the enclosing ones other than its own. */
  lemma StrictLineage(id: RecordId, key: Key)
    ensures key in Lineage(Parent(id)) <==> Encloses(key, Some(id)) && key != Some(id)
  {
    LineageIsEnclosing(id, key);
    hide Encloses, SplitOn, Parent, IsWithin;
    var (all, rest) := (Lineage(Some(id)), Lineage(Parent(id)));
    assert all == [Some(id)] + rest;
    if Some(id) in rest {
      var j :| 0 <= j < |rest| && rest[j] == Some(id);
      LineageRises(Some(id), 0, j + 1);
    }
  }

  function ViewOf(entries: seq<Entry>, e: Entry): View {
    View(e.key, e.record.state, e.record.kind, e.record.progress, EffectiveApp(entries, e),
         e.record.title, e.record.msg, e.stamp, e.stampIn)
  }

  function ViewsOf(entries: seq<Entry>, listed: seq<Entry>): (r: seq<View>)
    ensures |r| == |listed|
    ensures forall i :: 0 <= i < |r| ==> r[i] == ViewOf(entries, listed[i])
  {
    if listed == [] then [] else [ViewOf(entries, listed[0])] + ViewsOf(entries, listed[1..])
  }

  /** The view shows the entry, with the app it has or inherits. */
  ghost predicate Shows(entries: seq<Entry>, e: Entry, v: View) {
    && (v.key, v.state, v.kind, v.progress) == (e.key, e.record.state, e.record.kind, e.record.progress)
    && (v.title, v.msg, v.stamp, v.stampIn) == (e.record.title, e.record.msg, e.stamp, e.stampIn)
    && IsEffectiveApp(entries, e, v.app)
  }

  /** The views show all entries, each once, in an order in which none precedes an earlier one. */
  ghost predicate IsListing(entries: seq<Entry>, order: seq<Entry>, views: seq<View>) {
    && multiset(order) == multiset(entries) && Sorted(order) && |views| == |order|
    && forall i :: 0 <= i < |views| ==> Shows(entries, order[i], views[i])
  }

  lemma ViewsNext(entries: seq<Entry>, order: seq<Entry>, i: nat)
    requires i < |order|
    ensures ViewsOf(entries, order[i..]) == [ViewOf(entries, order[i])] + ViewsOf(entries, order[i + 1..])
  {
    hide EffectiveApp;
    assert order[i..][0] == order[i] && order[i..][1..] == order[i + 1..];
  }

  lemma SortedViewsList(entries: seq<Entry>)
    ensures IsListing(entries, Sort(entries), ViewsOf(entries, Sort(entries)))
  {
    var order := Sort(entries);
    var views := ViewsOf(entries, order);
    SortIsOrderedListing(entries);
    hide Sort, Sorted, EffectiveApp, IsEffectiveApp;
    forall i | 0 <= i < |views|
      ensures Shows(entries, order[i], views[i])
    {
      EffectiveAppIsNearest(entries, order[i]);
    }
  }

  function CountState(entries: seq<Entry>, s: State): nat {
    if entries == [] then 0 else (if entries[0].record.state == s then 1 else 0) + CountState(entries[1..], s)
  }

  lemma FilterStep(kept: seq<Entry>, rest: seq<Entry>, keep: Entry -> bool)
    requires rest != []
    ensures kept + Filter(rest, keep) == (if keep(rest[0]) then kept + [rest[0]] else kept) + Filter(rest[1..], keep)
  {
    var f := Filter(rest[1..], keep);
    if keep(rest[0]) {
      assert Filter(rest, keep) == [rest[0]] + f;
      assert kept + ([rest[0]] + f) == kept + [rest[0]] + f;
    } else {
      assert Filter(rest, keep) == f;
    }
  }

  // ----- The table itself -----

  class StatusTable {
    var entries: seq<Entry>
    var clock: nat
    var revision: nat

    ghost function Value(): Table
      reads this
    {
      Table(entries, clock, revision)
    }

    constructor ()
      ensures Value() == EMPTY
    {
      entries, clock, revision := [], 0, 0;
    }

    method Set(key: Key, record: Record, stamp: nat)
      modifies this
      ensures Value() == SetRecord(old(Value()), key, record, stamp)
    {
      clock := clock + 1;
      match IndexOf(entries, key)
      case Some(k) =>
        var e := entries[k];
        e := e.(reported := clock, stamp := stamp, stampIn := e.stampIn[record.state := stamp]);
        if e.record != record {
          e := e.(record := record, updated := clock);
          revision := revision + 1;
        }
        entries := entries[k := e];
      case None =>
        if |entries| >= MAX_RECORDS {
          entries := SwapRemove(entries, OldestIndex(entries));
        }
        entries := entries + [Entry(key, record, clock, clock, stamp, map[record.state := stamp])];
        revision := revision + 1;
    }

    /** Keep the entries `keep` accepts, in order. */
    method RetainWhere(keep: Entry -> bool)
      modifies this
      ensures Value() == Retain(old(Value()), keep)
    {
      var before := entries;
      var rest, kept := before, [];
      while rest != []
        invariant kept + Filter(rest, keep) == Filter(before, keep) && Value() == old(Value())
        decreases |rest|
      {
        FilterStep(kept, rest, keep);
        if keep(rest[0]) {
          kept := kept + [rest[0]];
        }
        rest := rest[1..];
      }
      assert kept == Filter(before, keep);
      entries := kept;
      if |entries| != |before| {
        revision := revision + 1;
      }
    }

    method ApplyOp(op: Op)
      modifies this
      ensures Value() == Apply(old(Value()), op)
    {
      match op
      case Report(Set(key, record), stamp) => Set(key, record, stamp);
      case _ => RetainWhere((e: Entry) => Stays(op, e.key, e.record));
    }

    /** Walk outward from an entry to the first app. */
    method FindApp(e: Entry) returns (app: Option<seq<Byte>>)
      ensures app == EffectiveApp(entries, e)
    {
      if e.record.app.Some? {
        return e.record.app;
      }
      if e.key.None? {
        return None;
      }
      var ancestor := Parent(e.key.value);
      while true
        invariant FirstApp(entries, Lineage(ancestor)) == FirstApp(entries, Lineage(Parent(e.key.value)))
        decreases if ancestor.Some? then 1 + |ancestor.value| else 0
      {
        app := AppOf(entries, ancestor);
        assert Lineage(ancestor)[0] == ancestor;
        if app.Some? {
          return;
        }
        if ancestor.None? {
          assert Lineage(ancestor)[1..] == [];
          return None;
        }
        assert Lineage(ancestor)[1..] == Lineage(Parent(ancestor.value));
        ancestor := Parent(ancestor.value);
      }
    }

    /** Every record once, most urgent first, each with the app it has or inherits. */
    method Records() returns (views: seq<View>)
      ensures views == ViewsOf(entries, Sort(entries))
      ensures exists order :: IsListing(entries, order, views)
    {
      hide Sort, EffectiveApp, IsListing, ViewsOf;
      var order := Sort(entries);
      views := [];
      assert order[0..] == order;
      for i := 0 to |order|
        invariant views + ViewsOf(entries, order[i..]) == ViewsOf(entries, order)
      {
        var e := order[i];
        var app := FindApp(e);
        var view := View(e.key, e.record.state, e.record.kind, e.record.progress, app, e.record.title, e.record.msg,
                         e.stamp,
                         e.stampIn);
        ViewsNext(entries, order, i);
        assert views + ([view] + ViewsOf(entries, order[i + 1..])) == views + [view] + ViewsOf(entries, order[i + 1..]);
        views := views + [view];
      }
      assert views + [] == views;
      SortedViewsList(entries);
    }

    /** The most urgent record and the count per state; it always leads with the first record listed. */
    method Summarize() returns (r: Option<Summary>)
      ensures r.None? <==> entries == []
      ensures r.Some? ==>
                var head := ViewsOf(entries, Sort(entries))[0];
                && (r.value.key, r.value.state, r.value.kind, r.value.progress, r.value.app)
                   == (head.key, head.state, head.kind, head.progress, head.app)
                && forall s: State :: s in r.value.counts && r.value.counts[s] == CountState(entries, s)
    {
      if entries == [] {
        return None;
      }
      TopIsHeadOfSort(entries);
      var top := entries[TopIndex(entries)];
      var app := FindApp(top);
      var counts := map[Idle := 0, Working := 0, Done := 0, Blocked := 0, Error := 0];
      assert forall s: State :: s in counts && counts[s] == 0 by {
        forall s: State
          ensures s in counts && counts[s] == 0
        {
          match s
          case Idle =>
          case Working =>
          case Done =>
          case Blocked =>
          case Error =>
        }
      }
      assert entries[0..] == entries;
      for i := 0 to |entries|
        invariant forall s: State :: s in counts && counts[s] + CountState(entries[i..], s) == CountState(entries, s)
      {
        assert entries[i..][0] == entries[i] && entries[i..][1..] == entries[i + 1..];
        var state := entries[i].record.state;
        counts := counts[state := counts[state] + 1];
      }
      r := Some(Summary(top.record.state, top.record.kind, top.record.progress, app, top.key, counts));
    }
  }
}
