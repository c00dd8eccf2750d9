/** What each operation makes of a status table's contents, and which record leads the summary. */
module StatusTableLaws {
  import opened Wrappers
  import opened ByteStrings
  import opened StatusModel
  import opened StatusTables

  lemma HeldIff(t: Table, key: Key)
    requires UniqueKeys(t.entries)
    ensures key in Contents(t) <==> exists i :: 0 <= i < |t.entries| && t.entries[i].key == key
    ensures forall i :: 0 <= i < |t.entries| && t.entries[i].key == key ==>
              key in Contents(t) && Contents(t)[key] == t.entries[i].record
  {
    forall i | 0 <= i < |t.entries| && t.entries[i].key == key
      ensures key in Contents(t) && Contents(t)[key] == t.entries[i].record
    {
      ContentsAt(t, i);
    }
  }

  lemma RetainedContents(t: Table, keep: Entry -> bool, key: Key)
    requires UniqueKeys(t.entries) && UniqueKeys(Retain(t, keep).entries)
    ensures var t' := Retain(t, keep);
            && (key in Contents(t') <==> exists e :: e in t.entries && e.key == key && keep(e))
            && (key in Contents(t') ==> key in Contents(t) && Contents(t')[key] == Contents(t)[key])
  {
    hide Contents, Filter;
    var t' := Retain(t, keep);
    FilterMembers(t.entries, keep);
    HeldIff(t, key);
    HeldIff(t', key);
    if key in Contents(t') {
      var i :| 0 <= i < |t'.entries| && t'.entries[i].key == key;
      assert t'.entries[i] in Filter(t.entries, keep);
      var j :| 0 <= j < |t.entries| && t.entries[j] == t'.entries[i];
    }
    if e :| e in t.entries && e.key == key && keep(e) {
      assert e in t'.entries;
    }
  }

  /**
   A clear, a prompt, an exit or a reset takes away exactly the records it is meant for; the others are as before.
   */
  lemma OthersThanSetsRemoveExactly(t: Table, history: seq<Key>, op: Op, key: Key)
    requires Valid(t, history) && !(op.Report? && op.report.Set?)
    ensures var t' := Apply(t, op);
            && (key in Contents(t') <==> key in Contents(t) && !TakesAway(op, key, Contents(t)[key]))
            && (key in Contents(t') ==> Contents(t')[key] == Contents(t)[key])
  {
    var keep := (e: Entry) => Stays(op, e.key, e.record);
    RetainKeeps(t, history, keep);
    hide Contents, Retain, Stays, TakesAway, ReportedLast;
    RetainedContents(t, keep, key);
    HeldIff(t, key);
    if key in Contents(t) {
      StaysMeans(op, key, Contents(t)[key]);
    }
  }

  /** Clearing a path removes it and what lies beneath it, by whole segments, and nothing else. */
  lemma ClearTakesTheSubtree(t: Table, history: seq<Key>, id: RecordId, stamp: nat, key: Key)
    requires Valid(t, history)
    ensures var t' := Apply(t, Report(Clear(Some(id)), stamp));
            && (key in Contents(t') <==>
                  key in Contents(t) && !(key.Some? && SplitOn(id, SLASH) <= SplitOn(key.value, SLASH)))
            && (key in Contents(t') ==> Contents(t')[key] == Contents(t)[key])
  {
    hide Contents, Apply, Valid, SplitOn;
    OthersThanSetsRemoveExactly(t, history, Report(Clear(Some(id)), stamp), key);
  }

  /** A new prompt and the end of the process leave the done and the failed records. */
  lemma DoneAndFailedSurvive(t: Table, history: seq<Key>, op: Op, key: Key)
    requires Valid(t, history) && (op.PromptStart? || op.ProcessExit?)
    ensures var t' := Apply(t, op);
            && (key in Contents(t') <==>
                  key in Contents(t) && (Contents(t)[key].state == Done || Contents(t)[key].state == Error))
            && (key in Contents(t') ==> Contents(t')[key] == Contents(t)[key])
  {
    hide Contents, Apply, Valid;
    OthersThanSetsRemoveExactly(t, history, op, key);
  }

  /** A clear without a path and a reset leave nothing. */
  lemma ClearAllEmpties(t: Table, stamp: nat)
    ensures Apply(t, Report(Clear(None), stamp)).entries == [] && Apply(t, FullReset).entries == []
  {
    DropAll(t.entries, (e: Entry) => Stays(Report(Clear(None), stamp), e.key, e.record));
    DropAll(t.entries, (e: Entry) => Stays(FullReset, e.key, e.record));
  }

  lemma {:induction false} DropAll(entries: seq<Entry>, keep: Entry -> bool)
    requires forall e :: !keep(e)
    ensures Filter(entries, keep) == []
  {
    if entries != [] {
      DropAll(entries[1..], keep);
    }
  }

  // ----- Setting a record -----

  /**
   A report puts its record under its key. Every other record stays, unless the key is new and the table full: then
   exactly the one whose last report is the oldest goes.
   */
  lemma SetPutsTheRecord(t: Table, history: seq<Key>, key: Key, record: Record, stamp: nat, other: Key)
    requires Valid(t, history) && other != key
    ensures var t' := Apply(t, Report(Set(key, record), stamp));
            && key in Contents(t') && Contents(t')[key] == record
            && (other in Contents(t') ==> other in Contents(t) && Contents(t')[other] == Contents(t)[other])
            && (other in Contents(t) && other !in Contents(t') <==>
                  other in Contents(t) && key !in Contents(t) && |t.entries| >= MAX_RECORDS
                  && forall e :: e in t.entries ==> t.entries[IndexOf(t.entries, other).value].reported <= e.reported)
  {
    var t' := SetRecord(t, key, record, stamp);
    SetTracksContents(t, history, key, record, stamp);
    SetKeeps(t, history, key, record, stamp);
    if IndexOf(t.entries, key).Some? {
      ReplacedContents(t, key, record, stamp, other);
    } else {
      AppendedContents(t, history, key, record, stamp, other);
    }
  }

  lemma ReplacedContents(t: Table, key: Key, record: Record, stamp: nat, other: Key)
    requires UniqueKeys(t.entries) && UniqueKeys(SetRecord(t, key, record, stamp).entries)
    requires other != key && IndexOf(t.entries, key).Some?
    ensures var t' := SetRecord(t, key, record, stamp);
            && key in Contents(t)
            && (other in Contents(t') <==> other in Contents(t))
            && (other in Contents(t) ==> Contents(t')[other] == Contents(t)[other])
  {
    hide Contents;
    var t' := SetRecord(t, key, record, stamp);
    var k := IndexOf(t.entries, key).value;
    HeldIff(t, key);
    HeldIff(t, other);
    HeldIff(t', other);
    assert forall i :: 0 <= i < |t.entries| ==> t'.entries[i].key == t.entries[i].key;
    assert forall i :: 0 <= i < |t.entries| && i != k ==> t'.entries[i] == t.entries[i];
  }

  /** With distinct times of report, one entry has the oldest. */
  lemma OldestIsOne(t: Table, history: seq<Key>, i: nat)
    requires Valid(t, history) && t.entries != [] && i < |t.entries|
    ensures i == OldestIndex(t.entries) <==> forall e :: e in t.entries ==> t.entries[i].reported <= e.reported
  {
    hide OldestIndex;
    var o := OldestIndex(t.entries);
    assert ReportedLast(t.entries[i], history) && ReportedLast(t.entries[o], history);
    assert t.entries[o] in t.entries;
    forall e | e in t.entries
      ensures t.entries[o].reported <= e.reported
    {
    }
  }

  lemma AppendedContents(t: Table, history: seq<Key>, key: Key, record: Record, stamp: nat, other: Key)
    requires Valid(t, history) && UniqueKeys(SetRecord(t, key, record, stamp).entries)
    requires other != key && IndexOf(t.entries, key).None?
    ensures var t' := SetRecord(t, key, record, stamp);
            && key !in Contents(t)
            && (other in Contents(t') ==> other in Contents(t) && Contents(t')[other] == Contents(t)[other])
            && (other in Contents(t) ==>
                  (other !in Contents(t') <==>
                     |t.entries| >= MAX_RECORDS && IndexOf(t.entries, other) == Some(OldestIndex(t.entries))))
            && (other in Contents(t) && |t.entries| >= MAX_RECORDS ==>
                  (IndexOf(t.entries, other) == Some(OldestIndex(t.entries)) <==>
                     forall e :: e in t.entries ==> t.entries[IndexOf(t.entries, other).value].reported <= e.reported))
  {
    hide Contents, OldestIndex, SwapRemove, ReportedLast, IndexOf;
    var t' := SetRecord(t, key, record, stamp);
    var kept := if |t.entries| >= MAX_RECORDS then SwapRemove(t.entries, OldestIndex(t.entries)) else t.entries;
    HeldIff(t, key);
    HeldIff(t, other);
    HeldIff(t', other);
    assert forall i :: 0 <= i < |kept| ==> t'.entries[i] == kept[i];
    if other in Contents(t) {
      var i := IndexOf(t.entries, other).value;
      FoundHere(t, other);
      if |t.entries| >= MAX_RECORDS {
        OldestIsOne(t, history, i);
        KeptOrEvicted(t, kept, i);
      }
    }
  }

  lemma FoundHere(t: Table, key: Key)
    requires UniqueKeys(t.entries) && key in Contents(t)
    ensures IndexOf(t.entries, key).Some?
    ensures forall j :: 0 <= j < |t.entries| && t.entries[j].key == key ==> IndexOf(t.entries, key) == Some(j)
  {
    forall j | 0 <= j < |t.entries| && t.entries[j].key == key
      ensures IndexOf(t.entries, key) == Some(j)
    {
      FoundAt(t.entries, j);
    }
  }

  lemma KeptOrEvicted(t: Table, kept: seq<Entry>, i: nat)
    requires UniqueKeys(t.entries) && t.entries != [] && i < |t.entries|
    requires kept == SwapRemove(t.entries, OldestIndex(t.entries))
    ensures i == OldestIndex(t.entries) ==> forall j :: 0 <= j < |kept| ==> kept[j].key != t.entries[i].key
    ensures i != OldestIndex(t.entries) ==> exists j :: 0 <= j < |kept| && kept[j] == t.entries[i]
    ensures forall j :: 0 <= j < |kept| ==> kept[j] in t.entries
  {
    hide OldestIndex, SwapRemove;
    var o := OldestIndex(t.entries);
    if i != o {
      var j := if i == |t.entries| - 1 then o else i;
      assert kept[j] == t.entries[i];
    }
  }

  // ----- Who leads -----

  ghost predicate HasState(entries: seq<Entry>, s: State) {
    exists e :: e in entries && e.record.state == s
  }

  lemma {:induction false} TopIsFirst(entries: seq<Entry>)
    requires entries != []
    ensures forall e :: e in entries ==> !Precedes(e, entries[TopIndex(entries)])
  {
    hide Precedes;
    TopIsHeadOfSort(entries);
    SortIsOrderedListing(entries);
    var sorted := Sort(entries);
    forall e | e in entries
      ensures !Precedes(e, entries[TopIndex(entries)])
    {
      assert e in multiset(sorted);
      var j :| 0 <= j < |sorted| && sorted[j] == e;
      if j == 0 {
        NothingPrecedesItself(e);
      }
    }
  }

  lemma NothingPrecedesItself(e: Entry)
    ensures !Precedes(e, e)
  {
  }

  /**
   The summary is blocked if any record is, else failed if any is, else done, else working, and idle only if all are.
   Among the records in that state the root leads, and without it the one changed last.
   */
  lemma MostUrgentLeads(entries: seq<Entry>)
    requires entries != []
    ensures var top := entries[TopIndex(entries)];
            var s := top.record.state;
            && top in entries
            && (s == Blocked <==> HasState(entries, Blocked))
            && (s == Error <==> HasState(entries, Error) && !HasState(entries, Blocked))
            && (s == Done <==> HasState(entries, Done) && !HasState(entries, Blocked) && !HasState(entries, Error))
            && (s == Idle <==> forall e :: e in entries ==> e.record.state == Idle)
            && (forall e :: e in entries && e.record.state == s && e.key.None? ==> top.key.None?)
            && (top.key.Some? ==> forall e :: e in entries && e.record.state == s ==> e.updated <= top.updated)
  {
    hide TopIndex;
    TopIsFirst(entries);
  }
}
