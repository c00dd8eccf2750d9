/** Byte strings, and cutting them at a separator. */
module ByteStrings {
  type Byte = n: nat | n < 256

  /** The bytes of an ASCII string. */
  function Bytes(s: string): (b: seq<Byte>)
    ensures |b| == |s|
  {
    seq(|s|, i requires 0 <= i < |s| => s[i] as int % 256)
  }

  /** The pieces between separators: always at least one, possibly empty. */
  function SplitOn(s: seq<Byte>, sep: Byte): (parts: seq<seq<Byte>>)
    ensures |parts| >= 1
  {
    if s == [] then [[]]
    else if s[0] == sep then [[]] + SplitOn(s[1..], sep)
    else
      var rest := SplitOn(s[1..], sep);
      [[s[0]] + rest[0]] + rest[1..]
  }

  /** One step of cutting, for proofs that hide the rest. */
  lemma SplitStep(s: seq<Byte>, sep: Byte)
    requires s != []
    ensures var rest := SplitOn(s[1..], sep);
            SplitOn(s, sep) == if s[0] == sep then [[]] + rest else [[s[0]] + rest[0]] + rest[1..]
  {
  }

  /** The pieces with a separator between neighbours. */
  function Join(parts: seq<seq<Byte>>, sep: Byte): seq<Byte>
    requires |parts| >= 1
  {
    if |parts| == 1 then parts[0] else parts[0] + [sep] + Join(parts[1..], sep)
  }

  lemma {:induction false} SplitWithout(s: seq<Byte>, sep: Byte)
    requires sep !in s
    ensures SplitOn(s, sep) == [s]
  {
    if s != [] {
      SplitWithout(s[1..], sep);
      assert [s[0]] + s[1..] == s;
    }
  }

  lemma {:induction false} SplitAtFirst(part: seq<Byte>, rest: seq<Byte>, sep: Byte)
    requires sep !in part
    ensures SplitOn(part + [sep] + rest, sep) == [part] + SplitOn(rest, sep)
  {
    var all := part + [sep] + rest;
    if part == [] {
      assert all[1..] == rest;
    } else {
      assert all[1..] == part[1..] + [sep] + rest;
      SplitAtFirst(part[1..], rest, sep);
      var tail := SplitOn(all[1..], sep);
      assert tail == [part[1..]] + SplitOn(rest, sep);
      assert [part[0]] + part[1..] == part;
    }
  }

  /** Cutting undoes joining, when no piece holds the separator. */
  lemma {:induction false} SplitUndoesJoin(parts: seq<seq<Byte>>, sep: Byte)
    requires |parts| >= 1 && forall i :: 0 <= i < |parts| ==> sep !in parts[i]
    ensures SplitOn(Join(parts, sep), sep) == parts
    decreases |parts|
  {
    if |parts| == 1 {
      SplitWithout(parts[0], sep);
    } else {
      SplitUndoesJoin(parts[1..], sep);
      SplitAtFirst(parts[0], Join(parts[1..], sep), sep);
    }
  }

  /** Joining undoes cutting, and no piece holds the separator. */
  lemma {:induction false} JoinUndoesSplit(s: seq<Byte>, sep: Byte)
    ensures Join(SplitOn(s, sep), sep) == s
    ensures forall i :: 0 <= i < |SplitOn(s, sep)| ==> sep !in SplitOn(s, sep)[i]
  {
    if s != [] {
      var rest := SplitOn(s[1..], sep);
      JoinUndoesSplit(s[1..], sep);
      SplitStep(s, sep);
      hide SplitOn;
      if s[0] == sep {
        JoinCons([], rest, sep);
        assert [] + [sep] + s[1..] == s;
      } else {
        JoinPrefix([s[0]], rest, sep);
      }
    }
  }

  lemma JoinCons(first: seq<Byte>, rest: seq<seq<Byte>>, sep: Byte)
    requires |rest| >= 1
    ensures Join([first] + rest, sep) == first + [sep] + Join(rest, sep)
  {
    assert ([first] + rest)[1..] == rest;
  }

  /** Bytes put in front of the first piece come out in front. */
  lemma JoinPrefix(front: seq<Byte>, parts: seq<seq<Byte>>, sep: Byte)
    requires |parts| >= 1
    ensures Join([front + parts[0]] + parts[1..], sep) == front + Join(parts, sep)
  {
    if |parts| > 1 {
      JoinCons(front + parts[0], parts[1..], sep);
      assert front + parts[0] + [sep] + Join(parts[1..], sep) == front + (parts[0] + [sep] + Join(parts[1..], sep));
    }
  }
}
