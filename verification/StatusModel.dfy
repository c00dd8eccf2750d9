/** Program-status reports: states, kinds, record paths, records. */
module StatusModel {
  import opened Wrappers
  import opened ByteStrings

  datatype State = Idle | Working | Done | Blocked | Error

  datatype Kind = Permission | Question | Auth

  const SLASH: Byte := 47

  const MAX_ID_BYTES: nat := 128
  const MAX_ID_SEGMENT_BYTES: nat := 32
  const MAX_ID_DEPTH: nat := 8

  predicate IsAlnumByte(b: Byte) {
    48 <= b <= 57 || 65 <= b <= 90 || 97 <= b <= 122
  }

  /** Letters, digits, `_`, `.`, `+` and `-`. */
  predicate IsIdByte(b: Byte) {
    IsAlnumByte(b) || b == 95 || b == 46 || b == 43 || b == 45
  }

  predicate IsSegment(s: seq<Byte>) {
    1 <= |s| <= MAX_ID_SEGMENT_BYTES && forall i :: 0 <= i < |s| ==> IsIdByte(s[i])
  }

  /** A record path: one to eight `/`-separated segments, 128 bytes in all. */
  predicate IsRecordId(s: seq<Byte>) {
    && 1 <= |s| <= MAX_ID_BYTES
    && |SplitOn(s, SLASH)| <= MAX_ID_DEPTH
    && forall i :: 0 <= i < |SplitOn(s, SLASH)| ==> IsSegment(SplitOn(s, SLASH)[i])
  }

  /** A path of bytes; `RecordId::parse` accepts those that satisfy `IsRecordId`. */
  type RecordId = seq<Byte>

  method ParseRecordId(s: seq<Byte>) returns (r: Option<RecordId>)
    ensures r == if IsRecordId(s) then Some(s) else None
  {
    if s == [] || |s| > MAX_ID_BYTES {
      return None;
    }
    var depth := 0;
    var segments := SplitOn(s, SLASH);
    while depth < |segments|
      invariant 0 <= depth <= |segments| && depth <= MAX_ID_DEPTH
      invariant forall i :: 0 <= i < depth ==> IsSegment(segments[i])
    {
      var segment := segments[depth];
      depth := depth + 1;
      if !IsSegment(segment) || depth > MAX_ID_DEPTH {
        return None;
      }
    }
    r := Some(s);
  }

  /** The same path, or a longer one that continues `other` after a slash. */
  predicate IsWithin(id: RecordId, other: RecordId) {
    other <= id && (|id| == |other| || id[|other|] == SLASH)
  }

  /** Lying beneath compares whole segments: the outer path's segments are a prefix of the inner's. */
  lemma {:induction false} IsWithinIffSegments(id: RecordId, other: RecordId)
    ensures IsWithin(id, other) <==> SplitOn(other, SLASH) <= SplitOn(id, SLASH)
  {
    var I, O := SplitOn(id, SLASH), SplitOn(other, SLASH);
    JoinUndoesSplit(id, SLASH);
    JoinUndoesSplit(other, SLASH);
    if IsWithin(id, other) {
      if |id| > |other| {
        var rest := id[|other| + 1..];
        assert id == other + [SLASH] + rest;
        SplitConcat(other, rest);
      } else {
        assert id == other;
      }
    }
    if O <= I {
      if |O| == |I| {
        assert O == I;
      } else {
        assert I == O + I[|O|..];
        JoinConcat(O, I[|O|..]);
        assert id == other + [SLASH] + Join(I[|O|..], SLASH);
        assert id[..|other|] == other && id[|other|] == SLASH;
      }
    }
  }

  lemma {:induction false} SplitConcat(s: seq<Byte>, rest: seq<Byte>)
    ensures SplitOn(s + [SLASH] + rest, SLASH) == SplitOn(s, SLASH) + SplitOn(rest, SLASH)
  {
    var all := s + [SLASH] + rest;
    if s == [] {
      assert all[1..] == rest;
    } else {
      assert all[1..] == s[1..] + [SLASH] + rest;
      SplitConcat(s[1..], rest);
      SplitGrows(all, s, SplitOn(rest, SLASH));
    }
  }

  lemma SplitGrows(all: seq<Byte>, s: seq<Byte>, r: seq<seq<Byte>>)
    requires all != [] && s != [] && all[0] == s[0] && SplitOn(all[1..], SLASH) == SplitOn(s[1..], SLASH) + r
    ensures SplitOn(all, SLASH) == SplitOn(s, SLASH) + r
  {
    hide SplitOn;
    SplitStep(all, SLASH);
    SplitStep(s, SLASH);
    ConcatHead(SplitOn(s[1..], SLASH), r, s[0]);
  }

  lemma ConcatHead(t: seq<seq<Byte>>, r: seq<seq<Byte>>, b: Byte)
    requires |t| >= 1
    ensures [[]] + (t + r) == [[]] + t + r
    ensures [[b] + (t + r)[0]] + (t + r)[1..] == [[b] + t[0]] + t[1..] + r
  {
    assert (t + r)[1..] == t[1..] + r;
  }

  lemma {:induction false} JoinConcat(p: seq<seq<Byte>>, q: seq<seq<Byte>>)
    requires |p| >= 1 && |q| >= 1
    ensures Join(p + q, SLASH) == Join(p, SLASH) + [SLASH] + Join(q, SLASH)
    decreases |p|
  {
    if |p| == 1 {
      assert (p + q)[1..] == q;
    } else {
      assert (p + q)[1..] == p[1..] + q;
      JoinConcat(p[1..], q);
    }
  }

  /** The index of the last slash. */
  function LastSlash(s: seq<Byte>): (r: Option<nat>)
    ensures r.Some? ==> r.value < |s| && s[r.value] == SLASH && SLASH !in s[r.value + 1..]
    ensures r.None? ==> SLASH !in s
  {
    if s == [] then None
    else if s[|s| - 1] == SLASH then Some(|s| - 1)
    else
      match LastSlash(s[..|s| - 1])
      case None => assert s == s[..|s| - 1] + [s[|s| - 1]]; None
      case Some(k) => assert s[k + 1..] == s[..|s| - 1][k + 1..] + [s[|s| - 1]]; Some(k)
  }

  /** The path up to its last slash, if it has one. */
  function Parent(id: RecordId): (p: Option<RecordId>)
    ensures p.Some? ==> |p.value| < |id|
  {
    match LastSlash(id)
    case None => None
    case Some(k) => Some(id[..k])
  }

  /** The parent drops exactly the last segment; an id without one is a single segment. */
  lemma ParentDropsLastSegment(id: RecordId)
    ensures var S := SplitOn(id, SLASH);
            match Parent(id)
            case None => |S| == 1
            case Some(p) => SplitOn(p, SLASH) == S[..|S| - 1] && IsWithin(id, p)
  {
    match LastSlash(id)
    case None => SplitWithout(id, SLASH);
    case Some(k) =>
      var last := id[k + 1..];
      assert id == id[..k] + [SLASH] + last;
      SplitConcat(id[..k], last);
      SplitWithout(last, SLASH);
  }

  /** `done` and `error` records outlive the process and the next prompt; the others do not. */
  predicate SurvivesExit(s: State) {
    s == Done || s == Error
  }

  /** One program's status. Texts are UTF-8 bytes. */
  datatype Record = Record(
    state: State, kind: Option<Kind>, progress: Option<nat>,
    app: Option<seq<Byte>>, title: Option<seq<Byte>>, msg: Option<seq<Byte>>)

  /** A report without an id is about the root record; such a clear empties the table. */
  datatype Report =
    | Set(id: Option<RecordId>, record: Record)
    | Clear(id: Option<RecordId>)
}
