/**
 The streaming scanner that finds a command's output in a pane's byte stream: a
 BEGIN line, the payload, and an END marker carrying the exit code.
 */
module CommandScanner {
  import opened Wrappers
  import opened ByteStrings

  /** The capacity of one command's capture: a mebibyte. */
  const CAPTURE_LIMIT: nat := 0x10_0000

  const NEWLINE: Byte := 10

  lemma SlicePast(drop: seq<Byte>, keep: seq<Byte>, k: nat)
    requires k <= |keep|
    ensures (drop + keep)[|drop| + k..] == keep[k..] && (drop + keep)[..|drop| + k] == drop + keep[..k]
  {
  }

  // ----- Searching -----

  predicate OccursAt(hay: seq<Byte>, needle: seq<Byte>, i: nat) {
    i + |needle| <= |hay| && hay[i..i + |needle|] == needle
  }

  /** The index of the first occurrence of `needle`. */
  function Find(hay: seq<Byte>, needle: seq<Byte>): (r: Option<nat>)
    requires |needle| > 0
    ensures r.Some? ==> r.value + |needle| <= |hay|
  {
    if |hay| < |needle| then None
    else if hay[..|needle|] == needle then Some(0)
    else
      match Find(hay[1..], needle)
      case None => None
      case Some(k) => Some(k + 1)
  }

  lemma OccursInTail(hay: seq<Byte>, needle: seq<Byte>, i: nat)
    requires hay != []
    ensures OccursAt(hay, needle, i + 1) <==> OccursAt(hay[1..], needle, i)
  {
    if i + 1 + |needle| <= |hay| {
      assert hay[1..][i..i + |needle|] == hay[i + 1..i + 1 + |needle|];
    }
  }

  lemma {:induction false} FindIsFirst(hay: seq<Byte>, needle: seq<Byte>)
    requires |needle| > 0
    ensures match Find(hay, needle)
            case None => forall i: nat :: !OccursAt(hay, needle, i)
            case Some(at) => OccursAt(hay, needle, at) && forall i: nat :: i < at ==> !OccursAt(hay, needle, i)
  {
    if |hay| >= |needle| && hay[..|needle|] != needle {
      FindIsFirst(hay[1..], needle);
      assert !OccursAt(hay, needle, 0);
      hide OccursAt;
      forall i: nat | i >= 1
        ensures OccursAt(hay, needle, i) <==> OccursAt(hay[1..], needle, i - 1)
      {
        OccursInTail(hay, needle, i - 1);
      }
    }
  }

  /** An occurrence inside the first part stays the first one however the input goes on. */
  lemma {:induction false} FindStable(x: seq<Byte>, y: seq<Byte>, needle: seq<Byte>)
    requires |needle| > 0 && Find(x, needle).Some?
    ensures Find(x + y, needle) == Find(x, needle)
  {
    assert (x + y)[..|needle|] == x[..|needle|];
    if x[..|needle|] != needle {
      assert (x + y)[1..] == x[1..] + y;
      FindStable(x[1..], y, needle);
    }
  }

  /** What is left after dropping all before the first occurrence starts with it. */
  lemma {:induction false} FindAtStart(x: seq<Byte>, needle: seq<Byte>)
    requires |needle| > 0 && Find(x, needle).Some?
    ensures Find(x[Find(x, needle).value..], needle) == Some(0)
    ensures x[Find(x, needle).value..][..|needle|] == needle
  {
    if x[..|needle|] != needle {
      FindAtStart(x[1..], needle);
      var k := Find(x[1..], needle).value;
      assert x[k + 1..] == x[1..][k..];
    }
  }

  function Shift(at: Option<nat>, n: nat): Option<nat> {
    if at.Some? then Some(at.value + n) else None
  }

  /** Bytes at which nothing can start any more may be dropped. */
  lemma {:induction false} FindAfterDrop(x: seq<Byte>, y: seq<Byte>, needle: seq<Byte>, take: nat)
    requires |needle| > 0 && Find(x, needle).None? && take == |x| - Min(|x|, |needle| - 1)
    ensures Find(x + y, needle) == Shift(Find(x[take..] + y, needle), take)
  {
    if |x| < |needle| {
      assert x[0..] == x;
    } else {
      assert (x + y)[..|needle|] == x[..|needle|];
      assert (x + y)[1..] == x[1..] + y;
      assert x[1..][take - 1..] == x[take..];
      FindAfterDrop(x[1..], y, needle, take - 1);
      assert Find(x + y, needle) == Shift(Find(x[1..] + y, needle), 1);
    }
  }

  // ----- The END marker's tail -----

  /** What the bytes after an END prefix turn out to be. */
  datatype EndMarker =
    | Incomplete
    | NotMarker
    | Exit(code: nat)

  predicate IsDigit(b: Byte) {
    48 <= b <= 57
  }

  const SUFFIX: seq<Byte> := [83, 72, 85, 88, 95, 69, 78, 68]  // SHUX_END

  /** How many bytes at the front of `rest` are digits. */
  function LeadingDigits(rest: seq<Byte>): (n: nat)
    ensures n <= |rest|
    ensures forall i :: 0 <= i < n ==> IsDigit(rest[i])
    ensures n < |rest| ==> !IsDigit(rest[n])
  {
    if rest == [] || !IsDigit(rest[0]) then 0 else 1 + LeadingDigits(rest[1..])
  }

  function DecimalValue(digits: seq<Byte>): nat
    requires forall i :: 0 <= i < |digits| ==> IsDigit(digits[i])
  {
    if digits == [] then 0 else
    var last := digits[|digits| - 1];
    assert IsDigit(last);
    DecimalValue(digits[..|digits| - 1]) * 10 + (last - 48)
  }

  /** Tell a genuine END marker from output that looks like one, or ask for more bytes. */
  function ClassifyEnd(rest: seq<Byte>): EndMarker {
    var digits := LeadingDigits(rest);
    if digits > 3 then NotMarker else
    var tail := rest[digits..];
    if |tail| < |SUFFIX| then
      if tail == [] || (digits > 0 && tail <= SUFFIX) then Incomplete else NotMarker
    else if digits == 0 || !(SUFFIX <= tail) then NotMarker
    else Exit(DecimalValue(rest[..digits]))
  }

  /** A number as a shell writes it: repeated division by ten. */
  function Printed(n: nat): (text: seq<Byte>)
    ensures |text| >= 1
  {
    if n < 10 then [48 + n] else Printed(n / 10) + [48 + n % 10]
  }

  /** The last `width` decimal digits of a number, zeros in front where it has fewer. */
  function Padded(n: nat, width: nat): (text: seq<Byte>)
    ensures |text| == width
  {
    if width == 0 then [] else Padded(n / 10, width - 1) + [48 + n % 10]
  }

  function TenTo(width: nat): nat {
    if width == 0 then 1 else 10 * TenTo(width - 1)
  }

  /** `rest` begins with `code` written in one to three digits, and then SHUX_END. */
  ghost predicate ReadsExit(rest: seq<Byte>, code: nat) {
    exists width: nat :: ReadsExitIn(rest, code, width)
  }

  predicate ReadsExitIn(rest: seq<Byte>, code: nat, width: nat) {
    1 <= width <= 3 && code < TenTo(width) && Padded(code, width) + SUFFIX <= rest
  }

  lemma {:induction false} PaddedIsDigits(n: nat, width: nat)
    ensures forall i :: 0 <= i < width ==> IsDigit(Padded(n, width)[i])
  {
    if width > 0 {
      PaddedIsDigits(n / 10, width - 1);
    }
  }

  /** Reading digits and writing them at their width are inverse to each other. */
  lemma {:induction false} ValueIsPadded(digits: seq<Byte>, n: nat)
    requires forall i :: 0 <= i < |digits| ==> IsDigit(digits[i])
    ensures DecimalValue(digits) < TenTo(|digits|)
    ensures DecimalValue(digits) == n <==> n < TenTo(|digits|) && digits == Padded(n, |digits|)
    decreases |digits|
  {
    if digits != [] {
      var (front, last) := (digits[..|digits| - 1], digits[|digits| - 1]);
      assert IsDigit(last) && digits == front + [last];
      ValueIsPadded(front, n / 10);
      if digits == Padded(n, |digits|) {
        assert last == Padded(n, |digits|)[|digits| - 1];
        assert front == Padded(n, |digits|)[..|digits| - 1] == Padded(n / 10, |front|);
      }
    }
  }

  /** A number of up to three digits is written at just its width, without zeros in front. */
  lemma PrintedIsPadded(n: nat)
    requires n < 1000
    ensures |Printed(n)| <= 3 && n < TenTo(|Printed(n)|) && Printed(n) == Padded(n, |Printed(n)|)
  {
    assert TenTo(1) == 10 && TenTo(2) == 100 && TenTo(3) == 1000;
    assert forall m: nat :: m < 10 ==> Padded(m, 1) == Padded(m / 10, 0) + [48 + m];
    if n >= 10 {
      assert Printed(n) == Printed(n / 10) + [48 + n % 10];
      if n >= 100 {
        assert Printed(n / 10) == Printed(n / 100) + [48 + n / 10 % 10];
      }
    }
  }

  lemma LeadingDigitsIs(rest: seq<Byte>, n: nat)
    requires n <= |rest| && (forall i :: 0 <= i < n ==> IsDigit(rest[i])) && (n < |rest| ==> !IsDigit(rest[n]))
    ensures LeadingDigits(rest) == n
  {
    var m := LeadingDigits(rest);
    assert forall i :: 0 <= i < Min(m, n) ==> IsDigit(rest[i]);
  }

  /** The classification is `Exit` exactly on the code written in one to three digits and SHUX_END after it. */
  lemma ClassifyExitIff(rest: seq<Byte>, code: nat)
    ensures ClassifyEnd(rest) == Exit(code) <==> ReadsExit(rest, code)
  {
    var digits := LeadingDigits(rest);
    if ClassifyEnd(rest) == Exit(code) {
      ValueIsPadded(rest[..digits], code);
      assert Padded(code, digits) + SUFFIX <= rest by {
        assert rest == rest[..digits] + rest[digits..];
        assert rest[digits..][..|SUFFIX|] == SUFFIX;
      }
      assert ReadsExitIn(rest, code, digits);
    }
    if width: nat :| ReadsExitIn(rest, code, width) {
      ExitTextClassifies(rest, code, width);
    }
  }

  lemma ExitTextClassifies(rest: seq<Byte>, code: nat, width: nat)
    requires ReadsExitIn(rest, code, width)
    ensures ClassifyEnd(rest) == Exit(code)
  {
    var text := Padded(code, width) + SUFFIX;
    assert rest[..|text|] == text;
    assert rest[..width] == text[..width] == Padded(code, width);
    assert rest[width..][..|SUFFIX|] == text[width..] == SUFFIX;
    assert rest[width] == SUFFIX[0] == 83;
    PaddedIsDigits(code, width);
    assert forall i :: 0 <= i < width ==> rest[i] == Padded(code, width)[i];
    LeadingDigitsIs(rest, width);
    ValueIsPadded(rest[..width], code);
  }

  /** Once decided, later bytes do not change the classification. */
  lemma ClassifyStable(rest: seq<Byte>, more: seq<Byte>)
    requires ClassifyEnd(rest) != Incomplete
    ensures ClassifyEnd(rest + more) == ClassifyEnd(rest)
  {
    var digits := LeadingDigits(rest);
    var all := rest + more;
    if digits < |rest| {
      LeadingDigitsIs(all, digits);
      assert all[digits..] == rest[digits..] + more;
      assert all[..digits] == rest[..digits];
      PrefixOfExtension(rest[digits..], more, SUFFIX);
    } else {
      assert forall i :: 0 <= i < digits ==> IsDigit(all[i]);
    }
  }

  /** A marker is waited for exactly while it is not there and bytes still to come could make it one. */
  lemma ClassifyIncompleteIff(rest: seq<Byte>)
    ensures ClassifyEnd(rest) == Incomplete <==>
            (forall code: nat :: !ReadsExit(rest, code)) && exists more, code: nat :: ReadsExit(rest + more, code)
  {
    hide ReadsExit, ClassifyEnd;
    forall code: nat
      ensures ReadsExit(rest, code) <==> ClassifyEnd(rest) == Exit(code)
    {
      ClassifyExitIff(rest, code);
    }
    if ClassifyEnd(rest) == Incomplete {
      var more, code := Completion(rest);
      ClassifyExitIff(rest + more, code);
    }
    if more, code: nat :| ReadsExit(rest + more, code) {
      ClassifyExitIff(rest + more, code);
      if ClassifyEnd(rest) != Incomplete {
        ClassifyStable(rest, more);
        assert ClassifyEnd(rest) == Exit(code);
      }
    }
  }

  lemma Completion(rest: seq<Byte>) returns (more: seq<Byte>, code: nat)
    requires ClassifyEnd(rest) == Incomplete
    ensures ClassifyEnd(rest + more) == Exit(code)
  {
    var digits := LeadingDigits(rest);
    var tail := rest[digits..];
    if rest == [] {
      more := [48] + SUFFIX;
      code := 0;
      assert rest + more == more;
      assert more == Padded(0, 1) + SUFFIX && ReadsExitIn(more, 0, 1);
      ClassifyExitIff(more, 0);
    } else {
      more := SUFFIX[|tail|..];
      var all := rest + more;
      assert tail + more == SUFFIX;
      assert all[digits..] == tail + more;
      assert all[digits] == 83 && forall i :: 0 <= i < digits ==> all[i] == rest[i];
      LeadingDigitsIs(all, digits);
      code := DecimalValue(all[..digits]);
    }
  }

  lemma PrefixOfExtension(tail: seq<Byte>, more: seq<Byte>, suffix: seq<Byte>)
    ensures |tail| >= |suffix| ==> (suffix <= tail + more <==> suffix <= tail)
    ensures |tail| < |suffix| && (suffix <= tail + more || tail + more <= suffix) ==> tail <= suffix
  {
    assert (tail + more)[..|tail|] == tail;
    if |tail| >= |suffix| {
      assert (tail + more)[..|suffix|] == tail[..|suffix|];
    }
  }

  // ----- Scanning the payload -----

  /**
   A scan's result: bytes that belong to the command, bytes held back, and the exit code if the END marker was seen.
   */
  datatype Scan = Scan(kept: seq<Byte>, rest: seq<Byte>, exit: Option<nat>)

  function ScanPayload(buf: seq<Byte>, end: seq<Byte>): Scan
    requires |end| > 0
    decreases |buf|
  {
    match Find(buf, end)
    case None =>
      var take := |buf| - Min(|buf|, |end| - 1);
      Scan(buf[..take], buf[take..], None)
    case Some(at) =>
      match ClassifyEnd(buf[at + |end|..])
      case Incomplete => Scan(buf[..at], buf[at..], None)
      case NotMarker =>
        var s := ScanPayload(buf[at + |end|..], end);
        s.(kept := buf[..at + |end|] + s.kept)
      case Exit(code) => Scan(buf[..at], [], Some(code))
  }

  /** Nothing is lost or reordered: until the END marker, kept and held bytes are exactly the input. */
  lemma {:induction false} ScanConserves(buf: seq<Byte>, end: seq<Byte>)
    requires |end| > 0
    ensures var s := ScanPayload(buf, end);
            if s.exit.None? then s.kept + s.rest == buf else s.kept <= buf && s.rest == []
    decreases |buf|
  {
    hide Find, ClassifyEnd;
    if Find(buf, end).Some? && ClassifyEnd(buf[Find(buf, end).value + |end|..]).NotMarker? {
      var n := Find(buf, end).value + |end|;
      ScanConserves(buf[n..], end);
      PrependConserves(buf, n, ScanPayload(buf[n..], end));
    }
  }

  lemma PrependConserves(buf: seq<Byte>, n: nat, s: Scan)
    requires n <= |buf|
    requires if s.exit.None? then s.kept + s.rest == buf[n..] else s.kept <= buf[n..] && s.rest == []
    ensures if s.exit.None? then buf[..n] + s.kept + s.rest == buf else buf[..n] + s.kept <= buf
  {
    if s.exit.None? {
      assert buf == buf[..n] + (s.kept + s.rest);
    } else {
      assert buf[n..][..|s.kept|] == s.kept;
      assert buf[..n + |s.kept|] == buf[..n] + s.kept;
    }
  }

  /** `s` and then `s'` on what `s` held back. */
  function After(s: Scan, s': Scan): Scan {
    s'.(kept := s.kept + s'.kept)
  }

  /** Scanning `x`, then what it held back followed by `y`, is scanning `x + y`. */
  lemma {:induction false} ScanSplits(x: seq<Byte>, y: seq<Byte>, end: seq<Byte>)
    requires |end| > 0
    ensures var s := ScanPayload(x, end);
            ScanPayload(x + y, end) == if s.exit.Some? then s else After(s, ScanPayload(s.rest + y, end))
    decreases |x|
  {
    hide Find, ClassifyEnd;
    match Find(x, end)
    case None => SplitWithoutMarker(x, y, end);
    case Some(at) =>
      FindStable(x, y, end);
      var n := at + |end|;
      assert (x + y)[..at] == x[..at] && (x + y)[..n] == x[..n] && (x + y)[n..] == x[n..] + y;
      match ClassifyEnd(x[n..])
      case Incomplete => SplitInsideMarker(x, y, end);
      case NotMarker =>
        ClassifyStable(x[n..], y);
        ScanSplits(x[n..], y, end);
        var s := ScanPayload(x[n..], end);
        var s' := ScanPayload(s.rest + y, end);
        assert x[..n] + (s.kept + s'.kept) == x[..n] + s.kept + s'.kept;
      case Exit(_) => ClassifyStable(x[n..], y);
  }

  lemma SplitInsideMarker(x: seq<Byte>, y: seq<Byte>, end: seq<Byte>)
    requires |end| > 0 && Find(x, end).Some? && ClassifyEnd(x[Find(x, end).value + |end|..]) == Incomplete
    ensures ScanPayload(x + y, end) == After(ScanPayload(x, end), ScanPayload(ScanPayload(x, end).rest + y, end))
  {
    hide Find, ClassifyEnd;
    var at := Find(x, end).value;
    var n, held := at + |end|, x[at..];
    FindStable(x, y, end);
    FindAtStart(x, end);
    FindStable(held, y, end);
    assert (x + y)[..at] == x[..at] && (x + y)[at..] == held + y;
    assert (x + y)[n..] == (held + y)[|end|..];
    assert (x + y)[..n] == x[..at] + (held + y)[..|end|];
    assert x[..at] + (held + y)[..0] == x[..at] && (held + y)[0..] == held + y;
    if ClassifyEnd((x + y)[n..]).NotMarker? {
      var s' := ScanPayload((x + y)[n..], end);
      assert x[..at] + ((held + y)[..|end|] + s'.kept) == (x + y)[..n] + s'.kept;
    }
  }

  lemma SplitWithoutMarker(x: seq<Byte>, y: seq<Byte>, end: seq<Byte>)
    requires |end| > 0 && Find(x, end).None?
    ensures ScanPayload(x, end).exit.None?
    ensures ScanPayload(x + y, end) == After(ScanPayload(x, end), ScanPayload(ScanPayload(x, end).rest + y, end))
  {
    hide Find, ClassifyEnd;
    var take := |x| - Min(|x|, |end| - 1);
    var drop, keep := x[..take], x[take..] + y;
    assert x + y == drop + keep;
    FindAfterDrop(x, y, end, take);
    if Find(keep, end).None? {
      PrefixBeforeNothing(drop, keep, x + y, end);
    } else {
      PrefixBeforeMarker(drop, keep, x + y, end);
    }
  }

  /** A prefix in which nothing starts is kept whole. */
  lemma PrefixBeforeNothing(drop: seq<Byte>, keep: seq<Byte>, all: seq<Byte>, end: seq<Byte>)
    requires |end| > 0 && all == drop + keep && (drop != [] ==> |keep| >= |end| - 1)
    requires Find(all, end).None? && Find(keep, end).None?
    ensures ScanPayload(all, end) == var s := ScanPayload(keep, end); s.(kept := drop + s.kept)
  {
    hide Find, ClassifyEnd;
    SlicePast(drop, keep, |keep| - Min(|keep|, |end| - 1));
  }

  /** What the scan does at the first END prefix, given what it cuts there. */
  function ScanAt(before: seq<Byte>, through: seq<Byte>, from: seq<Byte>, after: seq<Byte>, end: seq<Byte>): Scan
    requires |end| > 0
  {
    match ClassifyEnd(after)
    case Incomplete => Scan(before, from, None)
    case NotMarker => var s := ScanPayload(after, end); s.(kept := through + s.kept)
    case Exit(code) => Scan(before, [], Some(code))
  }

  lemma ScanIsScanAt(buf: seq<Byte>, end: seq<Byte>, at: nat)
    requires |end| > 0 && Find(buf, end) == Some(at)
    ensures at + |end| <= |buf|
    ensures ScanPayload(buf, end) == ScanAt(buf[..at], buf[..at + |end|], buf[at..], buf[at + |end|..], end)
  {
    hide ClassifyEnd;
  }

  lemma ScanAtPast(drop: seq<Byte>, before: seq<Byte>, through: seq<Byte>, from: seq<Byte>, after: seq<Byte>,
                   end: seq<Byte>)
    requires |end| > 0
    ensures ScanAt(drop + before, drop + through, from, after, end)
         == var s := ScanAt(before, through, from, after, end); s.(kept := drop + s.kept)
  {
    hide ClassifyEnd, ScanPayload;
    var s := ScanPayload(after, end);
    assert drop + (through + s.kept) == drop + through + s.kept;
  }

  lemma PrefixBeforeMarker(drop: seq<Byte>, keep: seq<Byte>, all: seq<Byte>, end: seq<Byte>)
    requires |end| > 0 && all == drop + keep
    requires Find(keep, end).Some? && Find(all, end) == Shift(Find(keep, end), |drop|)
    ensures ScanPayload(all, end) == var s := ScanPayload(keep, end); s.(kept := drop + s.kept)
  {
    hide Find, ClassifyEnd, ScanPayload, ScanAt;
    var k := Find(keep, end).value;
    ScanIsScanAt(keep, end, k);
    ScanIsScanAt(all, end, |drop| + k);
    SlicePast(drop, keep, k);
    SlicePast(drop, keep, k + |end|);
    ScanAtPast(drop, keep[..k], keep[..k + |end|], keep[k..], keep[k + |end|..], end);
  }

  // ----- The first genuine END marker -----

  /** A whole END marker starts at `i`. */
  predicate GenuineAt(buf: seq<Byte>, end: seq<Byte>, i: nat) {
    OccursAt(buf, end, i) && ClassifyEnd(buf[i + |end|..]).Exit?
  }

  /** What the scanner needs of an END prefix: it cannot overlap itself, and is longer than a marker's tail. */
  predicate IsEndPrefix(end: seq<Byte>) {
    && |end| > 3 + |SUFFIX|
    && forall i :: 0 <= i < |end| - 1 ==> end[i] != end[|end| - 1]
  }

  lemma OccurrencesDoNotOverlap(hay: seq<Byte>, needle: seq<Byte>, i: nat, j: nat)
    requires IsEndPrefix(needle) && OccursAt(hay, needle, i) && OccursAt(hay, needle, j) && i < j
    ensures j >= i + |needle|
  {
    var last := i + |needle| - 1;
    assert hay[last] == hay[i..i + |needle|][|needle| - 1] == needle[|needle| - 1];
    assert forall k :: j <= k < j + |needle| ==> hay[k] == hay[j..j + |needle|][k - j] == needle[k - j];
  }

  lemma IncompleteIsShort(rest: seq<Byte>, end: seq<Byte>, i: nat)
    requires ClassifyEnd(rest) == Incomplete && IsEndPrefix(end)
    ensures !GenuineAt(rest, end, i)
  {
  }

  lemma OccursFits(hay: seq<Byte>, needle: seq<Byte>, i: nat)
    requires GenuineAt(hay, needle, i)
    ensures i + |needle| <= |hay|
  {
  }

  /** No genuine marker starts before the end of the first END prefix, except at that prefix itself. */
  lemma NothingGenuineBefore(buf: seq<Byte>, end: seq<Byte>, i: nat)
    requires IsEndPrefix(end) && Find(buf, end).Some? && i < Find(buf, end).value + |end| && i != Find(buf, end).value
    ensures !GenuineAt(buf, end, i)
  {
    FindIsFirst(buf, end);
    var at := Find(buf, end).value;
    if i > at && OccursAt(buf, end, i) {
      OccurrencesDoNotOverlap(buf, end, at, i);
    }
  }

  /** Genuine markers past `n` are those of the input from `n` on. */
  lemma GenuineAfter(buf: seq<Byte>, end: seq<Byte>, n: nat, i: nat)
    requires n <= i && n <= |buf|
    ensures GenuineAt(buf, end, i) <==> GenuineAt(buf[n..], end, i - n)
  {
    if i + |end| <= |buf| {
      assert buf[n..][i - n..i - n + |end|] == buf[i..i + |end|];
      assert buf[n..][i - n + |end|..] == buf[i + |end|..];
    }
  }

  /** The scan of `buf` stopped with `s` at its first genuine marker, or found none. */
  ghost predicate StopsAtFirst(buf: seq<Byte>, end: seq<Byte>, s: Scan) {
    match s.exit
    case None => forall i: nat :: !GenuineAt(buf, end, i)
    case Some(code) =>
      && GenuineAt(buf, end, |s.kept|) && s.kept == buf[..|s.kept|]
      && ClassifyEnd(buf[|s.kept| + |end|..]) == Exit(code)
      && forall i: nat :: i < |s.kept| ==> !GenuineAt(buf, end, i)
  }

  /** Stopping past a false marker is stopping in what follows it. */
  lemma StopsPastFalseMarker(buf: seq<Byte>, end: seq<Byte>, n: nat, s: Scan)
    requires n <= |buf| && StopsAtFirst(buf[n..], end, s)
    requires forall i: nat :: i < n ==> !GenuineAt(buf, end, i)
    ensures StopsAtFirst(buf, end, s.(kept := buf[..n] + s.kept))
  {
    hide ClassifyEnd, OccursAt;
    forall i: nat | i >= n ensures GenuineAt(buf, end, i) <==> GenuineAt(buf[n..], end, i - n) {
      GenuineAfter(buf, end, n, i);
    }
    if s.exit.Some? {
      OccursFits(buf[n..], end, |s.kept|);
      assert buf == buf[..n] + buf[n..];
      SlicePast(buf[..n], buf[n..], |s.kept|);
      SlicePast(buf[..n], buf[n..], |s.kept| + |end|);
      assert GenuineAt(buf, end, n + |s.kept|);
    }
  }

  /**
   The scan ends exactly at the first genuine END marker of its input, with that marker's code, and keeps
   exactly the bytes before it; without one it does not end.
   */
  lemma {:induction false} ScanStopsAtFirstGenuine(buf: seq<Byte>, end: seq<Byte>)
    requires IsEndPrefix(end)
    ensures StopsAtFirst(buf, end, ScanPayload(buf, end))
    decreases |buf|
  {
    hide Find, ClassifyEnd, OccursAt;
    FindIsFirst(buf, end);
    if Find(buf, end).Some? {
      var at := Find(buf, end).value;
      var n := at + |end|;
      forall i: nat | i < n && i != at ensures !GenuineAt(buf, end, i) {
        NothingGenuineBefore(buf, end, i);
      }
      if ClassifyEnd(buf[n..]).NotMarker? {
        ScanStopsAtFirstGenuine(buf[n..], end);
        hide StopsAtFirst;
        StopsPastFalseMarker(buf, end, n, ScanPayload(buf[n..], end));
      } else if ClassifyEnd(buf[n..]).Incomplete? {
        forall i: nat | i >= n ensures !GenuineAt(buf, end, i) {
          GenuineAfter(buf, end, n, i);
          IncompleteIsShort(buf[n..], end, i - n);
        }
      }
    }
  }

  // ----- The whole stream -----

  datatype BeginScan =
    | Waiting(rest: seq<Byte>)
    | Started(payload: seq<Byte>)

  /** Look for the BEGIN line; hold back what could still be part of it. */
  function ScanBegin(buf: seq<Byte>, begin: seq<Byte>): BeginScan
    requires |begin| > 0
  {
    match Find(buf, begin)
    case None => Waiting(buf[|buf| - Min(|buf|, |begin| - 1)..])
    case Some(at) =>
      var line := buf[at + |begin|..];
      match Find(line, [NEWLINE])
      case None => Waiting(buf[at..])
      case Some(nl) => Started(line[nl + 1..])
  }

  lemma BeginSplits(x: seq<Byte>, y: seq<Byte>, begin: seq<Byte>)
    requires |begin| > 0
    ensures match ScanBegin(x, begin)
            case Waiting(rest) => ScanBegin(x + y, begin) == ScanBegin(rest + y, begin)
            case Started(payload) => ScanBegin(x + y, begin) == Started(payload + y)
  {
    hide Find;
    if Find(x, begin).None? {
      BeginNotSeen(x, y, begin);
    } else {
      FindStable(x, y, begin);
      var at := Find(x, begin).value;
      var n := at + |begin|;
      assert (x + y)[n..] == x[n..] + y;
      if Find(x[n..], [NEWLINE]).Some? {
        FindStable(x[n..], y, [NEWLINE]);
        var nl := Find(x[n..], [NEWLINE]).value;
        assert (x[n..] + y)[nl + 1..] == x[n..][nl + 1..] + y;
      } else {
        FindAtStart(x, begin);
        FindStable(x[at..], y, begin);
        assert x[at..] + y == (x + y)[at..];
        assert (x[at..] + y)[|begin|..] == (x + y)[n..];
        assert (x[at..] + y)[0..] == x[at..] + y;
      }
    }
  }

  lemma BeginNotSeen(x: seq<Byte>, y: seq<Byte>, begin: seq<Byte>)
    requires |begin| > 0 && Find(x, begin).None?
    ensures ScanBegin(x, begin).Waiting? && ScanBegin(x + y, begin) == ScanBegin(ScanBegin(x, begin).rest + y, begin)
  {
    hide Find, ScanBegin;
    var take := |x| - Min(|x|, |begin| - 1);
    FindAfterDrop(x, y, begin, take);
    NoBeginYet(x, begin);
    assert x + y == x[..take] + (x[take..] + y);
    BeginAfterPrefix(x[..take], x[take..] + y, x + y, begin);
  }

  lemma NoBeginYet(x: seq<Byte>, begin: seq<Byte>)
    requires |begin| > 0 && Find(x, begin).None?
    ensures ScanBegin(x, begin) == Waiting(x[|x| - Min(|x|, |begin| - 1)..])
  {
    hide Find;
  }

  lemma BeginSeen(x: seq<Byte>, begin: seq<Byte>, at: nat)
    requires |begin| > 0 && Find(x, begin) == Some(at)
    ensures var line := x[at + |begin|..];
            var nl := Find(line, [NEWLINE]);
            && (nl.None? ==> ScanBegin(x, begin) == Waiting(x[at..]))
            && (nl.Some? ==> ScanBegin(x, begin) == Started(line[nl.value + 1..]))
  {
    hide Find;
  }

  /** Bytes before anything that could begin a BEGIN line do not matter. */
  lemma BeginAfterPrefix(drop: seq<Byte>, keep: seq<Byte>, all: seq<Byte>, begin: seq<Byte>)
    requires |begin| > 0 && all == drop + keep && (drop != [] ==> |keep| >= |begin| - 1)
    requires Find(all, begin) == Shift(Find(keep, begin), |drop|)
    ensures ScanBegin(all, begin) == ScanBegin(keep, begin)
  {
    hide Find, ScanBegin;
    if Find(keep, begin).Some? {
      SameAfterBegin(keep, Find(keep, begin).value, all, Find(all, begin).value, begin, drop);
    } else {
      SlicePast(drop, keep, |keep| - Min(|keep|, |begin| - 1));
      NoBeginYet(keep, begin);
      NoBeginYet(all, begin);
    }
  }

  lemma SameAfterBegin(keep: seq<Byte>, k: nat, all: seq<Byte>, k': nat, begin: seq<Byte>, drop: seq<Byte>)
    requires |begin| > 0 && Find(keep, begin) == Some(k) && Find(all, begin) == Some(k')
    requires all == drop + keep && k' == |drop| + k
    ensures ScanBegin(all, begin) == ScanBegin(keep, begin)
  {
    hide Find, ScanBegin;
    SlicePast(drop, keep, k);
    SlicePast(drop, keep, k + |begin|);
    assert all[k'..] == keep[k..] && all[k' + |begin|..] == keep[k + |begin|..];
    BeginSeen(keep, begin, k);
    BeginSeen(all, begin, k');
  }

  /**
   What a command's part of the stream amounts to: past BEGIN or not, bytes kept, bytes held, exit code if complete.
   */
  datatype Consumed = Consumed(begun: bool, kept: seq<Byte>, rest: seq<Byte>, exit: Option<nat>)

  function Consume(begun: bool, buf: seq<Byte>, begin: seq<Byte>, end: seq<Byte>): Consumed
    requires |begin| > 0 && |end| > 0
  {
    if begun then
      var s := ScanPayload(buf, end);
      Consumed(true, s.kept, s.rest, s.exit)
    else
      match ScanBegin(buf, begin)
      case Waiting(rest) => Consumed(false, [], rest, None)
      case Started(payload) =>
        var s := ScanPayload(payload, end);
        Consumed(true, s.kept, s.rest, s.exit)
  }

  /** Where a read ends makes no difference: consuming `x` and then `y` is consuming `x + y`. */
  lemma ConsumeSplits(begun: bool, x: seq<Byte>, y: seq<Byte>, begin: seq<Byte>, end: seq<Byte>)
    requires |begin| > 0 && |end| > 0
    ensures var c := Consume(begun, x, begin, end);
            if c.exit.Some? then Consume(begun, x + y, begin, end) == c
            else var c' := Consume(c.begun, c.rest + y, begin, end);
                 Consume(begun, x + y, begin, end) == c'.(kept := c.kept + c'.kept)
  {
    hide ScanPayload, ScanBegin;
    if begun {
      ScanSplits(x, y, end);
    } else {
      BeginSplits(x, y, begin);
      match ScanBegin(x, begin)
      case Waiting(rest) =>
        var c' := Consume(false, rest + y, begin, end);
        assert [] + c'.kept == c'.kept;
      case Started(payload) => ScanSplits(payload, y, end);
    }
  }

  /** The payload starts at `n`: right after the newline that ends the first BEGIN line. */
  ghost predicate PayloadStarts(stream: seq<Byte>, begin: seq<Byte>, n: nat) {
    exists b: nat ::
      && OccursAt(stream, begin, b) && (forall i: nat :: i < b ==> !OccursAt(stream, begin, i))
      && b + |begin| < n <= |stream| && stream[n - 1] == NEWLINE
      && forall i :: b + |begin| <= i < n - 1 ==> stream[i] != NEWLINE
  }

  /** An END marker with this code starts at `i`. */
  ghost predicate MarkerAt(payload: seq<Byte>, end: seq<Byte>, i: nat, code: nat) {
    OccursAt(payload, end, i) && i + |end| <= |payload| && ReadsExit(payload[i + |end|..], code)
  }

  /** The first END marker of the payload is at `at`, and has this code. */
  ghost predicate FirstGenuineAt(payload: seq<Byte>, end: seq<Byte>, at: nat, code: nat) {
    MarkerAt(payload, end, at, code) && forall i: nat, c: nat :: i < at ==> !MarkerAt(payload, end, i, c)
  }

  lemma GenuineMeans(payload: seq<Byte>, end: seq<Byte>, i: nat)
    ensures GenuineAt(payload, end, i) <==> exists c: nat :: MarkerAt(payload, end, i, c)
    ensures forall c: nat ::
              MarkerAt(payload, end, i, c) <==>
              GenuineAt(payload, end, i) && ClassifyEnd(payload[i + |end|..]) == Exit(c)
  {
    hide ClassifyEnd, ReadsExit;
    forall c: nat
      ensures MarkerAt(payload, end, i, c) <==>
              GenuineAt(payload, end, i) && ClassifyEnd(payload[i + |end|..]) == Exit(c)
    {
      if OccursAt(payload, end, i) && i + |end| <= |payload| {
        ClassifyExitIff(payload[i + |end|..], c);
      }
    }
    if GenuineAt(payload, end, i) {
      assert MarkerAt(payload, end, i, ClassifyEnd(payload[i + |end|..]).code);
    }
  }

  lemma FindByte(s: seq<Byte>, b: Byte)
    ensures match Find(s, [b])
            case None => b !in s
            case Some(k) => k < |s| && s[k] == b && b !in s[..k]
  {
    FindIsFirst(s, [b]);
    assert forall i: nat :: i < |s| ==> s[i..i + 1] == [s[i]];
    assert forall i: nat :: i < |s| ==> (OccursAt(s, [b], i) <==> s[i] == b);
  }

  lemma StartedWhere(stream: seq<Byte>, begin: seq<Byte>)
    requires |begin| > 0
    ensures match ScanBegin(stream, begin)
            case Started(payload) =>
              |payload| <= |stream| && payload == stream[|stream| - |payload|..]
              && PayloadStarts(stream, begin, |stream| - |payload|)
            case Waiting(_) => forall n: nat :: !PayloadStarts(stream, begin, n)
  {
    hide Find;
    FindIsFirst(stream, begin);
    if Find(stream, begin).Some? {
      var b := Find(stream, begin).value;
      var line := stream[b + |begin|..];
      FindByte(line, NEWLINE);
      assert forall i :: b + |begin| <= i < |stream| ==> stream[i] == line[i - b - |begin|];
      if Find(line, [NEWLINE]).Some? {
        var nl := Find(line, [NEWLINE]).value;
        var n := b + |begin| + nl + 1;
        assert line[nl + 1..] == stream[n..];
        assert forall i :: b + |begin| <= i < n - 1 ==> stream[i] == line[..nl][i - b - |begin|];
        assert PayloadStarts(stream, begin, n);
      }
    }
  }

  lemma PayloadStartsOnce(stream: seq<Byte>, begin: seq<Byte>, n: nat, m: nat)
    requires PayloadStarts(stream, begin, n) && PayloadStarts(stream, begin, m)
    ensures n == m
  {
  }

  /** The payload scan completes with `code` after `at` bytes exactly when the first genuine marker is there. */
  lemma FirstGenuineIff(payload: seq<Byte>, end: seq<Byte>, at: nat, code: nat)
    requires IsEndPrefix(end)
    ensures var s := ScanPayload(payload, end);
            FirstGenuineAt(payload, end, at, code) <==> s.exit == Some(code) && |s.kept| == at
    ensures FirstGenuineAt(payload, end, at, code) ==>
              at <= |payload| && ScanPayload(payload, end).kept == payload[..at]
  {
    hide ScanPayload, ClassifyEnd, MarkerAt, GenuineAt;
    ScanStopsAtFirstGenuine(payload, end);
    GenuineMeans(payload, end, at);
    var s := ScanPayload(payload, end);
    if s.exit.Some? {
      FitsBefore(payload, end, |s.kept|);
      GenuineMeans(payload, end, |s.kept|);
    }
    if FirstGenuineAt(payload, end, at, code) {
      FitsBefore(payload, end, at);
      assert s.exit.Some? && |s.kept| == at;
    }
    if s.exit == Some(code) && |s.kept| == at {
      forall i: nat, c: nat | i < at
        ensures !MarkerAt(payload, end, i, c)
      {
        GenuineMeans(payload, end, i);
      }
    }
  }

  lemma FitsBefore(payload: seq<Byte>, end: seq<Byte>, i: nat)
    requires GenuineAt(payload, end, i)
    ensures i + |end| <= |payload|
  {
  }

  /**
   The meaning of a whole stream, independent of how it was read: the command completes exactly when a
   payload started and holds a genuine END marker, with the first such marker's exit code; what is kept is
   the payload before it.
   */
  lemma StreamMeaning(stream: seq<Byte>, begin: seq<Byte>, end: seq<Byte>, code: nat)
    requires |begin| > 0 && IsEndPrefix(end)
    ensures Consume(false, stream, begin, end).exit == Some(code) <==>
            exists n: nat, at: nat ::
              PayloadStarts(stream, begin, n) && n <= |stream| && FirstGenuineAt(stream[n..], end, at, code)
    ensures forall n: nat, at: nat ::
              PayloadStarts(stream, begin, n) && n <= |stream| && FirstGenuineAt(stream[n..], end, at, code)
              ==> n + at <= |stream| && Consume(false, stream, begin, end).kept == stream[n..n + at]
  {
    hide PayloadStarts, FirstGenuineAt, ScanBegin, ScanPayload;
    StartedWhere(stream, begin);
    var c := Consume(false, stream, begin, end);
    match ScanBegin(stream, begin)
    case Waiting(_) =>
    case Started(payload) =>
      var n := |stream| - |payload|;
      if c.exit == Some(code) {
        FirstGenuineIff(payload, end, |c.kept|, code);
      }
      forall m: nat, at: nat |
        PayloadStarts(stream, begin, m) && m <= |stream| && FirstGenuineAt(stream[m..], end, at, code)
        ensures c.exit == Some(code) && m + at <= |stream| && c.kept == stream[m..m + at]
      {
        PayloadStartsOnce(stream, begin, n, m);
        FirstGenuineIff(payload, end, at, code);
        assert stream[m..m + at] == payload[..at];
      }
  }
}
