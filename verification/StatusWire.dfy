/**
 Program status on the wire, OSC 7501: `key=value` pairs between colons, read into a report or refused whole, and the
 writer of reports.
 */
module StatusWire {
  import opened Wrappers
  import opened ByteStrings
  import opened StatusModel
  import Base64

  const COLON: Byte := 58
  const EQUALS: Byte := 61

  const MAX_PAYLOAD_BYTES: nat := 4087
  const MAX_KEY_BYTES: nat := 16
  const MAX_MSG_ENCODED: nat := 2732
  const MAX_MSG_DECODED: nat := 2048
  const MAX_TITLE_ENCODED: nat := 256
  const MAX_TITLE_DECODED: nat := 192
  const MAX_APP_BYTES: nat := 32

  datatype Message = Query | Reported(report: Report)

  /** The reasons to refuse a payload. */
  datatype Reject = PayloadTooLong | KeyTooLong | ValueTooLong | BadId | BadText | MissingState | UnknownState

  // ----- Words of the wire -----

  const STATE: seq<Byte> := [115, 116, 97, 116, 101]
  const ID: seq<Byte> := [105, 100]
  const KIND: seq<Byte> := [107, 105, 110, 100]
  const PROGRESS: seq<Byte> := [112, 114, 111, 103, 114, 101, 115, 115]
  const APP: seq<Byte> := [97, 112, 112]
  const TITLE: seq<Byte> := [116, 105, 116, 108, 101]
  const MSG: seq<Byte> := [109, 115, 103]
  const CLEAR: seq<Byte> := [99, 108, 101, 97, 114]

  function StateName(s: State): seq<Byte> {
    match s
    case Idle => [105, 100, 108, 101]
    case Working => [119, 111, 114, 107, 105, 110, 103]
    case Done => [100, 111, 110, 101]
    case Blocked => [98, 108, 111, 99, 107, 101, 100]
    case Error => [101, 114, 114, 111, 114]
  }

  function ParseState(b: seq<Byte>): Option<State> {
    if b == StateName(Idle) then Some(Idle)
    else if b == StateName(Working) then Some(Working)
    else if b == StateName(Done) then Some(Done)
    else if b == StateName(Blocked) then Some(Blocked)
    else if b == StateName(Error) then Some(Error)
    else None
  }

  function KindName(k: Kind): seq<Byte> {
    match k
    case Permission => [112, 101, 114, 109, 105, 115, 115, 105, 111, 110]
    case Question => [113, 117, 101, 115, 116, 105, 111, 110]
    case Auth => [97, 117, 116, 104]
  }

  function ParseKind(b: seq<Byte>): Option<Kind> {
    if b == KindName(Permission) then Some(Permission)
    else if b == KindName(Question) then Some(Question)
    else if b == KindName(Auth) then Some(Auth)
    else None
  }

  // ----- Values -----

  predicate IsBlank(b: Byte) {
    b == 32 || b == 9
  }

  function TrimFront(s: seq<Byte>): seq<Byte> {
    if s != [] && IsBlank(s[0]) then TrimFront(s[1..]) else s
  }

  function TrimBack(s: seq<Byte>): seq<Byte> {
    if s != [] && IsBlank(s[|s| - 1]) then TrimBack(s[..|s| - 1]) else s
  }

  function Trim(s: seq<Byte>): seq<Byte> {
    TrimBack(TrimFront(s))
  }

  predicate IsLower(b: Byte) {
    97 <= b <= 122
  }

  /** Letters, digits and `_ . , + / = -`. */
  predicate IsValueByte(b: Byte) {
    IsAlnumByte(b) || b == 95 || b == 46 || b == 44 || b == 43 || b == 47 || b == 61 || b == 45
  }

  predicate AllValueBytes(s: seq<Byte>) {
    forall i :: 0 <= i < |s| ==> IsValueByte(s[i])
  }

  predicate IsDigit(b: Byte) {
    48 <= b <= 57
  }

  function Decimal(s: seq<Byte>): nat
    requires forall i :: 0 <= i < |s| ==> IsDigit(s[i])
  {
    if s == [] then 0 else
    var last := s[|s| - 1];
    assert IsDigit(last);
    Decimal(s[..|s| - 1]) * 10 + (last - 48)
  }

  /** `0` to `100` in at most three digits; anything else is absent. */
  function ParseProgress(s: seq<Byte>): Option<nat> {
    if s == [] || |s| > 3 || exists i :: 0 <= i < |s| && !IsDigit(s[i]) then None
    else if Decimal(s) <= 100 then Some(Decimal(s)) else None
  }

  function ProgressText(n: nat): seq<Byte>
    requires n <= 100
  {
    if n < 10 then [48 + n] else if n < 100 then [48 + n / 10, 48 + n % 10] else [49, 48, 48]
  }

  function ParseApp(s: seq<Byte>): Option<seq<Byte>> {
    if s != [] && forall i :: 0 <= i < |s| ==> IsIdByte(s[i]) then Some(s) else None
  }

  predicate IsContinuation(b: Byte) {
    0x80 <= b <= 0xBF
  }

  /** The length of the UTF-8 sequence at the front, if it is well formed and not a control character. */
  function CharLength(s: seq<Byte>): (n: nat)
    ensures n <= |s|
  {
    if s == [] then 0
    else if s[0] < 0x80 then if s[0] < 0x20 || s[0] == 0x7F then 0 else 1
    else if |s| < 2 || !IsContinuation(s[1]) then 0
    else if 0xC2 <= s[0] <= 0xDF then if s[0] == 0xC2 && s[1] < 0xA0 then 0 else 2
    else if |s| < 3 || !IsContinuation(s[2]) then 0
    else if 0xE0 <= s[0] <= 0xEF then
      if (s[0] == 0xE0 && s[1] < 0xA0) || (s[0] == 0xED && s[1] > 0x9F) then 0 else 3
    else if |s| < 4 || !IsContinuation(s[3]) then 0
    else if 0xF0 <= s[0] <= 0xF4 then
      if (s[0] == 0xF0 && s[1] < 0x90) || (s[0] == 0xF4 && s[1] > 0x8F) then 0 else 4
    else 0
  }

  /** Well-formed UTF-8 without control characters. */
  predicate IsText(s: seq<Byte>) {
    s == [] || (CharLength(s) > 0 && IsText(s[CharLength(s)..]))
  }

  /** Base64 text; empty means absent. */
  function DecodeText(value: seq<Byte>, maxDecoded: nat): Result<Option<seq<Byte>>, Reject> {
    if value == [] then Ok(None) else
    match Base64.Decode(value)
    case None => Err(BadText)
    case Some(bytes) =>
      if |bytes| > maxDecoded then Err(ValueTooLong)
      else if !IsText(bytes) then Err(BadText)
      else Ok(if bytes == [] then None else Some(bytes))
  }

  // ----- Decoding -----

  /**
   What the pairs so far have set; a later pair overwrites an earlier one, and an ill-formed optional value unsets
   it.
   */
  datatype Fields = Fields(
    state: Option<seq<Byte>>, id: Option<RecordId>, kind: Option<Kind>, progress: Option<nat>,
    app: Option<seq<Byte>>, title: Option<seq<Byte>>, msg: Option<seq<Byte>>)

  const NO_FIELDS := Fields(None, None, None, None, None, None, None)

  function IndexOfByte(s: seq<Byte>, b: Byte): (r: Option<nat>)
    ensures r.Some? ==> r.value < |s| && s[r.value] == b
  {
    if s == [] then None else if s[0] == b then Some(0) else
    match IndexOfByte(s[1..], b)
    case None => None
    case Some(k) => Some(k + 1)
  }

  function Limit(key: seq<Byte>): Option<nat> {
    if key == MSG then Some(MAX_MSG_ENCODED)
    else if key == TITLE then Some(MAX_TITLE_ENCODED)
    else if key == APP then Some(MAX_APP_BYTES)
    else if key == ID then Some(MAX_ID_BYTES)
    else None
  }

  /** Take a trimmed key and value into the fields. */
  function TakeKeyed(f: Fields, key: seq<Byte>, value: seq<Byte>): Result<Fields, Reject> {
    if key == [] then Ok(f)
    else if |key| > MAX_KEY_BYTES then Err(KeyTooLong)
    else if exists i :: 0 <= i < |key| && !IsLower(key[i]) then Ok(f)
    else if Limit(key).Some? && |value| > Limit(key).value then Err(if key == ID then BadId else ValueTooLong)
    else if key == ID then (if IsRecordId(value) then Ok(f.(id := Some(value))) else Err(BadId))
    else if !AllValueBytes(value) then Ok(f)
    else SetField(f, key, value)
  }

  function SetField(f: Fields, key: seq<Byte>, value: seq<Byte>): Result<Fields, Reject> {
    if key == STATE then Ok(f.(state := Some(value)))
    else if key == KIND then Ok(f.(kind := ParseKind(value)))
    else if key == PROGRESS then Ok(f.(progress := ParseProgress(value)))
    else if key == APP then Ok(f.(app := ParseApp(value)))
    else if key == TITLE then
      match DecodeText(value, MAX_TITLE_DECODED) { case Ok(t) => Ok(f.(title := t)) case Err(e) => Err(e) }
    else if key == MSG then
      match DecodeText(value, MAX_MSG_DECODED) { case Ok(t) => Ok(f.(msg := t)) case Err(e) => Err(e) }
    else Ok(f)
  }

  function Take(f: Fields, pair: seq<Byte>): Result<Fields, Reject> {
    match IndexOfByte(pair, EQUALS)
    case None => Ok(f)
    case Some(k) => TakeKeyed(f, Trim(pair[..k]), Trim(pair[k + 1..]))
  }

  function TakeAll(f: Fields, pairs: seq<seq<Byte>>): Result<Fields, Reject>
    decreases |pairs|
  {
    if pairs == [] then Ok(f) else
    match Take(f, pairs[0])
    case Err(e) => Err(e)
    case Ok(f') => TakeAll(f', pairs[1..])
  }

  function IntoReport(f: Fields): Result<Report, Reject> {
    if f.state.None? then Err(MissingState)
    else if f.state.value == CLEAR then Ok(Clear(f.id))
    else
      match ParseState(f.state.value)
      case None => Err(UnknownState)
      case Some(s) =>
        Ok(Set(f.id, Record(s, if s == Blocked then f.kind else None,
                            if s == Working || s == Blocked then f.progress else None, f.app, f.title, f.msg)))
  }

  function Decode(payload: seq<Byte>): Result<Message, Reject> {
    if |payload| > MAX_PAYLOAD_BYTES then Err(PayloadTooLong)
    else if Trim(payload) == [63] then Ok(Query)
    else
      match TakeAll(NO_FIELDS, SplitOn(payload, COLON))
      case Err(e) => Err(e)
      case Ok(f) =>
        match IntoReport(f)
        case Err(e) => Err(e)
        case Ok(r) => Ok(Reported(r))
  }

  // ----- Encoding -----

  function Pair(key: seq<Byte>, value: seq<Byte>): seq<Byte> {
    key + [EQUALS] + value
  }

  function OptionalPair(key: seq<Byte>, value: Option<seq<Byte>>): seq<seq<Byte>> {
    if value.None? then [] else [Pair(key, value.value)]
  }

  /** What a report puts on the wire, key by key. */
  datatype Words = Words(
    state: seq<Byte>, id: Option<seq<Byte>>, kind: Option<seq<Byte>>, progress: Option<seq<Byte>>,
    app: Option<seq<Byte>>, title: Option<seq<Byte>>, msg: Option<seq<Byte>>)

  function WordsOf(r: Report): Words
    requires r.Set? && r.record.progress.Some? ==> r.record.progress.value <= 100
  {
    match r
    case Clear(id) => Words(CLEAR, id, None, None, None, None, None)
    case Set(id, rec) =>
      Words(StateName(rec.state), id,
            if rec.kind.None? then None else Some(KindName(rec.kind.value)),
            if rec.progress.None? then None else Some(ProgressText(rec.progress.value)),
            rec.app,
            if rec.title.None? then None else Some(Base64.Encode(rec.title.value)),
            if rec.msg.None? then None else Some(Base64.Encode(rec.msg.value)))
  }

  function Pairs(w: Words): seq<seq<Byte>> {
    [Pair(STATE, w.state)] + OptionalPair(ID, w.id) + OptionalPair(KIND, w.kind) + OptionalPair(PROGRESS, w.progress)
    + OptionalPair(APP, w.app) + OptionalPair(TITLE, w.title) + OptionalPair(MSG, w.msg)
  }

  function Encode(r: Report): seq<Byte>
    requires r.Set? && r.record.progress.Some? ==> r.record.progress.value <= 100
  {
    Join(Pairs(WordsOf(r)), COLON)
  }

  // ----- What decoding produces -----

  predicate IsAppName(s: seq<Byte>) {
    1 <= |s| <= MAX_APP_BYTES && forall i :: 0 <= i < |s| ==> IsIdByte(s[i])
  }

  predicate IsTextField(t: Option<seq<Byte>>, max: nat) {
    t.Some? ==> 1 <= |t.value| <= max && IsText(t.value)
  }

  /** The reports that can come off the wire. */
  predicate WellFormed(r: Report) {
    && (r.id.Some? ==> IsRecordId(r.id.value))
    && (r.Set? ==>
          && (r.record.kind.Some? ==> r.record.state == Blocked)
          && (r.record.progress.Some? ==>
                r.record.progress.value <= 100 && (r.record.state == Working || r.record.state == Blocked))
          && (r.record.app.Some? ==> IsAppName(r.record.app.value))
          && IsTextField(r.record.title, MAX_TITLE_DECODED)
          && IsTextField(r.record.msg, MAX_MSG_DECODED))
  }

  predicate FieldsOk(f: Fields) {
    && (f.id.Some? ==> IsRecordId(f.id.value))
    && (f.progress.Some? ==> f.progress.value <= 100)
    && (f.app.Some? ==> IsAppName(f.app.value))
    && IsTextField(f.title, MAX_TITLE_DECODED)
    && IsTextField(f.msg, MAX_MSG_DECODED)
  }

  lemma DecodedTextOk(value: seq<Byte>, max: nat)
    ensures DecodeText(value, max).Ok? ==> IsTextField(DecodeText(value, max).value, max)
  {
    hide IsText, Base64.Decode;
  }

  lemma TakeKeyedKeepsOk(f: Fields, key: seq<Byte>, value: seq<Byte>)
    requires FieldsOk(f)
    ensures TakeKeyed(f, key, value).Ok? ==> FieldsOk(TakeKeyed(f, key, value).value)
  {
    DecodedTextOk(value, MAX_TITLE_DECODED);
    DecodedTextOk(value, MAX_MSG_DECODED);
    hide IsTextField, DecodeText, IsRecordId, ParseKind, AllValueBytes;
  }

  lemma TakeKeepsOk(f: Fields, pair: seq<Byte>)
    requires FieldsOk(f)
    ensures Take(f, pair).Ok? ==> FieldsOk(Take(f, pair).value)
  {
    hide TakeKeyed, FieldsOk, Trim;
    var at := IndexOfByte(pair, EQUALS);
    if at.Some? {
      TakeKeyedKeepsOk(f, Trim(pair[..at.value]), Trim(pair[at.value + 1..]));
    }
  }

  lemma {:induction false} TakeAllKeepsOk(f: Fields, pairs: seq<seq<Byte>>)
    requires FieldsOk(f)
    ensures TakeAll(f, pairs).Ok? ==> FieldsOk(TakeAll(f, pairs).value)
    decreases |pairs|
  {
    hide Take, FieldsOk;
    if pairs != [] && Take(f, pairs[0]).Ok? {
      TakeKeepsOk(f, pairs[0]);
      TakeAllKeepsOk(Take(f, pairs[0]).value, pairs[1..]);
    }
  }

  /** Whatever bytes arrive, an accepted report is well formed. */
  lemma DecodedIsWellFormed(payload: seq<Byte>)
    ensures Decode(payload).Ok? && Decode(payload).value.Reported? ==> WellFormed(Decode(payload).value.report)
  {
    hide TakeAll, IsText, IsRecordId, ParseState;
    TakeAllKeepsOk(NO_FIELDS, SplitOn(payload, COLON));
  }

  // ----- Reading back what was written -----

  /** Neither blank nor colon: bytes that survive trimming and splitting. */
  predicate Solid(s: seq<Byte>) {
    forall i :: 0 <= i < |s| ==> !IsBlank(s[i]) && s[i] != COLON
  }

  lemma TrimSolid(s: seq<Byte>)
    requires Solid(s)
    ensures Trim(s) == s
  {
  }

  lemma {:induction false} FirstEquals(key: seq<Byte>, value: seq<Byte>)
    requires EQUALS !in key
    ensures IndexOfByte(Pair(key, value), EQUALS) == Some(|key|)
  {
    var p := Pair(key, value);
    if key != [] {
      assert p[1..] == Pair(key[1..], value);
      FirstEquals(key[1..], value);
    }
  }

  predicate IsKey(key: seq<Byte>) {
    1 <= |key| <= MAX_KEY_BYTES && forall i :: 0 <= i < |key| ==> IsLower(key[i])
  }

  lemma TakePair(f: Fields, key: seq<Byte>, value: seq<Byte>)
    requires IsKey(key) && Solid(value)
    ensures Take(f, Pair(key, value)) == TakeKeyed(f, key, value) && Solid(Pair(key, value))
  {
    hide TakeKeyed, Trim;
    FirstEquals(key, value);
    var p := Pair(key, value);
    assert p[..|key|] == key && p[|key| + 1..] == value;
    TrimSolid(key);
    TrimSolid(value);
  }

  lemma {:induction false} TakeAllConcat(f: Fields, p: seq<seq<Byte>>, q: seq<seq<Byte>>, f': Fields)
    requires TakeAll(f, p) == Ok(f')
    ensures TakeAll(f, p + q) == TakeAll(f', q)
    decreases |p|
  {
    hide Take;
    if p == [] {
      assert p + q == q;
    } else {
      assert (p + q)[1..] == p[1..] + q;
      TakeAllConcat(Take(f, p[0]).value, p[1..], q, f');
    }
  }

  lemma TakeOne(f: Fields, key: seq<Byte>, value: seq<Byte>, f': Fields)
    requires IsKey(key) && Solid(value) && TakeKeyed(f, key, value) == Ok(f')
    ensures TakeAll(f, [Pair(key, value)]) == Ok(f')
  {
    hide TakeKeyed, Take;
    TakePair(f, key, value);
    assert [Pair(key, value)][1..] == [];
  }

  lemma ValueBytesSolid(s: seq<Byte>)
    requires AllValueBytes(s)
    ensures Solid(s)
  {
  }

  // Each field, as written, is taken back as it was.

  lemma TakeState(f: Fields, name: seq<Byte>)
    requires name == CLEAR || exists s :: name == StateName(s)
    ensures TakeAll(f, [Pair(STATE, name)]) == Ok(f.(state := Some(name))) && Solid(Pair(STATE, name))
  {
    assert AllValueBytes(name);
    ValueBytesSolid(name);
    TakePair(f, STATE, name);
    TakeOne(f, STATE, name, f.(state := Some(name)));
  }

  lemma {:induction false} SplitBytes(s: seq<Byte>, sep: Byte)
    requires forall i :: 0 <= i < |SplitOn(s, sep)| ==> forall j :: 0 <= j < |SplitOn(s, sep)[i]| ==>
               IsIdByte(SplitOn(s, sep)[i][j])
    ensures forall j :: 0 <= j < |s| ==> IsIdByte(s[j]) || s[j] == sep
  {
    if s != [] {
      var parts, rest := SplitOn(s, sep), SplitOn(s[1..], sep);
      if s[0] == sep {
        assert forall i :: 0 <= i < |rest| ==> rest[i] == parts[i + 1];
      } else {
        assert forall j :: 0 <= j < |rest[0]| ==> rest[0][j] == parts[0][j + 1];
        assert forall i :: 1 <= i < |rest| ==> rest[i] == parts[i];
        assert parts[0][0] == s[0];
      }
      SplitBytes(s[1..], sep);
      assert forall j :: 1 <= j < |s| ==> s[j] == s[1..][j - 1];
    }
  }

  lemma RecordIdSolid(id: RecordId)
    requires IsRecordId(id)
    ensures Solid(id)
  {
    SplitBytes(id, SLASH);
  }

  lemma TakeId(f: Fields, id: Option<RecordId>)
    requires f.id.None? && (id.Some? ==> IsRecordId(id.value))
    ensures TakeAll(f, OptionalPair(ID, id)) == Ok(f.(id := id))
    ensures id.Some? ==> Solid(Pair(ID, id.value)) && |id.value| <= MAX_ID_BYTES
  {
    if id.Some? {
      RecordIdSolid(id.value);
      hide Solid, SplitOn;
      TakePair(f, ID, id.value);
      TakeOne(f, ID, id.value, f.(id := id));
    }
  }

  lemma TakeKind(f: Fields, kind: Option<Kind>)
    requires f.kind.None?
    ensures var word := if kind.None? then None else Some(KindName(kind.value));
            && TakeAll(f, OptionalPair(KIND, word)) == Ok(f.(kind := kind))
            && (word.Some? ==> Solid(Pair(KIND, word.value)) && |word.value| <= 10)
  {
    if kind.Some? {
      var name := KindName(kind.value);
      assert AllValueBytes(name) && ParseKind(name) == kind;
      ValueBytesSolid(name);
      TakePair(f, KIND, name);
      TakeOne(f, KIND, name, f.(kind := kind));
    }
  }

  lemma ProgressRoundTrip(n: nat)
    requires n <= 100
    ensures ParseProgress(ProgressText(n)) == Some(n) && AllValueBytes(ProgressText(n)) && |ProgressText(n)| <= 3
  {
    var t := ProgressText(n);
    if n < 10 {
      assert t[..0] == [];
      assert Decimal(t) == n;
    } else if n < 100 {
      assert t[..1] == [48 + n / 10] && [48 + n / 10][..0] == [];
      assert Decimal(t[..1]) == n / 10;
      assert Decimal(t) == n;
    } else {
      assert t[..2] == [49, 48] && [49, 48][..1] == [49] && [49][..0] == [];
      assert Decimal([49]) == 1 && Decimal([49, 48]) == 10;
      assert Decimal(t) == 100;
    }
  }

  lemma TakeProgress(f: Fields, progress: Option<nat>)
    requires f.progress.None? && (progress.Some? ==> progress.value <= 100)
    ensures var word := if progress.None? then None else Some(ProgressText(progress.value));
            && TakeAll(f, OptionalPair(PROGRESS, word)) == Ok(f.(progress := progress))
            && (word.Some? ==> Solid(Pair(PROGRESS, word.value)) && |word.value| <= 3)
  {
    if progress.Some? {
      var text := ProgressText(progress.value);
      ProgressRoundTrip(progress.value);
      hide ProgressText, ParseProgress;
      ValueBytesSolid(text);
      TakePair(f, PROGRESS, text);
      TakeOne(f, PROGRESS, text, f.(progress := progress));
    }
  }

  lemma TakeApp(f: Fields, app: Option<seq<Byte>>)
    requires f.app.None? && (app.Some? ==> IsAppName(app.value))
    ensures TakeAll(f, OptionalPair(APP, app)) == Ok(f.(app := app))
    ensures app.Some? ==> Solid(Pair(APP, app.value)) && |app.value| <= MAX_APP_BYTES
  {
    if app.Some? {
      assert AllValueBytes(app.value);
      ValueBytesSolid(app.value);
      TakePair(f, APP, app.value);
      TakeOne(f, APP, app.value, f.(app := app));
    }
  }

  lemma LetterIsValueByte(v: Base64.Sextet)
    ensures IsValueByte(Base64.Letter(v))
  {
  }

  lemma {:induction false} Base64ValueBytes(s: seq<Byte>)
    ensures AllValueBytes(Base64.Body(s))
  {
    hide Base64.Sextets3, Base64.Letter, IsValueByte;
    if s != [] {
      var y, z := if |s| > 1 then s[1] else 0, if |s| > 2 then s[2] else 0;
      var (a, b, c, d) := Base64.Sextets3(s[0], y, z);
      LetterIsValueByte(a);
      LetterIsValueByte(b);
      LetterIsValueByte(c);
      LetterIsValueByte(d);
      var r := Base64.Body(s);
      if |s| == 1 {
        assert r == [Base64.Letter(a), Base64.Letter(b)];
      } else if |s| == 2 {
        assert r == [Base64.Letter(a), Base64.Letter(b), Base64.Letter(c)];
      } else {
        assert r == [Base64.Letter(a), Base64.Letter(b), Base64.Letter(c), Base64.Letter(d)] + Base64.Body(s[3..]);
        Base64ValueBytes(s[3..]);
      }
    }
  }

  lemma EncodedText(text: seq<Byte>, max: nat)
    requires 1 <= |text| <= max && IsText(text)
    ensures AllValueBytes(Base64.Encode(text)) && |Base64.Encode(text)| == 4 * ((|text| + 2) / 3)
    ensures DecodeText(Base64.Encode(text), max) == Ok(Some(text))
  {
    hide IsText, Base64.Decode, Base64.Body;
    Base64ValueBytes(text);
    Base64.DecodeUndoesEncode(text);
    Base64.PaddedLength(|text|);
    var k, r := |text| / 3, |text| % 3;
    assert |text| == 3 * k + r;
    assert (|text| * 4 + 2) / 3 == 4 * k + (r * 4 + 2) / 3 && (|text| + 2) / 3 == k + (r + 2) / 3;
  }

  lemma TakeTitleWord(f: Fields, word: seq<Byte>, text: seq<Byte>)
    requires AllValueBytes(word) && |word| <= MAX_TITLE_ENCODED && DecodeText(word, MAX_TITLE_DECODED) == Ok(Some(text))
    ensures TakeKeyed(f, TITLE, word) == Ok(f.(title := Some(text)))
  {
    hide DecodeText, AllValueBytes;
    assert IsKey(TITLE);
  }

  lemma TitleIsKey()
    ensures IsKey(TITLE)
  {
  }

  lemma TakeTitle(f: Fields, title: Option<seq<Byte>>)
    requires f.title.None? && IsTextField(title, MAX_TITLE_DECODED)
    ensures var word := if title.None? then None else Some(Base64.Encode(title.value));
            && TakeAll(f, OptionalPair(TITLE, word)) == Ok(f.(title := title))
            && (word.Some? ==> Solid(Pair(TITLE, word.value)) && |word.value| <= MAX_TITLE_ENCODED)
  {
    if title.Some? {
      var word := Base64.Encode(title.value);
      hide Base64.Encode, IsText, DecodeText, TakeKeyed, TakeAll, Solid, AllValueBytes, IsKey;
      TitleIsKey();
      EncodedText(title.value, MAX_TITLE_DECODED);
      ValueBytesSolid(word);
      TakeTitleWord(f, word, title.value);
      TakePair(f, TITLE, word);
      TakeOne(f, TITLE, word, f.(title := title));
    }
  }

  lemma TakeMsgWord(f: Fields, word: seq<Byte>, text: seq<Byte>)
    requires AllValueBytes(word) && |word| <= MAX_MSG_ENCODED && DecodeText(word, MAX_MSG_DECODED) == Ok(Some(text))
    ensures TakeKeyed(f, MSG, word) == Ok(f.(msg := Some(text)))
  {
    hide DecodeText, AllValueBytes;
    assert IsKey(MSG);
  }

  lemma TakeMsg(f: Fields, msg: Option<seq<Byte>>)
    requires f.msg.None? && IsTextField(msg, MAX_MSG_DECODED)
    ensures var word := if msg.None? then None else Some(Base64.Encode(msg.value));
            && TakeAll(f, OptionalPair(MSG, word)) == Ok(f.(msg := msg))
            && (word.Some? ==> Solid(Pair(MSG, word.value)) && |word.value| <= MAX_MSG_ENCODED)
  {
    if msg.Some? {
      var word := Base64.Encode(msg.value);
      EncodedText(msg.value, MAX_MSG_DECODED);
      ValueBytesSolid(word);
      assert IsKey(MSG);
      hide Base64.Encode, IsText, DecodeText, TakeKeyed, TakeAll, Solid, AllValueBytes;
      TakeMsgWord(f, word, msg.value);
      TakePair(f, MSG, word);
      TakeOne(f, MSG, word, f.(msg := msg));
    }
  }

  /** The fields a well-formed report is read back into. */
  function FieldsOf(r: Report): Fields {
    match r
    case Clear(id) => NO_FIELDS.(state := Some(CLEAR), id := id)
    case Set(id, rec) => Fields(Some(StateName(rec.state)), id, rec.kind, rec.progress, rec.app, rec.title, rec.msg)
  }

  lemma IntoReportOfFields(r: Report)
    requires WellFormed(r)
    ensures IntoReport(FieldsOf(r)) == Ok(r)
  {
    hide IsText, IsRecordId;
  }

  /** What the fields other than state hold, whichever kind of report. */
  lemma TakePairs(r: Report)
    requires WellFormed(r)
    ensures TakeAll(NO_FIELDS, Pairs(WordsOf(r))) == Ok(FieldsOf(r))
  {
    var rec := if r.Set? then r.record else Record(Idle, None, None, None, None, None);
    hide TakeAll, IsRecordId, OptionalPair, IsText, StateName, KindName, ProgressText, Base64.Encode;
    var w := WordsOf(r);
    var f0 := NO_FIELDS.(state := Some(w.state));
    var f1 := f0.(id := r.id);
    var f2 := f1.(kind := rec.kind);
    var f3 := f2.(progress := rec.progress);
    var f4 := f3.(app := rec.app);
    var f5 := f4.(title := rec.title);
    var f6 := f5.(msg := rec.msg);
    var p0 := [Pair(STATE, w.state)];
    var p1 := p0 + OptionalPair(ID, w.id);
    var p2 := p1 + OptionalPair(KIND, w.kind);
    var p3 := p2 + OptionalPair(PROGRESS, w.progress);
    var p4 := p3 + OptionalPair(APP, w.app);
    var p5 := p4 + OptionalPair(TITLE, w.title);
    TakeState(NO_FIELDS, w.state);
    TakeId(f0, r.id);
    TakeKind(f1, rec.kind);
    TakeProgress(f2, rec.progress);
    TakeApp(f3, rec.app);
    TakeTitle(f4, rec.title);
    TakeMsg(f5, rec.msg);
    TakeAllConcat(NO_FIELDS, p0, OptionalPair(ID, w.id), f0);
    TakeAllConcat(NO_FIELDS, p1, OptionalPair(KIND, w.kind), f1);
    TakeAllConcat(NO_FIELDS, p2, OptionalPair(PROGRESS, w.progress), f2);
    TakeAllConcat(NO_FIELDS, p3, OptionalPair(APP, w.app), f3);
    TakeAllConcat(NO_FIELDS, p4, OptionalPair(TITLE, w.title), f4);
    TakeAllConcat(NO_FIELDS, p5, OptionalPair(MSG, w.msg), f5);
    assert f6 == FieldsOf(r);
  }

  // ----- Size -----

  /** The length of the pieces, each with one separator. */
  ghost function Total(parts: seq<seq<Byte>>): nat {
    if parts == [] then 0 else |parts[0]| + 1 + Total(parts[1..])
  }

  lemma {:induction false} TotalConcat(p: seq<seq<Byte>>, q: seq<seq<Byte>>)
    ensures Total(p + q) == Total(p) + Total(q)
  {
    if p == [] {
      assert p + q == q;
    } else {
      assert (p + q)[1..] == p[1..] + q;
      TotalConcat(p[1..], q);
    }
  }

  lemma {:induction false} JoinLength(parts: seq<seq<Byte>>)
    requires |parts| >= 1
    ensures |Join(parts, COLON)| == Total(parts) - 1
    decreases |parts|
  {
    if |parts| > 1 {
      JoinLength(parts[1..]);
    } else {
      assert parts[1..] == [];
    }
  }

  /** A piece list fit for the wire: solid pieces. */
  predicate AllSolid(parts: seq<seq<Byte>>) {
    forall i :: 0 <= i < |parts| ==> Solid(parts[i])
  }

  /** Pieces that go on the wire whole and take at most `n` bytes with their separators. */
  ghost predicate Fit(parts: seq<seq<Byte>>, n: nat) {
    AllSolid(parts) && Total(parts) <= n
  }

  lemma FitConcat(p: seq<seq<Byte>>, q: seq<seq<Byte>>, m: nat, n: nat)
    requires Fit(p, m) && Fit(q, n)
    ensures Fit(p + q, m + n)
  {
    hide Solid;
    TotalConcat(p, q);
  }

  lemma FitOne(p: seq<Byte>)
    requires Solid(p)
    ensures AllSolid([p]) && Total([p]) == |p| + 1
  {
    assert [p][1..] == [];
  }

  lemma FitOptional(key: seq<Byte>, value: Option<seq<Byte>>, max: nat)
    requires value.Some? ==> Solid(Pair(key, value.value)) && |value.value| <= max
    ensures Fit(OptionalPair(key, value), |key| + max + 2)
  {
    hide Solid;
    if value.Some? {
      FitOne(Pair(key, value.value));
    }
  }

  lemma FitState(name: seq<Byte>)
    requires name == CLEAR || exists s :: name == StateName(s)
    ensures Fit([Pair(STATE, name)], 14)
  {
    TakeState(NO_FIELDS, name);
    assert |name| <= 7;
    hide Solid;
    FitOne(Pair(STATE, name));
  }

  /** Each word of a well-formed report is solid and within its limit. */
  lemma WordsFit(r: Report)
    requires WellFormed(r)
    ensures var w := WordsOf(r);
            && Fit([Pair(STATE, w.state)], 14) && Fit(OptionalPair(ID, w.id), 132)
            && Fit(OptionalPair(KIND, w.kind), 16) && Fit(OptionalPair(PROGRESS, w.progress), 13)
            && Fit(OptionalPair(APP, w.app), 37) && Fit(OptionalPair(TITLE, w.title), 263)
            && Fit(OptionalPair(MSG, w.msg), 2737)
  {
    var rec := if r.Set? then r.record else Record(Idle, None, None, None, None, None);
    var w := WordsOf(r);
    hide TakeAll, IsRecordId, OptionalPair, IsText, StateName, KindName, ProgressText, Base64.Encode, Solid, Fit;
    FitState(w.state);
    TakeId(NO_FIELDS, r.id);
    FitOptional(ID, w.id, MAX_ID_BYTES);
    TakeKind(NO_FIELDS, rec.kind);
    FitOptional(KIND, w.kind, 10);
    TakeProgress(NO_FIELDS, rec.progress);
    FitOptional(PROGRESS, w.progress, 3);
    TakeApp(NO_FIELDS, rec.app);
    FitOptional(APP, w.app, MAX_APP_BYTES);
    TakeTitle(NO_FIELDS, rec.title);
    FitOptional(TITLE, w.title, MAX_TITLE_ENCODED);
    TakeMsg(NO_FIELDS, rec.msg);
    FitOptional(MSG, w.msg, MAX_MSG_ENCODED);
  }

  lemma PairsFit(w: Words)
    requires Fit([Pair(STATE, w.state)], 14) && Fit(OptionalPair(ID, w.id), 132)
    requires Fit(OptionalPair(KIND, w.kind), 16) && Fit(OptionalPair(PROGRESS, w.progress), 13)
    requires Fit(OptionalPair(APP, w.app), 37) && Fit(OptionalPair(TITLE, w.title), 263)
    requires Fit(OptionalPair(MSG, w.msg), 2737)
    ensures Fit(Pairs(w), MAX_PAYLOAD_BYTES)
  {
    hide OptionalPair, Fit, Pair;
    var id, kind, progress := OptionalPair(ID, w.id), OptionalPair(KIND, w.kind), OptionalPair(PROGRESS, w.progress);
    var app, title, msg := OptionalPair(APP, w.app), OptionalPair(TITLE, w.title), OptionalPair(MSG, w.msg);
    var p0 := [Pair(STATE, w.state)];
    FitConcat(p0, id, 14, 132);
    FitConcat(p0 + id, kind, 146, 16);
    FitConcat(p0 + id + kind, progress, 162, 13);
    FitConcat(p0 + id + kind + progress, app, 175, 37);
    FitConcat(p0 + id + kind + progress + app, title, 212, 263);
    FitConcat(p0 + id + kind + progress + app + title, msg, 475, 2737);
    FitMonotone(Pairs(w), 3212, MAX_PAYLOAD_BYTES);
  }

  lemma FitMonotone(parts: seq<seq<Byte>>, m: nat, n: nat)
    requires Fit(parts, m) && m <= n
    ensures Fit(parts, n)
  {
  }

  lemma {:induction false} JoinHasNoBlank(parts: seq<seq<Byte>>)
    requires |parts| >= 1 && AllSolid(parts)
    ensures forall i :: 0 <= i < |Join(parts, COLON)| ==> !IsBlank(Join(parts, COLON)[i])
    decreases |parts|
  {
    if |parts| > 1 {
      JoinHasNoBlank(parts[1..]);
    }
  }

  lemma NoColons(parts: seq<seq<Byte>>)
    requires AllSolid(parts)
    ensures forall i :: 0 <= i < |parts| ==> COLON !in parts[i]
  {
  }

  lemma TrimNoBlank(s: seq<Byte>)
    requires forall i :: 0 <= i < |s| ==> !IsBlank(s[i])
    ensures Trim(s) == s
  {
  }

  /** A well-formed report is written within the size limit and read back as itself. */
  lemma DecodeUndoesEncode(r: Report)
    requires WellFormed(r)
    ensures |Encode(r)| <= MAX_PAYLOAD_BYTES
    ensures Decode(Encode(r)) == Ok(Reported(r))
  {
    hide WordsOf, TakeAll, Trim, IntoReport, IsText, IsRecordId, Solid;
    var parts := Pairs(WordsOf(r));
    WordsFit(r);
    PairsFit(WordsOf(r));
    JoinLength(parts);
    JoinHasNoBlank(parts);
    TrimNoBlank(Encode(r));
    assert Encode(r) != [63] by {
      assert |parts[0]| >= 6;
      assert Total(parts) >= |parts[0]| + 1;
    }
    NoColons(parts);
    SplitUndoesJoin(parts, COLON);
    TakePairs(r);
    IntoReportOfFields(r);
  }

  /** Whatever bytes arrive, an accepted report re-encodes within the limit to a payload that decodes to it. */
  lemma AcceptedReportsRoundTrip(payload: seq<Byte>)
    requires Decode(payload).Ok? && Decode(payload).value.Reported?
    ensures var r := Decode(payload).value.report;
            && WellFormed(r) && |Encode(r)| <= MAX_PAYLOAD_BYTES && Decode(Encode(r)) == Ok(Reported(r))
  {
    DecodedIsWellFormed(payload);
    hide Decode, Encode;
    DecodeUndoesEncode(Decode(payload).value.report);
  }

  // ----- The loops -----

  /** Take the pairs one after another; the first bad one refuses the payload. */
  method DecodePayload(payload: seq<Byte>) returns (r: Result<Message, Reject>)
    ensures r == Decode(payload)
  {
    hide Take, Trim, IntoReport;
    if |payload| > MAX_PAYLOAD_BYTES {
      return Err(PayloadTooLong);
    }
    if Trim(payload) == [63] {
      return Ok(Query);
    }
    var fields := NO_FIELDS;
    var rest := SplitOn(payload, COLON);
    while rest != []
      invariant TakeAll(fields, rest) == TakeAll(NO_FIELDS, SplitOn(payload, COLON))
      decreases |rest|
    {
      match Take(fields, rest[0])
      case Err(e) => return Err(e);
      case Ok(f) => fields := f;
      rest := rest[1..];
    }
    match IntoReport(fields)
    case Err(e) => r := Err(e);
    case Ok(report) => r := Ok(Reported(report));
  }

  /** Append one pair to the payload, after a colon unless it is the first. */
  method PushPair(payload: seq<Byte>, key: seq<Byte>, value: seq<Byte>) returns (longer: seq<Byte>)
    ensures longer == (if payload == [] then [] else payload + [COLON]) + Pair(key, value) && longer != []
  {
    longer := payload;
    if longer != [] {
      longer := longer + [COLON];
    }
    longer := longer + key + [EQUALS] + value;
  }

  lemma {:induction false} JoinAppend(parts: seq<seq<Byte>>, last: seq<Byte>)
    requires |parts| >= 1
    ensures Join(parts + [last], COLON) == Join(parts, COLON) + [COLON] + last
    decreases |parts|
  {
    if |parts| > 1 {
      assert (parts + [last])[1..] == parts[1..] + [last];
      JoinAppend(parts[1..], last);
    } else {
      assert (parts + [last])[1..] == [last];
    }
  }

  /** Append the words of a report in wire order. */
  method EncodePayload(r: Report) returns (payload: seq<Byte>)
    requires WellFormed(r)
    ensures payload == Encode(r)
  {
    hide Pair, IsRecordId, IsText, Join, StateName, KindName, ProgressText, Base64.Encode;
    var w := WordsOf(r);
    ghost var parts := [Pair(STATE, w.state)];
    payload := PushPair([], STATE, w.state);
    JoinOne(Pair(STATE, w.state));
    var keys, values := [ID, KIND, PROGRESS, APP, TITLE, MSG], [w.id, w.kind, w.progress, w.app, w.title, w.msg];
    for i := 0 to 6
      invariant |parts| >= 1 && payload == Join(parts, COLON) && payload != []
      invariant parts == [Pair(STATE, w.state)]
                + (if i > 0 then OptionalPair(ID, w.id) else []) + (if i > 1 then OptionalPair(KIND, w.kind) else [])
                + (if i > 2 then OptionalPair(PROGRESS, w.progress) else [])
                + (if i > 3 then OptionalPair(APP, w.app) else [])
                + (if i > 4 then OptionalPair(TITLE, w.title) else [])
                + (if i > 5 then OptionalPair(MSG, w.msg) else [])
    {
      if values[i].Some? {
        JoinAppend(parts, Pair(keys[i], values[i].value));
        parts := parts + [Pair(keys[i], values[i].value)];
        payload := PushPair(payload, keys[i], values[i].value);
      }
    }
  }

  lemma JoinOne(p: seq<Byte>)
    ensures Join([p], COLON) == p
  {
  }
}
