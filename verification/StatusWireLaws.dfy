/** How the status payload is read where it is not in the writer's own form, and how it is spelled. */
module StatusWireLaws {
  import opened Wrappers
  import opened ByteStrings
  import opened StatusModel
  import opened StatusWire

  // ----- Spelling -----

  /** The keys of the protocol, in letters. */
  lemma KeysAreSpelled()
    ensures STATE == Bytes("state") && ID == Bytes("id") && KIND == Bytes("kind") && PROGRESS == Bytes("progress")
    ensures APP == Bytes("app") && TITLE == Bytes("title") && MSG == Bytes("msg")
  {
  }

  /** The states, in letters. */
  lemma StatesAreSpelled()
    ensures StateName(Idle) == Bytes("idle") && StateName(Working) == Bytes("working")
    ensures StateName(Done) == Bytes("done") && StateName(Blocked) == Bytes("blocked")
    ensures StateName(Error) == Bytes("error") && CLEAR == Bytes("clear")
  {
  }

  /** The kinds, in letters. */
  lemma KindsAreSpelled()
    ensures KindName(Permission) == Bytes("permission") && KindName(Question) == Bytes("question")
    ensures KindName(Auth) == Bytes("auth")
  {
  }

  // ----- Blanks -----

  predicate AllBlank(s: seq<Byte>) {
    forall i :: 0 <= i < |s| ==> IsBlank(s[i])
  }

  lemma {:induction false} TrimFrontDropsBlanks(pad: seq<Byte>, s: seq<Byte>)
    requires AllBlank(pad)
    ensures TrimFront(pad + s) == TrimFront(s)
  {
    if pad == [] {
      assert pad + s == s;
    } else {
      assert (pad + s)[1..] == pad[1..] + s;
      TrimFrontDropsBlanks(pad[1..], s);
    }
  }

  lemma {:induction false} TrimBackDropsBlanks(s: seq<Byte>, pad: seq<Byte>)
    requires AllBlank(pad)
    ensures TrimBack(s + pad) == TrimBack(s)
    decreases |pad|
  {
    if pad == [] {
      assert s + pad == s;
    } else {
      assert (s + pad)[..|s + pad| - 1] == s + pad[..|pad| - 1];
      TrimBackDropsBlanks(s, pad[..|pad| - 1]);
    }
  }

  lemma {:induction false} TrimFrontBefore(s: seq<Byte>, pad: seq<Byte>)
    requires AllBlank(pad)
    ensures TrimBack(TrimFront(s + pad)) == TrimBack(TrimFront(s))
  {
    if s == [] {
      assert s + pad == pad + [];
      TrimFrontDropsBlanks(pad, []);
    } else if IsBlank(s[0]) {
      assert (s + pad)[1..] == s[1..] + pad;
      TrimFrontBefore(s[1..], pad);
    } else {
      TrimBackDropsBlanks(s, pad);
    }
  }

  /** Blanks around a word do not count. */
  lemma TrimIgnoresPadding(before: seq<Byte>, s: seq<Byte>, after: seq<Byte>)
    requires AllBlank(before) && AllBlank(after)
    ensures Trim(before + s + after) == Trim(s)
  {
    assert before + s + after == before + (s + after);
    TrimFrontDropsBlanks(before, s + after);
    TrimFrontBefore(s, after);
  }

  lemma {:induction false} EqualsIsFirst(front: seq<Byte>, rest: seq<Byte>)
    requires EQUALS !in front
    ensures IndexOfByte(front + [EQUALS] + rest, EQUALS) == Some(|front|)
  {
    var all := front + [EQUALS] + rest;
    if front != [] {
      assert all[1..] == front[1..] + [EQUALS] + rest;
      EqualsIsFirst(front[1..], rest);
    }
  }

  /** Blanks around a pair's key and value make no difference to what it sets. */
  lemma PaddedPairsReadAlike(f: Fields, key: seq<Byte>, value: seq<Byte>, p: seq<Byte>, q: seq<Byte>, r: seq<Byte>,
                             s: seq<Byte>)
    requires AllBlank(p) && AllBlank(q) && AllBlank(r) && AllBlank(s) && EQUALS !in key
    ensures Take(f, Pair(p + key + q, r + value + s)) == Take(f, Pair(key, value))
  {
    hide Trim, TakeKeyed;
    var (k, v) := (p + key + q, r + value + s);
    assert EQUALS !in p && EQUALS !in q;
    EqualsIsFirst(k, v);
    EqualsIsFirst(key, value);
    assert Pair(k, v)[..|k|] == k && Pair(k, v)[|k| + 1..] == v;
    assert Pair(key, value)[..|key|] == key && Pair(key, value)[|key| + 1..] == value;
    TrimIgnoresPadding(p, key, q);
    TrimIgnoresPadding(r, value, s);
  }

  // ----- What is passed over, and what overrides -----

  predicate IsKnown(key: seq<Byte>) {
    key == STATE || key == ID || key == KIND || key == PROGRESS || key == APP || key == TITLE || key == MSG
  }

  /** A key that means nothing here is passed over, whatever its value. */
  lemma UnknownKeysArePassedOver(f: Fields, key: seq<Byte>, value: seq<Byte>)
    requires |key| <= 16 && !IsKnown(key)
    ensures TakeKeyed(f, key, value) == Ok(f)
  {
  }

  /** A value with a byte that no value has is passed over, but for an id, which is never. */
  lemma ForeignValuesArePassedOver(f: Fields, key: seq<Byte>, value: seq<Byte>)
    requires TakeKeyed(f, key, value).Ok? && key != ID && !AllValueBytes(value)
    ensures TakeKeyed(f, key, value) == Ok(f)
  {
  }

  /** The later of two pairs with the same key decides alone. */
  lemma LaterPairWins(f: Fields, key: seq<Byte>, first: seq<Byte>, second: seq<Byte>)
    requires TakeKeyed(f, key, first).Ok? && (AllValueBytes(second) || key == ID)
    ensures TakeKeyed(TakeKeyed(f, key, first).value, key, second) == TakeKeyed(f, key, second)
  {
    hide IsRecordId, ParseKind, ParseProgress, ParseApp, DecodeText, AllValueBytes;
  }

  /** Pairs of different keys do not get in each other's way. */
  lemma PairsAreIndependent(f: Fields, k: seq<Byte>, v: seq<Byte>, l: seq<Byte>, w: seq<Byte>)
    requires k != l && TakeKeyed(f, k, v).Ok? && TakeKeyed(f, l, w).Ok?
    ensures TakeKeyed(TakeKeyed(f, k, v).value, l, w).Ok? && TakeKeyed(TakeKeyed(f, l, w).value, k, v).Ok?
    ensures TakeKeyed(TakeKeyed(f, k, v).value, l, w) == TakeKeyed(TakeKeyed(f, l, w).value, k, v)
  {
    hide IsRecordId, ParseKind, ParseProgress, ParseApp, DecodeText, AllValueBytes;
  }

  // ----- All or nothing -----

  /** Whether a pair is refused does not depend on what came before. */
  lemma RefusalIsThePairs(f: Fields, g: Fields, key: seq<Byte>, value: seq<Byte>)
    ensures TakeKeyed(f, key, value).Err? <==> TakeKeyed(g, key, value).Err?
    ensures TakeKeyed(f, key, value).Err? ==> TakeKeyed(f, key, value).error == TakeKeyed(g, key, value).error
  {
    hide IsRecordId, ParseKind, ParseProgress, ParseApp, DecodeText, AllValueBytes;
  }

  /** A payload is read only if none of its pairs is to be refused, be it overridden later or not. */
  lemma {:induction false} OneBadPairRefusesAll(f: Fields, pairs: seq<seq<Byte>>)
    ensures TakeAll(f, pairs).Ok? <==> forall i :: 0 <= i < |pairs| ==> Take(NO_FIELDS, pairs[i]).Ok?
    decreases |pairs|
  {
    hide TakeKeyed, Trim;
    if pairs != [] {
      var k := IndexOfByte(pairs[0], EQUALS);
      if k.Some? {
        RefusalIsThePairs(f, NO_FIELDS, Trim(pairs[0][..k.value]), Trim(pairs[0][k.value + 1..]));
      }
      if Take(f, pairs[0]).Ok? {
        OneBadPairRefusesAll(Take(f, pairs[0]).value, pairs[1..]);
        assert forall i :: 0 < i < |pairs| ==> pairs[i] == pairs[1..][i - 1];
      }
    }
  }

  /** Just what is refused: an overlong key, an overlong or malformed id, and texts too long or not proper text. */
  lemma RefusedIff(f: Fields, key: seq<Byte>, value: seq<Byte>)
    ensures TakeKeyed(f, key, value).Err? <==>
            || |key| > 16
            || (key == Bytes("id") && !(|value| <= 128 && IsRecordId(value)))
            || (key == Bytes("app") && |value| > 32)
            || (key == Bytes("title") && (|value| > 256 || (AllValueBytes(value) && DecodeText(value, 192).Err?)))
            || (key == Bytes("msg") && (|value| > 2732 || (AllValueBytes(value) && DecodeText(value, 2048).Err?)))
  {
    KeysAreSpelled();
    hide IsRecordId, ParseKind, ParseProgress, ParseApp, DecodeText, AllValueBytes, Bytes;
  }

  // ----- Text -----

  predicate IsScalar(c: nat) {
    c < 0xD800 || 0xE000 <= c < 0x11_0000
  }

  predicate IsControlPoint(c: nat) {
    c < 0x20 || 0x7F <= c < 0xA0
  }

  /** A code point in UTF-8, by section 3 of RFC 3629. */
  function Utf8(c: nat): seq<Byte>
    requires IsScalar(c)
  {
    var d := c / 64;
    var e := d / 64;
    if c < 0x80 then [c]
    else if c < 0x800 then [0xC0 + d, 0x80 + c % 64]
    else if c < 0x1_0000 then [0xE0 + e, 0x80 + d % 64, 0x80 + c % 64]
    else [0xF0 + e / 64, 0x80 + e % 64, 0x80 + d % 64, 0x80 + c % 64]
  }

  predicate IsPlain(cs: seq<nat>) {
    forall i :: 0 <= i < |cs| ==> IsScalar(cs[i]) && !IsControlPoint(cs[i])
  }

  function Utf8All(cs: seq<nat>): seq<Byte>
    requires IsPlain(cs)
  {
    if cs == [] then [] else Utf8(cs[0]) + Utf8All(cs[1..])
  }

  lemma CharIsRead(c: nat, rest: seq<Byte>)
    requires IsScalar(c) && !IsControlPoint(c)
    ensures CharLength(Utf8(c) + rest) == |Utf8(c)|
  {
    hide CharLength;
    var (d, s) := (c / 64, Utf8(c) + rest);
    assert c == d * 64 + c % 64 && d == d / 64 * 64 + d % 64;
    if c < 0x80 {
      OneByte(s, c);
    } else if c < 0x800 {
      TwoBytes(s, d, c % 64);
    } else if c < 0x1_0000 {
      ThreeBytes(s, d / 64, d % 64, c % 64);
    } else {
      var e := d / 64;
      assert e == e / 64 * 64 + e % 64;
      FourBytes(s, e / 64, e % 64, d % 64, c % 64);
    }
  }

  lemma OneByte(s: seq<Byte>, c: nat)
    requires s != [] && s[0] == c && 0x20 <= c < 0x7F
    ensures CharLength(s) == 1
  {
  }

  lemma TwoBytes(s: seq<Byte>, x: nat, y: nat)
    requires |s| >= 2 && s[0] == 0xC0 + x && s[1] == 0x80 + y && y < 64 && 0xA0 <= x * 64 + y < 0x800
    ensures CharLength(s) == 2
  {
  }

  lemma ThreeBytes(s: seq<Byte>, x: nat, y: nat, z: nat)
    requires |s| >= 3 && s[0] == 0xE0 + x && s[1] == 0x80 + y && s[2] == 0x80 + z && y < 64 && z < 64
    requires 0x800 <= x * 4096 + y * 64 + z < 0x1_0000 && IsScalar(x * 4096 + y * 64 + z)
    ensures CharLength(s) == 3
  {
  }

  lemma FourBytes(s: seq<Byte>, x: nat, y: nat, z: nat, u: nat)
    requires |s| >= 4 && s[0] == 0xF0 + x && s[1] == 0x80 + y && s[2] == 0x80 + z && s[3] == 0x80 + u
    requires y < 64 && z < 64 && u < 64 && 0x1_0000 <= x * 262144 + y * 4096 + z * 64 + u < 0x11_0000
    ensures CharLength(s) == 4
  {
  }

  lemma DivMod64(q: nat, r: nat)
    requires r < 64
    ensures (q * 64 + r) / 64 == q && (q * 64 + r) % 64 == r
  {
  }

  lemma Read2(s: seq<Byte>, x: nat, y: nat)
    requires CharLength(s) == 2 && s[0] == 0xC0 + x && s[1] == 0x80 + y
    ensures var c := x * 64 + y; IsScalar(c) && !IsControlPoint(c) && s[..2] == Utf8(c)
  {
    DivMod64(x, y);
  }

  lemma Read3(s: seq<Byte>, x: nat, y: nat, z: nat)
    requires CharLength(s) == 3 && s[0] == 0xE0 + x && s[1] == 0x80 + y && s[2] == 0x80 + z
    ensures var c := (x * 64 + y) * 64 + z; IsScalar(c) && !IsControlPoint(c) && s[..3] == Utf8(c)
  {
    DivMod64(x, y);
    DivMod64(x * 64 + y, z);
  }

  lemma Read4(s: seq<Byte>, x: nat, y: nat, z: nat, u: nat)
    requires CharLength(s) == 4 && s[0] == 0xF0 + x && s[1] == 0x80 + y && s[2] == 0x80 + z && s[3] == 0x80 + u
    ensures var c := ((x * 64 + y) * 64 + z) * 64 + u; IsScalar(c) && !IsControlPoint(c) && s[..4] == Utf8(c)
  {
    var e := x * 64 + y;
    var d := e * 64 + z;
    DivMod64(x, y);
    DivMod64(e, z);
    DivMod64(d, u);
    var c := d * 64 + u;
    assert 0x1_0000 <= c < 0x11_0000;
    hide CharLength;
    assert s[..4] == Utf8(c);
  }

  lemma ReadIsChar(s: seq<Byte>) returns (c: nat)
    requires CharLength(s) > 0
    ensures IsScalar(c) && !IsControlPoint(c) && s[..CharLength(s)] == Utf8(c)
  {
    var n := CharLength(s);
    LeadBytes(s);
    hide Utf8, CharLength;
    if n == 1 {
      c := s[0];
      Read1(s);
    } else if n == 2 {
      var (x: nat, y: nat) := (s[0] - 0xC0, s[1] - 0x80);
      c := x * 64 + y;
      Read2(s, x, y);
    } else if n == 3 {
      var (x: nat, y: nat, z: nat) := (s[0] - 0xE0, s[1] - 0x80, s[2] - 0x80);
      c := (x * 64 + y) * 64 + z;
      Read3(s, x, y, z);
    } else {
      var (x: nat, y: nat, z: nat, u: nat) := (s[0] - 0xF0, s[1] - 0x80, s[2] - 0x80, s[3] - 0x80);
      c := ((x * 64 + y) * 64 + z) * 64 + u;
      Read4(s, x, y, z, u);
    }
  }

  lemma Read1(s: seq<Byte>)
    requires CharLength(s) == 1
    ensures IsScalar(s[0]) && !IsControlPoint(s[0]) && s[..1] == Utf8(s[0])
  {
  }

  lemma LeadBytes(s: seq<Byte>)
    ensures var n := CharLength(s);
            && n <= 4 && (n == 2 ==> s[0] >= 0xC0) && (n == 3 ==> s[0] >= 0xE0) && (n == 4 ==> s[0] >= 0xF0)
            && forall i :: 1 <= i < n ==> s[i] >= 0x80
  {
  }

  /** Accepted text is exactly the UTF-8 of code points that are no control characters. */
  lemma TextIsUtf8(s: seq<Byte>)
    ensures IsText(s) <==> exists cs :: IsPlain(cs) && s == Utf8All(cs)
  {
    if IsText(s) {
      var cs := CodePoints(s);
    }
    if cs :| IsPlain(cs) && s == Utf8All(cs) {
      Utf8IsText(cs);
    }
  }

  lemma {:induction false} CodePoints(s: seq<Byte>) returns (cs: seq<nat>)
    requires IsText(s)
    ensures IsPlain(cs) && s == Utf8All(cs)
    decreases |s|
  {
    hide CharLength, Utf8, IsControlPoint, IsScalar;
    if s == [] {
      cs := [];
    } else {
      var n := CharLength(s);
      var c := ReadIsChar(s);
      var rest := CodePoints(s[n..]);
      cs := [c] + rest;
      assert cs[1..] == rest && s == s[..n] + s[n..];
    }
  }

  lemma {:induction false} Utf8IsText(cs: seq<nat>)
    requires IsPlain(cs)
    ensures IsText(Utf8All(cs))
  {
    hide CharLength, IsControlPoint, IsScalar;
    if cs != [] {
      var rest := Utf8All(cs[1..]);
      Utf8IsText(cs[1..]);
      CharIsRead(cs[0], rest);
      assert (Utf8(cs[0]) + rest)[|Utf8(cs[0])|..] == rest;
    }
  }
}
