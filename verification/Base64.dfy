/**
 Base64 as the status codec uses it: the standard alphabet of section 4 of RFC 4648,
 padding optional on input, non-zero trailing bits refused (section 3.5).
 */
module Base64 {
  import opened Wrappers
  import opened ByteStrings

  const PAD: Byte := 61

  type Sextet = n: nat | n < 64

  function Letter(v: Sextet): (b: Byte)
    ensures b != PAD
  {
    if v < 26 then 65 + v
    else if v < 52 then 97 + (v - 26)
    else if v < 62 then 48 + (v - 52)
    else if v == 62 then 43
    else 47
  }

  function ValueOf(b: Byte): Option<Sextet> {
    if 65 <= b <= 90 then Some(b - 65)
    else if 97 <= b <= 122 then Some(b - 97 + 26)
    else if 48 <= b <= 57 then Some(b - 48 + 52)
    else if b == 43 then Some(62)
    else if b == 47 then Some(63)
    else None
  }

  lemma LetterValue(v: Sextet)
    ensures ValueOf(Letter(v)) == Some(v)
  {
  }

  lemma ValueLetter(b: Byte)
    ensures ValueOf(b).Some? ==> Letter(ValueOf(b).value) == b
  {
  }

  // ----- One quantum -----

  function Sextets3(x: Byte, y: Byte, z: Byte): (Sextet, Sextet, Sextet, Sextet) {
    (x / 4, x % 4 * 16 + y / 16, y % 16 * 4 + z / 64, z % 64)
  }

  function Bytes3(a: Sextet, b: Sextet, c: Sextet, d: Sextet): (Byte, Byte, Byte) {
    (a * 4 + b / 16, b % 16 * 16 + c / 4, c % 4 * 64 + d)
  }

  lemma DivMod(q: nat, r: nat, d: nat)
    requires r < d && (d == 4 || d == 16 || d == 64)
    ensures (q * d + r) / d == q && (q * d + r) % d == r
  {
  }

  lemma Quantum(x: Byte, y: Byte, z: Byte)
    ensures var (a, b, c, d) := Sextets3(x, y, z); Bytes3(a, b, c, d) == (x, y, z)
  {
    DivMod(x % 4, y / 16, 16);
    DivMod(y % 16, z / 64, 4);
  }

  lemma QuantumBack(a: Sextet, b: Sextet, c: Sextet, d: Sextet)
    ensures var (x, y, z) := Bytes3(a, b, c, d); Sextets3(x, y, z) == (a, b, c, d)
  {
    var (x, y, z) := Bytes3(a, b, c, d);
    assert x / 4 == a && x % 4 == b / 16 by { DivMod(a, b / 16, 4); }
    assert y / 16 == b % 16 && y % 16 == c / 4 by { DivMod(b % 16, c / 4, 16); }
    assert z / 64 == c % 4 && z % 64 == d by { DivMod(c % 4, d, 64); }
    hide Bytes3;
    Recombine(b, 16);
    Recombine(c, 4);
  }

  lemma Recombine(n: nat, d: nat)
    requires d == 4 || d == 16
    ensures n / d * d + n % d == n
  {
  }

  // ----- Whole texts -----

  /** The encoding without padding. */
  function Body(s: seq<Byte>): (r: seq<Byte>)
    ensures PAD !in r
    ensures |r| == (|s| * 4 + 2) / 3
  {
    if s == [] then []
    else if |s| == 1 then
      var (a, b, _, _) := Sextets3(s[0], 0, 0);
      [Letter(a), Letter(b)]
    else if |s| == 2 then
      var (a, b, c, _) := Sextets3(s[0], s[1], 0);
      [Letter(a), Letter(b), Letter(c)]
    else
      var (a, b, c, d) := Sextets3(s[0], s[1], s[2]);
      [Letter(a), Letter(b), Letter(c), Letter(d)] + Body(s[3..])
  }

  function Padding(n: nat): (p: seq<Byte>)
    ensures |p| <= 2 && forall i :: 0 <= i < |p| ==> p[i] == PAD
  {
    if n % 3 == 1 then [PAD, PAD] else if n % 3 == 2 then [PAD] else []
  }

  function Encode(s: seq<Byte>): seq<Byte> {
    Body(s) + Padding(|s|)
  }

  /** Decode unpadded base64; refuses foreign bytes, a lone last letter, and non-zero trailing bits. */
  function DecodeBody(s: seq<Byte>): Option<seq<Byte>> {
    if s == [] then Some([])
    else if |s| == 1 then None
    else if ValueOf(s[0]).None? || ValueOf(s[1]).None? then None
    else if |s| == 2 then
      var (x, y, z) := Bytes3(ValueOf(s[0]).value, ValueOf(s[1]).value, 0, 0);
      if y == 0 then Some([x]) else None
    else if ValueOf(s[2]).None? then None
    else if |s| == 3 then
      var (x, y, z) := Bytes3(ValueOf(s[0]).value, ValueOf(s[1]).value, ValueOf(s[2]).value, 0);
      if z == 0 then Some([x, y]) else None
    else if ValueOf(s[3]).None? then None
    else
      var (x, y, z) := Bytes3(ValueOf(s[0]).value, ValueOf(s[1]).value, ValueOf(s[2]).value, ValueOf(s[3]).value);
      match DecodeBody(s[4..])
      case None => None
      case Some(rest) => Some([x, y, z] + rest)
  }

  /** Bytes before the first padding byte. */
  function Unpadded(s: seq<Byte>): (r: seq<Byte>)
    ensures PAD !in r && r <= s
    ensures |r| < |s| ==> s[|r|] == PAD
  {
    if s == [] || s[0] == PAD then [] else [s[0]] + Unpadded(s[1..])
  }

  /** Either no `=` at all, or exactly as many as fill up the last group of four. */
  function Decode(s: seq<Byte>): Option<seq<Byte>> {
    var body := Unpadded(s);
    if |body| < |s| && (|s| % 4 != 0 || |s| - |body| > 2 || s[|body|..] != Padding2(|s| - |body|)) then None
    else DecodeBody(body)
  }

  function Padding2(n: nat): (p: seq<Byte>)
    ensures |p| == n
  {
    seq(n, _ => PAD)
  }

  // ----- Laws -----

  lemma {:induction false} DecodeBodyUndoesBody(s: seq<Byte>)
    ensures DecodeBody(Body(s)) == Some(s)
  {
    hide ValueOf, Letter, Sextets3, Bytes3;
    if |s| == 1 {
      Quantum(s[0], 0, 0);
      var (a, b, c, d) := Sextets3(s[0], 0, 0);
      LetterValue(a);
      LetterValue(b);
      ShortQuantum(s[0]);
      assert s == [s[0]];
    } else if |s| == 2 {
      Quantum(s[0], s[1], 0);
      var (a, b, c, d) := Sextets3(s[0], s[1], 0);
      LetterValue(a);
      LetterValue(b);
      LetterValue(c);
      LongQuantum(s[0], s[1]);
      assert s == [s[0], s[1]];
    } else if |s| >= 3 {
      Quantum(s[0], s[1], s[2]);
      var (a, b, c, d) := Sextets3(s[0], s[1], s[2]);
      LetterValue(a);
      LetterValue(b);
      LetterValue(c);
      LetterValue(d);
      var r := Body(s);
      assert r[4..] == Body(s[3..]);
      DecodeBodyUndoesBody(s[3..]);
      assert s == [s[0], s[1], s[2]] + s[3..];
    }
  }

  lemma ShortQuantum(x: Byte)
    ensures var (a, b, c, d) := Sextets3(x, 0, 0); c == 0 && d == 0
  {
  }

  lemma LongQuantum(x: Byte, y: Byte)
    ensures var (a, b, c, d) := Sextets3(x, y, 0); d == 0
  {
  }

  /** What decodes to `s` without padding is the one canonical encoding of `s`. */
  lemma {:induction false} DecodeBodyIsCanonical(e: seq<Byte>)
    ensures DecodeBody(e).Some? ==> Body(DecodeBody(e).value) == e
  {
    hide ValueOf, Letter, Sextets3, Bytes3;
    if DecodeBody(e).Some? && e != [] {
      var s := DecodeBody(e).value;
      ValueLetter(e[0]);
      ValueLetter(e[1]);
      var a, b := ValueOf(e[0]).value, ValueOf(e[1]).value;
      if |e| == 2 {
        QuantumBack(a, b, 0, 0);
        ShortBytes(a, b);
        assert Body(s) == e;
      } else {
        ValueLetter(e[2]);
        var c := ValueOf(e[2]).value;
        if |e| == 3 {
          QuantumBack(a, b, c, 0);
          assert Body(s) == e;
        } else {
          ValueLetter(e[3]);
          QuantumBack(a, b, c, ValueOf(e[3]).value);
          DecodeBodyIsCanonical(e[4..]);
          var (x, y, z) := Bytes3(a, b, c, ValueOf(e[3]).value);
          assert s[3..] == DecodeBody(e[4..]).value;
          assert Body(s) == e[..4] + e[4..];
        }
      }
    }
  }

  lemma ShortBytes(a: Sextet, b: Sextet)
    ensures var (x, y, z) := Bytes3(a, b, 0, 0); z == 0
  {
  }

  lemma {:induction false} UnpaddedConcat(body: seq<Byte>, pad: seq<Byte>)
    requires PAD !in body && forall i :: 0 <= i < |pad| ==> pad[i] == PAD
    ensures Unpadded(body + pad) == body
  {
    if body == [] {
      assert body + pad == pad;
    } else {
      assert (body + pad)[1..] == body[1..] + pad;
      UnpaddedConcat(body[1..], pad);
    }
  }

  /** Decoding undoes encoding, padded or not. */
  lemma DecodeUndoesEncode(s: seq<Byte>)
    ensures Decode(Encode(s)) == Some(s) && Decode(Body(s)) == Some(s)
  {
    hide DecodeBody, Body, Unpadded;
    DecodeBodyUndoesBody(s);
    UnpaddedConcat(Body(s), Padding(|s|));
    UnpaddedConcat(Body(s), []);
    assert Body(s) + [] == Body(s);
    var n := |Padding(|s|)|;
    assert Encode(s)[|Body(s)|..] == Padding(|s|);
    assert Padding(|s|) == Padding2(n);
    PaddedLength(|s|);
  }

  lemma PaddedLength(n: nat)
    ensures ((n * 4 + 2) / 3 + |Padding(n)|) % 4 == 0
  {
    var k, r := n / 3, n % 3;
    assert n == 3 * k + r;
    assert (n * 4 + 2) / 3 == 4 * k + (r * 4 + 2) / 3;
  }

  /** A byte string decodes to `s` exactly when it is `s`'s encoding, padded or not: no other spelling is accepted. */
  lemma DecodeAcceptsExactly(e: seq<Byte>, s: seq<Byte>)
    ensures Decode(e) == Some(s) <==> e == Encode(s) || e == Body(s)
  {
    hide DecodeBody, Body, Unpadded;
    DecodeUndoesEncode(s);
    if Decode(e) == Some(s) {
      var body := Unpadded(e);
      DecodeBodyIsCanonical(body);
      assert body == Body(s);
      assert e == body + e[|body|..];
      if |body| < |e| {
        PaddedLength(|s|);
        var n := |e| - |body|;
        assert n == |Padding(|s|)|;
        assert Padding2(n) == Padding(|s|);
      }
    }
  }

  /** The alphabet of Table 1 of RFC 4648: `A` to `Z`, `a` to `z`, `0` to `9`, `+` and `/`, each run in order. */
  lemma AlphabetIsStandard(v: Sextet)
    ensures Letter(0) == 'A' as nat && Letter(25) == 'Z' as nat && Letter(26) == 'a' as nat && Letter(51) == 'z' as nat
    ensures Letter(52) == '0' as nat && Letter(61) == '9' as nat && Letter(62) == '+' as nat && Letter(63) == '/' as nat
    ensures v < 61 && v != 25 && v != 51 ==> Letter(v + 1) == Letter(v) + 1
  {
  }

  /** The byte at `i`, zero bits past the end. */
  function ByteAt(s: seq<Byte>, i: nat): Byte { if i < |s| then s[i] else 0 }

  /** What the letter at `i` stands for, padding being zero bits. */
  function DigitAt(e: seq<Byte>, i: nat): nat {
    if i < |e| && ValueOf(e[i]).Some? then ValueOf(e[i]).value else 0
  }

  /** The four letters of `e` from `i` on hold the same 24 bits as the three bytes of `s` from `j` on. */
  ghost predicate SameBits(e: seq<Byte>, i: nat, s: seq<Byte>, j: nat) {
    ((DigitAt(e, i) * 64 + DigitAt(e, i + 1)) * 64 + DigitAt(e, i + 2)) * 64 + DigitAt(e, i + 3)
    == (ByteAt(s, j) * 256 + ByteAt(s, j + 1)) * 256 + ByteAt(s, j + 2)
  }

  /**
   Section 4 of RFC 4648: each four letters hold the bits of three bytes of the text, most significant first, the text
   filled up with zero bits and the letters with padding.
   */
  lemma {:induction false} GroupsHoldTheSameBits(s: seq<Byte>, g: nat)
    requires 3 * g < |s|
    ensures |Encode(s)| == 4 * ((|s| + 2) / 3) && SameBits(Encode(s), 4 * g, s, 3 * g)
  {
    hide SameBits, Encode;
    if |s| > 3 {
      EncodeByGroups(s);
      GroupsHoldTheSameBits(s[3..], if g == 0 then 0 else g - 1);
    } else {
      OneGroup(s);
    }
    if g == 0 {
      FirstGroup(s);
    } else {
      LaterGroup(Encode(s)[..4], Encode(s[3..]), 4 * g - 4, s, 3 * g - 3);
    }
  }

  lemma EncodeByGroups(s: seq<Byte>)
    requires |s| > 3
    ensures |Encode(s)| == 4 + |Encode(s[3..])| && Encode(s) == Encode(s)[..4] + Encode(s[3..])
  {
    hide Letter, Sextets3;
    var (a, b, c, d) := Sextets3(s[0], s[1], s[2]);
    var quad := [Letter(a), Letter(b), Letter(c), Letter(d)];
    assert Body(s) == quad + Body(s[3..]);
    assert Padding(|s|) == Padding(|s| - 3);
    hide Body, Padding;
    assert quad + Body(s[3..]) + Padding(|s|) == quad + Encode(s[3..]);
  }

  lemma OneGroup(s: seq<Byte>)
    requires 1 <= |s| <= 3
    ensures |Encode(s)| == 4
  {
    hide Letter, Sextets3;
  }

  lemma LaterGroup(quad: seq<Byte>, e: seq<Byte>, i: nat, s: seq<Byte>, j: nat)
    requires |quad| == 4 && |s| >= 3 && SameBits(e, i, s[3..], j)
    ensures SameBits(quad + e, i + 4, s, j + 3)
  {
    hide ValueOf;
    assert forall k :: 0 <= k ==> DigitAt(quad + e, k + 4) == DigitAt(e, k);
    assert forall k :: 0 <= k ==> ByteAt(s, k + 3) == ByteAt(s[3..], k);
    assert DigitAt(quad + e, i + 5) == DigitAt(e, i + 1) && DigitAt(quad + e, i + 6) == DigitAt(e, i + 2);
  }

  lemma SextetsAreOneNumber(x: Byte, y: Byte, z: Byte)
    ensures var (a, b, c, d) := Sextets3(x, y, z);
            ((a * 64 + b) * 64 + c) * 64 + d == (x * 256 + y) * 256 + z
  {
  }

  lemma FirstGroup(s: seq<Byte>)
    requires s != []
    ensures SameBits(Encode(s), 0, s, 0)
  {
    hide Encode, Sextets3, ByteAt, DigitAt;
    FirstDigits(s);
    SextetsAreOneNumber(ByteAt(s, 0), ByteAt(s, 1), ByteAt(s, 2));
  }

  lemma FirstDigits(s: seq<Byte>)
    requires s != []
    ensures var e := Encode(s);
            (DigitAt(e, 0), DigitAt(e, 1), DigitAt(e, 2), DigitAt(e, 3))
            == Sextets3(ByteAt(s, 0), ByteAt(s, 1), ByteAt(s, 2))
  {
    hide Letter, ValueOf;
    var (a, b, c, d) := Sextets3(ByteAt(s, 0), ByteAt(s, 1), ByteAt(s, 2));
    LetterValue(a);
    LetterValue(b);
    LetterValue(c);
    LetterValue(d);
    NoPadValue();
  }

  lemma NoPadValue()
    ensures ValueOf(PAD).None?
  {
  }
}
