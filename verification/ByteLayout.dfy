/**
 * What the primitives of the codec are, said by byte: fixed-width numbers, the checksum and the frame
 * around a body, and the texts that strict UTF-8 accepts.
 */
module ByteLayout {
  import opened Bytes
  import opened StateFrames

  // ---- Numbers of four and eight bytes -----------------------------------------------------

  function P32(v: nat): (r: bytes)
    ensures |r| == 4
  {
    [v % 256, v / 0x100 % 256, v / 0x1_0000 % 256, v / 0x100_0000 % 256]
  }

  function P64(v: nat): (r: bytes)
    ensures |r| == 8
  {
    P32(v) + P32(v / 0x1_0000_0000)
  }

  function U32(s: bytes, at: nat): nat
    requires at + 4 <= |s|
  {
    var a: int, b: int, c: int, d: int := s[at], s[at + 1], s[at + 2], s[at + 3];
    a + 0x100 * b + 0x1_0000 * c + 0x100_0000 * d
  }

  function U64(s: bytes, at: nat): nat
    requires at + 8 <= |s|
  {
    U32(s, at) + 0x1_0000_0000 * U32(s, at + 4)
  }

  /** A signed number in two's complement. */
  function S64(s: bytes, at: nat): int
    requires at + 8 <= |s|
  {
    if s[at + 7] < 128 then U64(s, at) else U64(s, at) - 0x1_0000_0000_0000_0000
  }

  lemma LittleUnfolds(v: nat, width: nat)
    requires width > 0
    ensures Little(v, width) == [v % 256] + Little(v / 256, width - 1)
  {
  }

  lemma LittleIsP32(v: nat, width: nat)
    requires width >= 4
    ensures Little(v, width) == P32(v) + Little(v / 0x1_0000_0000, width - 4)
  {
    hide Little;
    var a, b, c := v / 256, v / 256 / 256, v / 256 / 256 / 256;
    LittleUnfolds(v, width);
    LittleUnfolds(a, width - 1);
    LittleUnfolds(b, width - 2);
    LittleUnfolds(c, width - 3);
    assert b == v / 0x1_0000 && c == v / 0x100_0000 && c / 256 == v / 0x1_0000_0000;
  }

  /** `<I` and `<Q` pack these bytes. */
  lemma PackedBytes(v: nat)
    ensures Little(v, 4) == P32(v) && Little(v, 8) == P64(v)
  {
    LittleIsP32(v, 4);
    LittleIsP32(v, 8);
    LittleIsP32(v / 0x1_0000_0000, 4);
    NoBytes(v / 0x1_0000_0000);
    NoBytes(v / 0x1_0000_0000 / 0x1_0000_0000);
    hide Little, P32;
  }

  lemma NoBytes(v: nat)
    ensures Little(v, 0) == []
  {
  }

  lemma NumberUnfolds(s: bytes)
    requires s != []
    ensures Number(s) == s[0] + 256 * Number(s[1..])
  {
  }

  lemma NumberIsU32(s: bytes)
    requires |s| >= 4
    ensures Number(s) == U32(s, 0) + 0x1_0000_0000 * Number(s[4..])
  {
    hide Number;
    NumberUnfolds(s);
    NumberUnfolds(s[1..]);
    assert s[1..][1..] == s[2..];
    NumberUnfolds(s[2..]);
    assert s[2..][1..] == s[3..];
    NumberUnfolds(s[3..]);
    assert s[3..][1..] == s[4..];
  }

  lemma ZeroNumber(s: bytes)
    requires s == []
    ensures Number(s) == 0
  {
  }

  /** And unpack them. */
  lemma UnpackedBytes(s: bytes, at: nat)
    ensures at + 4 <= |s| ==> Number(s[at..at + 4]) == U32(s, at)
    ensures at + 8 <= |s| ==> Number(s[at..at + 8]) == U64(s, at) && SignedNumber(s[at..at + 8]) == S64(s, at)
  {
    hide Number;
    if at + 4 <= |s| {
      var t := s[at..at + 4];
      NumberIsU32(t);
      ZeroNumber(t[4..]);
    }
    if at + 8 <= |s| {
      var t := s[at..at + 8];
      NumberIsU32(t);
      NumberIsU32(t[4..]);
      ZeroNumber(t[4..][4..]);
    }
  }

  lemma SignedPacked(v: int)
    requires -0x8000_0000_0000_0000 <= v < 0x8000_0000_0000_0000
    ensures SignedNumber(Signed(v)) == v
  {
    Widths();
    NumberOfLittle(if v < 0 then v + 0x1_0000_0000_0000_0000 else v, 8);
  }

  // ---- Text written out -------------------------------------------------------------------------

  function Ascii(t: string): (r: bytes)
    requires forall i :: 0 <= i < |t| ==> t[i] < '\U{80}'
    ensures |r| == |t| && forall i :: 0 <= i < |r| ==> r[i] < 0x80
  {
    seq(|t|, i requires 0 <= i < |t| => t[i] as int)
  }

  // ---- The checksum -----------------------------------------------------------------------------

  function Bit(a: nat, i: nat): nat {
    a / Pow2(i) % 2
  }

  /** The exclusive or has a bit where exactly one of the two numbers has it. */
  lemma {:induction false} XorByBits(a: nat, b: nat, i: nat)
    ensures Bit(Xor(a, b), i) == (Bit(a, i) + Bit(b, i)) % 2
  {
    hide Xor, Bit;
    XorUnfolds(a, b);
    if i == 0 {
      LowBit(a);
      LowBit(b);
      LowBit(Xor(a, b));
    } else {
      XorByBits(a / 2, b / 2, i - 1);
      BitHalved(Xor(a, b), i);
      BitHalved(a, i);
      BitHalved(b, i);
    }
  }

  lemma LowBit(a: nat)
    ensures Bit(a, 0) == a % 2
  {
  }

  lemma BitHalved(a: nat, i: nat)
    requires i > 0
    ensures Bit(a, i) == Bit(a / 2, i - 1)
  {
    var p := Pow2(i - 1);
    assert Pow2(i) == 2 * p;
    NestedDivision(a, p);
  }

  lemma NestedDivision(a: nat, p: nat)
    requires p > 0
    ensures a / (2 * p) == a / 2 / p
  {
    var q := a / 2 / p;
    var h := a / 2;
    assert h == q * p + h % p && 0 <= h % p < p;
    assert a == 2 * h + a % 2;
    var r := 2 * (h % p) + a % 2;
    assert 0 <= r < 2 * p;
    assert 2 * (q * p) == q * (2 * p);
    assert a == q * (2 * p) + r;
    QuotientIs(a, 2 * p, q, r);
  }

  lemma AtLeastOnce(d: int, m: nat)
    ensures d >= 1 ==> d * m >= m
    ensures d <= -1 ==> d * m + m <= 0
  {
  }

  lemma QuotientIs(a: nat, m: nat, q: nat, r: nat)
    requires m > 0 && a == q * m + r && r < m
    ensures a / m == q
  {
    var d, t := a / m - q, a % m;
    assert a == (a / m) * m + t && t < m;
    assert (a / m) * m - q * m == d * m;
    AtLeastOnce(d, m);
  }

  /** One step of the checksum, with its constants. */
  lemma ChecksumSteps(s: bytes, b: byte)
    ensures Checksum([]) == 0xcbf29ce484222325
    ensures Checksum(s + [b]) == Xor(Checksum(s), b) * 0x100000001b3 % 0x1_0000_0000_0000_0000
  {
    HashOfConcat(FNV_OFFSET, s, [b]);
    assert [b][1..] == [];
  }

  // ---- The frame --------------------------------------------------------------------------------

  /** Version 1, then 2, 17 and 0. */
  const FIXED: bytes := [1, 0, 0, 0, 2, 0, 0, 0, 17, 0, 0, 0, 0, 0, 0, 0]

  lemma HeadByBytes(data: bytes, magic: bytes)
    requires |magic| == 4 && |data| >= 20
    ensures data[..20] == Header(magic) <==> data[..4] == magic && data[4..20] == FIXED
  {
    HeaderByBytes(magic);
    hide Header, FIXED;
    Glue(data[..20], magic, FIXED);
    assert data[..20][..4] == data[..4] && data[..20][4..] == data[4..20];
  }

  lemma SealByBytes(data: bytes)
    requires |data| >= 8
    ensures Sealed(data) <==> U64(data, |data| - 8) == Checksum(data[..|data| - 8])
  {
    UnpackedBytes(data, |data| - 8);
    hide Checksum, Number, U64;
    assert data[|data| - 8..] == data[|data| - 8..|data|];
  }

  /** A frame is accepted exactly if its bytes are these. */
  lemma CheckedByBytes(data: bytes, magic: bytes)
    requires |magic| == 4
    ensures Checked(data, magic)
       <==> && 28 <= |data| <= 67_108_864
            && data[..4] == magic && data[4..20] == FIXED
            && U64(data, |data| - 8) == Checksum(data[..|data| - 8])
  {
    hide Header, Sealed, Checksum, U64, FIXED;
    if |data| >= 28 {
      HeadByBytes(data, magic);
      SealByBytes(data);
    }
  }

  lemma HeaderByBytes(magic: bytes)
    ensures Header(magic) == magic + FIXED
  {
    hide Little;
    HeaderIs(magic);
    PackedBytes(1);
    PackedBytes(2);
    PackedBytes(17);
    PackedBytes(0);
    assert P32(1) == [1, 0, 0, 0] && P32(2) == [2, 0, 0, 0] && P32(17) == [17, 0, 0, 0] && P32(0) == [0, 0, 0, 0];
    assert [17, 0, 0, 0] + [0, 0, 0, 0] == [17, 0, 0, 0, 0, 0, 0, 0];
    assert [2, 0, 0, 0] + [17, 0, 0, 0, 0, 0, 0, 0] == [2, 0, 0, 0, 17, 0, 0, 0, 0, 0, 0, 0];
  }

  lemma HeaderIs(magic: bytes)
    ensures Header(magic) == magic + (Little(1, 4) + (Little(2, 4) + (Little(17, 4) + Little(0, 4))))
  {
  }

  /** What a writer emits. */
  lemma FrameByBytes(magic: bytes, body: bytes)
    ensures var signed := magic + FIXED + body;
            Frame(magic, body) == signed + P64(Checksum(signed))
  {
    HeaderByBytes(magic);
    PackedBytes(Checksum(Header(magic) + body));
  }

  // ---- Strict UTF-8 -------------------------------------------------------------------------------

  /** A Unicode scalar value: no surrogate. */
  predicate Scalar(c: nat) {
    c < 0xD800 || 0xE000 <= c <= 0x10FFFF
  }

  /** The encoding of section 3 of RFC 3629. */
  function Encoded(c: nat): (r: bytes)
    requires Scalar(c)
    ensures r != []
  {
    if c < 0x80 then [c]
    else if c < 0x800 then [0xC0 + c / 64, 0x80 + c % 64]
    else if c < 0x1_0000 then [0xE0 + c / 4096, 0x80 + c / 64 % 64, 0x80 + c % 64]
    else [0xF0 + c / 262_144, 0x80 + c / 4096 % 64, 0x80 + c / 64 % 64, 0x80 + c % 64]
  }

  ghost predicate Scalars(cs: seq<nat>) {
    forall i :: 0 <= i < |cs| ==> Scalar(cs[i])
  }

  function EncodedAll(cs: seq<nat>): bytes
    requires forall i :: 0 <= i < |cs| ==> Scalar(cs[i])
  {
    if cs == [] then [] else Encoded(cs[0]) + EncodedAll(cs[1..])
  }

  lemma EncodedLength(c: nat, tail: bytes)
    requires Scalar(c)
    ensures CharacterLength(Encoded(c) + tail) == |Encoded(c)|
  {
    var s := Encoded(c) + tail;
    assert forall i :: 0 <= i < |Encoded(c)| ==> s[i] == Encoded(c)[i];
  }

  lemma TwoBytes(a: int, b: int)
    requires 0xC2 <= a <= 0xDF && 0x80 <= b <= 0xBF
    ensures var c := 64 * (a - 0xC0) + (b - 0x80); Scalar(c) && Encoded(c) == [a, b]
  {
  }

  lemma ThreeBytes(a: int, b: int, d: int)
    requires 0xE0 <= a <= 0xEF && 0x80 <= b <= 0xBF && 0x80 <= d <= 0xBF
    requires (a == 0xE0 ==> b >= 0xA0) && (a == 0xED ==> b <= 0x9F)
    ensures var c := 4096 * (a - 0xE0) + 64 * (b - 0x80) + (d - 0x80); Scalar(c) && Encoded(c) == [a, b, d]
  {
    var c := 4096 * (a - 0xE0) + 64 * (b - 0x80) + (d - 0x80);
    assert c / 64 == 64 * (a - 0xE0) + (b - 0x80) && c / 4096 == a - 0xE0;
  }

  lemma FourBytes(a: int, b: int, d: int, e: int)
    requires 0xF0 <= a <= 0xF4 && 0x80 <= b <= 0xBF && 0x80 <= d <= 0xBF && 0x80 <= e <= 0xBF
    requires (a == 0xF0 ==> b >= 0x90) && (a == 0xF4 ==> b <= 0x8F)
    ensures var c := 262_144 * (a - 0xF0) + 4096 * (b - 0x80) + 64 * (d - 0x80) + (e - 0x80);
            Scalar(c) && Encoded(c) == [a, b, d, e]
  {
    var c := 262_144 * (a - 0xF0) + 4096 * (b - 0x80) + 64 * (d - 0x80) + (e - 0x80);
    assert c / 64 == 4096 * (a - 0xF0) + 64 * (b - 0x80) + (d - 0x80);
    assert c / 4096 == 64 * (a - 0xF0) + (b - 0x80) && c / 262_144 == a - 0xF0;
    assert c % 64 == e - 0x80 && c / 64 % 64 == d - 0x80 && c / 4096 % 64 == b - 0x80;
  }

  /** The scalar value of a well-formed character. */
  lemma DecodedCharacter(s: bytes) returns (c: nat)
    requires CharacterLength(s) > 0
    ensures Scalar(c) && Encoded(c) == s[..CharacterLength(s)]
  {
    var n := CharacterLength(s);
    hide Scalar, Encoded;
    if n == 1 {
      c := s[0];
      OneByte(c);
      assert s[..1] == [s[0]];
    } else if n == 2 {
      TwoBytes(s[0], s[1]);
      c := 64 * (s[0] as int - 0xC0) + (s[1] as int - 0x80);
      assert s[..2] == [s[0], s[1]];
    } else if n == 3 {
      ThreeBytes(s[0], s[1], s[2]);
      c := 4096 * (s[0] as int - 0xE0) + 64 * (s[1] as int - 0x80) + (s[2] as int - 0x80);
      assert s[..3] == [s[0], s[1], s[2]];
    } else {
      FourBytes(s[0], s[1], s[2], s[3]);
      c := 262_144 * (s[0] as int - 0xF0) + 4096 * (s[1] as int - 0x80) + 64 * (s[2] as int - 0x80)
           + (s[3] as int - 0x80);
      assert s[..4] == [s[0], s[1], s[2], s[3]];
    }
  }

  lemma OneByte(c: nat)
    requires c < 0x80
    ensures Scalar(c) && Encoded(c) == [c]
  {
  }

  lemma {:induction false} DecodedText(s: bytes) returns (cs: seq<nat>)
    requires Utf8(s)
    ensures Scalars(cs) && EncodedAll(cs) == s
    decreases |s|
  {
    if s == [] {
      cs := [];
    } else {
      var n := CharacterLength(s);
      var c := DecodedCharacter(s);
      var rest := DecodedText(s[n..]);
      cs := [c] + rest;
      assert cs[1..] == rest && s == s[..n] + s[n..];
    }
  }

  lemma {:induction false} EncodedText(cs: seq<nat>)
    requires Scalars(cs)
    ensures Utf8(EncodedAll(cs))
    decreases |cs|
  {
    if cs != [] {
      var tail := EncodedAll(cs[1..]);
      EncodedText(cs[1..]);
      EncodedLength(cs[0], tail);
      assert (Encoded(cs[0]) + tail)[|Encoded(cs[0])|..] == tail;
    }
  }

  /** The accepted texts are exactly the encodings of sequences of Unicode scalar values. */
  lemma Utf8Exactly(s: bytes)
    ensures Utf8(s) <==> exists cs :: Scalars(cs) && EncodedAll(cs) == s
  {
    if Utf8(s) {
      var cs := DecodedText(s);
    }
    if cs :| Scalars(cs) && EncodedAll(cs) == s {
      EncodedText(cs);
    }
  }

  // ---- Texts and blocks ------------------------------------------------------------------------------

  /** A text is its length, four bytes or eight, within 4096 or a mebibyte, and that many bytes of UTF-8. */
  lemma TextByBytes(s: bytes, isShort: bool)
    ensures var width, limit := if isShort then 4 else 8, if isShort then 4096 else 1_048_576;
            TextFrom(s, isShort)
            == if |s| < width then Fail
               else
                 var n := if isShort then U32(s, 0) else U64(s, 0);
                 if n <= limit && width + n <= |s| && Utf8(s[width..width + n])
                 then Got(s[width..width + n], s[width + n..]) else Fail
  {
    UnpackedBytes(s, 0);
    hide Number, U32, U64, Utf8;
    var width := if isShort then 4 else 8;
    if width <= |s| {
      var n := if isShort then U32(s, 0) else U64(s, 0);
      assert s[..width] == s[0..width];
      assert Number(s[..width]) == n;
      if width + n <= |s| {
        assert s[width..][..n] == s[width..width + n] && s[width..][n..] == s[width + n..];
      }
    }
  }

  /** A block is its length in eight bytes, at most 64 mebibytes, and that many bytes. */
  lemma BlockByBytes(s: bytes)
    ensures BlockFrom(s)
         == if |s| >= 8 && U64(s, 0) <= 67_108_864 && 8 + U64(s, 0) <= |s|
            then Got(s[8..8 + U64(s, 0)], s[8 + U64(s, 0)..]) else Fail
  {
    UnpackedBytes(s, 0);
    if 8 <= |s| {
      assert s[..8] == s[0..8];
      var n := U64(s, 0);
      if 8 + n <= |s| {
        assert s[8..][..n] == s[8..8 + n] && s[8..][n..] == s[8 + n..];
      }
    }
  }
}
