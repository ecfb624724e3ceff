/** Byte strings, little-endian numbers and strict UTF-8, as the state codec uses them. */
module Bytes {

  type byte = x: int | 0 <= x < 256
  type bytes = seq<byte>

  function Pow256(n: nat): (r: nat)
    ensures r >= 1
  {
    if n == 0 then 1 else 256 * Pow256(n - 1)
  }

  /** `struct.pack` of an unsigned number of `width` bytes. */
  function Little(value: nat, width: nat): (r: bytes)
    ensures |r| == width
  {
    if width == 0 then [] else [value % 256] + Little(value / 256, width - 1)
  }

  /** `struct.unpack` of an unsigned little-endian number. */
  function Number(s: bytes): (r: nat)
    ensures r < Pow256(|s|)
  {
    if s == [] then 0 else s[0] + 256 * Number(s[1..])
  }

  lemma {:induction false} NumberOfLittle(value: nat, width: nat)
    requires value < Pow256(width)
    ensures Number(Little(value, width)) == value
  {
    if width > 0 {
      assert Little(value, width)[1..] == Little(value / 256, width - 1);
      NumberOfLittle(value / 256, width - 1);
    }
  }

  lemma {:induction false} LittleOfNumber(s: bytes)
    ensures Little(Number(s), |s|) == s
  {
    if s != [] {
      LittleOfNumber(s[1..]);
      assert Number(s) % 256 == s[0] && Number(s) / 256 == Number(s[1..]);
      assert s == [s[0]] + s[1..];
    }
  }

  lemma NumberSeparates(s: bytes, t: bytes, k: nat)
    requires |s| == |t| && k < |s| && s[k] != t[k]
    ensures Number(s) != Number(t)
  {
    LittleOfNumber(s);
    LittleOfNumber(t);
  }

  lemma Widths()
    ensures Pow256(4) == 0x1_0000_0000
    ensures Pow256(8) == 0x1_0000_0000_0000_0000
  {
    assert Pow256(1) == 256;
    assert Pow256(2) == 0x1_0000;
    assert Pow256(3) == 0x100_0000;
    assert Pow256(4) == 0x1_0000_0000;
    assert Pow256(5) == 0x100_0000_0000;
    assert Pow256(6) == 0x1_0000_0000_0000;
    assert Pow256(7) == 0x100_0000_0000_0000;
  }

  /** A signed 64-bit number as its two's complement. */
  function Signed(value: int): bytes
    requires -0x8000_0000_0000_0000 <= value < 0x8000_0000_0000_0000
  {
    Little(if value < 0 then value + 0x1_0000_0000_0000_0000 else value, 8)
  }

  function SignedNumber(s: bytes): int {
    var u := Number(s);
    if u < 0x8000_0000_0000_0000 then u else u - 0x1_0000_0000_0000_0000
  }

  // ---- Strict UTF-8, by the syntax of section 4 of RFC 3629 -----------------

  predicate Tail(b: byte) { 0x80 <= b <= 0xBF }

  /** The length of the well-formed character at the head of `s`, or 0. */
  function CharacterLength(s: bytes): (n: nat)
    ensures n <= |s|
  {
    if s == [] then 0
    else if s[0] <= 0x7F then 1
    else if |s| >= 2 && 0xC2 <= s[0] <= 0xDF && Tail(s[1]) then 2
    else if |s| >= 3 && Tail(s[2])
            && (|| (s[0] == 0xE0 && 0xA0 <= s[1] <= 0xBF)
                || (0xE1 <= s[0] <= 0xEC && Tail(s[1]))
                || (s[0] == 0xED && 0x80 <= s[1] <= 0x9F)
                || (0xEE <= s[0] <= 0xEF && Tail(s[1]))) then 3
    else if |s| >= 4 && Tail(s[2]) && Tail(s[3])
            && (|| (s[0] == 0xF0 && 0x90 <= s[1] <= 0xBF)
                || (0xF1 <= s[0] <= 0xF3 && Tail(s[1]))
                || (s[0] == 0xF4 && 0x80 <= s[1] <= 0x8F)) then 4
    else 0
  }

  predicate Utf8(s: bytes) {
    s == [] || (CharacterLength(s) > 0 && Utf8(s[CharacterLength(s)..]))
  }
}
