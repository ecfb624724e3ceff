/** The cursor, the checksummed frame and its 64-bit FNV-1a hash. */
module StateFrames {
  import opened Results
  import opened Bytes

  const FRAME_LIMIT := 67_108_864
  const TEXT_LIMIT := 1_048_576
  const SHORT_TEXT_LIMIT := 4096

  const WORD := 0x1_0000_0000_0000_0000
  const FNV_OFFSET := 0xcbf29ce484222325
  const FNV_PRIME := 0x100000001b3

  // ---- FNV-1a ------------------------------------------------------------------

  /** Bitwise exclusive or. */
  function Xor(a: nat, b: nat): nat
    decreases a + b
  {
    if a == 0 && b == 0 then 0 else (a % 2 + b % 2) % 2 + 2 * Xor(a / 2, b / 2)
  }

  function Mixed(hashed: nat, b: byte): (r: nat)
    ensures r < WORD
  {
    Xor(hashed, b) * FNV_PRIME % WORD
  }

  function HashFrom(hashed: nat, s: bytes): nat
    decreases |s|
  {
    if s == [] then hashed else HashFrom(Mixed(hashed, s[0]), s[1..])
  }

  function Checksum(s: bytes): nat {
    HashFrom(FNV_OFFSET, s)
  }

  lemma {:induction false} XorUnfolds(a: nat, b: nat)
    ensures Xor(a, b) % 2 == (a % 2 + b % 2) % 2
    ensures Xor(a, b) / 2 == Xor(a / 2, b / 2)
  {
    var low, rest := (a % 2 + b % 2) % 2, Xor(a / 2, b / 2);
    assert Xor(a, b) == low + 2 * rest;
  }

  lemma {:induction false} XorCancels(a: nat, b: nat, c: nat)
    requires Xor(a, b) == Xor(a, c)
    ensures b == c
    decreases a + b + c
  {
    if a + b + c > 0 {
      XorUnfolds(a, b);
      XorUnfolds(a, c);
      XorCancels(a / 2, b / 2, c / 2);
      assert b % 2 == c % 2;
      assert b == 2 * (b / 2) + b % 2 && c == 2 * (c / 2) + c % 2;
    }
  }

  lemma {:induction false} XorCommutes(a: nat, b: nat)
    ensures Xor(a, b) == Xor(b, a)
    decreases a + b
  {
    if a + b > 0 {
      XorCommutes(a / 2, b / 2);
    }
  }

  function Pow2(n: nat): (r: nat)
    ensures r >= 1
  {
    if n == 0 then 1 else 2 * Pow2(n - 1)
  }

  lemma {:induction false} XorBounded(a: nat, b: nat, n: nat)
    requires a < Pow2(n) && b < Pow2(n)
    ensures Xor(a, b) < Pow2(n)
  {
    if n > 0 {
      XorBounded(a / 2, b / 2, n - 1);
    }
  }

  lemma WordIsPow2()
    ensures Pow2(64) == WORD
  {
    assert Pow2(8) == 256;
    assert Pow2(16) == 0x1_0000;
    assert Pow2(24) == 0x100_0000;
    assert Pow2(32) == 0x1_0000_0000;
    assert Pow2(40) == 0x100_0000_0000;
    assert Pow2(48) == 0x1_0000_0000_0000;
    assert Pow2(56) == 0x100_0000_0000_0000;
  }

  /** Multiplying by the FNV prime loses nothing modulo 2^64, because the prime is odd. */
  lemma PrimeCancels(x: nat, y: nat)
    requires x < WORD && y < WORD
    requires x * FNV_PRIME % WORD == y * FNV_PRIME % WORD
    ensures x == y
  {
    var inverse, quotient := 0xce965057aff6957b, 0xce9650590f;
    assert FNV_PRIME * inverse == 1 + WORD * quotient;
    var k := x * FNV_PRIME / WORD - y * FNV_PRIME / WORD;
    assert (x - y) * FNV_PRIME == k * WORD;
    assert x - y == WORD * (k * inverse - (x - y) * quotient);
  }

  lemma MixedCancels(g: nat, h: nat, b: byte)
    requires g < WORD && h < WORD && Mixed(g, b) == Mixed(h, b)
    ensures g == h
  {
    WordIsPow2();
    XorBounded(g, b, 64);
    XorBounded(h, b, 64);
    PrimeCancels(Xor(g, b), Xor(h, b));
    XorCommutes(g, b);
    XorCommutes(h, b);
    XorCancels(b, g, h);
  }

  lemma MixedSeparates(h: nat, b: byte, c: byte)
    requires h < WORD && Mixed(h, b) == Mixed(h, c)
    ensures b == c
  {
    WordIsPow2();
    XorBounded(h, b, 64);
    XorBounded(h, c, 64);
    PrimeCancels(Xor(h, b), Xor(h, c));
    XorCancels(h, b, c);
  }

  /** Whatever follows, two different hash states stay different. */
  lemma {:induction false} HashCancels(g: nat, h: nat, s: bytes)
    requires g < WORD && h < WORD && HashFrom(g, s) == HashFrom(h, s)
    ensures g == h
    decreases |s|
  {
    if s != [] {
      HashCancels(Mixed(g, s[0]), Mixed(h, s[0]), s[1..]);
      MixedCancels(g, h, s[0]);
    }
  }

  lemma {:induction false} HashOfConcat(h: nat, s: bytes, t: bytes)
    ensures HashFrom(h, s + t) == HashFrom(HashFrom(h, s), t)
    decreases |s|
  {
    if s == [] {
      assert s + t == t;
    } else {
      assert (s + t)[1..] == s[1..] + t;
      HashOfConcat(Mixed(h, s[0]), s[1..], t);
    }
  }

  lemma HashBounded(h: nat, s: bytes)
    requires h < WORD
    ensures HashFrom(h, s) < WORD
    decreases |s|
  {
  }

  /** Two strings that differ in one byte only have different checksums. */
  lemma ChecksumSeparates(s: bytes, i: nat, b: byte)
    requires i < |s| && b != s[i]
    ensures Checksum(s) != Checksum(s[i := b])
  {
    var front, back := s[..i], s[i + 1..];
    assert s == front + ([s[i]] + back) && s[i := b] == front + ([b] + back);
    HashOfConcat(FNV_OFFSET, front, [s[i]] + back);
    HashOfConcat(FNV_OFFSET, front, [b] + back);
    var h := HashFrom(FNV_OFFSET, front);
    HashBounded(FNV_OFFSET, front);
    assert ([s[i]] + back)[1..] == back && ([b] + back)[1..] == back;
    if Checksum(s) == Checksum(s[i := b]) {
      HashCancels(Mixed(h, s[i]), Mixed(h, b), back);
      MixedSeparates(h, s[i], b);
    }
  }

  // ---- Frames -------------------------------------------------------------------

  function Header(magic: bytes): bytes {
    magic + (Little(1, 4) + (Little(2, 4) + (Little(17, 4) + Little(0, 4))))
  }

  /** A frame as a writer emits it. */
  function Frame(magic: bytes, body: bytes): bytes {
    Header(magic) + body + Little(Checksum(Header(magic) + body), 8)
  }

  /** The last eight bytes are the checksum of the others. */
  predicate Sealed(data: bytes) {
    8 <= |data| && Number(data[|data| - 8..]) == Checksum(data[..|data| - 8])
  }

  /** What `checked_reader` accepts. */
  predicate Checked(data: bytes, magic: bytes) {
    && |magic| == 4
    && 28 <= |data| <= FRAME_LIMIT
    && data[..20] == Header(magic)
    && Sealed(data)
  }

  /** The bytes between the header and the checksum. */
  function Body(data: bytes): bytes
    requires 28 <= |data|
  {
    data[20..|data| - 8]
  }

  /** A string is accepted exactly if it is a frame within the size limit, and then of its own body only. */
  lemma CheckedIffFrame(data: bytes, magic: bytes)
    requires |magic| == 4
    ensures Checked(data, magic) <==> 28 <= |data| <= FRAME_LIMIT && data == Frame(magic, Body(data))
  {
    if 28 <= |data| {
      var n := |data| - 8;
      assert data[..n] == data[..20] + data[20..n];
      assert data == data[..n] + data[n..];
      LittleOfNumber(data[n..]);
      if data == Frame(magic, Body(data)) {
        var signed := Header(magic) + Body(data);
        assert data[..n] == signed;
        assert data[..20] == Header(magic);
        HashBounded(FNV_OFFSET, signed);
        Widths();
        NumberOfLittle(Checksum(signed), 8);
        assert data[n..] == Little(Checksum(signed), 8);
      }
    }
  }

  lemma FrameChecked(magic: bytes, body: bytes)
    requires |magic| == 4 && |body| + 28 <= FRAME_LIMIT
    ensures Checked(Frame(magic, body), magic) && Body(Frame(magic, body)) == body
  {
    assert Body(Frame(magic, body)) == body;
    CheckedIffFrame(Frame(magic, body), magic);
  }

  lemma SealBroken(data: bytes, i: nat, b: byte)
    requires Sealed(data) && i < |data| && b != data[i]
    ensures !Sealed(data[i := b])
  {
    var changed, n := data[i := b], |data| - 8;
    if i < n {
      assert changed[n..] == data[n..];
      assert changed[..n] == data[..n][i := b];
      ChecksumSeparates(data[..n], i, b);
    } else {
      assert changed[..n] == data[..n];
      NumberSeparates(data[n..], changed[n..], i - n);
    }
  }

  /** The frame detects every change of a single byte, the checksum's own bytes included. */
  lemma SingleByteChangeDetected(data: bytes, magic: bytes, i: nat, b: byte)
    requires Checked(data, magic) && i < |data| && b != data[i]
    ensures !Checked(data[i := b], magic)
  {
    SealBroken(data, i, b);
  }

  // ---- Suffix parsers: the specification of the cursor -----------------------------

  datatype Parsed<+T> = Fail | Got(value: T, rest: bytes)

  /** `Reader.end`: nothing is left. */
  predicate Exhausts<T>(p: Parsed<T>) {
    p.Got? && p.rest == []
  }

  function TakeFrom(s: bytes, count: nat): Parsed<bytes> {
    if count <= |s| then Got(s[..count], s[count..]) else Fail
  }

  function NumberFrom(s: bytes, width: nat): Parsed<nat> {
    if width <= |s| then Got(Number(s[..width]), s[width..]) else Fail
  }

  function TextFrom(s: bytes, isShort: bool): Parsed<bytes> {
    var count := NumberFrom(s, if isShort then 4 else 8);
    if count.Fail? || count.value > (if isShort then SHORT_TEXT_LIMIT else TEXT_LIMIT) then Fail
    else
      var text := TakeFrom(count.rest, count.value);
      if text.Got? && Utf8(text.value) then text else Fail
  }

  function BlockFrom(s: bytes): Parsed<bytes> {
    var count := NumberFrom(s, 8);
    if count.Fail? || count.value > FRAME_LIMIT then Fail else TakeFrom(count.rest, count.value)
  }

  lemma NumberFromLittle(value: nat, width: nat, tail: bytes)
    requires value < Pow256(width)
    ensures NumberFrom(Little(value, width) + tail, width) == Got(value, tail)
  {
    NumberOfLittle(value, width);
    assert (Little(value, width) + tail)[..width] == Little(value, width);
    assert (Little(value, width) + tail)[width..] == tail;
  }

  lemma NumberFromSplits(s: bytes, width: nat)
    requires NumberFrom(s, width).Got?
    ensures s == Little(NumberFrom(s, width).value, width) + NumberFrom(s, width).rest
  {
    LittleOfNumber(s[..width]);
    assert s == s[..width] + s[width..];
  }

  lemma TakeFromSplits(s: bytes, count: nat)
    requires TakeFrom(s, count).Got?
    ensures |TakeFrom(s, count).value| == count
    ensures s == TakeFrom(s, count).value + TakeFrom(s, count).rest
  {
  }

  // ---- The cursor object -----------------------------------------------------------

  class Reader {
    const data: bytes
    var pos: nat

    ghost predicate Valid()
      reads this
    {
      pos <= |data|
    }

    ghost function Rest(): bytes
      requires Valid()
      reads this
    {
      data[pos..]
    }

    constructor (data: bytes)
      ensures Valid() && this.data == data && Rest() == data && pos == 0
    {
      this.data, pos := data, 0;
    }

    predicate AtEnd()
      requires Valid()
      reads this
      ensures AtEnd() <==> Rest() == []
    {
      pos == |data|
    }

    method Take(count: nat) returns (r: Option<bytes>)
      requires Valid()
      modifies `pos
      ensures Valid()
      ensures match TakeFrom(old(Rest()), count)
              case Fail => r == None && pos == old(pos)
              case Got(value, rest) => r == Some(value) && Rest() == rest
    {
      if count > |data| - pos {
        return None;
      }
      r := Some(data[pos..pos + count]);
      assert r.value == Rest()[..count];
      pos := pos + count;
    }

    method Unsigned(width: nat) returns (r: Option<nat>)
      requires Valid()
      modifies `pos
      ensures Valid()
      ensures match NumberFrom(old(Rest()), width)
              case Fail => r == None
              case Got(value, rest) => r == Some(value) && Rest() == rest
    {
      var taken := Take(width);
      r := if taken.Some? then Some(Number(taken.value)) else None;
    }

    method Block() returns (r: Option<bytes>)
      requires Valid()
      modifies `pos
      ensures Valid()
      ensures match BlockFrom(old(Rest()))
              case Fail => r == None
              case Got(value, rest) => r == Some(value) && Rest() == rest
    {
      var count := Unsigned(8);
      if count.None? || count.value > FRAME_LIMIT {
        return None;
      }
      r := Take(count.value);
    }

    method Text(isShort: bool) returns (r: Option<bytes>)
      requires Valid()
      modifies `pos
      ensures Valid()
      ensures match TextFrom(old(Rest()), isShort)
              case Fail => r == None
              case Got(value, rest) => r == Some(value) && Rest() == rest
    {
      var count := Unsigned(if isShort then 4 else 8);
      if count.None? || count.value > (if isShort then SHORT_TEXT_LIMIT else TEXT_LIMIT) {
        return None;
      }
      r := Take(count.value);
      if r.Some? && !Utf8(r.value) {
        r := None;
      }
    }
  }

  /** The magic and the four fixed numbers at the head of every frame. */
  method ReadHeader(value: Reader, magic: bytes) returns (ok: bool)
    requires value.Valid() && |magic| == 4 && 20 <= |value.Rest()|
    modifies value`pos
    ensures value.Valid() && value.Rest() == old(value.Rest())[20..]
    ensures ok <==> old(value.Rest())[..20] == Header(magic)
  {
    ghost var s := value.Rest();
    var head := value.Take(4);
    assert value.Rest() == s[4..];
    var version := value.Unsigned(4);
    assert value.Rest() == s[8..];
    var first := value.Unsigned(4);
    assert value.Rest() == s[12..];
    var second := value.Unsigned(4);
    assert value.Rest() == s[16..];
    var third := value.Unsigned(4);
    assert value.Rest() == s[20..];
    assert s[..20][4..][..4] == s[4..][..4];
    assert s[..20][8..][..4] == s[8..][..4];
    assert s[..20][12..][..4] == s[12..][..4];
    assert s[..20][16..][..4] == s[16..][..4];
    assert s[..20][..4] == s[..4];
    ok := head == Some(magic) && version == Some(1) && first == Some(2) && second == Some(17) && third == Some(0);
    NumberIs(s[4..][..4], 1);
    NumberIs(s[8..][..4], 2);
    NumberIs(s[12..][..4], 17);
    NumberIs(s[16..][..4], 0);
    HeaderFields(s[..20], magic);
  }

  lemma HeadIsMagic(data: bytes, magic: bytes)
    ensures Checked(data, magic) ==> data[..4] == magic
  {
    if Checked(data, magic) {
      HeaderFields(data[..20], magic);
      assert data[..20][..4] == data[..4];
    }
  }

  /** The loop of `checked_reader`. */
  method Hash(s: bytes) returns (hashed: nat)
    ensures hashed == Checksum(s)
  {
    hashed := FNV_OFFSET;
    for i := 0 to |s|
      invariant Checksum(s) == HashFrom(hashed, s[i..])
    {
      assert s[i..][1..] == s[i + 1..];
      hashed := Mixed(hashed, s[i]);
    }
  }

  /** `checked_reader`: a cursor past the header of an accepted frame. */
  method CheckedReader(data: bytes, magic: bytes) returns (r: Option<Reader>)
    requires |magic| == 4
    ensures r.Some? <==> Checked(data, magic)
    ensures r.Some? ==> fresh(r.value) && r.value.Valid() && r.value.Rest() == Body(data)
  {
    if !(28 <= |data| <= FRAME_LIMIT) {
      return None;
    }
    HeadIsMagic(data, magic);
    if data[..4] != magic {
      return None;
    }
    var n := |data| - 8;
    var hashed := Hash(data[..n]);
    if hashed != Number(data[n..]) {
      return None;
    }
    var value := new Reader(data[..n]);
    var ok := ReadHeader(value, magic);
    assert data[..n][..20] == data[..20] && data[..n][20..] == Body(data);
    if !ok {
      return None;
    }
    return Some(value);
  }

  lemma NumberIs(s: bytes, value: nat)
    requires |s| == 4 && value < 0x1_0000_0000
    ensures Number(s) == value <==> s == Little(value, 4)
  {
    Widths();
    NumberOfLittle(value, 4);
    LittleOfNumber(s);
  }

  lemma Glue(s: bytes, a: bytes, t: bytes)
    requires |a| <= |s|
    ensures s == a + t <==> s[..|a|] == a && s[|a|..] == t
  {
    assert s == s[..|a|] + s[|a|..];
    assert (a + t)[..|a|] == a && (a + t)[|a|..] == t;
  }

  lemma HeaderFields(s: bytes, magic: bytes)
    requires |s| == 20 && |magic| == 4
    ensures s == Header(magic) <==>
            && s[..4] == magic && s[4..][..4] == Little(1, 4) && s[8..][..4] == Little(2, 4)
            && s[12..][..4] == Little(17, 4) && s[16..][..4] == Little(0, 4)
  {
    Glue(s, magic, Little(1, 4) + (Little(2, 4) + (Little(17, 4) + Little(0, 4))));
    Glue(s[4..], Little(1, 4), Little(2, 4) + (Little(17, 4) + Little(0, 4)));
    assert s[4..][4..] == s[8..];
    Glue(s[8..], Little(2, 4), Little(17, 4) + Little(0, 4));
    assert s[8..][4..] == s[12..];
    Glue(s[12..], Little(17, 4), Little(0, 4));
    assert s[12..][4..] == s[16..] == s[16..][..4];
  }
}
