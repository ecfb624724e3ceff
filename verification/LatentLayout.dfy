/** The latent model and the classifier block by byte: what stands at which offset. */
module LatentLayout {
  import opened Bytes
  import opened StateFrames
  import opened ByteLayout
  import opened LatentState

  /** A binary64 that is neither infinite nor NaN: its eleven exponent bits are not all set. */
  predicate FiniteAt(s: bytes, at: nat) {
    at + 8 <= |s| && (s[at + 7] as int % 128) * 16 + s[at + 6] as int / 16 != 0x7FF
  }

  predicate AllFinite(s: bytes, at: nat, count: nat) {
    forall i :: 0 <= i < count ==> FiniteAt(s, at + 8 * i)
  }

  /** Arrays from an offset to the end of the string, each behind its length. */
  predicate ArraysAt(s: bytes, at: nat, counts: seq<nat>)
    decreases |counts|
  {
    if counts == [] then at == |s|
    else
      && at + 8 <= |s| && U64(s, at) == counts[0]
      && AllFinite(s, at + 8, counts[0])
      && ArraysAt(s, at + 8 + 8 * counts[0], counts[1..])
  }

  /** The lengths of the eleven arrays of a latent model with w features, c classes and k components. */
  function Lengths(w: nat, c: nat, k: nat): seq<nat> {
    [w, w, c, c, w * c, w * k, w * k, c * k, w * k, 0, 0]
  }

  predicate SettingsAt(s: bytes, w: nat, c: nat, k: nat) {
    && 64 <= |s|
    && U32(s, 0) == 0 && U32(s, 4) == 1 && U32(s, 8) == 0
    && U64(s, 12) > k && U64(s, 20) == w && U64(s, 28) == c && U64(s, 36) == k
    && U32(s, 44) == 1 && U32(s, 48) == 0 && U32(s, 52) == 1 && U32(s, 56) == 0 && U32(s, 60) == 0
  }

  /** A positive tolerance, and at least one iteration. */
  predicate SolverAt(s: bytes, at: nat) {
    at + 12 <= |s| && FiniteAt(s, at) && s[at + 7] < 128 && U64(s, at) > 0 && U32(s, at + 8) > 0
  }

  /** What stands between header and checksum of a latent model. */
  predicate LatentAt(s: bytes, w: nat, c: nat, k: nat) {
    SettingsAt(s, w, c, k) && SolverAt(s, 64) && ArraysAt(s, 76, Lengths(w, c, k))
  }

  // ---- The parsers, by offset ------------------------------------------------------------------

  lemma FiniteBytes(s: bytes, at: nat)
    ensures FiniteAt(s, at) <==> at + 8 <= |s| && Finite(s[at..at + 8])
  {
  }

  lemma AllFiniteFirst(s: bytes, at: nat, count: nat)
    requires count > 0
    ensures AllFinite(s, at, count) <==> FiniteAt(s, at) && AllFinite(s, at + 8, count - 1)
  {
    hide FiniteAt;
    if AllFinite(s, at, count) {
      assert FiniteAt(s, at + 8 * 0);
      forall i | 0 <= i < count - 1 ensures FiniteAt(s, at + 8 + 8 * i) {
        assert FiniteAt(s, at + 8 * (i + 1));
      }
    }
    if FiniteAt(s, at) && AllFinite(s, at + 8, count - 1) {
      forall i | 0 <= i < count ensures FiniteAt(s, at + 8 * i) {
        if i > 0 {
          assert FiniteAt(s, at + 8 + 8 * (i - 1));
        }
      }
    }
  }

  lemma {:induction false} FloatsAt(s: bytes, at: nat, count: nat)
    requires at <= |s|
    ensures FloatsFrom(s[at..], count).Got? <==> AllFinite(s, at, count)
    ensures FloatsFrom(s[at..], count).Got? ==>
              at + 8 * count <= |s| && FloatsFrom(s[at..], count).rest == s[at + 8 * count..]
    decreases count
  {
    if count > 0 {
      FiniteBytes(s, at);
      AllFiniteFirst(s, at, count);
      hide FiniteAt, Finite, AllFinite;
      if at + 8 <= |s| {
        assert s[at..][..8] == s[at..at + 8] && s[at..][8..] == s[at + 8..];
        FloatsAt(s, at + 8, count - 1);
      }
    }
  }

  function Word(s: bytes, at: nat, width: nat): nat
    requires (width == 4 || width == 8) && at + width <= |s|
  {
    if width == 4 then U32(s, at) else U64(s, at)
  }

  lemma NumberAt(s: bytes, at: nat, width: nat)
    requires at <= |s| && (width == 4 || width == 8)
    ensures NumberFrom(s[at..], width)
         == if at + width <= |s| then Got(Word(s, at, width), s[at + width..]) else Fail
  {
    hide U32, U64, Number;
    UnpackedBytes(s, at);
    if at + width <= |s| {
      assert s[at..][..width] == s[at..at + width] && s[at..][width..] == s[at + width..];
    }
  }

  lemma ExpectOne(s: bytes, at: nat, width: nat, first: int, rest: seq<int>)
    requires at <= |s| && (width == 4 || width == 8)
    ensures ExpectFrom(s[at..], width, [first] + rest)
         == if at + width <= |s| && Word(s, at, width) == first then ExpectFrom(s[at + width..], width, rest) else Fail
  {
    NumberAt(s, at, width);
    hide Word, NumberFrom;
    assert ([first] + rest)[1..] == rest;
  }

  lemma ExpectNone(s: bytes, width: nat)
    ensures ExpectFrom(s, width, []) == Got((), s)
  {
  }

  lemma ExpectThree(s: bytes, at: nat, width: nat, a: int, b: int, c: int)
    requires at <= |s| && (width == 4 || width == 8)
    ensures ExpectFrom(s[at..], width, [a, b, c])
         == if at + 3 * width <= |s| && Word(s, at, width) == a && Word(s, at + width, width) == b
               && Word(s, at + 2 * width, width) == c
            then Got((), s[at + 3 * width..]) else Fail
  {
    hide ExpectFrom, Word;
    assert [a, b, c] == [a] + [b, c] && [b, c] == [b] + [c] && [c] == [c] + [];
    ExpectOne(s, at, width, a, [b, c]);
    if at + width <= |s| {
      ExpectOne(s, at + width, width, b, [c]);
    }
    if at + 2 * width <= |s| {
      ExpectOne(s, at + 2 * width, width, c, []);
    }
    if at + 3 * width <= |s| {
      ExpectNone(s[at + 3 * width..], width);
    }
  }

  lemma ExpectFlags(s: bytes, at: nat)
    requires at <= |s|
    ensures ExpectFrom(s[at..], 4, [1, 0, 1, 0, 0])
         == if at + 20 <= |s| && U32(s, at) == 1 && U32(s, at + 4) == 0 && U32(s, at + 8) == 1 && U32(s, at + 12) == 0
               && U32(s, at + 16) == 0
            then Got((), s[at + 20..]) else Fail
  {
    hide ExpectFrom, U32;
    assert [1, 0, 1, 0, 0] == [1] + [0, 1, 0, 0] && [0, 1, 0, 0] == [0] + [1, 0, 0];
    ExpectOne(s, at, 4, 1, [0, 1, 0, 0]);
    if at + 4 <= |s| {
      ExpectOne(s, at + 4, 4, 0, [1, 0, 0]);
    }
    if at + 8 <= |s| {
      ExpectThree(s, at + 8, 4, 1, 0, 0);
    }
  }

  lemma SettingsExactly(s: bytes, w: nat, c: nat, k: nat)
    ensures SettingsFrom(s, w, c, k) == if SettingsAt(s, w, c, k) then Got((), s[64..]) else Fail
  {
    hide ExpectFrom, NumberFrom, U32, U64;
    assert s[0..] == s;
    ExpectThree(s, 0, 4, 0, 1, 0);
    if 12 <= |s| {
      NumberAt(s, 12, 8);
    }
    if 20 <= |s| {
      ExpectThree(s, 20, 8, w, c, k);
    }
    if 44 <= |s| {
      ExpectFlags(s, 44);
    }
  }

  lemma PositiveBytes(s: bytes, at: nat)
    requires at + 8 <= |s|
    ensures Positive(s[at..at + 8]) <==> FiniteAt(s, at) && s[at + 7] < 128 && U64(s, at) > 0
  {
    FiniteBytes(s, at);
    var b := s[at..at + 8];
    assert forall i :: 0 <= i < 8 ==> b[i] == s[at + i];
  }

  lemma SolverExactly(s: bytes, at: nat)
    requires at <= |s|
    ensures SolverFrom(s[at..]) == if SolverAt(s, at) then Got((), s[at + 12..]) else Fail
  {
    FiniteBytes(s, at);
    if at + 8 <= |s| {
      assert s[at..][..8] == s[at..at + 8] && s[at..][8..] == s[at + 8..];
      PositiveBytes(s, at);
      NumberAt(s, at + 8, 4);
    }
    hide FiniteAt, Finite, Positive, NumberFrom, U32, U64;
  }

  lemma {:induction false} ArraysExactly(s: bytes, at: nat, counts: seq<nat>)
    requires at <= |s|
    ensures Exhausts(ArraysFrom(s[at..], counts)) <==> ArraysAt(s, at, counts)
    decreases |counts|
  {
    hide FiniteAt, AllFinite, FloatsFrom, ExpectFrom, U64;
    if counts != [] {
      assert [counts[0]] == [counts[0]] + [];
      ExpectOne(s, at, 8, counts[0], []);
      if at + 8 <= |s| {
        ExpectNone(s[at + 8..], 8);
        FloatsAt(s, at + 8, counts[0]);
        if at + 8 + 8 * counts[0] <= |s| {
          ArraysExactly(s, at + 8 + 8 * counts[0], counts[1..]);
        } else {
          ArraysPast(s, at + 8 + 8 * counts[0], counts[1..]);
        }
      }
    }
  }

  lemma ArraysPast(s: bytes, at: nat, counts: seq<nat>)
    requires at > |s|
    ensures !ArraysAt(s, at, counts)
  {
  }

  lemma LatentExactly(s: bytes, w: nat, c: nat, k: nat)
    ensures Exhausts(LatentFrom(s, w, c, k)) <==> LatentAt(s, w, c, k)
  {
    SettingsExactly(s, w, c, k);
    if 64 <= |s| {
      SolverExactly(s, 64);
    }
    if 76 <= |s| {
      ArraysExactly(s, 76, Lengths(w, c, k));
    }
    assert ArrayLengths(w, c, k) == Lengths(w, c, k);
    hide SettingsFrom, SettingsAt, SolverFrom, ArraysFrom, ArraysAt, Lengths, ArrayLengths;
  }

  /** A whole latent model: an `N4MM` frame around those bytes. */
  predicate LatentIs(data: bytes, w: nat, c: nat, k: nat) {
    && 28 <= |data| <= 67_108_864
    && data[..4] == Ascii("N4MM") && data[4..20] == FIXED
    && U64(data, |data| - 8) == Checksum(data[..|data| - 8])
    && LatentAt(data[20..|data| - 8], w, c, k)
  }

  /** The latent model check accepts exactly these bytes. */
  lemma LatentByBytes(data: bytes, w: nat, c: nat, k: nat)
    ensures LatentAccepted(data, w, c, k) <==> LatentIs(data, w, c, k)
  {
    assert LATENT_MAGIC == Ascii("N4MM");
    CheckedByBytes(data, LATENT_MAGIC);
    if 28 <= |data| {
      LatentExactly(Body(data), w, c, k);
    }
    hide Checked, LatentFrom, LatentAt, U64, Checksum, Ascii, FIXED;
  }

  // ---- The classifier block ------------------------------------------------------------------------

  /** The length of a latent model, which depends on nothing but its shape. */
  function ModelSize(w: nat, c: nat, k: nat): nat {
    192 + 16 * w + 16 * c + 8 * (w * c) + 24 * (w * k) + 8 * (c * k)
  }

  /** An intercept for every class but one, and its weights. */
  function CoefficientLengths(c: nat, k: nat): seq<nat>
    requires c > 0
  {
    [c - 1, (c - 1) * k]
  }

  predicate SignedAre(s: bytes, at: nat, expected: seq<int>)
    requires at + 8 * |expected| <= |s|
  {
    forall i :: 0 <= i < |expected| ==> S64(s, at + 8 * i) == expected[i]
  }

  predicate ClassesAt(s: bytes, w: nat, classes: seq<int>) {
    && 16 + 8 * |classes| <= |s|
    && S64(s, 0) == w && U64(s, 8) == |classes|
    && SignedAre(s, 16, classes)
  }

  /** A latent model behind its length in bytes and in words. */
  predicate ModelAt(s: bytes, p: nat, w: nat, c: nat, k: nat) {
    var n := ModelSize(w, c, k);
    && p + 16 + n <= |s|
    && S64(s, p) == n && U64(s, p + 8) == n / 8
    && LatentIs(s[p + 16..p + 16 + n], w, c, k)
  }

  /** Features, classes, the packed latent model, then intercepts and weights. */
  predicate StateAt(s: bytes, k: nat, w: nat, classes: seq<int>) {
    var c := |classes|;
    && c > 0 && ClassesAt(s, w, classes)
    && ModelAt(s, 16 + 8 * c, w, c, k)
    && ArraysAt(s, 32 + 8 * c + ModelSize(w, c, k), CoefficientLengths(c, k))
  }

  lemma SignedFirst(s: bytes, at: nat, expected: seq<int>)
    requires at + 8 * |expected| <= |s| && expected != []
    ensures SignedAre(s, at, expected) <==> S64(s, at) == expected[0] && SignedAre(s, at + 8, expected[1..])
  {
    hide S64;
    var rest := expected[1..];
    if SignedAre(s, at, expected) {
      assert S64(s, at + 8 * 0) == expected[0];
      forall i | 0 <= i < |rest| ensures S64(s, at + 8 + 8 * i) == rest[i] {
        assert S64(s, at + 8 * (i + 1)) == expected[i + 1];
      }
    }
    if S64(s, at) == expected[0] && SignedAre(s, at + 8, rest) {
      forall i | 0 <= i < |expected| ensures S64(s, at + 8 * i) == expected[i] {
        if i > 0 {
          assert S64(s, at + 8 + 8 * (i - 1)) == rest[i - 1];
        }
      }
    }
  }

  lemma {:induction false} SignedsAt(s: bytes, at: nat, expected: seq<int>)
    requires at <= |s|
    ensures var r := SignedsFrom(s[at..], expected);
            && (r.Got? <==> at + 8 * |expected| <= |s| && SignedAre(s, at, expected))
            && (r.Got? ==> r.rest == s[at + 8 * |expected|..])
    decreases |expected|
  {
    if expected != [] {
      hide S64, SignedNumber, SignedAre;
      UnpackedBytes(s, at);
      if at + 8 <= |s| {
        assert s[at..][..8] == s[at..at + 8] && s[at..][8..] == s[at + 8..];
        SignedsAt(s, at + 8, expected[1..]);
      }
      if at + 8 * |expected| <= |s| {
        SignedFirst(s, at, expected);
      }
    }
  }

  lemma SignedOne(s: bytes, at: nat, v: int)
    requires at <= |s|
    ensures SignedsFrom(s[at..], [v])
         == if at + 8 <= |s| && S64(s, at) == v then Got((), s[at + 8..]) else Fail
  {
    SignedsAt(s, at, [v]);
    hide S64, SignedsFrom;
    if at + 8 <= |s| {
      assert S64(s, at + 8 * 0) == S64(s, at);
      assert forall i :: 0 <= i < 1 ==> at + 8 * i == at;
    }
  }

  lemma ClassesExactly(s: bytes, w: nat, classes: seq<int>)
    ensures var c, r := |classes|, ClassesFrom(s, w, classes);
            && (r.Got? <==> ClassesAt(s, w, classes))
            && (r.Got? ==> r.rest == s[16 + 8 * c..])
  {
    hide S64, U64, ExpectFrom, SignedsFrom;
    assert s[0..] == s;
    SignedOne(s, 0, w);
    assert [|classes|] == [|classes|] + [];
    if 8 <= |s| {
      ExpectOne(s, 8, 8, |classes|, []);
    }
    if 16 <= |s| {
      ExpectNone(s[16..], 8);
      SignedsAt(s, 16, classes);
    }
  }

  /** With no padding, the packed words are the model. */
  lemma PackedAt(s: bytes, p: nat, n: nat)
    requires p <= |s| && n % 8 == 0 && 28 <= n <= 67_108_864
    ensures var r := PackedFrom(s[p..]);
            && (r.Got? && r.value.used == n <==> p + 16 + n <= |s| && S64(s, p) == n && U64(s, p + 8) == n / 8)
            && (r.Got? && r.value.used == n ==> r.value.Used() == s[p + 16..p + 16 + n] && r.rest == s[p + 16 + n..])
  {
    hide S64, U64, SignedNumber, Number;
    UnpackedBytes(s, p);
    if p + 8 <= |s| {
      assert s[p..][..8] == s[p..p + 8] && s[p..][8..] == s[p + 8..];
      NumberAt(s, p + 8, 8);
      WholeWords(n, n / 8);
      if p + 16 + n <= |s| {
        assert s[p + 16..][..n] == s[p + 16..p + 16 + n] && s[p + 16..][n..] == s[p + 16 + n..];
        assert s[p + 16..p + 16 + n][..n] == s[p + 16..p + 16 + n];
      }
    }
  }

  lemma SameSize(w: nat, c: nat, k: nat)
    ensures ModelSize(w, c, k) == LatentSize(w, c, k) && ModelSize(w, c, k) % 8 == 0
  {
    var words := 24 + 2 * w + 2 * c + w * c + 3 * (w * k) + c * k;
    assert ModelSize(w, c, k) == 8 * words;
  }

  lemma SizeOfUsed(model: Packed, n: nat)
    requires model.Tight() && |model.Used()| == n
    ensures model.used == n
  {
  }

  lemma FrameSized(data: bytes, w: nat, c: nat, k: nat)
    ensures LatentIs(data, w, c, k) ==> 28 <= |data| <= 67_108_864
  {
  }

  lemma ModelRead(s: bytes, p: nat, w: nat, c: nat, k: nat)
    requires p <= |s| && PackedFrom(s[p..]).Got? && LatentAccepted(PackedFrom(s[p..]).value.Used(), w, c, k)
    ensures ModelAt(s, p, w, c, k) && PackedFrom(s[p..]).rest == s[p + 16 + ModelSize(w, c, k)..]
  {
    hide PackedFrom, S64, U64, LatentAccepted, LatentIs, LatentSize, ModelSize;
    var n, r := ModelSize(w, c, k), PackedFrom(s[p..]);
    SameSize(w, c, k);
    var used := r.value.Used();
    LatentHasExactSize(used, w, c, k);
    LatentByBytes(used, w, c, k);
    FrameSized(used, w, c, k);
    SizeOfUsed(r.value, n);
    PackedAt(s, p, n);
  }

  lemma ModelWritten(s: bytes, p: nat, w: nat, c: nat, k: nat)
    requires p <= |s| && ModelAt(s, p, w, c, k)
    ensures PackedFrom(s[p..]).Got? && LatentAccepted(PackedFrom(s[p..]).value.Used(), w, c, k)
  {
    hide PackedFrom, S64, U64, LatentAccepted, LatentIs, LatentSize, ModelSize;
    var n := ModelSize(w, c, k);
    SameSize(w, c, k);
    var used := s[p + 16..p + 16 + n];
    LatentByBytes(used, w, c, k);
    FrameSized(used, w, c, k);
    PackedAt(s, p, n);
  }

  /** A packed latent model is exactly these bytes. */
  lemma ModelOnly(s: bytes, p: nat, w: nat, c: nat, k: nat)
    requires p <= |s|
    ensures var r := PackedFrom(s[p..]);
            && (r.Got? && LatentAccepted(r.value.Used(), w, c, k) <==> ModelAt(s, p, w, c, k))
            && (r.Got? && LatentAccepted(r.value.Used(), w, c, k) ==> r.rest == s[p + 16 + ModelSize(w, c, k)..])
  {
    hide PackedFrom, LatentAccepted, ModelAt, ModelSize;
    var r := PackedFrom(s[p..]);
    if r.Got? && LatentAccepted(r.value.Used(), w, c, k) {
      ModelRead(s, p, w, c, k);
    }
    if ModelAt(s, p, w, c, k) {
      ModelWritten(s, p, w, c, k);
    }
  }

  /** The classifier block check accepts exactly these bytes. */
  lemma StateByBytes(s: bytes, k: nat, w: nat, classes: seq<int>)
    ensures StateAccepted(s, k, w, classes) <==> StateAt(s, k, w, classes)
  {
    var c := |classes|;
    hide ClassesFrom, PackedFrom, ArraysFrom, LatentAccepted, ArraysAt, ModelSize, ClassesAt, ModelAt;
    ClassesExactly(s, w, classes);
    ClassesFit(s, w, classes);
    if c > 0 && 16 + 8 * c <= |s| {
      ModelOnly(s, 16 + 8 * c, w, c, k);
      ModelFits(s, 16 + 8 * c, w, c, k);
      var at := 32 + 8 * c + ModelSize(w, c, k);
      if at <= |s| {
        ArraysExactly(s, at, CoefficientLengths(c, k));
      }
    }
  }

  lemma ClassesFit(s: bytes, w: nat, classes: seq<int>)
    ensures ClassesAt(s, w, classes) ==> 16 + 8 * |classes| <= |s|
  {
  }

  lemma ModelFits(s: bytes, p: nat, w: nat, c: nat, k: nat)
    ensures ModelAt(s, p, w, c, k) ==> p + 16 + ModelSize(w, c, k) <= |s|
  {
  }
}
