/** Latent models of every shape that fits a frame: the exact size is attained, not only implied. */
module LatentShapes {
  import opened Bytes
  import opened StateFrames
  import opened LatentState

  function Zeros(n: nat): (r: bytes)
    ensures |r| == n
  {
    seq(n, _ => 0)
  }

  lemma {:induction false} ZeroFloats(n: nat, tail: bytes)
    ensures FloatsFrom(Zeros(8 * n) + tail, n) == Got((), tail)
  {
    var s := Zeros(8 * n) + tail;
    if n == 0 {
      assert s == tail;
    } else {
      assert s[..8] == Zeros(8) && s[8..] == Zeros(8 * (n - 1)) + tail;
      ZeroFloats(n - 1, tail);
    }
  }

  function ExpectBytes(width: nat, values: seq<nat>, tail: bytes): bytes {
    if values == [] then tail else Little(values[0], width) + ExpectBytes(width, values[1..], tail)
  }

  lemma {:induction false} ExpectParses(width: nat, values: seq<nat>, expected: seq<int>, tail: bytes)
    requires expected == values && forall i :: 0 <= i < |values| ==> values[i] < Pow256(width)
    ensures ExpectFrom(ExpectBytes(width, values, tail), width, expected) == Got((), tail)
    decreases |values|
  {
    if values != [] {
      NumberFromLittle(values[0], width, ExpectBytes(width, values[1..], tail));
      ExpectParses(width, values[1..], expected[1..], tail);
    }
  }

  function ArrayBytes(counts: seq<nat>): bytes {
    if counts == [] then [] else ExpectBytes(8, [counts[0]], Zeros(8 * counts[0]) + ArrayBytes(counts[1..]))
  }

  lemma {:induction false} ArraysParse(counts: seq<nat>)
    requires forall i :: 0 <= i < |counts| ==> counts[i] < WORD
    ensures Exhausts(ArraysFrom(ArrayBytes(counts), counts))
    decreases |counts|
  {
    if counts != [] {
      Widths();
      var rest := Zeros(8 * counts[0]) + ArrayBytes(counts[1..]);
      ExpectParses(8, [counts[0]], [counts[0]], rest);
      ZeroFloats(counts[0], ArrayBytes(counts[1..]));
      ArraysParse(counts[1..]);
    }
  }

  /** 1.0 as a little-endian binary64. */
  const ONE: bytes := [0, 0, 0, 0, 0, 0, 0xF0, 0x3F]

  function SettingsBytes(w: nat, c: nat, k: nat, tail: bytes): bytes {
    ExpectBytes(4, [0, 1, 0], Little(k + 1, 8) + ExpectBytes(8, [w, c, k], ExpectBytes(4, [1, 0, 1, 0, 0], tail)))
  }

  lemma SettingsParse(w: nat, c: nat, k: nat, tail: bytes)
    requires w < WORD && c < WORD && k + 1 < WORD
    ensures SettingsFrom(SettingsBytes(w, c, k, tail), w, c, k) == Got((), tail)
  {
    Widths();
    hide ExpectBytes, ExpectFrom, NumberFrom;
    var flags := ExpectBytes(4, [1, 0, 1, 0, 0], tail);
    var extents := ExpectBytes(8, [w, c, k], flags);
    ExpectParses(4, [0, 1, 0], [0, 1, 0], Little(k + 1, 8) + extents);
    NumberFromLittle(k + 1, 8, extents);
    ExpectParses(8, [w, c, k], [w, c, k], flags);
    ExpectParses(4, [1, 0, 1, 0, 0], [1, 0, 1, 0, 0], tail);
  }

  function SolverBytes(tail: bytes): bytes { ONE + (Little(1, 4) + tail) }

  lemma SolverParses(tail: bytes)
    ensures SolverFrom(SolverBytes(tail)) == Got((), tail)
  {
    Widths();
    var s, rest := SolverBytes(tail), Little(1, 4) + tail;
    hide Little, NumberFrom;
    assert s[..8] == ONE && s[8..] == rest;
    assert Positive(ONE) by {
      assert ONE[6] != 0;
    }
    NumberFromLittle(1, 4, tail);
  }

  function LatentBytes(w: nat, c: nat, k: nat): bytes {
    SettingsBytes(w, c, k, SolverBytes(ArrayBytes(ArrayLengths(w, c, k))))
  }

  lemma LengthsFit(w: nat, c: nat, k: nat)
    requires LatentSize(w, c, k) <= FRAME_LIMIT
    ensures w < WORD && c < WORD
    ensures forall i :: 0 <= i < |ArrayLengths(w, c, k)| ==> ArrayLengths(w, c, k)[i] < WORD
  {
    assert w * c >= 0 && w * k >= 0 && c * k >= 0;
  }

  lemma LatentParses(w: nat, c: nat, k: nat)
    requires LatentSize(w, c, k) <= FRAME_LIMIT && k + 1 < WORD
    ensures Exhausts(LatentFrom(LatentBytes(w, c, k), w, c, k))
    ensures |LatentBytes(w, c, k)| + 28 == LatentSize(w, c, k)
  {
    LengthsFit(w, c, k);
    hide SettingsFrom, SolverFrom, ArraysFrom, SettingsBytes, SolverBytes, ArrayBytes, ArrayLengths, LatentSize;
    var arrays := ArrayBytes(ArrayLengths(w, c, k));
    SettingsParse(w, c, k, SolverBytes(arrays));
    SolverParses(arrays);
    ArraysParse(ArrayLengths(w, c, k));
    LatentBodySize(LatentBytes(w, c, k), w, c, k);
  }

  lemma FittedAbove(s: bytes, w: nat, c: nat, k: nat)
    requires SettingsFrom(s, w, c, k).Got?
    ensures k + 1 < WORD
  {
    Widths();
    NumberFromSplits(ExpectFrom(s, 4, [0, 1, 0]).rest, 8);
  }

  /** Exactly the shapes whose size fits a frame, and whose components leave room for a sample count, are accepted. */
  lemma LatentShapesExactly(w: nat, c: nat, k: nat)
    ensures (exists data :: LatentAccepted(data, w, c, k)) <==> LatentSize(w, c, k) <= FRAME_LIMIT && k + 1 < WORD
  {
    hide LatentSize, SettingsFrom, SolverFrom, ArraysFrom;
    forall data | LatentAccepted(data, w, c, k) ensures LatentSize(w, c, k) <= FRAME_LIMIT && k + 1 < WORD {
      LatentHasExactSize(data, w, c, k);
      CheckedIffFrame(data, LATENT_MAGIC);
      FittedAbove(Body(data), w, c, k);
    }
    if LatentSize(w, c, k) <= FRAME_LIMIT && k + 1 < WORD {
      LatentParses(w, c, k);
      FrameChecked(LATENT_MAGIC, LatentBytes(w, c, k));
      assert LatentAccepted(Frame(LATENT_MAGIC, LatentBytes(w, c, k)), w, c, k);
    }
  }
}
