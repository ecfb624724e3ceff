/** Classifiers of every shape that fits: which parameters, widths and classes are accepted for some bytes. */
module ClassifierShapes {
  import opened Bytes
  import opened StateFrames
  import opened EstimatorCodec
  import opened LatentState
  import opened LatentShapes
  import opened ByteLayout
  import opened LatentLayout
  import opened ClassifierLayout

  predicate Fits64(classes: seq<int>) {
    forall i :: 0 <= i < |classes| ==> -0x8000_0000_0000_0000 <= classes[i] < 0x8000_0000_0000_0000
  }

  /** The length of a classifier block with c classes. */
  function StateSize(w: nat, c: nat, k: nat): nat
    requires c > 0
  {
    48 + 8 * c + ModelSize(w, c, k) + 8 * ((c - 1) + (c - 1) * k)
  }

  // ---- A block of every shape ------------------------------------------------------------------

  function SignedsBytes(values: seq<int>, tail: bytes): bytes
    requires Fits64(values)
  {
    if values == [] then tail else Signed(values[0]) + SignedsBytes(values[1..], tail)
  }

  lemma {:induction false} SignedsParse(values: seq<int>, tail: bytes)
    requires Fits64(values)
    ensures SignedsFrom(SignedsBytes(values, tail), values) == Got((), tail)
    decreases |values|
  {
    if values != [] {
      var rest := SignedsBytes(values[1..], tail);
      SignedPacked(values[0]);
      SignedsParse(values[1..], tail);
      hide Signed, SignedNumber;
      assert (Signed(values[0]) + rest)[..8] == Signed(values[0]) && (Signed(values[0]) + rest)[8..] == rest;
    }
  }

  function PackedModelBytes(model: bytes, tail: bytes): bytes
    requires |model| <= FRAME_LIMIT
  {
    Signed(|model|) + (Little(|model| / 8, 8) + (model + tail))
  }

  lemma PackedParses(model: bytes, tail: bytes)
    requires 28 <= |model| <= FRAME_LIMIT && |model| % 8 == 0
    ensures var r := PackedFrom(PackedModelBytes(model, tail));
            r.Got? && r.value.Used() == model && r.rest == tail
  {
    var n := |model|;
    SignedPacked(n);
    Widths();
    WholeWords(n, n / 8);
    hide Signed, SignedNumber, Little, NumberFrom;
    var rest := Little(n / 8, 8) + (model + tail);
    assert (Signed(n) + rest)[..8] == Signed(n) && (Signed(n) + rest)[8..] == rest;
    NumberFromLittle(n / 8, 8, model + tail);
    assert (model + tail)[..n] == model && (model + tail)[n..] == tail;
    assert model[..n] == model;
  }

  function ClassBytes(w: nat, classes: seq<int>, tail: bytes): bytes
    requires Fits64(classes) && w < 0x8000_0000_0000_0000
  {
    Signed(w) + (Little(|classes|, 8) + SignedsBytes(classes, tail))
  }

  lemma ClassesParse(w: nat, classes: seq<int>, tail: bytes)
    requires Fits64(classes) && w < 0x8000_0000_0000_0000 && |classes| < WORD
    ensures ClassesFrom(ClassBytes(w, classes, tail), w, classes) == Got((), tail)
  {
    Widths();
    var listed := SignedsBytes(classes, tail);
    var counted := Little(|classes|, 8) + listed;
    var width: seq<int>, count: seq<int> := [w], [|classes|];
    SignedsParse(classes, tail);
    assert width[1..] == [] && count[1..] == [];
    assert SignedsBytes(width, counted) == Signed(w) + counted;
    SignedsParse(width, counted);
    NumberFromLittle(|classes|, 8, listed);
    hide Signed, Little, SignedsBytes, SignedsFrom, NumberFrom;
    assert ExpectFrom(counted, 8, count) == Got((), listed);
  }

  function BlockOf(model: bytes, k: nat, w: nat, classes: seq<int>): bytes
    requires Fits64(classes) && classes != [] && w < 0x8000_0000_0000_0000 && |model| <= FRAME_LIMIT
  {
    ClassBytes(w, classes, PackedModelBytes(model, ArrayBytes([|classes| - 1, (|classes| - 1) * k])))
  }

  lemma ModelWords(model: bytes, w: nat, c: nat, k: nat)
    requires LatentAccepted(model, w, c, k)
    ensures 28 <= |model| <= FRAME_LIMIT && |model| % 8 == 0
  {
    LatentHasExactSize(model, w, c, k);
    SameSize(w, c, k);
    LatentByBytes(model, w, c, k);
    FrameSized(model, w, c, k);
    hide LatentAccepted, LatentIs, ModelSize, LatentSize;
  }

  lemma BlockAccepted(model: bytes, k: nat, w: nat, classes: seq<int>)
    requires Fits64(classes) && classes != [] && w < 0x8000_0000_0000_0000 && |classes| < WORD
    requires (|classes| - 1) * k < WORD
    requires LatentAccepted(model, w, |classes|, k) && |model| <= FRAME_LIMIT
    ensures StateAccepted(BlockOf(model, k, w, classes), k, w, classes)
  {
    hide LatentAccepted, ClassBytes, PackedModelBytes, ClassesFrom, PackedFrom, ArraysFrom, ArrayBytes;
    var arrays := ArrayBytes([|classes| - 1, (|classes| - 1) * k]);
    ModelWords(model, w, |classes|, k);
    ClassesParse(w, classes, PackedModelBytes(model, arrays));
    PackedParses(model, arrays);
    ArraysParse([|classes| - 1, (|classes| - 1) * k]);
  }

  // ---- Exactly these shapes -----------------------------------------------------------------------

  lemma ShapeOfAccepted(data: bytes, k: nat, maxIter: nat, w: nat, classes: seq<int>)
    requires ClassifierAccepted(data, k, maxIter, w, classes)
    ensures classes != [] && Bounds(k, maxIter, w, |classes|) && Fits64(classes)
    ensures |data| == 178 + StateSize(w, |classes|, k) <= 67_108_864
  {
    hide StateAt, Decoded, StateAccepted, ClassifierBody, Framed, ModelSize, LatentSize;
    AcceptedIs(data, k, maxIter, w, classes);
    var content, swapped :| StateAt(content, k, w, classes)
                            && data == Framed(ClassifierBody(k, maxIter, w, |classes|, content, swapped));
    StateByBytes(content, k, w, classes);
    StateHasExactSize(content, k, w, classes);
    SameSize(w, |classes|, k);
    FrameLength(ClassifierBody(k, maxIter, w, |classes|, content, swapped));
    ContentFits(k, maxIter, w, |classes|, content, swapped);
    ClassesInRange(content, k, w, classes);
  }

  lemma ClassesInRange(content: bytes, k: nat, w: nat, classes: seq<int>)
    requires StateAt(content, k, w, classes)
    ensures classes != [] && Fits64(classes)
  {
    hide ModelAt, ArraysAt, ModelSize;
    forall i | 0 <= i < |classes| ensures -0x8000_0000_0000_0000 <= classes[i] < 0x8000_0000_0000_0000 {
      assert S64(content, 16 + 8 * i) == classes[i];
    }
  }

  lemma SmallShape(w: nat, c: nat, k: nat)
    requires c > 0 && 178 + StateSize(w, c, k) <= 67_108_864
    ensures LatentSize(w, c, k) <= FRAME_LIMIT && (c - 1) * k < WORD && c < WORD && w < WORD
  {
    SameSize(w, c, k);
    assert (c - 1) * k >= 0 && w * c >= 0 && w * k >= 0 && c * k >= 0;
  }

  lemma AcceptedOfShape(k: nat, maxIter: nat, w: nat, classes: seq<int>) returns (data: bytes)
    requires classes != [] && Bounds(k, maxIter, w, |classes|) && Fits64(classes)
    requires 178 + StateSize(w, |classes|, k) <= 67_108_864
    ensures ClassifierAccepted(data, k, maxIter, w, classes)
  {
    var c := |classes|;
    hide StateAccepted, StateAt, LatentAccepted, ClassifierBody, ClassifierAccepted, StateSize, ModelSize, LatentSize,
         BlockOf;
    SmallShape(w, c, k);
    LatentShapesExactly(w, c, k);
    var model :| LatentAccepted(model, w, c, k);
    LatentHasExactSize(model, w, c, k);
    BlockAccepted(model, k, w, classes);
    var content := BlockOf(model, k, w, classes);
    StateByBytes(content, k, w, classes);
    StateHasExactSize(content, k, w, classes);
    SameSize(w, c, k);
    SizeIs(w, c, k, |content|);
    FrameLength(ClassifierBody(k, maxIter, w, c, content, false));
    ContentFits(k, maxIter, w, c, content, false);
    data := Framed(ClassifierBody(k, maxIter, w, c, content, false));
    IsAccepted(data, k, maxIter, w, classes);
  }

  lemma SizeIs(w: nat, c: nat, k: nat, n: nat)
    requires c > 0 && n == 48 + 8 * c + LatentSize(w, c, k) + 8 * ((c - 1) + (c - 1) * k)
    ensures n == StateSize(w, c, k)
  {
    SameSize(w, c, k);
    hide ModelSize, LatentSize;
  }

  /**
   * For some bytes exactly these are accepted: positive parameters and width, classes that are 64-bit
   * numbers, at most a mebi of either, and a state that fits a frame.
   */
  lemma ClassifierShapesExactly(k: nat, maxIter: nat, w: nat, classes: seq<int>)
    ensures (exists data :: ClassifierAccepted(data, k, maxIter, w, classes))
       <==> classes != [] && Bounds(k, maxIter, w, |classes|) && Fits64(classes)
            && 178 + StateSize(w, |classes|, k) <= 67_108_864
  {
    hide ClassifierAccepted, StateSize, Bounds, Fits64;
    forall data | ClassifierAccepted(data, k, maxIter, w, classes)
      ensures classes != [] && Bounds(k, maxIter, w, |classes|) && Fits64(classes)
              && 178 + StateSize(w, |classes|, k) <= 67_108_864
    {
      ShapeOfAccepted(data, k, maxIter, w, classes);
    }
    if classes != [] && Bounds(k, maxIter, w, |classes|) && Fits64(classes)
       && 178 + StateSize(w, |classes|, k) <= 67_108_864 {
      var data := AcceptedOfShape(k, maxIter, w, classes);
    }
  }
}
