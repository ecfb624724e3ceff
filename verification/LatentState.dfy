/** The latent model and the classifier built on it: which strings are accepted, and how long they are. */
module LatentState {
  import opened Results
  import opened Bytes
  import opened StateFrames
  import opened EstimatorCodec
  import opened EstimatorReader

  const LATENT_MAGIC: bytes := [0x4E, 0x34, 0x4D, 0x4D]
  /** `models.classification.pls_logistic` */
  const METHOD: bytes :=
    [109, 111, 100, 101, 108, 115, 46, 99, 108, 97, 115, 115, 105, 102, 105, 99, 97, 116, 105, 111, 110, 46,
     112, 108, 115, 95, 108, 111, 103, 105, 115, 116, 105, 99]
  const N_COMPONENTS: bytes := [110, 95, 99, 111, 109, 112, 111, 110, 101, 110, 116, 115]
  const MAX_ITER: bytes := [109, 97, 120, 95, 105, 116, 101, 114]
  const STATE_TAG := 0x31534c43
  const INT_LIMIT := 0x7FFF_FFFF

  // ---- Binary64 values, kept as their eight bytes -----------------------------------

  predicate Finite(b: bytes) {
    |b| == 8 && !(b[7] % 128 == 127 && b[6] >= 240)
  }

  predicate Positive(b: bytes) {
    Finite(b) && b[7] < 128 && exists i :: 0 <= i < 8 && b[i] != 0
  }

  function FloatFrom(s: bytes): Parsed<bytes> {
    if |s| >= 8 && Finite(s[..8]) then Got(s[..8], s[8..]) else Fail
  }

  function FloatsFrom(s: bytes, count: nat): Parsed<()>
    decreases count
  {
    if count == 0 then Got((), s)
    else if FloatFrom(s).Fail? then Fail
    else FloatsFrom(FloatFrom(s).rest, count - 1)
  }

  /** Numbers that must have exactly these values. */
  function ExpectFrom(s: bytes, width: nat, expected: seq<int>): Parsed<()>
    decreases |expected|
  {
    if expected == [] then Got((), s)
    else
      var n := NumberFrom(s, width);
      if n.Fail? || n.value != expected[0] then Fail else ExpectFrom(n.rest, width, expected[1..])
  }

  function ArraysFrom(s: bytes, counts: seq<nat>): Parsed<()>
    decreases |counts|
  {
    if counts == [] then Got((), s)
    else
      var count := ExpectFrom(s, 8, [counts[0]]);
      if count.Fail? then Fail
      else
        var values := FloatsFrom(count.rest, counts[0]);
        if values.Fail? then Fail else ArraysFrom(values.rest, counts[1..])
  }

  /** Weights, their scales and centres: the arrays of a latent model, in order. */
  function ArrayLengths(w: nat, c: nat, k: nat): seq<nat> {
    [w, w, c, c, w * c, w * k, w * k, c * k, w * k, 0, 0]
  }

  function SettingsFrom(s: bytes, w: nat, c: nat, k: nat): Parsed<()> {
    var head := ExpectFrom(s, 4, [0, 1, 0]);
    if head.Fail? then Fail
    else
      var fitted := NumberFrom(head.rest, 8);
      if fitted.Fail? || fitted.value <= k then Fail
      else
        var extents := ExpectFrom(fitted.rest, 8, [w, c, k]);
        if extents.Fail? then Fail else ExpectFrom(extents.rest, 4, [1, 0, 1, 0, 0])
  }

  function SolverFrom(s: bytes): Parsed<()> {
    var tolerance := FloatFrom(s);
    if tolerance.Fail? || !Positive(tolerance.value) then Fail
    else
      var iterations := NumberFrom(tolerance.rest, 4);
      if iterations.Fail? || iterations.value == 0 then Fail else Got((), iterations.rest)
  }

  function LatentFrom(s: bytes, w: nat, c: nat, k: nat): Parsed<()> {
    var settings := SettingsFrom(s, w, c, k);
    if settings.Fail? then Fail
    else
      var solver := SolverFrom(settings.rest);
      if solver.Fail? then Fail else ArraysFrom(solver.rest, ArrayLengths(w, c, k))
  }

  predicate LatentAccepted(data: bytes, w: nat, c: nat, k: nat) {
    Checked(data, LATENT_MAGIC) && Exhausts(LatentFrom(Body(data), w, c, k))
  }

  // ---- Exact sizes -------------------------------------------------------------------

  lemma {:induction false} FloatsSize(s: bytes, count: nat)
    requires FloatsFrom(s, count).Got?
    ensures |s| == 8 * count + |FloatsFrom(s, count).rest|
    decreases count
  {
    if count > 0 {
      FloatsSize(FloatFrom(s).rest, count - 1);
    }
  }

  lemma {:induction false} ExpectSize(s: bytes, width: nat, expected: seq<int>)
    requires ExpectFrom(s, width, expected).Got?
    ensures |s| == width * |expected| + |ExpectFrom(s, width, expected).rest|
    decreases |expected|
  {
    if expected != [] {
      ExpectSize(NumberFrom(s, width).rest, width, expected[1..]);
      assert width * |expected| == width + width * |expected[1..]|;
    }
  }

  function Total(counts: seq<nat>): nat {
    if counts == [] then 0 else counts[0] + Total(counts[1..])
  }

  lemma {:induction false} ArraysSize(s: bytes, counts: seq<nat>)
    requires ArraysFrom(s, counts).Got?
    ensures |s| == 8 * |counts| + 8 * Total(counts) + |ArraysFrom(s, counts).rest|
    decreases |counts|
  {
    if counts != [] {
      ExpectSize(s, 8, [counts[0]]);
      var count := ExpectFrom(s, 8, [counts[0]]);
      FloatsSize(count.rest, counts[0]);
      ArraysSize(FloatsFrom(count.rest, counts[0]).rest, counts[1..]);
    }
  }

  lemma TotalFront(x: nat, rest: seq<nat>)
    ensures Total([x] + rest) == x + Total(rest)
  {
    assert ([x] + rest)[1..] == rest;
  }

  lemma {:induction false} TotalConcat(s: seq<nat>, t: seq<nat>)
    ensures Total(s + t) == Total(s) + Total(t)
  {
    if s == [] {
      assert s + t == t;
    } else {
      assert s + t == [s[0]] + (s[1..] + t);
      TotalFront(s[0], s[1..] + t);
      TotalConcat(s[1..], t);
    }
  }

  lemma TotalOfFour(a: nat, b: nat, c: nat, d: nat)
    ensures Total([a, b, c, d]) == a + b + c + d
  {
    TotalConcat([a], [b, c, d]);
    TotalConcat([b], [c, d]);
    TotalConcat([c], [d]);
    assert [a, b, c, d] == [a] + [b, c, d] && [b, c, d] == [b] + [c, d] && [c, d] == [c] + [d];
  }

  lemma TotalOfLengths(w: nat, c: nat, k: nat)
    ensures Total(ArrayLengths(w, c, k)) == 2 * w + 2 * c + w * c + 3 * (w * k) + c * k
  {
    var front, middle, back := [w, w, c, c], [w * c, w * k, w * k, c * k], [w * k, 0, 0, 0];
    TotalOfFour(w, w, c, c);
    TotalOfFour(w * c, w * k, w * k, c * k);
    TotalOfFour(w * k, 0, 0, 0);
    TotalConcat(ArrayLengths(w, c, k), [0]);
    TotalConcat(front, middle + back);
    TotalConcat(middle, back);
    assert ArrayLengths(w, c, k) + [0] == front + (middle + back);
  }

  function LatentSize(w: nat, c: nat, k: nat): nat {
    192 + 8 * (2 * w + 2 * c + w * c + 3 * (w * k) + c * k)
  }

  lemma NumberSize(s: bytes, width: nat)
    requires NumberFrom(s, width).Got?
    ensures |s| == width + |NumberFrom(s, width).rest|
  {
  }

  lemma SettingsSize(s: bytes, w: nat, c: nat, k: nat)
    requires SettingsFrom(s, w, c, k).Got?
    ensures |s| == 64 + |SettingsFrom(s, w, c, k).rest|
  {
    hide ExpectFrom, NumberFrom;
    ExpectSize(s, 4, [0, 1, 0]);
    NumberSize(ExpectFrom(s, 4, [0, 1, 0]).rest, 8);
    var fitted := NumberFrom(ExpectFrom(s, 4, [0, 1, 0]).rest, 8);
    ExpectSize(fitted.rest, 8, [w, c, k]);
    ExpectSize(ExpectFrom(fitted.rest, 8, [w, c, k]).rest, 4, [1, 0, 1, 0, 0]);
  }

  lemma LatentBodySize(s: bytes, w: nat, c: nat, k: nat)
    requires LatentFrom(s, w, c, k).Got?
    ensures |s| + 28 == LatentSize(w, c, k) + |LatentFrom(s, w, c, k).rest|
  {
    SettingsSize(s, w, c, k);
    ArraysSize(SolverFrom(SettingsFrom(s, w, c, k).rest).rest, ArrayLengths(w, c, k));
    TotalOfLengths(w, c, k);
  }

  /** An accepted latent model with w features, c classes and k components has exactly one length. */
  lemma LatentHasExactSize(data: bytes, w: nat, c: nat, k: nat)
    requires LatentAccepted(data, w, c, k)
    ensures |data| == LatentSize(w, c, k)
  {
    LatentBodySize(Body(data), w, c, k);
  }

  // ---- The classifier --------------------------------------------------------------------

  /** The dictionary of parameters is exactly these two integers. */
  predicate HasParameters(params: seq<Param>, nComponents: nat, maxIter: nat) {
    && |params| == 2
    && Param(N_COMPONENTS, 1, 1, nComponents) in params
    && Param(MAX_ITER, 1, 1, maxIter) in params
  }

  function SignedsFrom(s: bytes, expected: seq<int>): Parsed<()>
    decreases |expected|
  {
    if expected == [] then Got((), s)
    else
      var n := TakeFrom(s, 8);
      if n.Fail? || SignedNumber(n.value) != expected[0] then Fail else SignedsFrom(n.rest, expected[1..])
  }

  function ClassesFrom(s: bytes, width: nat, classes: seq<int>): Parsed<()> {
    var features := SignedsFrom(s, [width]);
    if features.Fail? then Fail
    else
      var count := ExpectFrom(features.rest, 8, [|classes|]);
      if count.Fail? then Fail else SignedsFrom(count.rest, classes)
  }

  /** The packed words of the latent model, and how many of their bytes are used. */
  datatype Packed = Packed(used: nat, words: bytes) {
    predicate Tight() { |words| == (used + 7) / 8 * 8 }

    function Used(): bytes
      requires Tight()
    {
      words[..used]
    }
  }

  function PackedFrom(s: bytes): (r: Parsed<Packed>)
    ensures r.Got? ==> r.value.Tight()
  {
    var count := TakeFrom(s, 8);
    if count.Fail? || !(28 <= SignedNumber(count.value) <= FRAME_LIMIT) then Fail
    else
      var used: nat := SignedNumber(count.value);
      var packed := NumberFrom(count.rest, 8);
      if packed.Fail? || packed.value != (used + 7) / 8 then Fail
      else
        var words := TakeFrom(packed.rest, packed.value * 8);
        if words.Got? && (forall i :: used <= i < |words.value| ==> words.value[i] == 0)
        then Got(Packed(used, words.value), words.rest) else Fail
  }

  function ModelFrom(s: bytes, width: nat, classes: seq<int>): (r: Parsed<Packed>)
    ensures r.Got? ==> r.value.Tight()
  {
    var head := ClassesFrom(s, width, classes);
    if head.Fail? then Fail else PackedFrom(head.rest)
  }

  /** The coefficients after the model: intercepts, then one row of weights each. */
  function CoefficientsFrom(s: bytes, nComponents: nat, c: nat): Parsed<()>
    requires c > 0
  {
    ArraysFrom(s, [c - 1, (c - 1) * nComponents])
  }

  predicate StateAccepted(s: bytes, nComponents: nat, width: nat, classes: seq<int>) {
    && |classes| > 0
    && var model := ModelFrom(s, width, classes);
    && model.Got?
    && LatentAccepted(model.value.Used(), width, |classes|, nComponents)
    && Exhausts(CoefficientsFrom(model.rest, nComponents, |classes|))
  }

  predicate ClassifierAccepted(data: bytes, nComponents: nat, maxIter: nat, width: nat, classes: seq<int>) {
    && 0 < nComponents <= INT_LIMIT && 0 < maxIter <= INT_LIMIT
    && var e := Decoded(data, METHOD);
    && e.Some?
    && HasParameters(e.value.params, nComponents, maxIter)
    && e.value.caps == 156 && e.value.width == width && e.value.outputs == |classes|
    && |e.value.blocks| == 1 && e.value.blocks[0].tag == STATE_TAG
    && StateAccepted(e.value.blocks[0].content, nComponents, width, classes)
  }

  lemma PackedWords(s: bytes)
    requires PackedFrom(s).Got?
    ensures |s| == 16 + |PackedFrom(s).value.words| + |PackedFrom(s).rest|
  {
  }

  lemma {:induction false} SignedsSize(s: bytes, expected: seq<int>)
    requires SignedsFrom(s, expected).Got?
    ensures |s| == 8 * |expected| + |SignedsFrom(s, expected).rest|
    decreases |expected|
  {
    if expected != [] {
      SignedsSize(s[8..], expected[1..]);
    }
  }

  lemma ClassesSize(s: bytes, width: nat, classes: seq<int>)
    requires ClassesFrom(s, width, classes).Got?
    ensures |s| == 16 + 8 * |classes| + |ClassesFrom(s, width, classes).rest|
  {
    SignedsSize(s, [width]);
    var features := SignedsFrom(s, [width]);
    ExpectSize(features.rest, 8, [|classes|]);
    SignedsSize(ExpectFrom(features.rest, 8, [|classes|]).rest, classes);
  }

  lemma CoefficientsSize(s: bytes, k: nat, c: nat)
    requires c > 0 && CoefficientsFrom(s, k, c).Got?
    ensures |s| == 16 + 8 * ((c - 1) + (c - 1) * k) + |CoefficientsFrom(s, k, c).rest|
  {
    var counts := [c - 1, (c - 1) * k];
    ArraysSize(s, counts);
    TotalOfFour(c - 1, (c - 1) * k, 0, 0);
    TotalConcat(counts, [0, 0]);
    TotalConcat([0], [0]);
    assert counts + [0, 0] == [c - 1, (c - 1) * k, 0, 0] && [0, 0] == [0] + [0];
  }

  lemma WholeWords(used: nat, words: nat)
    requires used == 8 * words
    ensures (used + 7) / 8 == words
  {
  }

  lemma ModelHasNoPadding(model: Packed, w: nat, c: nat, k: nat)
    requires model.Tight() && LatentAccepted(model.Used(), w, c, k)
    ensures |model.words| == model.used == LatentSize(w, c, k)
  {
    hide LatentAccepted;
    LatentHasExactSize(model.Used(), w, c, k);
    WholeWords(model.used, 24 + (2 * w + 2 * c + w * c + 3 * (w * k) + c * k));
  }

  /** In every accepted classifier the packed words hold the latent model and no padding at all. */
  lemma NoPadding(data: bytes, nComponents: nat, maxIter: nat, width: nat, classes: seq<int>)
    requires ClassifierAccepted(data, nComponents, maxIter, width, classes)
    ensures var model := ModelFrom(Decoded(data, METHOD).value.blocks[0].content, width, classes);
            && model.Got?
            && |model.value.words| == model.value.used == LatentSize(width, |classes|, nComponents)
  {
    var content := Decoded(data, METHOD).value.blocks[0].content;
    ModelHasNoPadding(ModelFrom(content, width, classes).value, width, |classes|, nComponents);
  }

  /** The whole classifier block has exactly one length too. */
  lemma StateHasExactSize(s: bytes, k: nat, w: nat, classes: seq<int>)
    requires StateAccepted(s, k, w, classes)
    ensures var c := |classes|;
            |s| == 48 + 8 * c + LatentSize(w, c, k) + 8 * ((c - 1) + (c - 1) * k)
  {
    ClassesSize(s, w, classes);
    PackedWords(ClassesFrom(s, w, classes).rest);
    ModelHasNoPadding(ModelFrom(s, w, classes).value, w, |classes|, k);
    CoefficientsSize(ModelFrom(s, w, classes).rest, k, |classes|);
  }

  // ---- The cursor-driven checks ---------------------------------------------------------------

  method ReadFloats(reader: Reader, count: nat) returns (ok: bool)
    requires reader.Valid()
    modifies reader`pos
    ensures reader.Valid()
    ensures ok == FloatsFrom(old(reader.Rest()), count).Got?
    ensures ok ==> reader.Rest() == FloatsFrom(old(reader.Rest()), count).rest
  {
    ghost var all := FloatsFrom(reader.Rest(), count);
    for i := 0 to count
      invariant reader.Valid()
      invariant FloatsFrom(reader.Rest(), count - i) == all
    {
      var value := reader.Take(8);
      if value.None? || !Finite(value.value) {
        return false;
      }
    }
    return true;
  }

  method Expect(reader: Reader, width: nat, expected: seq<int>) returns (ok: bool)
    requires reader.Valid()
    modifies reader`pos
    ensures reader.Valid()
    ensures ok == ExpectFrom(old(reader.Rest()), width, expected).Got?
    ensures ok ==> reader.Rest() == ExpectFrom(old(reader.Rest()), width, expected).rest
  {
    ghost var all := ExpectFrom(reader.Rest(), width, expected);
    for i := 0 to |expected|
      invariant reader.Valid()
      invariant ExpectFrom(reader.Rest(), width, expected[i..]) == all
    {
      assert expected[i..][1..] == expected[i + 1..];
      var n := reader.Unsigned(width);
      if n.None? || n.value != expected[i] {
        return false;
      }
    }
    return true;
  }

  method ReadArrays(reader: Reader, counts: seq<nat>) returns (ok: bool)
    requires reader.Valid()
    modifies reader`pos
    ensures reader.Valid()
    ensures ok == ArraysFrom(old(reader.Rest()), counts).Got?
    ensures ok ==> reader.Rest() == ArraysFrom(old(reader.Rest()), counts).rest
  {
    ghost var all := ArraysFrom(reader.Rest(), counts);
    for i := 0 to |counts|
      invariant reader.Valid()
      invariant ArraysFrom(reader.Rest(), counts[i..]) == all
    {
      assert counts[i..][1..] == counts[i + 1..];
      var same := Expect(reader, 8, [counts[i]]);
      if !same {
        return false;
      }
      var finite := ReadFloats(reader, counts[i]);
      if !finite {
        return false;
      }
    }
    return true;
  }

  method ReadSettings(reader: Reader, width: nat, classes: nat, components: nat) returns (ok: bool)
    requires reader.Valid()
    modifies reader`pos
    ensures reader.Valid()
    ensures ok == SettingsFrom(old(reader.Rest()), width, classes, components).Got?
    ensures ok ==> reader.Rest() == SettingsFrom(old(reader.Rest()), width, classes, components).rest
  {
    ok := Expect(reader, 4, [0, 1, 0]);
    if !ok {
      return;
    }
    var fitted := reader.Unsigned(8);
    if fitted.None? || fitted.value <= components {
      return false;
    }
    ok := Expect(reader, 8, [width, classes, components]);
    if !ok {
      return;
    }
    ok := Expect(reader, 4, [1, 0, 1, 0, 0]);
  }

  method ReadSolver(reader: Reader) returns (ok: bool)
    requires reader.Valid()
    modifies reader`pos
    ensures reader.Valid()
    ensures ok == SolverFrom(old(reader.Rest())).Got?
    ensures ok ==> reader.Rest() == SolverFrom(old(reader.Rest())).rest
  {
    var tolerance := reader.Take(8);
    if tolerance.None? || !Positive(tolerance.value) {
      return false;
    }
    var iterations := reader.Unsigned(4);
    return iterations.Some? && iterations.value > 0;
  }

  method ReadLatent(reader: Reader, width: nat, classes: nat, components: nat) returns (ok: bool)
    requires reader.Valid()
    modifies reader`pos
    ensures reader.Valid()
    ensures ok == LatentFrom(old(reader.Rest()), width, classes, components).Got?
    ensures ok ==> reader.Rest() == LatentFrom(old(reader.Rest()), width, classes, components).rest
  {
    ok := ReadSettings(reader, width, classes, components);
    if !ok {
      return;
    }
    ok := ReadSolver(reader);
    if !ok {
      return;
    }
    ok := ReadArrays(reader, ArrayLengths(width, classes, components));
  }

  /** `latent`. */
  method CheckLatent(data: bytes, width: nat, classes: nat, components: nat) returns (ok: bool)
    ensures ok == LatentAccepted(data, width, classes, components)
  {
    var checked := CheckedReader(data, LATENT_MAGIC);
    if checked.None? {
      return false;
    }
    ok := ReadLatent(checked.value, width, classes, components);
    ok := ok && checked.value.AtEnd();
  }

  // ---- `classifier` ----------------------------------------------------------------------------

  method ReadSigneds(reader: Reader, expected: seq<int>) returns (ok: bool)
    requires reader.Valid()
    modifies reader`pos
    ensures reader.Valid()
    ensures ok == SignedsFrom(old(reader.Rest()), expected).Got?
    ensures ok ==> reader.Rest() == SignedsFrom(old(reader.Rest()), expected).rest
  {
    ghost var all := SignedsFrom(reader.Rest(), expected);
    for i := 0 to |expected|
      invariant reader.Valid()
      invariant SignedsFrom(reader.Rest(), expected[i..]) == all
    {
      assert expected[i..][1..] == expected[i + 1..];
      var n := reader.Take(8);
      if n.None? || SignedNumber(n.value) != expected[i] {
        return false;
      }
    }
    return true;
  }

  method ReadPacked(reader: Reader) returns (r: Option<Packed>)
    requires reader.Valid()
    modifies reader`pos
    ensures reader.Valid()
    ensures match PackedFrom(old(reader.Rest()))
            case Fail => r == None
            case Got(value, rest) => r == Some(value) && reader.Rest() == rest
  {
    var count := reader.Take(8);
    if count.None? || !(28 <= SignedNumber(count.value) <= FRAME_LIMIT) {
      return None;
    }
    var used: nat := SignedNumber(count.value);
    var packed := reader.Unsigned(8);
    if packed.None? || packed.value != (used + 7) / 8 {
      return None;
    }
    var words := reader.Take(packed.value * 8);
    if words.None? || exists i :: used <= i < |words.value| && words.value[i] != 0 {
      return None;
    }
    return Some(Packed(used, words.value));
  }

  method ReadClasses(reader: Reader, width: nat, classes: seq<int>) returns (ok: bool)
    requires reader.Valid()
    modifies reader`pos
    ensures reader.Valid()
    ensures ok == ClassesFrom(old(reader.Rest()), width, classes).Got?
    ensures ok ==> reader.Rest() == ClassesFrom(old(reader.Rest()), width, classes).rest
  {
    ok := ReadSigneds(reader, [width]);
    if !ok {
      return;
    }
    ok := Expect(reader, 8, [|classes|]);
    if !ok {
      return;
    }
    ok := ReadSigneds(reader, classes);
  }

  method ReadModel(reader: Reader, width: nat, classes: seq<int>) returns (r: Option<Packed>)
    requires reader.Valid()
    modifies reader`pos
    ensures reader.Valid()
    ensures match ModelFrom(old(reader.Rest()), width, classes)
            case Fail => r == None
            case Got(value, rest) => r == Some(value) && reader.Rest() == rest
  {
    var ok := ReadClasses(reader, width, classes);
    if !ok {
      return None;
    }
    r := ReadPacked(reader);
  }

  method ReadCoefficients(reader: Reader, nComponents: nat, classes: nat) returns (ok: bool)
    requires reader.Valid() && classes > 0
    modifies reader`pos
    ensures reader.Valid()
    ensures ok == Exhausts(CoefficientsFrom(old(reader.Rest()), nComponents, classes))
  {
    ok := ReadArrays(reader, [classes - 1, (classes - 1) * nComponents]);
    ok := ok && reader.AtEnd();
  }

  method CheckState(content: bytes, nComponents: nat, width: nat, classes: seq<int>) returns (ok: bool)
    requires |classes| > 0
    ensures ok == StateAccepted(content, nComponents, width, classes)
  {
    var reader := new Reader(content);
    var model := ReadModel(reader, width, classes);
    if model.None? {
      return false;
    }
    var latentOk := CheckLatent(model.value.Used(), width, |classes|, nComponents);
    if !latentOk {
      return false;
    }
    ok := ReadCoefficients(reader, nComponents, |classes|);
  }

  /** `classifier`; the vocabulary check has established that there are classes. */
  method CheckClassifier(data: bytes, nComponents: nat, maxIter: nat, width: nat, classes: seq<int>) returns (ok: bool)
    requires |classes| > 0
    ensures ok == ClassifierAccepted(data, nComponents, maxIter, width, classes)
  {
    if !(0 < nComponents <= INT_LIMIT && 0 < maxIter <= INT_LIMIT) {
      return false;
    }
    var e := ReadEstimator(data, METHOD);
    if e.None? || !HasParameters(e.value.params, nComponents, maxIter)
       || e.value.caps != 156 || e.value.width != width || e.value.outputs != |classes|
       || |e.value.blocks| != 1 || e.value.blocks[0].tag != STATE_TAG {
      return false;
    }
    ok := CheckState(e.value.blocks[0].content, nComponents, width, classes);
  }
}
