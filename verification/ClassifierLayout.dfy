/** The classifier state by byte: every accepted string written out, and the shapes that are accepted. */
module ClassifierLayout {
  import opened Results
  import opened Bytes
  import opened StateFrames
  import opened KeyedEntries
  import opened EstimatorCodec
  import opened LatentState
  import opened ByteLayout
  import opened LatentLayout

  const PLS_LOGISTIC := "models.classification.pls_logistic"

  /** One parameter: its name, kind 1, one word, and the word; then what follows. */
  function ParameterBytes(name: string, value: nat, tail: bytes): bytes
    requires forall i :: 0 <= i < |name| ==> name[i] < '\U{80}'
  {
    P32(|name|) + (Ascii(name) + (P32(1) + (P64(1) + (P64(value) + tail))))
  }

  /** Capabilities, width and classes; then the one block, tagged `CLS1`. */
  function RestBytes(w: nat, c: nat, content: bytes): bytes {
    P64(156) + (P64(w) + (P64(c) + (P32(1) + (Ascii("CLS1") + (P64(|content|) + (content + []))))))
  }

  /** The body of a classifier's frame; the parameters come in either order. */
  function ClassifierBody(k: nat, maxIter: nat, w: nat, c: nat, content: bytes, swapped: bool): bytes {
    var rest := RestBytes(w, c, content);
    P32(34) + (Ascii(PLS_LOGISTIC) + (P32(2) +
      if swapped then ParameterBytes("max_iter", maxIter, ParameterBytes("n_components", k, rest))
      else ParameterBytes("n_components", k, ParameterBytes("max_iter", maxIter, rest))))
  }

  /** An `N4ME` frame around a body. */
  function Framed(body: bytes): bytes {
    var signed := Ascii("N4ME") + FIXED + body;
    signed + P64(Checksum(signed))
  }

  predicate Bounds(k: nat, maxIter: nat, w: nat, c: nat) {
    0 < k <= 2_147_483_647 && 0 < maxIter <= 2_147_483_647 && 0 < w <= 1_048_576 && c <= 1_048_576
  }

  ghost predicate ClassifierIs(data: bytes, k: nat, maxIter: nat, w: nat, classes: seq<int>) {
    && Bounds(k, maxIter, w, |classes|) && |data| <= 67_108_864
    && exists content, swapped ::
         StateAt(content, k, w, classes) && data == Framed(ClassifierBody(k, maxIter, w, |classes|, content, swapped))
  }

  // ---- The decoded state, written out ---------------------------------------------------------

  function StateOf(k: nat, maxIter: nat, w: nat, c: nat, content: bytes, swapped: bool): Estimator {
    var n, m := Param(N_COMPONENTS, 1, 1, k), Param(MAX_ITER, 1, 1, maxIter);
    Estimator(METHOD, if swapped then [m, n] else [n, m], 156, w, c, [Block(STATE_TAG, content)])
  }

  lemma Names()
    ensures N_COMPONENTS == Ascii("n_components") && MAX_ITER == Ascii("max_iter") && METHOD == Ascii(PLS_LOGISTIC)
    ensures N_COMPONENTS != MAX_ITER
  {
    assert |N_COMPONENTS| == 12 && |MAX_ITER| == 8;
  }

  lemma ParameterPrinted(name: string, value: nat, tail: bytes)
    requires forall i :: 0 <= i < |name| ==> name[i] < '\U{80}'
    ensures ParamBytes(Param(Ascii(name), 1, 1, value), tail) == ParameterBytes(name, value, tail)
  {
    hide Little, P32, P64;
    PackedBytes(|name|);
    PackedBytes(1);
    PackedBytes(value);
  }

  lemma TwoEntries(p: Param, q: Param, tail: bytes)
    ensures CountedBytes(PARAM, [p, q], tail) == P32(2) + ParamBytes(p, ParamBytes(q, tail))
  {
    hide ParamBytes;
    PackedBytes(2);
    assert [p, q][1..] == [q] && [q][1..] == [];
    assert EntriesBytes(PARAM, [q], tail) == ParamBytes(q, tail);
  }

  lemma RestPrinted(w: nat, c: nat, content: bytes)
    ensures ExtentBytes(156, w, c, CountedBytes(BLOCK, [Block(STATE_TAG, content)], [])) == RestBytes(w, c, content)
  {
    var b := Block(STATE_TAG, content);
    assert [b][1..] == [];
    assert EntriesBytes(BLOCK, [b], []) == BlockBytes(b, []);
    assert P32(STATE_TAG) == Ascii("CLS1");
    PackedBytes(STATE_TAG);
    PackedBytes(156);
    PackedBytes(w);
    PackedBytes(c);
    PackedBytes(1);
    PackedBytes(|content|);
    hide Little, P32, P64, EntriesBytes, Ascii;
  }

  lemma BodyPrinted(e: Estimator)
    requires |e.method_id| == 34
    ensures BodyBytes(e) == P32(34) + (e.method_id + CountedBytes(PARAM, e.params,
              ExtentBytes(e.caps, e.width, e.outputs, CountedBytes(BLOCK, e.blocks, []))))
  {
    hide Little, P32, CountedBytes, ExtentBytes;
    PackedBytes(34);
  }

  lemma ParametersPrinted(k: nat, maxIter: nat, swapped: bool, rest: bytes)
    ensures var n, m := Param(N_COMPONENTS, 1, 1, k), Param(MAX_ITER, 1, 1, maxIter);
            CountedBytes(PARAM, if swapped then [m, n] else [n, m], rest)
            == P32(2) +
               if swapped then ParameterBytes("max_iter", maxIter, ParameterBytes("n_components", k, rest))
               else ParameterBytes("n_components", k, ParameterBytes("max_iter", maxIter, rest))
  {
    var n, m := Param(N_COMPONENTS, 1, 1, k), Param(MAX_ITER, 1, 1, maxIter);
    Names();
    hide ParamBytes, ParameterBytes, CountedBytes, P32, Ascii;
    if swapped {
      ParameterPrinted("n_components", k, rest);
      ParameterPrinted("max_iter", maxIter, ParameterBytes("n_components", k, rest));
      TwoEntries(m, n, rest);
    } else {
      ParameterPrinted("max_iter", maxIter, rest);
      ParameterPrinted("n_components", k, ParameterBytes("max_iter", maxIter, rest));
      TwoEntries(n, m, rest);
    }
  }

  /** The serialisation of a classifier is these bytes. */
  lemma StatePrinted(k: nat, maxIter: nat, w: nat, c: nat, content: bytes, swapped: bool)
    ensures BodyBytes(StateOf(k, maxIter, w, c, content, swapped)) == ClassifierBody(k, maxIter, w, c, content, swapped)
    ensures Serialised(StateOf(k, maxIter, w, c, content, swapped))
         == Framed(ClassifierBody(k, maxIter, w, c, content, swapped))
  {
    hide Frame, Framed, BodyBytes, ParameterBytes, RestBytes, ExtentBytes, CountedBytes, P32, Ascii;
    Names();
    RestPrinted(w, c, content);
    ParametersPrinted(k, maxIter, swapped, RestBytes(w, c, content));
    BodyPrinted(StateOf(k, maxIter, w, c, content, swapped));
    MagicFrame(ClassifierBody(k, maxIter, w, c, content, swapped));
  }

  lemma MagicFrame(body: bytes)
    ensures Frame(MAGIC, body) == Framed(body)
  {
    assert MAGIC == Ascii("N4ME");
    FrameByBytes(MAGIC, body);
  }

  // ---- Exactly these strings -----------------------------------------------------------------------

  lemma {:induction false} AsciiUtf8(s: bytes)
    requires forall i :: 0 <= i < |s| ==> s[i] < 0x80
    ensures Utf8(s)
    decreases |s|
  {
    if s != [] {
      AsciiUtf8(s[1..]);
    }
  }

  lemma TwoParameters(params: seq<Param>, k: nat, maxIter: nat)
    requires HasParameters(params, k, maxIter)
    ensures var n, m := Param(N_COMPONENTS, 1, 1, k), Param(MAX_ITER, 1, 1, maxIter);
            params == [n, m] || params == [m, n]
  {
    Names();
    var n, m := Param(N_COMPONENTS, 1, 1, k), Param(MAX_ITER, 1, 1, maxIter);
    assert n != m;
    assert params == [params[0], params[1]];
  }

  lemma TextsFit()
    ensures WellFormedText(METHOD) && WellFormedText(N_COMPONENTS) && WellFormedText(MAX_ITER)
  {
    Names();
    hide Utf8, Ascii;
    AsciiUtf8(Ascii(PLS_LOGISTIC));
    AsciiUtf8(Ascii("n_components"));
    AsciiUtf8(Ascii("max_iter"));
  }

  lemma TwoWellFormed(method_id: bytes, p: Param, q: Param, w: nat, c: nat, b: Block)
    requires WellFormedText(method_id) && WellFormedParam(p) && WellFormedParam(q) && p.name != q.name
    requires 0 < w <= 1_048_576 && c <= 1_048_576 && WellFormedBlock(b)
    requires |BodyBytes(Estimator(method_id, [p, q], 156, w, c, [b]))| + 28 <= FRAME_LIMIT
    ensures WellFormed(Estimator(method_id, [p, q], 156, w, c, [b]))
  {
    hide BodyBytes, WellFormedText, WellFormedParam, WellFormedBlock;
  }

  lemma StateWellFormed(k: nat, maxIter: nat, w: nat, c: nat, content: bytes, swapped: bool)
    requires Bounds(k, maxIter, w, c) && |content| <= FRAME_LIMIT
    requires |BodyBytes(StateOf(k, maxIter, w, c, content, swapped))| + 28 <= FRAME_LIMIT
    ensures WellFormed(StateOf(k, maxIter, w, c, content, swapped))
    ensures HasParameters(StateOf(k, maxIter, w, c, content, swapped).params, k, maxIter)
  {
    hide BodyBytes, WellFormedText, WellFormed;
    Names();
    TextsFit();
    var n, m := Param(N_COMPONENTS, 1, 1, k), Param(MAX_ITER, 1, 1, maxIter);
    var b := Block(STATE_TAG, content);
    assert n in [n, m] && m in [n, m] && n in [m, n] && m in [m, n];
    if swapped {
      TwoWellFormed(METHOD, m, n, w, c, b);
    } else {
      TwoWellFormed(METHOD, n, m, w, c, b);
    }
  }

  lemma AcceptedState(data: bytes, k: nat, maxIter: nat, w: nat, classes: seq<int>)
      returns (content: bytes, swapped: bool)
    requires ClassifierAccepted(data, k, maxIter, w, classes)
    ensures Decoded(data, METHOD) == Some(StateOf(k, maxIter, w, |classes|, content, swapped))
    ensures StateAccepted(content, k, w, classes)
  {
    hide Decoded, StateAccepted;
    var e := Decoded(data, METHOD).value;
    TwoParameters(e.params, k, maxIter);
    DecodedMethod(data);
    content, swapped := e.blocks[0].content, e.params != [Param(N_COMPONENTS, 1, 1, k), Param(MAX_ITER, 1, 1, maxIter)];
    assert e.blocks == [Block(STATE_TAG, content)];
  }

  lemma DecodedMethod(data: bytes)
    requires Decoded(data, METHOD).Some?
    ensures Decoded(data, METHOD).value.method_id == METHOD
  {
    hide BodyFrom, Checked;
  }

  predicate IsParameter(p: Param, name: string, value: nat)
    requires forall i :: 0 <= i < |name| ==> name[i] < '\U{80}'
  {
    p.name == Ascii(name) && p.kind == 1 && p.length == 1 && p.value == value
  }

  /** Each of the two names with its own value, in either order. */
  predicate NamesOwn(params: seq<Param>, k: nat, maxIter: nat) {
    && |params| == 2
    && (|| (IsParameter(params[0], "n_components", k) && IsParameter(params[1], "max_iter", maxIter))
        || (IsParameter(params[1], "n_components", k) && IsParameter(params[0], "max_iter", maxIter)))
  }

  predicate TaggedState(blocks: seq<Block>) {
    |blocks| == 1 && P32(blocks[0].tag) == Ascii("CLS1")
  }

  /** In an accepted classifier the parameter of each name has its own value, and there are no others. */
  lemma ParametersOwn(data: bytes, k: nat, maxIter: nat, w: nat, classes: seq<int>)
    requires ClassifierAccepted(data, k, maxIter, w, classes)
    ensures var e := Decoded(data, METHOD);
            && e.Some? && NamesOwn(e.value.params, k, maxIter) && TaggedState(e.value.blocks)
            && e.value.caps == 156 && e.value.width == w && e.value.outputs == |classes|
  {
    hide Decoded, StateAccepted, NamesOwn, TaggedState;
    var content, swapped := AcceptedState(data, k, maxIter, w, classes);
    StateOwn(k, maxIter, w, |classes|, content, swapped);
  }

  lemma StateOwn(k: nat, maxIter: nat, w: nat, c: nat, content: bytes, swapped: bool)
    ensures var e := StateOf(k, maxIter, w, c, content, swapped);
            NamesOwn(e.params, k, maxIter) && TaggedState(e.blocks)
  {
    OwnNames(k, maxIter);
    hide Ascii, P32, IsParameter;
  }

  lemma OwnNames(k: nat, maxIter: nat)
    ensures IsParameter(Param(N_COMPONENTS, 1, 1, k), "n_components", k)
    ensures IsParameter(Param(MAX_ITER, 1, 1, maxIter), "max_iter", maxIter)
    ensures P32(STATE_TAG) == Ascii("CLS1")
  {
    Names();
  }

  lemma AcceptedIs(data: bytes, k: nat, maxIter: nat, w: nat, classes: seq<int>)
    requires ClassifierAccepted(data, k, maxIter, w, classes)
    ensures ClassifierIs(data, k, maxIter, w, classes)
  {
    hide Decoded, StateAccepted, StateAt, WellFormed, Framed, ClassifierBody, StateOf, Serialised;
    var content, swapped := AcceptedState(data, k, maxIter, w, classes);
    var e := StateOf(k, maxIter, w, |classes|, content, swapped);
    DecodedSerialises(data, METHOD);
    StatePrinted(k, maxIter, w, |classes|, content, swapped);
    StateByBytes(content, k, w, classes);
    BoundsKept(k, maxIter, w, |classes|, content, swapped);
    DecodedLength(data);
  }

  lemma DecodedLength(data: bytes)
    requires Decoded(data, METHOD).Some?
    ensures |data| <= 67_108_864
  {
    hide BodyFrom;
  }

  lemma BoundsKept(k: nat, maxIter: nat, w: nat, c: nat, content: bytes, swapped: bool)
    requires WellFormed(StateOf(k, maxIter, w, c, content, swapped))
    ensures 0 < w <= 1_048_576 && c <= 1_048_576
  {
    hide BodyBytes, WellFormedText;
  }

  lemma IsAccepted(data: bytes, k: nat, maxIter: nat, w: nat, classes: seq<int>)
    requires ClassifierIs(data, k, maxIter, w, classes)
    ensures ClassifierAccepted(data, k, maxIter, w, classes)
  {
    hide StateAt, Framed, ClassifierBody, Serialised, BodyBytes, WellFormed, Decoded, StateAccepted;
    var content, swapped :|
      StateAt(content, k, w, classes) && data == Framed(ClassifierBody(k, maxIter, w, |classes|, content, swapped));
    var e := StateOf(k, maxIter, w, |classes|, content, swapped);
    StatePrinted(k, maxIter, w, |classes|, content, swapped);
    FrameLength(BodyBytes(e));
    ContentFits(k, maxIter, w, |classes|, content, swapped);
    StateWellFormed(k, maxIter, w, |classes|, content, swapped);
    SerialisedDecodes(e);
    StateByBytes(content, k, w, classes);
  }

  lemma FrameLength(body: bytes)
    ensures |Framed(body)| == |body| + 28
  {
    assert |Ascii("N4ME")| == 4;
  }

  lemma ContentFits(k: nat, maxIter: nat, w: nat, c: nat, content: bytes, swapped: bool)
    ensures |ClassifierBody(k, maxIter, w, c, content, swapped)| == 150 + |content|
  {
    assert |Ascii(PLS_LOGISTIC)| == 34 && |Ascii("n_components")| == 12 && |Ascii("max_iter")| == 8;
    assert |Ascii("CLS1")| == 4;
    hide Ascii, P32;
    var rest := RestBytes(w, c, content);
    assert |rest| == 48 - 8 + |content|;
    assert forall t: bytes :: |ParameterBytes("n_components", k, t)| == 36 + |t|;
    assert forall t: bytes :: |ParameterBytes("max_iter", maxIter, t)| == 32 + |t|;
  }

  /** The classifier check accepts exactly these strings. */
  lemma ClassifierByBytes(data: bytes, k: nat, maxIter: nat, w: nat, classes: seq<int>)
    ensures ClassifierAccepted(data, k, maxIter, w, classes) <==> ClassifierIs(data, k, maxIter, w, classes)
  {
    hide ClassifierAccepted, ClassifierIs;
    if ClassifierAccepted(data, k, maxIter, w, classes) {
      AcceptedIs(data, k, maxIter, w, classes);
    }
    if ClassifierIs(data, k, maxIter, w, classes) {
      IsAccepted(data, k, maxIter, w, classes);
    }
  }
}
