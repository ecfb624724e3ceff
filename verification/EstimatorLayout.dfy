/** The estimator state by byte: which values are stored, and as which bytes. */
module EstimatorLayout {
  import opened Results
  import opened Bytes
  import opened StateFrames
  import opened KeyedEntries
  import opened EstimatorCodec
  import opened ByteLayout

  // ---- The bytes ------------------------------------------------------------------------------

  function ParamsThen(params: seq<Param>, tail: bytes): bytes {
    if params == [] then tail
    else
      var p := params[0];
      P32(|p.name|) + (p.name + (P32(p.kind) + (P64(p.length) + (P64(p.value) + ParamsThen(params[1..], tail)))))
  }

  function BlocksThen(blocks: seq<Block>, tail: bytes): bytes {
    if blocks == [] then tail
    else P32(blocks[0].tag) + (P64(|blocks[0].content|) + (blocks[0].content + BlocksThen(blocks[1..], tail)))
  }

  /** Method, parameters, capabilities, width, outputs and blocks, in an `N4ME` frame. */
  function StateBytes(e: Estimator): bytes {
    var body := P32(|e.method_id|) + (e.method_id + (P32(|e.params|) + ParamsThen(e.params,
                P64(e.caps) + (P64(e.width) + (P64(e.outputs) + (P32(|e.blocks|) + BlocksThen(e.blocks, [])))))));
    var signed := Ascii("N4ME") + FIXED + body;
    signed + P64(Checksum(signed))
  }

  // ---- The values -------------------------------------------------------------------------------

  predicate ShortText(s: bytes) {
    |s| <= 4096 && Utf8(s)
  }

  predicate Storable(e: Estimator) {
    && ShortText(e.method_id)
    && |e.params| <= 256
    && (forall i :: 0 <= i < |e.params| ==>
          var p := e.params[i];
          ShortText(p.name) && 1 <= p.kind <= 4 && p.length == 1 && p.value < 0x1_0000_0000_0000_0000)
    && (forall i, j :: 0 <= i < j < |e.params| ==> e.params[i].name != e.params[j].name)
    && e.caps < 0x1_0000_0000_0000_0000 && e.caps / 512 % 2 == 0
    && 0 < e.width <= 1_048_576 && e.outputs <= 1_048_576
    && 0 < |e.blocks| <= 256
    && (forall i :: 0 <= i < |e.blocks| ==> e.blocks[i].tag < 0x1_0000_0000)
    && (forall i, j :: 0 <= i < j < |e.blocks| ==> e.blocks[i].tag != e.blocks[j].tag)
    && |StateBytes(e)| <= 67_108_864
  }

  // ---- Exactly ----------------------------------------------------------------------------------

  lemma {:induction false} ParamsPrinted(params: seq<Param>, tail: bytes)
    ensures EntriesBytes(PARAM, params, tail) == ParamsThen(params, tail)
    decreases |params|
  {
    if params != [] {
      var p := params[0];
      ParamsPrinted(params[1..], tail);
      PackedBytes(|p.name|);
      PackedBytes(p.kind);
      PackedBytes(p.length);
      PackedBytes(p.value);
      hide Little, P32, P64;
    }
  }

  lemma {:induction false} BlocksPrinted(blocks: seq<Block>, tail: bytes)
    ensures EntriesBytes(BLOCK, blocks, tail) == BlocksThen(blocks, tail)
    decreases |blocks|
  {
    if blocks != [] {
      BlocksPrinted(blocks[1..], tail);
      PackedBytes(blocks[0].tag);
      PackedBytes(|blocks[0].content|);
      hide Little, P32, P64;
    }
  }

  lemma SerialisedPrinted(e: Estimator)
    ensures Serialised(e) == StateBytes(e) && |BodyBytes(e)| + 28 == |StateBytes(e)|
  {
    assert MAGIC == Ascii("N4ME");
    PackedBytes(|e.method_id|);
    PackedBytes(|e.params|);
    PackedBytes(e.caps);
    PackedBytes(e.width);
    PackedBytes(e.outputs);
    PackedBytes(|e.blocks|);
    hide Little, P32, P64, Ascii, Checksum, Frame, EntriesBytes, ParamsThen, BlocksThen, FIXED;
    BlocksPrinted(e.blocks, []);
    var blocks := P32(|e.blocks|) + BlocksThen(e.blocks, []);
    ParamsPrinted(e.params, P64(e.caps) + (P64(e.width) + (P64(e.outputs) + blocks)));
    FrameByBytes(MAGIC, BodyBytes(e));
  }

  lemma {:induction false} ContentsFit(blocks: seq<Block>, i: nat)
    requires i < |blocks|
    ensures |blocks[i].content| <= |BlocksThen(blocks, [])|
    decreases |blocks|
  {
    hide P32, P64;
    if i > 0 {
      ContentsFit(blocks[1..], i - 1);
    }
  }

  lemma {:induction false} ParamsLonger(params: seq<Param>, tail: bytes)
    ensures |tail| <= |ParamsThen(params, tail)|
  {
    if params != [] {
      hide P32, P64;
      ParamsLonger(params[1..], tail);
    }
  }

  lemma BlocksFit(e: Estimator)
    ensures |BlocksThen(e.blocks, [])| <= |StateBytes(e)|
  {
    hide P32, P64, Ascii, Checksum, ParamsThen, BlocksThen, FIXED;
    var blocks := P32(|e.blocks|) + BlocksThen(e.blocks, []);
    ParamsLonger(e.params, P64(e.caps) + (P64(e.width) + (P64(e.outputs) + blocks)));
  }

  lemma StorableExactly(e: Estimator)
    ensures Storable(e) <==> WellFormed(e)
  {
    SerialisedPrinted(e);
    hide StateBytes, BodyBytes, Utf8;
    if Storable(e) {
      forall i | 0 <= i < |e.blocks| ensures |e.blocks[i].content| <= FRAME_LIMIT {
        ContentsFit(e.blocks, i);
        BlocksFit(e);
      }
    }
  }

  /** A string decodes to a state exactly if that state can be stored and the string is its bytes. */
  lemma DecodedByBytes(data: bytes, method_id: bytes, e: Estimator)
    ensures Decoded(data, method_id) == Some(e)
       <==> e.method_id == method_id && Storable(e) && data == StateBytes(e)
  {
    hide Decoded, Storable, StateBytes, WellFormed, Serialised;
    StorableExactly(e);
    SerialisedPrinted(e);
    if Decoded(data, method_id) == Some(e) {
      DecodedSerialises(data, method_id);
    }
    if Storable(e) {
      SerialisedDecodes(e);
    }
  }
}
