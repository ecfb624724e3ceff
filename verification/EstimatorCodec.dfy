/** The estimator state inside an `N4ME` frame: parser, serialiser, and that they undo each other. */
module EstimatorCodec {
  import opened Results
  import opened Bytes
  import opened StateFrames
  import opened KeyedEntries

  const MAGIC: bytes := [0x4E, 0x34, 0x4D, 0x45]
  const EXTENT_LIMIT := 1_048_576

  /** `length` counts the value's words, and only one-word values are accepted. */
  datatype Param = Param(name: bytes, kind: nat, length: nat, value: nat)
  datatype Block = Block(tag: nat, content: bytes)

  /** Parameters and blocks in the order in which they are stored. */
  datatype Estimator = Estimator(
    method_id: bytes, params: seq<Param>, caps: nat, width: nat, outputs: nat, blocks: seq<Block>)

  // ---- What a well-formed state is ------------------------------------------------

  predicate WellFormedText(s: bytes) {
    |s| <= SHORT_TEXT_LIMIT && Utf8(s)
  }

  predicate WellFormedParam(p: Param) {
    WellFormedText(p.name) && 1 <= p.kind <= 4 && p.length == 1 && p.value < WORD
  }

  predicate WellFormedBlock(b: Block) {
    b.tag < 0x1_0000_0000 && |b.content| <= FRAME_LIMIT
  }

  predicate GoodExtents(caps: nat, width: nat, outputs: nat) {
    && caps < WORD && caps / 512 % 2 == 0
    && 0 < width <= EXTENT_LIMIT && outputs <= EXTENT_LIMIT
  }

  predicate WellFormed(e: Estimator) {
    && WellFormedText(e.method_id)
    && |e.params| <= ENTRY_LIMIT && Good(PARAM, e.params)
    && GoodExtents(e.caps, e.width, e.outputs)
    && 0 < |e.blocks| <= ENTRY_LIMIT && Good(BLOCK, e.blocks)
    && |BodyBytes(e)| + 28 <= FRAME_LIMIT
  }

  // ---- Serialiser; `tail` is whatever follows ---------------------------------------

  function TextBytes(text: bytes, tail: bytes): bytes {
    Little(|text|, 4) + (text + tail)
  }

  function ParamBytes(p: Param, tail: bytes): bytes {
    TextBytes(p.name, Little(p.kind, 4) + (Little(p.length, 8) + (Little(p.value, 8) + tail)))
  }

  function ContentBytes(content: bytes, tail: bytes): bytes {
    Little(|content|, 8) + (content + tail)
  }

  function BlockBytes(b: Block, tail: bytes): bytes {
    Little(b.tag, 4) + ContentBytes(b.content, tail)
  }

  function ExtentBytes(caps: nat, width: nat, outputs: nat, tail: bytes): bytes {
    Little(caps, 8) + (Little(width, 8) + (Little(outputs, 8) + tail))
  }

  function HeadBytes(method_id: bytes, params: seq<Param>, tail: bytes): bytes {
    TextBytes(method_id, CountedBytes(PARAM, params, tail))
  }

  function BodyBytes(e: Estimator): bytes {
    HeadBytes(e.method_id, e.params, ExtentBytes(e.caps, e.width, e.outputs, CountedBytes(BLOCK, e.blocks, [])))
  }

  function Serialised(e: Estimator): bytes {
    Frame(MAGIC, BodyBytes(e))
  }

  // ---- Parser ------------------------------------------------------------------------

  function ParamFrom(s: bytes): Parsed<Param> {
    var name := TextFrom(s, true);
    if name.Fail? then Fail
    else
      var kind := NumberFrom(name.rest, 4);
      if kind.Fail? || !(1 <= kind.value <= 4) then Fail
      else
        var length := NumberFrom(kind.rest, 8);
        if length.Fail? || length.value != 1 then Fail
        else
          var value := NumberFrom(length.rest, 8);
          if value.Fail? then Fail else Got(Param(name.value, kind.value, length.value, value.value), value.rest)
  }

  function TaggedFrom(s: bytes): Parsed<Block> {
    var tag := NumberFrom(s, 4);
    if tag.Fail? then Fail
    else
      var content := BlockFrom(tag.rest);
      if content.Fail? then Fail else Got(Block(tag.value, content.value), content.rest)
  }

  const PARAM: Codec<Param, bytes> := Codec(ParamFrom, ParamBytes, (p: Param) => p.name, WellFormedParam)
  const BLOCK: Codec<Block, nat> := Codec(TaggedFrom, BlockBytes, (b: Block) => b.tag, WellFormedBlock)

  function ExtentsFrom(s: bytes): Parsed<(nat, nat, nat)> {
    var caps := NumberFrom(s, 8);
    if caps.Fail? then Fail
    else
      var width := NumberFrom(caps.rest, 8);
      if width.Fail? then Fail
      else
        var outputs := NumberFrom(width.rest, 8);
        if outputs.Fail? || !GoodExtents(caps.value, width.value, outputs.value) then Fail
        else Got((caps.value, width.value, outputs.value), outputs.rest)
  }

  function HeadFrom(s: bytes): Parsed<(bytes, seq<Param>)> {
    var name := TextFrom(s, true);
    if name.Fail? then Fail
    else
      var params := CountedFrom(PARAM, name.rest, 0);
      if params.Fail? then Fail else Got((name.value, params.value), params.rest)
  }

  function BodyFrom(s: bytes): Parsed<Estimator> {
    var head := HeadFrom(s);
    if head.Fail? then Fail
    else
      var extents := ExtentsFrom(head.rest);
      if extents.Fail? then Fail
      else
        var blocks := CountedFrom(BLOCK, extents.rest, 1);
        if blocks.Fail? then Fail
        else Got(Estimator(head.value.0, head.value.1, extents.value.0, extents.value.1, extents.value.2, blocks.value),
                 blocks.rest)
  }

  /** `estimator(data, method)`. */
  function Decoded(data: bytes, method_id: bytes): Option<Estimator> {
    if !Checked(data, MAGIC) then None
    else
      var body := BodyFrom(Body(data));
      if Exhausts(body) && body.value.method_id == method_id then Some(body.value) else None
  }

  // ---- Parsing what was printed --------------------------------------------------------

  lemma TextParses(text: bytes, tail: bytes)
    requires WellFormedText(text)
    ensures TextFrom(TextBytes(text, tail), true) == Got(text, tail)
  {
    Widths();
    NumberFromLittle(|text|, 4, text + tail);
    Glue(text + tail, text, tail);
  }

  lemma ParamParses(p: Param, tail: bytes)
    requires WellFormedParam(p)
    ensures ParamFrom(ParamBytes(p, tail)) == Got(p, tail)
  {
    Widths();
    TextParses(p.name, Little(p.kind, 4) + (Little(p.length, 8) + (Little(p.value, 8) + tail)));
    NumberFromLittle(p.kind, 4, Little(p.length, 8) + (Little(p.value, 8) + tail));
    NumberFromLittle(p.length, 8, Little(p.value, 8) + tail);
    NumberFromLittle(p.value, 8, tail);
  }

  lemma ContentParses(content: bytes, tail: bytes)
    requires |content| <= FRAME_LIMIT
    ensures BlockFrom(ContentBytes(content, tail)) == Got(content, tail)
  {
    Widths();
    NumberFromLittle(|content|, 8, content + tail);
    Glue(content + tail, content, tail);
  }

  lemma BlockParses(b: Block, tail: bytes)
    requires WellFormedBlock(b)
    ensures TaggedFrom(BlockBytes(b, tail)) == Got(b, tail)
  {
    Widths();
    NumberFromLittle(b.tag, 4, ContentBytes(b.content, tail));
    ContentParses(b.content, tail);
  }

  lemma ExtentsParse(caps: nat, width: nat, outputs: nat, tail: bytes)
    requires GoodExtents(caps, width, outputs)
    ensures ExtentsFrom(ExtentBytes(caps, width, outputs, tail)) == Got((caps, width, outputs), tail)
  {
    Widths();
    NumberFromLittle(caps, 8, Little(width, 8) + (Little(outputs, 8) + tail));
    NumberFromLittle(width, 8, Little(outputs, 8) + tail);
    NumberFromLittle(outputs, 8, tail);
  }

  lemma HeadParses(method_id: bytes, params: seq<Param>, tail: bytes)
    requires WellFormedText(method_id) && |params| <= ENTRY_LIMIT && Good(PARAM, params)
    ensures HeadFrom(HeadBytes(method_id, params, tail)) == Got((method_id, params), tail)
  {
    TextParses(method_id, CountedBytes(PARAM, params, tail));
    ParamFaithful();
    CountedParses(PARAM, params, 0, tail);
  }

  lemma BodyParses(e: Estimator)
    requires WellFormed(e)
    ensures BodyFrom(BodyBytes(e)) == Got(e, [])
  {
    HeadParses(e.method_id, e.params, ExtentBytes(e.caps, e.width, e.outputs, CountedBytes(BLOCK, e.blocks, [])));
    ExtentsParse(e.caps, e.width, e.outputs, CountedBytes(BLOCK, e.blocks, []));
    BlockFaithful();
    CountedParses(BLOCK, e.blocks, 1, []);
  }

  lemma OneBlockLength(tag: nat, content: bytes)
    requires tag < 0x1_0000_0000
    ensures |BodyBytes(Estimator([], [], 0, 1, 0, [Block(tag, content)]))| == |content| + 48
  {
    hide Little;
    var b, none := Block(tag, content), BLOCK.write(Block(tag, content), []);
    assert [b][1..] == [];
    assert EntriesBytes(BLOCK, [b], []) == BlockBytes(b, []);
    var blocks := CountedBytes(BLOCK, [b], []);
    assert |blocks| == 16 + |content|;
    var extents := ExtentBytes(0, 1, 0, blocks);
    assert |extents| == 24 + |blocks|;
    assert CountedBytes(PARAM, [], extents) == Little(0, 4) + extents;
  }

  /** Any block content that leaves room for the frame makes a well-formed state. */
  lemma OneBlockWellFormed(tag: nat, content: bytes)
    requires tag < 0x1_0000_0000 && |content| + 76 <= FRAME_LIMIT
    ensures WellFormed(Estimator([], [], 0, 1, 0, [Block(tag, content)]))
  {
    hide BodyBytes;
    OneBlockLength(tag, content);
  }

  /** Every well-formed state serialises to a string that decodes to itself. */
  lemma SerialisedDecodes(e: Estimator)
    requires WellFormed(e)
    ensures Decoded(Serialised(e), e.method_id) == Some(e)
  {
    FrameChecked(MAGIC, BodyBytes(e));
    BodyParses(e);
  }

  // ---- Printing what was parsed ----------------------------------------------------------

  lemma TextSplits(s: bytes)
    requires TextFrom(s, true).Got?
    ensures WellFormedText(TextFrom(s, true).value)
    ensures s == TextBytes(TextFrom(s, true).value, TextFrom(s, true).rest)
  {
    var count := NumberFrom(s, 4);
    NumberFromSplits(s, 4);
    TakeFromSplits(count.rest, count.value);
  }

  lemma ParamSplits(s: bytes)
    requires ParamFrom(s).Got?
    ensures WellFormedParam(ParamFrom(s).value)
    ensures s == ParamBytes(ParamFrom(s).value, ParamFrom(s).rest)
  {
    Widths();
    TextSplits(s);
    var name := TextFrom(s, true);
    NumberFromSplits(name.rest, 4);
    var kind := NumberFrom(name.rest, 4);
    NumberFromSplits(kind.rest, 8);
    var length := NumberFrom(kind.rest, 8);
    NumberFromSplits(length.rest, 8);
  }

  lemma ParamFaithful()
    ensures Faithful(PARAM)
  {
    forall p, tail | WellFormedParam(p) ensures PARAM.read(PARAM.write(p, tail)) == Got(p, tail) {
      ParamParses(p, tail);
    }
    forall s | PARAM.read(s).Got?
      ensures PARAM.good(PARAM.read(s).value) && s == PARAM.write(PARAM.read(s).value, PARAM.read(s).rest)
    {
      ParamSplits(s);
    }
  }

  lemma ContentSplits(s: bytes)
    requires BlockFrom(s).Got?
    ensures |BlockFrom(s).value| <= FRAME_LIMIT
    ensures s == ContentBytes(BlockFrom(s).value, BlockFrom(s).rest)
  {
    var count := NumberFrom(s, 8);
    NumberFromSplits(s, 8);
    TakeFromSplits(count.rest, count.value);
  }

  lemma BlockSplits(s: bytes)
    requires TaggedFrom(s).Got?
    ensures WellFormedBlock(TaggedFrom(s).value)
    ensures s == BlockBytes(TaggedFrom(s).value, TaggedFrom(s).rest)
  {
    Widths();
    NumberFromSplits(s, 4);
    ContentSplits(NumberFrom(s, 4).rest);
  }

  lemma BlockFaithful()
    ensures Faithful(BLOCK)
  {
    forall b, tail | WellFormedBlock(b) ensures BLOCK.read(BLOCK.write(b, tail)) == Got(b, tail) {
      BlockParses(b, tail);
    }
    forall s | BLOCK.read(s).Got?
      ensures BLOCK.good(BLOCK.read(s).value) && s == BLOCK.write(BLOCK.read(s).value, BLOCK.read(s).rest)
    {
      BlockSplits(s);
    }
  }

  lemma ExtentsSplit(s: bytes)
    requires ExtentsFrom(s).Got?
    ensures var r := ExtentsFrom(s);
            && GoodExtents(r.value.0, r.value.1, r.value.2)
            && s == ExtentBytes(r.value.0, r.value.1, r.value.2, r.rest)
  {
    NumberFromSplits(s, 8);
    var caps := NumberFrom(s, 8);
    NumberFromSplits(caps.rest, 8);
    var width := NumberFrom(caps.rest, 8);
    NumberFromSplits(width.rest, 8);
  }

  lemma HeadSplits(s: bytes, method_id: bytes, params: seq<Param>, rest: bytes)
    requires HeadFrom(s) == Got((method_id, params), rest)
    ensures WellFormedText(method_id) && |params| <= ENTRY_LIMIT && Good(PARAM, params)
    ensures s == HeadBytes(method_id, params, rest)
  {
    TextSplits(s);
    ParamFaithful();
    CountedSplits(PARAM, TextFrom(s, true).rest, 0, params, rest);
  }

  lemma BodySplits(s: bytes, e: Estimator)
    requires BodyFrom(s) == Got(e, []) && |s| + 28 <= FRAME_LIMIT
    ensures WellFormed(e) && s == BodyBytes(e)
  {
    var head := HeadFrom(s);
    HeadSplits(s, e.method_id, e.params, head.rest);
    ExtentsSplit(head.rest);
    BlockFaithful();
    CountedSplits(BLOCK, ExtentsFrom(head.rest).rest, 1, e.blocks, []);
  }

  /** Every accepted string is exactly the serialisation of what it decodes to. */
  lemma DecodedSerialises(data: bytes, method_id: bytes)
    requires Decoded(data, method_id).Some?
    ensures WellFormed(Decoded(data, method_id).value)
    ensures Decoded(data, method_id).value.method_id == method_id
    ensures data == Serialised(Decoded(data, method_id).value)
  {
    CheckedIffFrame(data, MAGIC);
    BodySplits(Body(data), BodyFrom(Body(data)).value);
  }

  /** No two strings decode to the same ordered value, and a string decodes under one method only. */
  lemma EncodingUnique(d1: bytes, m1: bytes, d2: bytes, m2: bytes)
    requires Decoded(d1, m1).Some? && Decoded(d2, m2).Some?
    ensures Decoded(d1, m1) == Decoded(d2, m2) <==> d1 == d2
  {
    DecodedSerialises(d1, m1);
    DecodedSerialises(d2, m2);
    SerialisedDecodes(Decoded(d1, m1).value);
    SerialisedDecodes(Decoded(d2, m2).value);
  }
}
