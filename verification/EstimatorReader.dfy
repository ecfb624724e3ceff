/** The cursor-driven estimator parser, proved to be the parsing function. */
module EstimatorReader {
  import opened Results
  import opened Bytes
  import opened StateFrames
  import opened KeyedEntries
  import opened EstimatorCodec

  method ReadParam(reader: Reader) returns (r: Option<Param>)
    requires reader.Valid()
    modifies reader`pos
    ensures reader.Valid()
    ensures match ParamFrom(old(reader.Rest()))
            case Fail => r == None
            case Got(value, rest) => r == Some(value) && reader.Rest() == rest
  {
    var name := reader.Text(true);
    if name.None? {
      return None;
    }
    var kind := reader.Unsigned(4);
    if kind.None? || !(1 <= kind.value <= 4) {
      return None;
    }
    var length := reader.Unsigned(8);
    if length.None? || length.value != 1 {
      return None;
    }
    var value := reader.Unsigned(8);
    if value.None? {
      return None;
    }
    return Some(Param(name.value, kind.value, length.value, value.value));
  }

  method ReadParams(reader: Reader) returns (r: Option<seq<Param>>)
    requires reader.Valid()
    modifies reader`pos
    ensures reader.Valid()
    ensures match CountedFrom(PARAM, old(reader.Rest()), 0)
            case Fail => r == None
            case Got(value, rest) => r == Some(value) && reader.Rest() == rest
  {
    var count := reader.Unsigned(4);
    if count.None? || count.value > ENTRY_LIMIT {
      return None;
    }
    var params: seq<Param> := [];
    ghost var all := EntriesFrom(PARAM, reader.Rest(), count.value, []);
    for i := 0 to count.value
      invariant reader.Valid()
      invariant EntriesFrom(PARAM, reader.Rest(), count.value - i, params) == all
    {
      EntriesStep(PARAM, reader.Rest(), count.value - i, params);
      ghost var s := reader.Rest();
      assert PARAM.read(s) == ParamFrom(s);
      var p := ReadParam(reader);
      if p.None? || Bound(PARAM, params, PARAM.key(p.value)) {
        return None;
      }
      params := params + [p.value];
    }
    return Some(params);
  }

  method ReadBlock(reader: Reader) returns (r: Option<Block>)
    requires reader.Valid()
    modifies reader`pos
    ensures reader.Valid()
    ensures match TaggedFrom(old(reader.Rest()))
            case Fail => r == None
            case Got(value, rest) => r == Some(value) && reader.Rest() == rest
  {
    var tag := reader.Unsigned(4);
    if tag.None? {
      return None;
    }
    var content := reader.Block();
    if content.None? {
      return None;
    }
    return Some(Block(tag.value, content.value));
  }

  method ReadBlocks(reader: Reader) returns (r: Option<seq<Block>>)
    requires reader.Valid()
    modifies reader`pos
    ensures reader.Valid()
    ensures match CountedFrom(BLOCK, old(reader.Rest()), 1)
            case Fail => r == None
            case Got(value, rest) => r == Some(value) && reader.Rest() == rest
  {
    var count := reader.Unsigned(4);
    if count.None? || !(0 < count.value <= ENTRY_LIMIT) {
      return None;
    }
    var blocks: seq<Block> := [];
    ghost var all := EntriesFrom(BLOCK, reader.Rest(), count.value, []);
    for i := 0 to count.value
      invariant reader.Valid()
      invariant EntriesFrom(BLOCK, reader.Rest(), count.value - i, blocks) == all
    {
      EntriesStep(BLOCK, reader.Rest(), count.value - i, blocks);
      ghost var s := reader.Rest();
      assert BLOCK.read(s) == TaggedFrom(s);
      var b := ReadBlock(reader);
      if b.None? || Bound(BLOCK, blocks, BLOCK.key(b.value)) {
        return None;
      }
      blocks := blocks + [b.value];
    }
    return Some(blocks);
  }

  method ReadExtents(reader: Reader) returns (r: Option<(nat, nat, nat)>)
    requires reader.Valid()
    modifies reader`pos
    ensures reader.Valid()
    ensures match ExtentsFrom(old(reader.Rest()))
            case Fail => r == None
            case Got(value, rest) => r == Some(value) && reader.Rest() == rest
  {
    var caps := reader.Unsigned(8);
    if caps.None? {
      return None;
    }
    var width := reader.Unsigned(8);
    if width.None? {
      return None;
    }
    var outputs := reader.Unsigned(8);
    if outputs.None? || !(0 < width.value <= EXTENT_LIMIT) || outputs.value > EXTENT_LIMIT
       || caps.value / 512 % 2 != 0 {
      return None;
    }
    return Some((caps.value, width.value, outputs.value));
  }

  method ReadBody(reader: Reader, method_id: bytes) returns (r: Option<Estimator>)
    requires reader.Valid()
    modifies reader`pos
    ensures reader.Valid()
    ensures match BodyFrom(old(reader.Rest()))
            case Fail => r == None
            case Got(value, rest) =>
              if value.method_id != method_id then r == None else r == Some(value) && reader.Rest() == rest
  {
    var name := reader.Text(true);
    if name != Some(method_id) {
      return None;
    }
    var params := ReadParams(reader);
    if params.None? {
      return None;
    }
    var extents := ReadExtents(reader);
    if extents.None? {
      return None;
    }
    var blocks := ReadBlocks(reader);
    if blocks.None? {
      return None;
    }
    return Some(Estimator(method_id, params.value, extents.value.0, extents.value.1, extents.value.2, blocks.value));
  }

  /** `estimator(data, method)`, and by that everything the codec's lemmas say about `Decoded`. */
  method ReadEstimator(data: bytes, method_id: bytes) returns (r: Option<Estimator>)
    ensures r == Decoded(data, method_id)
  {
    var checked := CheckedReader(data, MAGIC);
    if checked.None? {
      return None;
    }
    var reader := checked.value;
    r := ReadBody(reader, method_id);
    if r.Some? && !reader.AtEnd() {
      return None;
    }
  }
}
