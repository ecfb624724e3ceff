/** The loop of `rust_code_tokens`. */
module RustTokens {
  import opened RustPieces

  /** The block comment loop: where it stops, and the depth it stops at. */
  method SkipBlock(source: string, start: nat) returns (i: nat, depth: nat)
    requires start <= |source|
    ensures start <= i <= |source| && Scan(i - start, depth) == BlockScan(source[start..], 1)
  {
    hide BlockScan;
    i, depth := start, 1;
    while i < |source| && depth > 0
      invariant start <= i <= |source|
      invariant var rest := BlockScan(source[i..], depth);
                BlockScan(source[start..], 1) == rest.(length := i - start + rest.length)
    {
      var rest := source[i..];
      ghost var move := BlockMove(rest, depth);
      ScanStep(rest, depth, source[i + move.length..]);
      if Pair(rest, '/', '*') {
        depth, i := depth + 1, i + 2;
      } else if Pair(rest, '*', '/') {
        depth, i := depth - 1, i + 2;
      } else {
        i := i + 1;
      }
    }
    ScanStops(source[i..], depth);
  }

  /** The string loop: one past the closing quote, or the end of the source, or one more than that. */
  method StringEnd(source: string, start: nat) returns (end: nat)
    requires start <= |source|
    ensures end == start + StringScan(source[start..])
  {
    end := start;
    while end < |source|
      invariant start <= end <= |source| + 1
      invariant end <= |source| ==> StringScan(source[start..]) == end - start + StringScan(source[end..])
      invariant end == |source| + 1 ==> StringScan(source[start..]) == end - start
      decreases |source| + 1 - end
    {
      var rest := source[end..];
      if source[end] == '\\' {
        if end + 2 <= |source| {
          assert rest[2..] == source[end + 2..];
        }
        end := end + 2;
      } else if source[end] == '"' {
        end := end + 1;
        return;
      } else {
        assert rest[1..] == source[end + 1..];
        end := end + 1;
      }
    }
  }

  /** The end of the token at `i`, as the source's branches find it; slices stop at the end of the source. */
  method TokenEnd(a: Alphabet, source: string, i: nat) returns (end: nat)
    requires i < |source|
    ensures end == i + CodeLength(a, source[i..])
  {
    var rest := source[i..];
    var raw := RawOpening(rest);
    if raw.Some? {
      var opening := raw.value.0 + raw.value.1 + 1;
      return i + opening + RawScan(rest[opening..], raw.value.1);
    }
    if source[i] == '"' || Pair(rest, 'b', '"') {
      var quote := if source[i] == 'b' then 2 else 1;
      assert rest[quote..] == source[i + quote..];
      end := StringEnd(source, i + quote);
      return;
    }
    var character, word := CharLength(rest), WordLength(a, rest);
    end := if character > 0 then i + character else if word > 0 then i + word else i + 1;
  }

  /** One pass of the loop: how far it moves, and what it emits. */
  method Advance(a: Alphabet, source: string, i: nat) returns (next: nat, emitted: seq<string>)
    requires i < |source|
    ensures next > i
    ensures var p := NextPiece(a, source[i..]); emitted == Emitted(p) && Least(next, |source|) == i + |p.text|
  {
    hide CodeLength, BlockScan, LineLength;
    var rest := source[i..];
    if a.space(source[i]) {
      return i + 1, [];
    }
    if Pair(rest, '/', '/') {
      return i + LineLength(rest), [];
    }
    if Pair(rest, '/', '*') {
      assert rest[2..] == source[i + 2..];
      var end, depth := SkipBlock(source, i + 2);
      return end, if depth > 0 then [UNTERMINATED] else [];
    }
    next := TokenEnd(a, source, i);
    emitted := [source[i..Least(next, |source|)]];
    assert source[i..Least(next, |source|)] == rest[..Least(next, |source|) - i];
  }

  method RustCodeTokens(a: Alphabet, source: string) returns (tokens: seq<string>)
    ensures tokens == Tokens(a, source)
  {
    hide NextPiece, Emitted;
    tokens := [];
    var i := 0;
    while i < |source|
      invariant tokens + Tokens(a, source[Least(i, |source|)..]) == Tokens(a, source)
      decreases |source| - i
    {
      var next, emitted := Advance(a, source, i);
      ghost var p := NextPiece(a, source[i..]);
      assert source[i..][|p.text|..] == source[i + |p.text|..];
      tokens := tokens + emitted;
      i := next;
    }
  }
}
