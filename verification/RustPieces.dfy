/** How `rust_code_tokens` cuts Rust source into blanks, comments and code. */
module RustPieces {
  import opened Results

  /** Python's `str.isspace` and the regular expression class `\w`, about which little is assumed. */
  datatype Alphabet = Alphabet(space: char -> bool, word: char -> bool)

  /** A slash is neither whitespace nor part of a word. */
  predicate Sound(a: Alphabet) {
    !a.space('/') && !a.word('/')
  }

  datatype Piece =
    | Blank(text: string)
    | Comment(text: string)
    | Unclosed(text: string)
    | Code(text: string)

  const UNTERMINATED := "unterminated block comment"

  /** `startswith` for a prefix of two characters. */
  predicate Pair(rest: string, first: char, second: char) {
    |rest| > 1 && rest[0] == first && rest[1] == second
  }

  predicate At(rest: string, i: nat, c: char) {
    i < |rest| && rest[i] == c
  }

  // ---- Scanners ---------------------------------------------------------------------------

  /** Characters before the first newline. */
  function LineLength(rest: string): (n: nat)
    ensures n <= |rest| && '\n' !in rest[..n]
    ensures n < |rest| ==> rest[n] == '\n'
  {
    if rest == [] || rest[0] == '\n' then 0
    else
      var n := LineLength(rest[1..]);
      assert rest[..n + 1] == [rest[0]] + rest[1..][..n];
      n + 1
  }

  /** How far a scan inside block comments moved, and the depth it left. */
  datatype Scan = Scan(length: nat, depth: nat)

  /** One step inside block comments nested to a depth: how far, and the depth after it. */
  function BlockMove(rest: string, depth: nat): (r: Scan)
    requires rest != [] && depth > 0
    ensures 1 <= r.length <= 2 && r.length <= |rest|
  {
    if Pair(rest, '/', '*') then Scan(2, depth + 1)
    else if Pair(rest, '*', '/') then Scan(2, depth - 1)
    else Scan(1, depth)
  }

  /** Characters read inside block comments nested to a depth, and the depth left at the end. */
  function BlockScan(rest: string, depth: nat): (r: Scan)
    ensures r.length <= |rest| && (r.depth > 0 ==> r.length == |rest|)
    decreases |rest|
  {
    if rest == [] || depth == 0 then Scan(0, depth)
    else
      var move := BlockMove(rest, depth);
      var later := BlockScan(rest[move.length..], move.depth);
      Scan(move.length + later.length, later.depth)
  }

  function HashRun(rest: string): (n: nat)
    ensures n <= |rest|
  {
    if rest == [] || rest[0] != '#' then 0 else 1 + HashRun(rest[1..])
  }

  /** Where a raw string opens: the length of `r` or `br`, and the number of hashes before the quote. */
  function RawOpening(rest: string): (r: Option<(nat, nat)>)
    ensures r.Some? ==> r.value.0 + r.value.1 < |rest|
  {
    var skip := if Pair(rest, 'b', 'r') then 2 else if At(rest, 0, 'r') then 1 else 0;
    if skip == 0 then None
    else
      var hashes := HashRun(rest[skip..]);
      if skip + hashes < |rest| && rest[skip + hashes] == '"' then Some((skip, hashes)) else None
  }

  /** Characters to the end of a raw string, after its opening quote: a quote and as many hashes, or everything. */
  function RawScan(rest: string, hashes: nat): (n: nat)
    ensures n <= |rest|
  {
    if rest == [] then 0
    else if rest[0] == '"' && HashRun(rest[1..]) >= hashes then 1 + hashes
    else 1 + RawScan(rest[1..], hashes)
  }

  /** Characters to the end of a string, after its opening quote; one too many where a backslash comes last. */
  function StringScan(rest: string): nat {
    if rest == [] then 0
    else if rest[0] == '\\' then (if |rest| == 1 then 2 else 2 + StringScan(rest[2..]))
    else if rest[0] == '"' then 1
    else 1 + StringScan(rest[1..])
  }

  predicate Hex(c: char) {
    '0' <= c <= '9' || 'a' <= c <= 'f' || 'A' <= c <= 'F'
  }

  function HexRun(rest: string): (n: nat)
    ensures n <= |rest|
  {
    if rest != [] && (Hex(rest[0]) || rest[0] == '_') then 1 + HexRun(rest[1..]) else 0
  }

  /** The length of a character literal at the front, or 0: the alternatives of the source's pattern in order. */
  function CharLength(rest: string): (n: nat)
    ensures n <= |rest|
  {
    if |rest| < 3 || rest[0] != '\'' then 0
    else if rest[1] != '\\' then
      if rest[1] != '\'' && rest[1] != '\n' && rest[2] == '\'' then 3 else 0
    else
      var run := if rest[2] == 'u' && At(rest, 3, '{') then HexRun(rest[4..]) else 0;
      if run > 0 && At(rest, 4 + run, '}') && At(rest, 5 + run, '\'') then 6 + run
      else if |rest| >= 6 && rest[2] == 'x' && Hex(rest[3]) && Hex(rest[4]) && rest[5] == '\'' then 6
      else if rest[2] != '\n' && At(rest, 3, '\'') then 4
      else 0
  }

  function WordLength(a: Alphabet, rest: string): (n: nat)
    ensures n <= |rest|
  {
    if rest != [] && a.word(rest[0]) then 1 + WordLength(a, rest[1..]) else 0
  }

  /** How far the next token reaches; past the end only for a string that a backslash leaves open. */
  function CodeLength(a: Alphabet, rest: string): (n: nat)
    requires rest != []
    ensures n > 0
  {
    var raw := RawOpening(rest);
    if raw.Some? then
      var opening := raw.value.0 + raw.value.1 + 1;
      opening + RawScan(rest[opening..], raw.value.1)
    else if rest[0] == '"' then 1 + StringScan(rest[1..])
    else if Pair(rest, 'b', '"') then 2 + StringScan(rest[2..])
    else if CharLength(rest) > 0 then CharLength(rest)
    else if WordLength(a, rest) > 0 then WordLength(a, rest)
    else 1
  }

  function Least(m: nat, n: nat): nat { if m < n then m else n }

  /** One pass of the loop: what stands at the front of the source that is left. */
  function NextPiece(a: Alphabet, rest: string): (p: Piece)
    requires rest != []
    ensures 0 < |p.text| <= |rest| && p.text == rest[..|p.text|]
  {
    if a.space(rest[0]) then Blank(rest[..1])
    else if Pair(rest, '/', '/') then
      Comment(rest[..LineLength(rest)])
    else if Pair(rest, '/', '*') then
      var scan := BlockScan(rest[2..], 1);
      if scan.depth == 0 then Comment(rest[..2 + scan.length]) else Unclosed(rest)
    else Code(rest[..Least(CodeLength(a, rest), |rest|)])
  }

  function Pieces(a: Alphabet, rest: string): seq<Piece> {
    if rest == [] then []
    else
      var p := NextPiece(a, rest);
      [p] + Pieces(a, rest[|p.text|..])
  }

  function Emitted(p: Piece): seq<string> {
    match p
    case Code(text) => [text]
    case Unclosed(_) => [UNTERMINATED]
    case Blank(_) => []
    case Comment(_) => []
  }

  /** What `rust_code_tokens` returns for the source that is left. */
  function Tokens(a: Alphabet, rest: string): seq<string> {
    if rest == [] then []
    else
      var p := NextPiece(a, rest);
      Emitted(p) + Tokens(a, rest[|p.text|..])
  }

  // ---- Nothing is lost --------------------------------------------------------------------------

  function Joined(pieces: seq<Piece>): string {
    if pieces == [] then "" else pieces[0].text + Joined(pieces[1..])
  }

  function AllEmitted(pieces: seq<Piece>): seq<string> {
    if pieces == [] then [] else Emitted(pieces[0]) + AllEmitted(pieces[1..])
  }

  /** A whole block comment: nested openers and closers balance exactly at its end. */
  predicate Closed(text: string) {
    Pair(text, '/', '*') && BlockScan(text[2..], 1) == Scan(|text| - 2, 0)
  }

  predicate OneLine(text: string) {
    Pair(text, '/', '/') && '\n' !in text
  }

  /** What each kind of piece may contain. */
  predicate Apt(a: Alphabet, p: Piece) {
    && p.text != ""
    && match p
       case Blank(text) => |text| == 1 && a.space(text[0])
       case Comment(text) => OneLine(text) || Closed(text)
       case Unclosed(text) => Pair(text, '/', '*') && !Closed(text)
       case Code(text) => !a.space(text[0]) && !Pair(text, '/', '/') && !Pair(text, '/', '*')
  }

  lemma {:induction false} ScanPrefix(rest: string, depth: nat)
    requires BlockScan(rest, depth).depth == 0
    ensures var n := BlockScan(rest, depth).length; BlockScan(rest[..n], depth) == Scan(n, 0)
    decreases |rest|
  {
    if depth > 0 {
      var n, move := BlockScan(rest, depth).length, BlockMove(rest, depth);
      ScanPrefix(rest[move.length..], move.depth);
      assert rest[..n][move.length..] == rest[move.length..][..n - move.length];
      assert BlockMove(rest[..n], depth) == move;
    }
  }

  lemma NextIsApt(a: Alphabet, rest: string)
    requires rest != []
    ensures Apt(a, NextPiece(a, rest))
    ensures NextPiece(a, rest).Unclosed? ==> NextPiece(a, rest).text == rest
  {
    var p := NextPiece(a, rest);
    if a.space(rest[0]) {
    } else if Pair(rest, '/', '/') {
    } else if Pair(rest, '/', '*') {
      var scan := BlockScan(rest[2..], 1);
      if scan.depth == 0 {
        ScanPrefix(rest[2..], 1);
        assert p.text[2..] == rest[2..][..scan.length];
      }
    }
  }

  /** The pieces are the whole source in order, each of its own kind, and the tokens are the code among them. */
  lemma {:induction false} NothingLost(a: Alphabet, source: string)
    ensures Joined(Pieces(a, source)) == source
    ensures Tokens(a, source) == AllEmitted(Pieces(a, source))
    ensures forall i :: 0 <= i < |Pieces(a, source)| ==> Apt(a, Pieces(a, source)[i])
    ensures forall i :: 0 <= i < |Pieces(a, source)| - 1 ==> !Pieces(a, source)[i].Unclosed?
  {
    hide Apt, NextPiece;
    if source != [] {
      var p := NextPiece(a, source);
      NextIsApt(a, source);
      NothingLost(a, source[|p.text|..]);
      assert source == p.text + source[|p.text|..];
      assert Pieces(a, source)[1..] == Pieces(a, source[|p.text|..]);
    }
  }

  // ---- Comments do not matter ---------------------------------------------------------------------

  /** What follows a comment does not change the steps taken inside it. */
  lemma SameMove(inside: string, after: string, depth: nat, extra: nat)
    requires depth > 0 && inside != [] && BlockScan(inside, depth) == Scan(|inside|, 0)
    ensures BlockMove(inside + after, depth + extra)
            == BlockMove(inside, depth).(depth := BlockMove(inside, depth).depth + extra)
  {
    if |inside| == 1 {
      assert BlockScan(inside[1..], depth) == Scan(0, depth);
    }
  }

  lemma ClosedStep(inside: string, depth: nat)
    requires depth > 0 && BlockScan(inside, depth) == Scan(|inside|, 0)
    ensures inside != []
    ensures var move := BlockMove(inside, depth);
            BlockScan(inside[move.length..], move.depth) == Scan(|inside| - move.length, 0)
    ensures BlockMove(inside, depth).depth == 0 ==> inside[BlockMove(inside, depth).length..] == []
  {
  }

  lemma ScanStops(rest: string, depth: nat)
    requires rest == [] || depth == 0
    ensures BlockScan(rest, depth) == Scan(0, depth)
  {
  }

  lemma ScanStep(rest: string, depth: nat, later: string)
    requires rest != [] && depth > 0 && later == rest[BlockMove(rest, depth).length..]
    ensures var move := BlockMove(rest, depth);
            var end := BlockScan(later, move.depth);
            BlockScan(rest, depth) == Scan(move.length + end.length, end.depth)
  {
  }

  /** A comment inside a comment is passed over as a whole. */
  lemma {:induction false} ClosedSkipped(inside: string, after: string, depth: nat, extra: nat)
    requires depth > 0 && BlockScan(inside, depth) == Scan(|inside|, 0)
    ensures var rest := BlockScan(after, extra);
            BlockScan(inside + after, depth + extra) == rest.(length := |inside| + rest.length)
  {
    hide BlockScan, BlockMove;
    ClosedStep(inside, depth);
    SameMove(inside, after, depth, extra);
    var all, move := inside + after, BlockMove(inside, depth);
    assert all[move.length..] == inside[move.length..] + after;
    ScanStep(all, depth + extra, inside[move.length..] + after);
    if move.depth > 0 {
      ClosedSkipped(inside[move.length..], after, move.depth, extra);
    } else {
      assert inside[move.length..] + after == after;
    }
  }
}
