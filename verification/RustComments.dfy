/** Comments never reach the tokens: exchanged for one another, put behind a blank, or exchanged for one. */
module RustComments {
  import opened RustPieces

  /** Two sources that agree before `n`, where the first one holds a slash or a blank. */
  predicate Agree(x: string, y: string, n: nat) {
    n < |x| && n <= |y| && x[..n] == y[..n] && (x[n] == '/' || x[n] == ' ')
  }

  /** Moreover, at `n` the other one holds the same or a blank, or ends where the first one holds a slash. */
  predicate Meet(x: string, y: string, n: nat) {
    && Agree(x, y, n)
    && (if n < |y| then y[n] == ' ' || y[n] == x[n] else x[n] == '/')
  }

  /** No blank at `n` is part of a word. */
  predicate BlankEnds(a: Alphabet, x: string, y: string, n: nat) {
    At(x, n, ' ') || At(y, n, ' ') ==> !a.word(' ')
  }

  /** A quote in the second source closes a character literal of the blank at `n`, or of a backslash and that blank. */
  predicate BlankQuoted(x: string, y: string, n: nat) {
    At(x, 0, '\'') && At(y, n + 1, '\'') && (n == 1 || (n == 2 && At(x, 1, '\\')))
  }

  lemma MeetAt(x: string, y: string, n: nat, i: nat)
    requires Agree(x, y, n) && i < n
    ensures i < |x| && i < |y| && x[i] == y[i]
  {
    assert x[..n][i] == y[..n][i];
  }

  lemma MeetLater(x: string, y: string, n: nat, k: nat)
    requires Agree(x, y, n) && k <= n
    ensures Agree(x[k..], y[k..], n - k)
    ensures Meet(x, y, n) ==> Meet(x[k..], y[k..], n - k)
  {
    assert x[k..][..n - k] == x[..n][k..];
    assert y[k..][..n - k] == y[..n][k..];
  }

  lemma {:induction false} LineMeets(x: string, y: string, n: nat)
    requires Agree(x, y, n) && LineLength(x) <= n
    ensures LineLength(y) == LineLength(x)
    decreases |x|
  {
    MeetAt(x, y, n, 0);
    if x[0] != '\n' {
      MeetLater(x, y, n, 1);
      LineMeets(x[1..], y[1..], n - 1);
    }
  }

  lemma {:induction false} BlockMeets(x: string, y: string, n: nat, depth: nat)
    requires Agree(x, y, n) && BlockScan(x, depth).length <= n
    ensures BlockScan(y, depth) == BlockScan(x, depth)
    decreases |x|
  {
    if depth > 0 {
      var move := BlockMove(x, depth);
      MeetAt(x, y, n, 0);
      MeetAt(x, y, n, 1);
      assert BlockMove(y, depth) == move;
      MeetLater(x, y, n, move.length);
      BlockMeets(x[move.length..], y[move.length..], n - move.length, move.depth);
    }
  }

  lemma {:induction false} StringMeets(x: string, y: string, n: nat)
    requires Agree(x, y, n) && StringScan(x) <= n
    ensures StringScan(y) == StringScan(x)
    decreases |x|
  {
    MeetAt(x, y, n, 0);
    if x[0] == '\\' {
      MeetLater(x, y, n, 2);
      StringMeets(x[2..], y[2..], n - 2);
    } else if x[0] != '"' {
      MeetLater(x, y, n, 1);
      StringMeets(x[1..], y[1..], n - 1);
    }
  }

  lemma {:induction false} HashMeets(x: string, y: string, n: nat)
    requires Meet(x, y, n)
    ensures HashRun(x) == HashRun(y) <= n
    decreases |x|
  {
    if n > 0 {
      MeetAt(x, y, n, 0);
      MeetLater(x, y, n, 1);
      HashMeets(x[1..], y[1..], n - 1);
    }
  }

  lemma {:induction false} HexMeets(x: string, y: string, n: nat)
    requires Meet(x, y, n)
    ensures HexRun(x) == HexRun(y) <= n
    decreases |x|
  {
    if n > 0 {
      MeetAt(x, y, n, 0);
      MeetLater(x, y, n, 1);
      HexMeets(x[1..], y[1..], n - 1);
    }
  }

  lemma {:induction false} WordMeets(a: Alphabet, x: string, y: string, n: nat)
    requires Sound(a) && Meet(x, y, n) && BlankEnds(a, x, y, n)
    ensures WordLength(a, x) == WordLength(a, y) <= n
    decreases |x|
  {
    if n > 0 {
      MeetAt(x, y, n, 0);
      MeetLater(x, y, n, 1);
      WordMeets(a, x[1..], y[1..], n - 1);
    }
  }

  /** A run of hashes that ends before `n` is the same in both sources. */
  lemma {:induction false} HashAgrees(x: string, y: string, n: nat)
    requires Agree(x, y, n)
    ensures HashRun(x) <= n
    ensures if HashRun(x) < n then HashRun(y) == HashRun(x) else HashRun(y) >= n
    decreases |x|
  {
    if n > 0 {
      MeetAt(x, y, n, 0);
      MeetLater(x, y, n, 1);
      HashAgrees(x[1..], y[1..], n - 1);
    }
  }

  /** Behind hashes only, no raw string ends by `n`. */
  lemma {:induction false} NoEndBehindHashes(x: string, n: nat, hashes: nat)
    requires n < |x| && x[n] != '"' && HashRun(x) == n
    ensures RawScan(x, hashes) > n
    decreases |x|
  {
    if n > 0 {
      NoEndBehindHashes(x[1..], n - 1, hashes);
    }
  }

  lemma {:induction false} RawScanMeets(x: string, y: string, n: nat, hashes: nat)
    requires Agree(x, y, n) && RawScan(x, hashes) <= n
    ensures RawScan(y, hashes) == RawScan(x, hashes)
    decreases |x|
  {
    MeetAt(x, y, n, 0);
    MeetLater(x, y, n, 1);
    HashAgrees(x[1..], y[1..], n - 1);
    if !(x[0] == '"' && HashRun(x[1..]) >= hashes) {
      if HashRun(x[1..]) == n - 1 {
        NoEndBehindHashes(x[1..], n - 1, hashes);
      }
      RawScanMeets(x[1..], y[1..], n - 1, hashes);
    }
  }

  lemma RawMeets(x: string, y: string, n: nat)
    requires Meet(x, y, n) && n >= 1
    ensures RawOpening(x) == RawOpening(y)
  {
    hide HashRun;
    MeetAt(x, y, n, 0);
    if n >= 2 { MeetAt(x, y, n, 1); }
    var skip := if Pair(x, 'b', 'r') then 2 else if At(x, 0, 'r') then 1 else 0;
    if skip > 0 {
      MeetLater(x, y, n, skip);
      HashMeets(x[skip..], y[skip..], n - skip);
      if skip + HashRun(x[skip..]) < n { MeetAt(x, y, n, skip + HashRun(x[skip..])); }
    }
  }

  lemma CharMeets(x: string, y: string, n: nat)
    requires Meet(x, y, n) && n >= 1 && CharLength(x) <= n
    ensures BlankQuoted(x, y, n) || CharLength(x) == CharLength(y)
  {
    MeetAt(x, y, n, 0);
    if n > 1 { MeetAt(x, y, n, 1); }
    if n > 2 { MeetAt(x, y, n, 2); }
    if n > 3 { MeetAt(x, y, n, 3); }
    if n >= 4 {
      if n > 4 { MeetAt(x, y, n, 4); }
      MeetLater(x, y, n, 4);
      HexMeets(x[4..], y[4..], n - 4);
      var run := HexRun(x[4..]);
      if n > 4 + run { MeetAt(x, y, n, 4 + run); }
      if n > 5 + run { MeetAt(x, y, n, 5 + run); }
    }
    if n > 5 { MeetAt(x, y, n, 5); }
  }

  /** A token that ends by `n` is cut the same way in both sources, unless a quoted blank takes it up. */
  lemma CodeMeets(a: Alphabet, x: string, y: string, n: nat)
    requires Sound(a) && Meet(x, y, n) && BlankEnds(a, x, y, n) && !BlankQuoted(x, y, n)
    requires n >= 1 && CodeLength(a, x) <= n
    ensures CodeLength(a, y) == CodeLength(a, x)
  {
    hide Sound, Meet, BlankEnds, BlankQuoted, RawOpening, WordLength, RawScan, StringScan;
    MeetBounds(x, y, n);
    MeetAt(x, y, n, 0);
    RawMeets(x, y, n);
    RawStarts(x);
    CharMeets(x, y, n);
    hide CharLength;
    WordMeets(a, x, y, n);
    var raw := RawOpening(x);
    if raw.Some? {
      var from := raw.value.0 + raw.value.1 + 1;
      MeetLater(x, y, n, from);
      RawScanMeets(x[from..], y[from..], n - from, raw.value.1);
    } else if x[0] == '"' {
      MeetLater(x, y, n, 1);
      StringMeets(x[1..], y[1..], n - 1);
    } else if Pair(x, 'b', '"') {
      MeetLater(x, y, n, 2);
      StringMeets(x[2..], y[2..], n - 2);
    }
  }

  lemma RawStarts(x: string)
    requires x != []
    ensures RawOpening(x).Some? ==> x[0] == 'b' || x[0] == 'r'
  {
  }

  /** What the two sources can hold around `n`. */
  lemma MeetBounds(x: string, y: string, n: nat)
    requires Meet(x, y, n)
    ensures Agree(x, y, n) && (n < |y| ==> y[n] == ' ' || y[n] == x[n])
    ensures n > 1 ==> x[1] == y[1]
  {
    if n > 1 { MeetAt(x, y, n, 1); }
  }

  lemma NextMeets(a: Alphabet, x: string, y: string, n: nat)
    requires Sound(a) && Meet(x, y, n) && BlankEnds(a, x, y, n) && !BlankQuoted(x, y, n)
    requires n >= 1 && |NextPiece(a, x).text| <= n
    ensures NextPiece(a, y) == NextPiece(a, x)
  {
    hide Sound, BlankEnds, BlankQuoted, CodeLength, BlockScan, LineLength;
    var p := NextPiece(a, x);
    MeetAt(x, y, n, 0);
    MeetBounds(x, y, n);
    assert x[..|p.text|] == x[..n][..|p.text|] && y[..|p.text|] == y[..n][..|p.text|];
    if a.space(x[0]) {
    } else if Pair(x, '/', '/') {
      LineMeets(x, y, n);
    } else if Pair(x, '/', '*') {
      MeetLater(x, y, n, 2);
      BlockMeets(x[2..], y[2..], n - 2, 1);
    } else {
      CodeMeets(a, x, y, n);
    }
  }

  // ---- One comment for another ------------------------------------------------------------------

  /** The loop stands at `n` at some point: pieces end there. */
  predicate Boundary(a: Alphabet, source: string, n: nat)
    decreases n
  {
    n == 0 || (source != [] && |NextPiece(a, source).text| <= n
               && Boundary(a, source[|NextPiece(a, source).text|..], n - |NextPiece(a, source).text|))
  }

  /** A comment that ends where `after` begins: a closed block comment, or a line up to its newline or the end. */
  predicate EndsBefore(comment: string, after: string) {
    Closed(comment) || (OneLine(comment) && (after == [] || after[0] == '\n'))
  }

  lemma {:induction false} LineEnds(before: string, after: string)
    requires '\n' !in before && (after == [] || after[0] == '\n')
    ensures LineLength(before + after) == |before|
  {
    var all := before + after;
    if before == [] {
      assert all == after;
    } else {
      assert all[1..] == before[1..] + after;
      LineEnds(before[1..], after);
    }
  }

  lemma CommentIsNext(a: Alphabet, comment: string, after: string)
    requires Sound(a) && EndsBefore(comment, after)
    ensures NextPiece(a, comment + after) == Comment(comment)
  {
    var all := comment + after;
    if Closed(comment) {
      ClosedSkipped(comment[2..], after, 1, 0);
      assert all[2..] == comment[2..] + after;
      assert all[..|comment|] == comment;
    } else {
      LineEnds(comment, after);
      assert all[..|comment|] == comment;
    }
  }

  lemma AfterComment(a: Alphabet, comment: string, after: string)
    requires Sound(a) && EndsBefore(comment, after)
    ensures Tokens(a, comment + after) == Tokens(a, after)
  {
    CommentIsNext(a, comment, after);
    assert (comment + after)[|comment|..] == after;
  }

  /** Two sources with the same first piece have the same tokens exactly if the rests have. */
  lemma TokenStep(a: Alphabet, x: string, y: string)
    requires x != [] && y != [] && NextPiece(a, y) == NextPiece(a, x)
    ensures var k := |NextPiece(a, x).text|; Tokens(a, x) == Tokens(a, y) <==> Tokens(a, x[k..]) == Tokens(a, y[k..])
  {
    hide NextPiece;
    var p := NextPiece(a, x);
    var u, v := Tokens(a, x[|p.text|..]), Tokens(a, y[|p.text|..]);
    assert (Emitted(p) + u)[|Emitted(p)|..] == u && (Emitted(p) + v)[|Emitted(p)|..] == v;
  }

  /** A comment does not begin a quote. */
  lemma CommentMeets(before: string, comment: string, after: string, y: string)
    requires EndsBefore(comment, after) && |before| <= |y| && y[..|before|] == before
    requires |before| < |y| ==> y[|before|] == '/' || y[|before|] == ' '
    ensures Meet(before + comment + after, y, |before|)
    ensures var x := before + comment + after;
            |before| + 1 < |x| && x[|before|] == '/' && x[|before| + 1] != '\''
  {
    var x, n := before + comment + after, |before|;
    assert x[n] == comment[0] && x[n + 1] == comment[1];
    assert x[..n] == before;
  }

  /**
   * Where the loop comes to a comment, any other comment in its place gives the same
   * tokens, and the loop comes to it too: nested, empty, line or block, holding quotes or not.
   */
  lemma {:induction false} CommentBlind(a: Alphabet, before: string, comment: string, other: string, after: string)
    requires Sound(a) && EndsBefore(comment, after) && EndsBefore(other, after)
    requires Boundary(a, before + comment + after, |before|)
    ensures Tokens(a, before + comment + after) == Tokens(a, before + other + after)
    ensures Boundary(a, before + other + after, |before|)
  {
    hide Meet, EndsBefore, NextPiece, Tokens;
    var x, y := before + comment + after, before + other + after;
    if before == [] {
      assert x == comment + after && y == other + after;
      AfterComment(a, comment, after);
      AfterComment(a, other, after);
    } else {
      var n := |before|;
      CommentMeets(before, other, after, x[..n]);
      assert y[..n] == before && y[n] == '/';
      CommentMeets(before, comment, after, y);
      NextMeets(a, x, y, n);
      TokenStep(a, x, y);
      var k := |NextPiece(a, x).text|;
      assert x[k..] == before[k..] + comment + after && y[k..] == before[k..] + other + after;
      CommentBlind(a, before[k..], comment, other, after);
    }
  }

  // ---- A comment for a blank ----------------------------------------------------------------------

  /** A blank is whitespace and nothing else, and neither is a quote or a backslash. */
  predicate Ordinary(a: Alphabet) {
    && Sound(a) && a.space(' ') && !a.word(' ')
    && !a.space('\'') && !a.word('\'') && !a.space('\\') && !a.word('\\')
  }

  /** The source ends in a quote that is a token of its own, or in such a quote and a backslash. */
  predicate QuoteOpen(pieces: seq<Piece>) {
    var n := |pieces|;
    && n > 0
    && (pieces[n - 1] == Code("'") || (n > 1 && pieces[n - 2] == Code("'") && pieces[n - 1] == Code("\\")))
  }

  /** Cutting a source where the loop comes to a comment does not change the pieces before it. */
  lemma {:induction false} CutBefore(a: Alphabet, before: string, comment: string, after: string)
    requires Ordinary(a) && EndsBefore(comment, after) && before != []
    requires Boundary(a, before + comment + after, |before|)
    ensures NextPiece(a, before) == NextPiece(a, before + comment + after)
  {
    hide EndsBefore, NextPiece;
    CommentMeets(before, comment, after, before);
    NextMeets(a, before + comment + after, before, |before|);
  }

  lemma BlankNext(a: Alphabet, after: string)
    requires a.space(' ')
    ensures Tokens(a, " " + after) == Tokens(a, after)
  {
    assert (" " + after)[1..] == after;
  }

  lemma OneCode(a: Alphabet, rest: string)
    requires Ordinary(a) && rest != [] && (rest[0] == '\'' || rest[0] == '\\')
    ensures NextPiece(a, rest) == Code(rest[..if CharLength(rest) > 0 then CharLength(rest) else 1])
  {
  }

  lemma QuotedLengths(x: string, y: string, n: nat)
    requires Meet(x, y, n) && BlankQuoted(x, y, n) && x[n] == '/' && y[n] == ' ' && n + 1 < |x| && x[n + 1] != '\''
    ensures CharLength(x) == 0 && CharLength(y) == n + 2
    ensures x[..n] == y[..n] == if n == 1 then "'" else "'\\"
  {
    MeetAt(x, y, n, 0);
    if n == 2 { MeetAt(x, y, n, 1); }
  }

  lemma OpenPieces(a: Alphabet, before: string)
    requires Ordinary(a) && (before == "'" || before == "'\\")
    ensures QuoteOpen(Pieces(a, before))
  {
    hide NextPiece, Ordinary;
    OneCode(a, before);
    assert before[..1] == "'";
    if before == "'" {
      assert Pieces(a, before) == [Code("'")];
    } else {
      assert before[1..] == "\\" && before[1..][..1] == "\\";
      OneCode(a, before[1..]);
      assert Pieces(a, before[1..]) == [Code("\\")];
      assert Pieces(a, before) == [Code("'"), Code("\\")];
    }
  }

  lemma FirstToken(a: Alphabet, rest: string)
    requires Ordinary(a) && At(rest, 0, '\'')
    ensures Tokens(a, rest) != []
    ensures Tokens(a, rest)[0] == rest[..if CharLength(rest) > 0 then CharLength(rest) else 1]
  {
    hide NextPiece, Ordinary, CharLength;
    OneCode(a, rest);
  }

  /** The two sources in which the blank is quoted. */
  lemma QuotedBlank(a: Alphabet, before: string, comment: string, after: string)
    requires Ordinary(a) && EndsBefore(comment, after) && before != []
    requires BlankQuoted(before + comment + after, before + " " + after, |before|)
    ensures At(after, 0, '\'') && QuoteOpen(Pieces(a, before))
    ensures Tokens(a, before + comment + after) != Tokens(a, before + " " + after)
  {
    hide NextPiece, Ordinary, EndsBefore, Tokens, Pieces, QuoteOpen, CharLength, Meet;
    var x, y, n := before + comment + after, before + " " + after, |before|;
    assert y[..n] == before && y[n] == ' ' && y[n + 1..] == after;
    CommentMeets(before, comment, after, y);
    assert y[n + 1] == after[0];
    QuotedLengths(x, y, n);
    OpenPieces(a, before);
    FirstToken(a, x);
    FirstToken(a, y);
    assert |Tokens(a, x)[0]| == 1 && |Tokens(a, y)[0]| == n + 2;
  }

  lemma QuoteBehind(p: Piece, rest: seq<Piece>)
    ensures || (QuoteOpen([p] + rest) <==> QuoteOpen(rest))
            || (p == Code("'") && (rest == [] || rest == [Code("\\")]))
  {
    var all, n := [p] + rest, |rest|;
    if n > 0 {
      assert all[n] == rest[n - 1];
      if n == 1 {
        assert rest == [rest[0]];
      } else {
        assert all[n - 1] == rest[n - 2];
      }
    }
  }

  lemma QuoteStays(a: Alphabet, before: string)
    requires before != []
    ensures var k := |NextPiece(a, before).text|;
            || (QuoteOpen(Pieces(a, before)) <==> QuoteOpen(Pieces(a, before[k..])))
            || before == "'" || before == "'\\"
  {
    hide NextPiece, QuoteOpen, Apt;
    var p := NextPiece(a, before);
    var rest := Pieces(a, before[|p.text|..]);
    QuoteBehind(p, rest);
    NothingLost(a, before[|p.text|..]);
    if rest == [Code("\\")] {
      assert rest[1..] == [];
      assert Joined(rest) == "\\" + "";
    }
    assert before == p.text + before[|p.text|..];
  }

  lemma UnquotedBlank(before: string, comment: string, after: string)
    requires before == "'" || before == "'\\"
    ensures At(after, 0, '\'') ==> BlankQuoted(before + comment + after, before + " " + after, |before|)
  {
    var x, y, n := before + comment + after, before + " " + after, |before|;
    assert y[n + 1..] == after;
    assert x[0] == '\'' && (n > 1 ==> x[1] == '\\');
  }

  /**
   * Where the loop comes to a comment, a blank in its place gives the same tokens unless what follows
   * is a quote and what stands before is an open one: exactly then the two quotes make a character literal.
   */
  lemma {:induction false} CommentAsBlank(a: Alphabet, before: string, comment: string, after: string)
    requires Ordinary(a) && EndsBefore(comment, after)
    requires Boundary(a, before + comment + after, |before|)
    ensures Tokens(a, before + comment + after) == Tokens(a, before + " " + after)
       <==> !(At(after, 0, '\'') && QuoteOpen(Pieces(a, before)))
  {
    hide Meet, EndsBefore, NextPiece, Tokens, BlankQuoted;
    var x, y, n := before + comment + after, before + " " + after, |before|;
    if before == [] {
      assert x == comment + after && y == " " + after;
      AfterComment(a, comment, after);
      BlankNext(a, after);
    } else {
      assert y[..n] == before && y[n] == ' ' && y[n + 1..] == after;
      CommentMeets(before, comment, after, y);
      CutBefore(a, before, comment, after);
      var p := NextPiece(a, x);
      var k := |p.text|;
      assert x[k..] == before[k..] + comment + after && y[k..] == before[k..] + " " + after;
      if BlankQuoted(x, y, n) {
        QuotedBlank(a, before, comment, after);
      } else {
        NextMeets(a, x, y, n);
        TokenStep(a, x, y);
        CommentAsBlank(a, before[k..], comment, after);
        QuoteStays(a, before);
        if before == "'" || before == "'\\" {
          UnquotedBlank(before, comment, after);
        }
      }
    }
  }

  /** A comment between two quotes is not a blank there: the blank makes them a character. */
  lemma CommentBetweenQuotes(a: Alphabet)
    requires Ordinary(a)
    ensures Tokens(a, "'/**/'") == ["'", "'"] && Tokens(a, "' '") == ["' '"]
  {
    hide NextPiece, Closed, BlockScan;
    var x, y, quote := "'/**/'", "' '", "'";
    OneCode(a, x);
    OneCode(a, y);
    OneCode(a, quote);
    assert x[..1] == quote && x[1..] == "/**/" + quote && y[..3] == y && y[3..] == "" && quote[..1] == quote
           && quote[1..] == "";
    EmptyComment();
    AfterComment(a, "/**/", quote);
  }

  lemma EmptyComment()
    ensures Closed("/**/")
  {
    hide BlockScan;
    var inside, nothing := "*/", "";
    assert "/**/"[2..] == inside && inside[2..] == nothing;
    ScanStep(inside, 1, nothing);
    ScanStops(nothing, 0);
  }

  /** A comment put behind a blank changes nothing. */
  lemma {:induction false} CommentBehindBlank(a: Alphabet, before: string, comment: string, after: string)
    requires Ordinary(a) && EndsBefore(comment, after)
    requires Boundary(a, before + " " + after, |before|)
    ensures Tokens(a, before + " " + comment + after) == Tokens(a, before + " " + after)
  {
    hide Meet, EndsBefore, NextPiece, Tokens;
    var x, y, n := before + " " + after, before + " " + comment + after, |before|;
    if before == [] {
      assert x == " " + after && y == " " + (comment + after);
      BlankNext(a, after);
      BlankNext(a, comment + after);
      AfterComment(a, comment, after);
    } else {
      BlanksMeet(before, comment, after);
      NextMeets(a, x, y, n);
      TokenStep(a, x, y);
      var k := |NextPiece(a, x).text|;
      assert x[k..] == before[k..] + " " + after && y[k..] == before[k..] + " " + comment + after;
      CommentBehindBlank(a, before[k..], comment, after);
    }
  }

  lemma BlanksMeet(before: string, comment: string, after: string)
    requires EndsBefore(comment, after)
    ensures var x, y, n := before + " " + after, before + " " + comment + after, |before|;
            Meet(x, y, n) && y[n] == ' ' && !BlankQuoted(x, y, n)
  {
    var x, y, n := before + " " + after, before + " " + comment + after, |before|;
    assert x[..n] == before && y[..n] == before && y[n + 1] == comment[0];
  }
}
