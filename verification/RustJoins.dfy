/** When a comment can go without a blank in its place: exactly if no token before it reaches over. */
module RustJoins {
  import opened RustPieces
  import opened RustComments

  /** The letters of string prefixes are word characters, a double quote and a hash are not; a hash is no whitespace. */
  predicate Usual(a: Alphabet) {
    && Ordinary(a) && a.word('b') && a.word('r')
    && !a.word('"') && !a.word('#') && !a.space('#')
  }

  predicate Hashes(pieces: seq<Piece>) {
    forall q <- pieces :: q == Code("#")
  }

  /**
   * The first piece reaches over to what follows the pieces directly: a word that goes on, the
   * prefix of a byte string or of a raw string with its hashes, or a quote that opens a character.
   */
  predicate Reaches(a: Alphabet, pieces: seq<Piece>, after: string)
    requires pieces != []
  {
    match pieces[0]
    case Code(text) =>
      || (|pieces| == 1 && WordLength(a, text) == |text| && after != [] && a.word(after[0]))
      || (pieces == [Code("b")] && At(after, 0, '"'))
      || ((text == "r" || text == "br") && Hashes(pieces[1..]) && At(after, HashRun(after), '"'))
      || (text == "'" && CharLength(Joined(pieces) + after) > 0)
    case _ => false
  }

  predicate Joins(a: Alphabet, pieces: seq<Piece>, after: string) {
    exists i :: 0 <= i < |pieces| && Reaches(a, pieces[i..], after)
  }

  // ---- The same, on characters -------------------------------------------------------------------

  /** `r` or `br`, and nothing but hashes behind it. */
  predicate RawPrefix(s: string) {
    || (At(s, 0, 'r') && HashRun(s[1..]) == |s| - 1)
    || (Pair(s, 'b', 'r') && HashRun(s[2..]) == |s| - 2)
  }

  /** The token of length `k` at the front of `before` reaches over to `after`. */
  predicate Extends(a: Alphabet, before: string, k: nat, after: string)
    requires before != []
  {
    || (k == |before| && WordLength(a, before) == |before| && after != [] && a.word(after[0]))
    || (before == "b" && At(after, 0, '"'))
    || (RawPrefix(before) && At(after, HashRun(after), '"'))
    || (before[0] == '\'' && k == 1 && CharLength(before + after) > 0)
  }

  lemma HashesFirst(p: Piece, rest: seq<Piece>)
    ensures Hashes([p] + rest) <==> p == Code("#") && Hashes(rest)
  {
    assert p in [p] + rest;
    forall q | q in rest ensures q in [p] + rest {
    }
  }

  lemma {:induction false} HashPieces(a: Alphabet, s: string)
    requires Usual(a)
    ensures Hashes(Pieces(a, s)) <==> HashRun(s) == |s|
  {
    hide Usual, NextPiece, Hashes;
    if s == [] {
      NoHashes();
    } else {
      var p := NextPiece(a, s);
      HashesFirst(p, Pieces(a, s[|p.text|..]));
      if s[0] == '#' {
        HashNext(a, s);
        HashPieces(a, s[1..]);
      }
    }
  }

  lemma NoHashes()
    ensures Hashes([])
  {
  }

  lemma HashNext(a: Alphabet, s: string)
    requires Usual(a) && At(s, 0, '#')
    ensures NextPiece(a, s) == Code("#")
  {
  }

  lemma RawPrefixNext(a: Alphabet, before: string)
    requires Usual(a) && RawPrefix(before)
    ensures CodeLength(a, before) == if before[0] == 'r' then 1 else 2
  {
    var skip := if before[0] == 'r' then 1 else 2;
    assert RawOpening(before).None?;
    assert WordLength(a, before[skip..]) == 0;
    if skip == 2 {
      assert before[1..][1..] == before[2..];
      assert WordLength(a, before[1..]) == 1;
    }
  }

  lemma ReachesExtends(a: Alphabet, before: string, after: string)
    requires Usual(a) && before != []
    ensures Reaches(a, Pieces(a, before), after)
       <==> NextPiece(a, before).Code? && Extends(a, before, |NextPiece(a, before).text|, after)
  {
    var p := NextPiece(a, before);
    var k, pieces := |p.text|, Pieces(a, before);
    NothingLost(a, before);
    assert pieces == [p] + Pieces(a, before[k..]) && pieces[1..] == Pieces(a, before[k..]);
    assert |pieces| == 1 <==> k == |before|;
    assert k == |before| ==> p.text == before;
    RawPieces(a, before);
    assert p.text == before[..k];
    hide RawPrefix, NextPiece, Pieces, CharLength, WordLength, HashRun, Hashes, Apt;
    if p.Code? {
      assert p.text == "'" <==> before[0] == '\'' && k == 1;
      ByteString(a, before);
    }
  }

  lemma ByteString(a: Alphabet, before: string)
    requires Usual(a) && before != [] && NextPiece(a, before).Code?
    ensures Pieces(a, before) == [Code("b")] <==> before == "b"
  {
    NothingLost(a, before);
    if before == "b" {
      assert NextPiece(a, before).text == "b" && before[1..] == [];
    }
    if Pieces(a, before) == [Code("b")] {
      assert Joined([Code("b")]) == "b" + "";
    }
  }

  lemma RawPieces(a: Alphabet, before: string)
    requires Usual(a) && before != []
    ensures var p := NextPiece(a, before);
            p.Code? ==> ((p.text == "r" || p.text == "br") && Hashes(Pieces(a, before)[1..]) <==> RawPrefix(before))
  {
    var p := NextPiece(a, before);
    var k := |p.text|;
    HashPieces(a, before[k..]);
    assert Pieces(a, before)[1..] == Pieces(a, before[k..]);
    hide CodeLength, Hashes, HashRun, RawPrefix;
    if p.Code? {
      PrefixChars(before, k);
      if RawPrefix(before) {
        RawPrefixNext(a, before);
      }
    }
  }

  lemma PrefixChars(before: string, k: nat)
    requires k <= |before|
    ensures (before[..k] == "r" || before[..k] == "br") && HashRun(before[k..]) == |before| - k ==> RawPrefix(before)
    ensures RawPrefix(before) && k == (if before[0] == 'r' then 1 else 2) ==>
              (before[..k] == "r" || before[..k] == "br") && HashRun(before[k..]) == |before| - k
  {
    hide HashRun;
  }

  // ---- What changes when the comment goes ------------------------------------------------------------

  lemma {:induction false} HexPrefix(s: string, t: string)
    requires var n := HexRun(s); n < |s| && n < |t| && t[..n + 1] == s[..n + 1]
    ensures HexRun(t) == HexRun(s)
    decreases |s|
  {
    var n := HexRun(s);
    assert t[0] == t[..n + 1][0] == s[..n + 1][0] == s[0];
    if n > 0 {
      assert t[1..][..n] == t[..n + 1][1..] && s[1..][..n] == s[..n + 1][1..];
      HexPrefix(s[1..], t[1..]);
    }
  }

  /** What follows a character literal does not matter. */
  lemma CharPrefix(s: string, t: string)
    requires 0 < CharLength(s) <= |t| && t[..CharLength(s)] == s[..CharLength(s)]
    ensures CharLength(t) == CharLength(s)
  {
    var m := CharLength(s);
    forall i | 0 <= i < m ensures t[i] == s[i] {
      assert t[i] == t[..m][i] == s[..m][i];
    }
    if s[1] == '\\' && s[2] == 'u' && s[3] == '{' {
      var run := HexRun(s[4..]);
      assert m == 6 + run;
      assert t[4..][..run + 1] == t[..m][4..5 + run] && s[4..][..run + 1] == s[..m][4..5 + run];
      HexPrefix(s[4..], t[4..]);
    }
  }

  /** A character literal that ends by `n` is the same in both sources. */
  lemma CharAgrees(x: string, y: string, n: nat)
    requires Agree(x, y, n) && CharLength(x) <= n
    ensures CharLength(x) > 0 ==> CharLength(y) == CharLength(x)
    ensures CharLength(x) == 0 ==> CharLength(y) == 0 || CharLength(y) > n
  {
    hide CharLength;
    var m, k := CharLength(x), CharLength(y);
    if m > 0 {
      assert y[..m] == y[..n][..m] && x[..m] == x[..n][..m];
      CharPrefix(x, y);
    } else if 0 < k <= n {
      assert y[..k] == y[..n][..k] && x[..k] == x[..n][..k];
      CharPrefix(y, x);
    }
  }

  lemma {:induction false} WordAgrees(a: Alphabet, x: string, y: string, n: nat)
    requires Sound(a) && Agree(x, y, n) && x[n] == '/'
    ensures WordLength(a, x) <= n
    ensures WordLength(a, y) == if WordLength(a, x) < n then WordLength(a, x) else n + WordLength(a, y[n..])
    decreases |x|
  {
    if n > 0 {
      MeetAt(x, y, n, 0);
      MeetLater(x, y, n, 1);
      assert y[1..][n - 1..] == y[n..];
      WordAgrees(a, x[1..], y[1..], n - 1);
    }
  }

  lemma SkipAgrees(x: string, y: string, n: nat, skip: nat)
    requires Agree(x, y, n) && x[n] == '/' && skip <= n
    ensures var h := HashRun(x[skip..]);
            && skip + h <= n
            && (skip + h < n ==> HashRun(y[skip..]) == h && y[skip + h] == x[skip + h])
            && (skip + h == n ==> HashRun(y[skip..]) == h + HashRun(y[n..]) && HashRun(x[..n][skip..]) == h)
            && (HashRun(x[..n][skip..]) == n - skip ==> skip + h == n)
  {
    MeetLater(x, y, n, skip);
    HashAgrees(x[skip..], y[skip..], n - skip);
    var h := HashRun(x[skip..]);
    var own := x[..n][skip..];
    assert x[skip..] == own + x[n..] && y[skip..] == own + y[n..];
    HashSplit(own, x[n..]);
    HashSplit(own, y[n..]);
    if skip + h < n {
      MeetAt(x, y, n, skip + h);
    }
  }

  lemma {:induction false} HashSplit(s: string, t: string)
    ensures HashRun(s + t) == if HashRun(s) == |s| then |s| + HashRun(t) else HashRun(s)
  {
    if s == [] {
      assert s + t == t;
    } else {
      assert (s + t)[1..] == s[1..] + t;
      HashSplit(s[1..], t);
    }
  }

  /** Where no raw string opens before `n`, one opens across it exactly behind a prefix and its hashes. */
  lemma RawAcross(x: string, y: string, n: nat)
    requires Agree(x, y, n) && x[n] == '/' && n >= 1
    ensures RawPrefix(x[..n]) && At(y[n..], HashRun(y[n..]), '"') ==>
              RawOpening(x).None? && RawOpening(y).Some? && RawOpening(y).value.0 + RawOpening(y).value.1 >= n
    ensures !(RawPrefix(x[..n]) && At(y[n..], HashRun(y[n..]), '"')) ==>
              RawOpening(y) == RawOpening(x) || (x[..n] == "b" && At(y, n, 'r'))
  {
    hide HashRun;
    MeetAt(x, y, n, 0);
    if n >= 2 { MeetAt(x, y, n, 1); }
    assert x[..n][0] == x[0] && (n >= 2 ==> x[..n][1] == x[1]);
    if At(x, 0, 'r') {
      SkipAgrees(x, y, n, 1);
    } else if n >= 2 && Pair(x, 'b', 'r') {
      SkipAgrees(x, y, n, 2);
    } else if n == 1 && x[0] == 'b' {
      assert x[..n] == "b";
    }
  }

  lemma WordOwn(a: Alphabet, x: string, y: string, n: nat)
    requires Usual(a) && Agree(x, y, n) && x[n] == '/'
    ensures WordLength(a, x[..n]) == WordLength(a, x) <= n
    ensures WordLength(a, x) == n ==> WordLength(a, y) >= n && (WordLength(a, y) > n <==> n < |y| && a.word(y[n]))
    ensures WordLength(a, x) < n ==> WordLength(a, y) == WordLength(a, x)
  {
    assert x[..n][n..] == [] && x[..n][..n] == x[..n];
    WordAgrees(a, x, x[..n], n);
    WordAgrees(a, x, y, n);
  }

  /** A word breaks at a double quote. */
  lemma {:induction false} WordBreaks(a: Alphabet, s: string, i: nat)
    requires !a.word('"') && i < |s| && s[i] == '"'
    ensures WordLength(a, s) <= i
  {
    if i > 0 {
      WordBreaks(a, s[1..], i - 1);
    }
  }

  lemma QuoteExtends(a: Alphabet, x: string, y: string, n: nat, k: nat)
    requires Usual(a) && Agree(x, y, n) && n >= 1 && x[0] == '\'' && k == CodeLength(a, x) <= n
    ensures if Extends(a, x[..n], k, y[n..]) then CodeLength(a, y) > k && |y| > k else CodeLength(a, y) == k
  {
    MeetAt(x, y, n, 0);
    assert y == x[..n] + y[n..];
    CharAgrees(x, y, n);
  }

  lemma PrefixExtends(a: Alphabet, x: string, y: string, n: nat, k: nat)
    requires Agree(x, y, n) && x[n] == '/' && n >= 1 && k <= n
    requires RawPrefix(x[..n]) && At(y[n..], HashRun(y[n..]), '"')
    ensures Extends(a, x[..n], k, y[n..]) && CodeLength(a, y) > k && |y| > k
  {
    hide RawPrefix, HashRun, CharLength, WordLength, RawScan, StringScan;
    RawAcross(x, y, n);
  }

  /** What holds a quote before `n` is no word, no prefix and no lone quote mark. */
  lemma QuotedStays(a: Alphabet, before: string, k: nat, after: string, quote: nat)
    requires Usual(a) && quote < |before| && before[quote] == '"' && before[0] != '\''
    requires !(RawPrefix(before) && At(after, HashRun(after), '"'))
    ensures !Extends(a, before, k, after)
  {
    WordBreaks(a, before, quote);
    hide RawPrefix, HashRun, CharLength, WordLength;
  }

  lemma RawExtends(a: Alphabet, x: string, y: string, n: nat, k: nat)
    requires Usual(a) && Agree(x, y, n) && x[n] == '/' && n >= 1 && k == CodeLength(a, x) <= n
    requires !(RawPrefix(x[..n]) && At(y[n..], HashRun(y[n..]), '"'))
    requires RawOpening(x).Some?
    ensures !Extends(a, x[..n], k, y[n..]) && CodeLength(a, y) == k
  {
    hide Usual, RawPrefix, HashRun, CharLength, WordLength, StringScan;
    var raw := RawOpening(x).value;
    QuotePlace(a, x, n);
    RawStarts(x);
    RawAcross(x, y, n);
    assert x[..n][raw.0 + raw.1] == '"';
    QuotedStays(a, x[..n], k, y[n..], raw.0 + raw.1);
    assert x[..n] != "b";
    assert RawOpening(y) == RawOpening(x);
    hide RawOpening, Extends;
    MeetLater(x, y, n, raw.0 + raw.1 + 1);
    RawScanMeets(x[raw.0 + raw.1 + 1..], y[raw.0 + raw.1 + 1..], n - raw.0 - raw.1 - 1, raw.1);
  }

  lemma StringExtends(a: Alphabet, x: string, y: string, n: nat, k: nat)
    requires Usual(a) && Agree(x, y, n) && x[n] == '/' && n >= 1 && k == CodeLength(a, x) <= n
    requires !(RawPrefix(x[..n]) && At(y[n..], HashRun(y[n..]), '"'))
    requires RawOpening(x).None? && (x[0] == '"' || Pair(x, 'b', '"'))
    ensures !Extends(a, x[..n], k, y[n..]) && CodeLength(a, y) == k
  {
    hide Usual, RawPrefix, HashRun, CharLength, WordLength, RawScan;
    QuotePlace(a, x, n);
    RawAcross(x, y, n);
    MeetAt(x, y, n, 0);
    var quote := if x[0] == '"' then 0 else 1;
    MeetAt(x, y, n, quote);
    assert x[..n][quote] == '"';
    QuotedStays(a, x[..n], k, y[n..], quote);
    assert x[..n] != "b";
    assert RawOpening(y) == RawOpening(x);
    hide RawOpening, Extends;
    MeetLater(x, y, n, quote + 1);
    StringMeets(x[quote + 1..], y[quote + 1..], n - quote - 1);
  }

  lemma QuotePlace(a: Alphabet, x: string, n: nat)
    requires x != [] && CodeLength(a, x) <= n < |x|
    ensures var raw := RawOpening(x);
            && (raw.Some? ==> raw.value.0 + raw.value.1 < n && x[raw.value.0 + raw.value.1] == '"')
            && (raw.None? && x[0] == '"' ==> n > 0)
            && (raw.None? && Pair(x, 'b', '"') ==> n > 1)
  {
  }

  lemma WordExtends(a: Alphabet, x: string, y: string, n: nat, k: nat)
    requires Usual(a) && Agree(x, y, n) && x[n] == '/' && n >= 1 && k == CodeLength(a, x) <= n
    requires !(RawPrefix(x[..n]) && At(y[n..], HashRun(y[n..]), '"'))
    requires RawOpening(x).None? && x[0] != '"' && !Pair(x, 'b', '"') && x[0] != '\''
    ensures if Extends(a, x[..n], k, y[n..]) then CodeLength(a, y) > k && |y| > k else CodeLength(a, y) == k
  {
    MeetAt(x, y, n, 0);
    if n >= 2 { MeetAt(x, y, n, 1); }
    RawAcross(x, y, n);
    WordOwn(a, x, y, n);
    assert CharLength(x) == 0 && CharLength(y) == 0;
    assert x[..n] == "b" <==> n == 1 && x[0] == 'b';
    assert WordLength(a, x) > 0 <==> a.word(x[0]);
    assert x[..n][0] == x[0] && (n < |y| ==> y[n..][0] == y[n]);
    hide RawOpening, RawPrefix, HashRun, CharLength, WordLength, RawScan, StringScan;
  }

  /** The first token reaches over `n` exactly if what stands before `n` says so; otherwise it stays as it is. */
  lemma CodeExtends(a: Alphabet, x: string, y: string, n: nat, k: nat)
    requires Usual(a) && Agree(x, y, n) && x[n] == '/' && n >= 1 && k == CodeLength(a, x) <= n
    ensures if Extends(a, x[..n], k, y[n..]) then CodeLength(a, y) > k && |y| > k else CodeLength(a, y) == k
  {
    hide Usual, RawOpening, RawPrefix, HashRun, CharLength, WordLength, RawScan, StringScan, CodeLength, Extends;
    if RawPrefix(x[..n]) && At(y[n..], HashRun(y[n..]), '"') {
      PrefixExtends(a, x, y, n, k);
    } else if x[0] == '\'' {
      QuoteExtends(a, x, y, n, k);
    } else if RawOpening(x).Some? {
      RawExtends(a, x, y, n, k);
    } else if x[0] == '"' || Pair(x, 'b', '"') {
      StringExtends(a, x, y, n, k);
    } else {
      WordExtends(a, x, y, n, k);
    }
  }

  // ---- A comment for nothing -----------------------------------------------------------------------

  /** The first piece stays as it is unless it reaches over; then it is a longer token. */
  lemma PieceExtends(a: Alphabet, x: string, y: string, n: nat)
    requires Usual(a) && Agree(x, y, n) && x[n] == '/' && n >= 1
    requires |NextPiece(a, x).text| <= n
    ensures var p, q := NextPiece(a, x), NextPiece(a, y);
            if p.Code? && Extends(a, x[..n], |p.text|, y[n..]) then q.Code? && |q.text| > |p.text| else q == p
  {
    hide Usual, Extends, CodeLength, BlockScan, LineLength;
    var p := NextPiece(a, x);
    MeetAt(x, y, n, 0);
    if n >= 2 { MeetAt(x, y, n, 1); }
    assert x[..|p.text|] == x[..n][..|p.text|] && y[..|p.text|] == y[..n][..|p.text|];
    if a.space(x[0]) {
    } else if Pair(x, '/', '/') {
      LineMeets(x, y, n);
    } else if Pair(x, '/', '*') {
      MeetLater(x, y, n, 2);
      BlockMeets(x[2..], y[2..], n - 2, 1);
    } else {
      CodeExtends(a, x, y, n, CodeLength(a, x));
    }
  }

  lemma JoinsFirst(a: Alphabet, pieces: seq<Piece>, after: string)
    requires pieces != []
    ensures Joins(a, pieces, after) <==> Reaches(a, pieces, after) || Joins(a, pieces[1..], after)
  {
    hide Reaches;
    assert pieces[0..] == pieces;
    forall i | 0 <= i < |pieces| - 1 ensures pieces[1..][i..] == pieces[i + 1..] {
    }
    if Joins(a, pieces, after) && !Reaches(a, pieces, after) {
      var i :| 0 <= i < |pieces| && Reaches(a, pieces[i..], after);
      assert pieces[1..][i - 1..] == pieces[i..];
    }
    if Joins(a, pieces[1..], after) {
      var i :| 0 <= i < |pieces[1..]| && Reaches(a, pieces[1..][i..], after);
      assert pieces[1..][i..] == pieces[i + 1..];
    }
  }

  lemma LongerToken(a: Alphabet, x: string, y: string)
    requires x != [] && y != [] && NextPiece(a, x).Code? && NextPiece(a, y).Code?
    requires |NextPiece(a, y).text| > |NextPiece(a, x).text|
    ensures Tokens(a, x) != Tokens(a, y)
  {
    hide NextPiece;
    assert Tokens(a, x)[0] == NextPiece(a, x).text && Tokens(a, y)[0] == NextPiece(a, y).text;
  }

  /**
   * Where the loop comes to a comment, the same source without it has the same tokens unless a token
   * before the comment reaches over: a word goes on, a prefix meets its string, a quote its character.
   */
  lemma {:induction false} CommentAsNothing(a: Alphabet, before: string, comment: string, after: string)
    requires Usual(a) && EndsBefore(comment, after)
    requires Boundary(a, before + comment + after, |before|)
    ensures Tokens(a, before + comment + after) == Tokens(a, before + after)
       <==> !Joins(a, Pieces(a, before), after)
  {
    hide EndsBefore, NextPiece, Tokens, Joins, Reaches, Extends, Agree;
    var x, y, n := before + comment + after, before + after, |before|;
    if before == [] {
      assert x == comment + after && y == after;
      AfterComment(a, comment, after);
      NoJoins(a, after);
    } else {
      CommentApart(a, before, comment, after);
      CutBefore(a, before, comment, after);
      ReachesExtends(a, before, after);
      PieceExtends(a, x, y, n);
      JoinsFirst(a, Pieces(a, before), after);
      var p := NextPiece(a, x);
      var k := |p.text|;
      assert x[k..] == before[k..] + comment + after && y[k..] == before[k..] + after;
      assert Pieces(a, before)[1..] == Pieces(a, before[k..]);
      if Reaches(a, Pieces(a, before), after) {
        LongerToken(a, x, y);
      } else {
        TokenStep(a, x, y);
        CommentAsNothing(a, before[k..], comment, after);
      }
    }
  }

  lemma NoJoins(a: Alphabet, after: string)
    ensures !Joins(a, Pieces(a, ""), after)
  {
  }

  lemma CommentApart(a: Alphabet, before: string, comment: string, after: string)
    requires EndsBefore(comment, after) && before != []
    ensures var x, y, n := before + comment + after, before + after, |before|;
            Agree(x, y, n) && x[n] == '/' && x[..n] == before && y[n..] == after
  {
    var x, y, n := before + comment + after, before + after, |before|;
    assert x[n] == comment[0] && x[..n] == before && y[..n] == before && y[n..] == after;
  }
}
