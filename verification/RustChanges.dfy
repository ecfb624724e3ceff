/** What it means that two sources have the same tokens: the question a comment-only change is about. */
module RustChanges {
  import opened RustPieces

  /** The texts of the code among the pieces. */
  function CodeTexts(pieces: seq<Piece>): seq<string> {
    if pieces == [] then []
    else (if pieces[0].Code? then [pieces[0].text] else []) + CodeTexts(pieces[1..])
  }

  predicate EndsUnclosed(pieces: seq<Piece>) {
    pieces != [] && pieces[|pieces| - 1].Unclosed?
  }

  /** No token of code reads like the marker, which has blanks in it and begins like a word. */
  lemma CodeIsNoMarker(a: Alphabet, rest: string)
    requires rest != [] && !a.word(' ') && NextPiece(a, rest).Code?
    ensures NextPiece(a, rest).text != UNTERMINATED
  {
    var text := NextPiece(a, rest).text;
    if text == UNTERMINATED {
      assert rest[0] == text[0] == 'u' && rest[12] == text[12] == ' ';
      assert RawOpening(rest).None? && CharLength(rest) == 0;
      WordStops(a, rest, 12);
      assert false;
    }
  }

  lemma {:induction false} WordStops(a: Alphabet, rest: string, i: nat)
    requires i < |rest| && !a.word(rest[i])
    ensures WordLength(a, rest) <= i
  {
    if i > 0 {
      WordStops(a, rest[1..], i - 1);
    }
  }

  /** The tokens are the code texts, and the marker at the end if a comment is left open there. */
  lemma {:induction false} TokensAre(a: Alphabet, source: string)
    requires !a.word(' ')
    ensures var pieces := Pieces(a, source);
            && Tokens(a, source) == CodeTexts(pieces) + (if EndsUnclosed(pieces) then [UNTERMINATED] else [])
            && UNTERMINATED !in CodeTexts(pieces)
  {
    hide NextPiece, CodeTexts, EndsUnclosed, Apt;
    if source == [] {
      NothingToCut();
    } else {
      var p := NextPiece(a, source);
      var rest := source[|p.text|..];
      if p.Code? {
        CodeIsNoMarker(a, source);
      }
      NextIsApt(a, source);
      TokensAre(a, rest);
      OnePieceMore(p, Pieces(a, rest));
    }
  }

  lemma NothingToCut()
    ensures CodeTexts([]) == [] && !EndsUnclosed([])
  {
  }

  lemma OnePieceMore(p: Piece, pieces: seq<Piece>)
    ensures CodeTexts([p] + pieces) == (if p.Code? then [p.text] else []) + CodeTexts(pieces)
    ensures EndsUnclosed([p] + pieces) <==> if pieces == [] then p.Unclosed? else EndsUnclosed(pieces)
    ensures EndsUnclosed([p]) <==> p.Unclosed?
  {
    assert ([p] + pieces)[1..] == pieces;
  }

  /**
   * Two sources have the same tokens exactly if they have the same code pieces in the same order,
   * and both or neither leave a comment open.
   */
  lemma SameTokensExactly(a: Alphabet, x: string, y: string)
    requires !a.word(' ')
    ensures Tokens(a, x) == Tokens(a, y) <==>
      && CodeTexts(Pieces(a, x)) == CodeTexts(Pieces(a, y))
      && (EndsUnclosed(Pieces(a, x)) <==> EndsUnclosed(Pieces(a, y)))
  {
    TokensAre(a, x);
    TokensAre(a, y);
    hide Tokens, CodeTexts, EndsUnclosed, Pieces;
    SameWithMarker(CodeTexts(Pieces(a, x)), EndsUnclosed(Pieces(a, x)), CodeTexts(Pieces(a, y)),
                   EndsUnclosed(Pieces(a, y)));
  }

  lemma SameWithMarker(c: seq<string>, open: bool, d: seq<string>, other: bool)
    requires UNTERMINATED !in c && UNTERMINATED !in d
    ensures c + (if open then [UNTERMINATED] else []) == d + (if other then [UNTERMINATED] else [])
            <==> c == d && open == other
  {
    var s, t := c + (if open then [UNTERMINATED] else []), d + (if other then [UNTERMINATED] else []);
    if s == t {
      assert open ==> s[|s| - 1] == UNTERMINATED;
      assert other ==> t[|t| - 1] == UNTERMINATED;
      assert !open && s != [] ==> s[|s| - 1] in c;
      assert !other && t != [] ==> t[|t| - 1] in d;
      assert c == s[..|c|] && d == t[..|d|];
    }
  }

  /** Blanks between pieces do not count: one shift operator and two comparisons have the same tokens. */
  lemma ShiftOrComparisons(a: Alphabet)
    requires a.space(' ') && !a.space('>') && !a.word('>')
    ensures Tokens(a, ">>") == Tokens(a, "> >") == [">", ">"]
  {
    OneCharacter(a, ">");
    OneCharacter(a, ">>");
    OneCharacter(a, "> >");
    assert ">>"[1..] == ">" && "> >"[1..] == " >" && " >"[1..] == ">" && ">"[1..] == "";
    assert NextPiece(a, " >") == Blank(" ");
    assert Tokens(a, ">") == [">"];
    assert Tokens(a, " >") == [">"];
  }

  lemma OneCharacter(a: Alphabet, s: string)
    requires s != [] && s[0] == '>' && !a.space('>') && !a.word('>')
    ensures NextPiece(a, s) == Code(">")
  {
    assert RawOpening(s).None? && CharLength(s) == 0 && WordLength(a, s) == 0;
    assert s[..1] == ">";
  }
}
