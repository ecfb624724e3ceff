/** Literals stay whole: what stands between their delimiters is never taken for a comment. */
module RustLiterals {
  import opened Results
  import opened RustPieces

  /** A plain character of a string, or a backslash and the character it escapes. */
  predicate Unit(u: string) {
    (|u| == 1 && u[0] != '"' && u[0] != '\\') || (|u| == 2 && u[0] == '\\')
  }

  function Flat(units: seq<string>): string {
    if units == [] then "" else units[0] + Flat(units[1..])
  }

  lemma {:induction false} ScanUnits(units: seq<string>, after: string)
    requires forall i :: 0 <= i < |units| ==> Unit(units[i])
    ensures StringScan(Flat(units) + (['"'] + after)) == |Flat(units)| + 1
  {
    var s := Flat(units) + (['"'] + after);
    if units == [] {
      assert s == ['"'] + after;
    } else {
      var u, rest := units[0], Flat(units[1..]) + (['"'] + after);
      assert s == u + rest;
      assert s[|u|..] == rest;
      ScanUnits(units[1..], after);
    }
  }

  /** A string or byte string literal is one token, whatever comment openers and escaped quotes it holds. */
  lemma StringWhole(a: Alphabet, byte: bool, units: seq<string>, after: string)
    requires !a.space('"') && !a.space('b') && forall i :: 0 <= i < |units| ==> Unit(units[i])
    ensures var literal := (if byte then ['b'] else []) + (['"'] + (Flat(units) + ['"']));
            NextPiece(a, literal + after) == Code(literal)
  {
    ScanUnits(units, after);
    if byte {
      ByteQuotedWhole(a, Flat(units), after);
    } else {
      QuotedWhole(a, Flat(units), after);
      assert [] + (['"'] + (Flat(units) + ['"'])) == ['"'] + (Flat(units) + ['"']);
    }
  }

  /** A token's worth of characters is a piece of its own. */
  lemma CodePiece(a: Alphabet, literal: string, after: string)
    requires literal != "" && !a.space(literal[0]) && literal[0] != '/' && CodeLength(a, literal + after) == |literal|
    ensures NextPiece(a, literal + after) == Code(literal)
  {
    hide CodeLength;
    assert (literal + after)[..|literal|] == literal;
  }

  lemma QuotedLength(a: Alphabet, s: string)
    requires s != [] && s[0] == '"'
    ensures CodeLength(a, s) == 1 + StringScan(s[1..])
  {
    hide StringScan;
    assert RawOpening(s).None?;
  }

  lemma QuotedWhole(a: Alphabet, body: string, after: string)
    requires !a.space('"') && StringScan(body + (['"'] + after)) == |body| + 1
    ensures var literal := ['"'] + (body + ['"']);
            NextPiece(a, literal + after) == Code(literal)
  {
    hide StringScan, NextPiece, CodeLength;
    var literal := ['"'] + (body + ['"']);
    assert (literal + after)[1..] == body + (['"'] + after);
    QuotedLength(a, literal + after);
    CodePiece(a, literal, after);
  }

  lemma ByteQuotedLength(a: Alphabet, s: string)
    requires Pair(s, 'b', '"')
    ensures CodeLength(a, s) == 2 + StringScan(s[2..])
  {
    hide StringScan;
    assert RawOpening(s).None?;
  }

  lemma ByteQuotedWhole(a: Alphabet, body: string, after: string)
    requires !a.space('b') && StringScan(body + (['"'] + after)) == |body| + 1
    ensures var literal := ['b'] + (['"'] + (body + ['"']));
            NextPiece(a, literal + after) == Code(literal)
  {
    hide StringScan, NextPiece, CodeLength;
    var literal := ['b'] + (['"'] + (body + ['"']));
    assert (literal + after)[2..] == body + (['"'] + after);
    ByteQuotedLength(a, literal + after);
    CodePiece(a, literal, after);
  }

  function Hashes(n: nat): (r: string)
    ensures |r| == n
  {
    seq(n, _ => '#')
  }

  lemma {:induction false} HashRunOf(n: nat, after: string)
    requires after == [] || after[0] != '#'
    ensures HashRun(Hashes(n) + after) == n
  {
    var s := Hashes(n) + after;
    if n == 0 {
      assert s == after;
    } else {
      assert s[1..] == Hashes(n - 1) + after;
      HashRunOf(n - 1, after);
    }
  }

  lemma {:induction false} HashRunAtLeast(n: nat, after: string)
    ensures HashRun(Hashes(n) + after) >= n
  {
    var s := Hashes(n) + after;
    if n > 0 {
      assert s[1..] == Hashes(n - 1) + after;
      HashRunAtLeast(n - 1, after);
    }
  }

  /** Nothing inside the body closes the raw string: no quote is followed by that many hashes. */
  predicate Open(body: string, hashes: nat, after: string) {
    forall i :: 0 <= i < |body| && body[i] == '"' ==> HashRun(body[i + 1..] + (['"'] + after)) < hashes
  }

  lemma {:induction false} ScanRaw(body: string, hashes: nat, after: string)
    requires Open(body, hashes, Hashes(hashes) + after)
    ensures RawScan(body + (['"'] + (Hashes(hashes) + after)), hashes) == |body| + 1 + hashes
  {
    var closing := ['"'] + (Hashes(hashes) + after);
    var s := body + closing;
    if body == [] {
      assert s == closing;
      assert s[1..] == Hashes(hashes) + after;
      HashRunAtLeast(hashes, after);
    } else {
      assert s[1..] == body[1..] + closing;
      assert Open(body[1..], hashes, Hashes(hashes) + after) by {
        forall i | 0 <= i < |body[1..]| && body[1..][i] == '"'
          ensures HashRun(body[1..][i + 1..] + closing) < hashes
        {
          assert body[i + 1] == '"';
          assert body[1..][i + 1..] == body[i + 2..];
        }
      }
      ScanRaw(body[1..], hashes, after);
      if body[0] == '"' {
        assert HashRun(body[0 + 1..] + closing) < hashes;
      }
    }
  }

  lemma RawOpens(byte: bool, hashes: nat, rest: string)
    ensures var opening := (if byte then "br" else "r") + (Hashes(hashes) + ['"']);
            && RawOpening(opening + rest) == Some((|opening| - hashes - 1, hashes))
            && (opening + rest)[|opening|..] == rest
  {
    hide Hashes;
    var prefix, middle := if byte then "br" else "r", Hashes(hashes) + ['"'];
    var s := prefix + middle + rest;
    Dropped(prefix, middle, rest);
    assert middle + rest == Hashes(hashes) + (['"'] + rest);
    HashRunOf(hashes, ['"'] + rest);
    assert s[|prefix| + hashes] == middle[hashes] == '"';
    assert s[0] == prefix[0] && (byte ==> s[1] == 'r');
  }

  lemma Dropped(prefix: string, middle: string, rest: string)
    ensures (prefix + middle + rest)[|prefix|..] == middle + rest
    ensures (prefix + middle + rest)[|prefix| + |middle|..] == rest
  {
  }

  lemma RawLengthOf(a: Alphabet, s: string)
    requires s != [] && RawOpening(s).Some?
    ensures var o := RawOpening(s).value.0 + RawOpening(s).value.1 + 1;
            CodeLength(a, s) == o + RawScan(s[o..], RawOpening(s).value.1)
  {
  }

  /** A raw string literal is one token up to the first quote with as many hashes as it opened with. */
  lemma RawWhole(a: Alphabet, byte: bool, hashes: nat, body: string, after: string)
    requires !a.space('r') && !a.space('b') && Open(body, hashes, Hashes(hashes) + after)
    ensures var literal := (if byte then "br" else "r") + (Hashes(hashes) + ['"']) + (body + (['"'] + Hashes(hashes)));
            NextPiece(a, literal + after) == Code(literal)
  {
    hide NextPiece, CodeLength, RawOpening, RawScan, Open;
    var opening, rest := (if byte then "br" else "r") + (Hashes(hashes) + ['"']), body + (['"'] + Hashes(hashes));
    assert opening + rest + after == opening + (body + (['"'] + (Hashes(hashes) + after)));
    RawOpens(byte, hashes, body + (['"'] + (Hashes(hashes) + after)));
    RawLengthOf(a, opening + rest + after);
    ScanRaw(body, hashes, after);
    CodePiece(a, opening + rest, after);
  }

  /** A quoted character, plain or escaped, is one token; a quote that closes nothing is one of its own. */
  lemma CharWhole(a: Alphabet, c: char, after: string)
    requires !a.space('\'')
    ensures c != '\'' && c != '\\' && c != '\n' ==> NextPiece(a, ['\'', c, '\''] + after) == Code(['\'', c, '\''])
    ensures c != '\n' && c != 'u' && c != 'x' ==>
              NextPiece(a, ['\'', '\\', c, '\''] + after) == Code(['\'', '\\', c, '\''])
    ensures !a.word('\'') && c != '\\' && (after == [] || after[0] != '\'') ==>
              NextPiece(a, ['\'', c] + after) == Code("'")
  {
    var plain, escaped, lone := ['\'', c, '\''] + after, ['\'', '\\', c, '\''] + after, ['\'', c] + after;
    assert plain[..3] == ['\'', c, '\''];
    assert escaped[..4] == ['\'', '\\', c, '\''];
    assert lone[..1] == "'";
  }

  lemma {:induction false} HexRunOf(digits: string, after: string)
    requires forall i :: 0 <= i < |digits| ==> Hex(digits[i]) || digits[i] == '_'
    requires after != [] && !Hex(after[0]) && after[0] != '_'
    ensures HexRun(digits + after) == |digits|
  {
    if digits == [] {
      assert digits + after == after;
    } else {
      assert (digits + after)[1..] == digits[1..] + after;
      HexRunOf(digits[1..], after);
    }
  }

  lemma CharLengthOf(a: Alphabet, s: string)
    requires s != [] && s[0] == '\'' && CharLength(s) > 0
    ensures CodeLength(a, s) == CharLength(s)
  {
    hide CharLength;
    assert RawOpening(s).None?;
  }

  /** So are the two numeric escapes: two hexadecimal digits, or any number of them in braces. */
  lemma HexCharWhole(a: Alphabet, high: char, low: char, after: string)
    requires !a.space('\'') && Hex(high) && Hex(low)
    ensures NextPiece(a, ['\'', '\\', 'x', high, low, '\''] + after) == Code(['\'', '\\', 'x', high, low, '\''])
  {
    hide NextPiece, CodeLength;
    var literal := ['\'', '\\', 'x', high, low, '\''];
    assert CharLength(literal + after) == 6;
    CharLengthOf(a, literal + after);
    CodePiece(a, literal, after);
  }

  lemma UnicodeCharWhole(a: Alphabet, digits: string, after: string)
    requires !a.space('\'') && digits != [] && forall i :: 0 <= i < |digits| ==> Hex(digits[i]) || digits[i] == '_'
    ensures var literal := ['\'', '\\', 'u', '{'] + (digits + ['}', '\'']);
            NextPiece(a, literal + after) == Code(literal)
  {
    hide NextPiece, CodeLength;
    var literal := ['\'', '\\', 'u', '{'] + (digits + ['}', '\'']);
    var s := literal + after;
    assert s[4..] == digits + (['}', '\''] + after);
    HexRunOf(digits, ['}', '\''] + after);
    assert s[4 + |digits|] == '}' && s[5 + |digits|] == '\'';
    assert CharLength(s) == |literal|;
    CharLengthOf(a, s);
    CodePiece(a, literal, after);
  }

  /** A maximal run of word characters is one token, unless it opens a string. */
  lemma {:induction false} WordRun(a: Alphabet, word: string, after: string)
    requires (forall i :: 0 <= i < |word| ==> a.word(word[i])) && (after == [] || !a.word(after[0]))
    ensures WordLength(a, word + after) == |word|
  {
    if word == [] {
      assert word + after == after;
    } else {
      assert (word + after)[1..] == word[1..] + after;
      WordRun(a, word[1..], after);
    }
  }

  lemma WordWhole(a: Alphabet, word: string, after: string)
    requires word != [] && (forall i :: 0 <= i < |word| ==> a.word(word[i]) && !a.space(word[i]))
    requires (after == [] || !a.word(after[0])) && !a.word('/') && !a.word('"') && !a.word('\'') && !a.word('#')
    requires a.word('r') && (after == [] || (after[0] != '"' && after[0] != '#'))
    ensures NextPiece(a, word + after) == Code(word)
  {
    var s := word + after;
    WordRun(a, word, after);
    assert s[0] == word[0] && s[..|word|] == word;
    forall i | 0 <= i < |word| ensures s[i] == word[i] && word[i] != '"' && word[i] != '#' {
    }
    NoRaw(s, |word|);
  }

  /** Before any quote or hash no raw string opens. */
  lemma NoRaw(s: string, n: nat)
    requires 0 < n <= |s| && forall i :: 0 <= i <= n && i < |s| ==> s[i] != '"' && s[i] != '#'
    requires n < |s| ==> s[n] != 'r'
    ensures RawOpening(s).None? && !Pair(s, 'b', '"')
  {
    var skip := if Pair(s, 'b', 'r') then 2 else 1;
    if skip < |s| && skip <= n {
      assert s[skip..][0] == s[skip];
    }
  }

  // ---- Nothing else is a literal ------------------------------------------------------------------

  /** A whole character literal: one plain character, an escape, or a hexadecimal or Unicode escape. */
  predicate CharLiteral(t: string) {
    var n := |t|;
    && n >= 3 && t[0] == '\'' && t[n - 1] == '\''
    && (|| (n == 3 && t[1] != '\'' && t[1] != '\\' && t[1] != '\n')
        || (n == 4 && t[1] == '\\' && t[2] != '\n')
        || (n == 6 && t[1] == '\\' && t[2] == 'x' && Hex(t[3]) && Hex(t[4]))
        || (n >= 7 && t[1] == '\\' && t[2] == 'u' && t[3] == '{' && t[n - 2] == '}'
            && forall i :: 4 <= i < n - 2 ==> Hex(t[i]) || t[i] == '_'))
  }

  lemma {:induction false} HexRunIs(s: string)
    ensures forall i :: 0 <= i < HexRun(s) ==> Hex(s[i]) || s[i] == '_'
    ensures HexRun(s) < |s| ==> !Hex(s[HexRun(s)]) && s[HexRun(s)] != '_'
  {
    if s != [] && (Hex(s[0]) || s[0] == '_') {
      HexRunIs(s[1..]);
      assert forall i :: 0 < i < HexRun(s) ==> s[i] == s[1..][i - 1];
    }
  }

  lemma CharRead(s: string)
    requires CharLength(s) > 0
    ensures CharLiteral(s[..CharLength(s)])
  {
    var t := s[..CharLength(s)];
    assert forall i :: 0 <= i < |t| ==> t[i] == s[i];
    if |s| >= 4 {
      var rest := s[4..];
      HexRunIs(rest);
      assert forall i :: 0 <= i < |rest| ==> rest[i] == s[i + 4];
    }
  }

  lemma CharWritten(s: string, n: nat)
    requires n <= |s| && CharLiteral(s[..n])
    ensures CharLength(s) == n
  {
    var t := s[..n];
    assert forall i :: 0 <= i < n ==> t[i] == s[i];
    if n >= 7 && t[2] == 'u' && t[3] == '{' {
      var digits, after := s[4..n - 2], s[n - 2..];
      assert s[4..] == digits + after;
      forall i | 0 <= i < |digits| ensures Hex(digits[i]) || digits[i] == '_' {
        assert digits[i] == t[i + 4];
      }
      HexRunOf(digits, after);
    }
  }

  /** A character literal is found at the front exactly if the source begins with one, and only that long. */
  lemma CharExactly(s: string, n: nat)
    requires 0 < n <= |s|
    ensures CharLength(s) == n <==> CharLiteral(s[..n])
  {
    if CharLength(s) == n {
      CharRead(s);
    }
    if CharLiteral(s[..n]) {
      CharWritten(s, n);
    }
  }

  ghost predicate ClosedAfter(s: string, units: seq<string>, after: string) {
    (forall i :: 0 <= i < |units| ==> Unit(units[i])) && s == Flat(units) + (['"'] + after)
  }

  lemma OneMoreUnit(s: string, k: nat, rest: seq<string>, after: string)
    requires k <= |s| && Unit(s[..k]) && ClosedAfter(s[k..], rest, after)
    ensures ClosedAfter(s, [s[..k]] + rest, after)
  {
    var units := [s[..k]] + rest;
    assert units[1..] == rest;
    assert forall i :: 0 < i < |units| ==> units[i] == rest[i - 1];
    assert s == s[..k] + s[k..];
  }

  /** Either units and a quote come next, or the string is never closed and the token takes everything. */
  lemma {:induction false} StringExactly(s: string) returns (closed: bool, units: seq<string>, after: string)
    ensures closed ==> ClosedAfter(s, units, after) && StringScan(s) == |Flat(units)| + 1
    ensures !closed ==> StringScan(s) >= |s|
    decreases |s|
  {
    closed, units, after := false, [], "";
    if s != [] && s[0] == '"' {
      closed, after := true, s[1..];
      assert s == Flat([]) + (['"'] + after);
    } else if s != [] {
      var k := if s[0] == '\\' then 2 else 1;
      if k <= |s| {
        assert Unit(s[..k]);
        hide Unit, Flat, ClosedAfter;
        var rest;
        closed, rest, after := StringExactly(s[k..]);
        units := [s[..k]] + rest;
        if closed {
          OneMoreUnit(s, k, rest, after);
          ScanClosed(s, units, after);
        }
      }
    }
  }

  lemma ScanClosed(s: string, units: seq<string>, after: string)
    requires ClosedAfter(s, units, after)
    ensures StringScan(s) == |Flat(units)| + 1
  {
    ScanUnits(units, after);
  }

  /** A quote with enough hashes behind it. */
  predicate ClosesRaw(s: string, i: nat, hashes: nat) {
    i < |s| && s[i] == '"' && HashRun(s[i + 1..]) >= hashes
  }

  /** The first quote behind which enough hashes stand closes a raw string; without one it takes everything. */
  lemma {:induction false} RawExactly(s: string, hashes: nat)
    ensures var n := RawScan(s, hashes);
            || (n > hashes && ClosesRaw(s, n - 1 - hashes, hashes)
                && forall i: nat :: i < n - 1 - hashes ==> !ClosesRaw(s, i, hashes))
            || (n == |s| && forall i: nat :: !ClosesRaw(s, i, hashes))
  {
    if s != [] {
      assert s[0 + 1..] == s[1..];
      if !ClosesRaw(s, 0, hashes) {
        RawExactly(s[1..], hashes);
        forall i: nat ensures ClosesRaw(s, i + 1, hashes) <==> ClosesRaw(s[1..], i, hashes) {
          RawShifts(s, i, hashes);
        }
        var n := RawScan(s[1..], hashes);
        assert RawScan(s, hashes) == n + 1;
        hide ClosesRaw, RawScan;
        forall i: nat | i > 0 && !ClosesRaw(s[1..], i - 1, hashes) ensures !ClosesRaw(s, i, hashes) {
          assert ClosesRaw(s, (i - 1) + 1, hashes) <==> ClosesRaw(s[1..], i - 1, hashes);
        }
        if n > hashes && ClosesRaw(s[1..], n - 1 - hashes, hashes) {
          assert ClosesRaw(s, (n - 1 - hashes) + 1, hashes);
        }
      }
    }
  }

  lemma RawShifts(s: string, i: nat, hashes: nat)
    requires s != []
    ensures ClosesRaw(s, i + 1, hashes) <==> ClosesRaw(s[1..], i, hashes)
  {
    if i + 1 < |s| {
      assert s[1..][i + 1..] == s[i + 2..];
    }
  }

  // ---- Comments nest ----------------------------------------------------------------------------------

  lemma {:induction false} PlainSkipped(p: string, rest: string, depth: nat)
    requires depth > 0 && forall i :: 0 <= i < |p| ==> p[i] != '*' && p[i] != '/'
    ensures BlockScan(p + rest, depth)
         == BlockScan(rest, depth).(length := |p| + BlockScan(rest, depth).length)
  {
    var s := p + rest;
    if p == "" {
      assert s == rest;
    } else {
      assert s[1..] == p[1..] + rest;
      assert BlockMove(s, depth) == Scan(1, depth);
      ScanStep(s, depth, p[1..] + rest);
      PlainSkipped(p[1..], rest, depth);
    }
  }

  lemma OpensDeeper(s: string, depth: nat)
    requires depth > 0 && Pair(s, '/', '*')
    ensures var rest := BlockScan(s[2..], depth + 1); BlockScan(s, depth) == rest.(length := 2 + rest.length)
  {
  }

  lemma ClosesHere(depth: nat)
    requires depth > 0
    ensures BlockScan("*/", depth) == Scan(2, depth - 1)
  {
    hide BlockScan;
    assert "*/"[2..] == "";
    ScanStep("*/", depth, "");
    ScanStops("", depth - 1);
  }

  lemma FromClosed(inner: string)
    requires Closed(inner)
    ensures |inner| >= 2 && Pair(inner, '/', '*') && BlockScan(inner[2..], 1) == Scan(|inner[2..]|, 0)
  {
  }

  /** A comment inside a comment must be closed before the outer one is. */
  lemma CommentNests(p: string, inner: string, q: string)
    requires Closed(inner)
    requires forall i :: 0 <= i < |p| ==> p[i] != '*' && p[i] != '/'
    requires forall i :: 0 <= i < |q| ==> q[i] != '*' && q[i] != '/'
    ensures Closed("/*" + (p + (inner + (q + "*/"))))
  {
    hide BlockScan;
    var last := q + "*/";
    var middle := inner + last;
    var text := p + middle;
    FromClosed(inner);
    assert ("/*" + text)[2..] == text && middle[2..] == inner[2..] + last;
    PlainSkipped(p, middle, 1);
    assert Pair(middle, '/', '*');
    OpensDeeper(middle, 1);
    ClosedSkipped(inner[2..], last, 1, 1);
    PlainSkipped(q, "*/", 1);
    ClosesHere(1);
  }
}
