/**
  The public entry point `tokenize` (src/lexer.rs:31-88): one pass of
  `Scanner.Scan` from the start of the input on line 1, column 0, and
  `None` when nothing was pushed. `TokenizeLoop` is the same pass written
  as the source writes it, a loop over a cursor with mutable counters.
 */
module Lexer {
  import opened Tokens
  import opened Scanner

  /** The tokens of `s`, or `None` when the input holds only newlines,
      spaces and tabs (the empty input included). */
  function Tokenize(s: string): (r: Option<seq<Token>>)
    ensures r.None? <==> forall k :: 0 <= k < |s| ==> IsSkipped(s[k])
    ensures r.Some? ==> 0 < |r.value| <= |s|
    ensures r.Some? ==> forall t :: t in r.value ==> t.colNum == 0 && Lexeme(t.tokenType, t.literal)
    ensures r.Some? ==> Tiles(s, Literals(r.value))
  {
    var ts := Scan(s, 0, 1, 0);
    ScanEmptyIff(s, 0, 1, 0);
    ScanColumns(s, 0, 1, 0);
    ScanLexemes(s, 0, 1, 0);
    ScanTiles(s, 0, 1, 0);
    assert s[0..] == s;
    if |ts| == 0 then None else Some(ts)
  }

  /** The end of the run of `p`-characters from `i`, found by advancing a
      cursor one character at a time as `next_if` does. */
  method ScanRun(s: string, i: nat, p: char -> bool) returns (j: nat)
    requires i <= |s|
    ensures j == RunEnd(s, i, p)
  {
    j := i;
    while j < |s| && p(s[j])
      invariant i <= j <= |s|
      invariant RunEnd(s, j, p) == RunEnd(s, i, p)
      decreases |s| - j
    {
      j := j + 1;
    }
  }

  /** Pushing the token `Lex` emits at `i` moves the cursor past it and
      keeps the tokens pushed so far, followed by the rest of the scan,
      unchanged. */
  lemma ScanPush(s: string, i: nat, line: nat, col: nat, tokens: seq<Token>)
    requires i < |s| && Lex(s, i).Emit?
    ensures var j := Lex(s, i).end;
      i < j <= |s|
      && (tokens + [Token(Lex(s, i).kind, s[i..j], line, col)]) + Scan(s, j, line, col)
         == tokens + Scan(s, i, line, col)
  {
    var j := Lex(s, i).end;
    var token := Token(Lex(s, i).kind, s[i..j], line, col);
    assert Scan(s, i, line, col) == [token] + Scan(s, j, line, col);
    assert (tokens + [token]) + Scan(s, j, line, col) == tokens + ([token] + Scan(s, j, line, col));
  }

  /** `tokenize` as a loop. Each turn classifies the character at the
      cursor in the source's order (newline, punctuation, space or tab,
      letter run, `is_digit` run, `Illegal`), then bumps `line` and resets
      `col`, skips, or pushes one token; `None` when no token was pushed. */
  method TokenizeLoop(s: string) returns (r: Option<seq<Token>>)
    ensures r == Tokenize(s)
  {
    var tokens: seq<Token> := [];
    var line: nat := 1;
    var col: nat := 0;
    var i: nat := 0;
    while i < |s|
      invariant i <= |s|
      invariant tokens + Scan(s, i, line, col) == Scan(s, 0, 1, 0)
      decreases |s| - i
    {
      var c := s[i];
      if c == '\n' {
        ScanStep(s, i, line, col);
        line, col, i := line + 1, 0, i + 1;
        continue;
      }
      var kind: TokenType, j: nat;
      match Punctuation(c) {
        case Some(k) =>
          kind, j := k, i + 1;
        case None =>
          if IsBlank(c) {
            ScanStep(s, i, line, col);
            i := i + 1;
            continue;
          } else if IsLetter(c) {
            j := ScanRun(s, i + 1, IsLetter);
            kind := Identifier;
          } else if IsDigit(c) {
            j := ScanRun(s, i + 1, IsDigit);
            kind := Constant;
          } else {
            kind, j := Illegal, i + 1;
          }
      }
      assert Lex(s, i) == Emit(kind, j);
      ScanPush(s, i, line, col, tokens);
      tokens, i := tokens + [Token(kind, s[i..j], line, col)], j;
    }
    assert tokens == Scan(s, 0, 1, 0);
    if |tokens| == 0 {
      return None;
    }
    return Some(tokens);
  }

  /** Line numbers: the token at input offset `o` is on line 1 plus the
      number of newlines in `s[..o]`; offsets increase in token order and
      each literal is the input at its offset. */
  lemma TokenizePositions(s: string)
    requires Tokenize(s).Some?
    ensures var ts, os := Tokenize(s).value, Starts(s, 0);
      && |os| == |ts|
      && (forall k :: 0 <= k < |ts| ==>
            Placed(s, ts[k], os[k]) && ts[k].lineNum == 1 + NewlinesBetween(s, 0, os[k]))
      && (forall k :: 0 <= k < |ts| - 1 ==> os[k] + |ts[k].literal| <= os[k + 1])
  {
    ScanPlacement(s, 0, 1, 0);
    ScanOrdered(s, 0, 1, 0);
    ScanLines(s, 0, 1, 0);
  }

  /** Line numbers never decrease along the token sequence: a later
      token's line exceeds an earlier one's by the number of newlines
      between their offsets. */
  lemma TokenizeLinesAdvance(s: string)
    requires Tokenize(s).Some?
    ensures var ts, os := Tokenize(s).value, Starts(s, 0);
      && |os| == |ts|
      && forall a, b :: 0 <= a < b < |ts| ==>
           os[a] < os[b] <= |s|
           && ts[b].lineNum == ts[a].lineNum + NewlinesBetween(s, os[a], os[b])
           && ts[a].lineNum <= ts[b].lineNum
  {
    var ts, os := Tokenize(s).value, Starts(s, 0);
    ScanLexemes(s, 0, 1, 0);
    ScanSeparated(s, 0, 1, 0);
    ScanLines(s, 0, 1, 0);
    forall a, b | 0 <= a < b < |ts|
      ensures os[a] < os[b] <= |s|
      ensures ts[b].lineNum == ts[a].lineNum + NewlinesBetween(s, os[a], os[b])
    {
      assert ts[a] in ts;
      NewlinesSplit(s, 0, os[a], os[b]);
    }
  }

  /** Every character other than a newline, space or tab lies inside the
      literal of one of the returned tokens, at the offset `Starts`
      records for it. */
  lemma TokenizeCovers(s: string, p: nat)
    requires p < |s| && !IsSkipped(s[p])
    ensures Tokenize(s).Some?
    ensures Covered(Tokenize(s).value, Starts(s, 0), p)
  {
    assert Tokenize(s) == Some(Scan(s, 0, 1, 0)) by {
      ScanEmptyIff(s, 0, 1, 0);
    }
    ScanCovers(s, 0, 1, 0, p);
  }

  /** A character that is neither skipped nor a letter nor an `is_digit`
      digit (a punctuation character, an ASCII decimal digit, `=`, `,`,
      `[`, `]`, ...) is a token of its own, wherever it appears: a
      punctuation token of its mapped kind, or else `Illegal`. */
  lemma TokenizeSingleCharacter(s: string, p: nat)
    requires p < |s|
    requires !IsSkipped(s[p]) && !IsLetter(s[p]) && !IsDigit(s[p])
    ensures Tokenize(s).Some?
    ensures TokenAt(Tokenize(s).value, Starts(s, 0), p, SingleKind(s[p]), [s[p]])
  {
    assert Tokenize(s) == Some(Scan(s, 0, 1, 0)) by {
      ScanEmptyIff(s, 0, 1, 0);
    }
    ScanSingleCharacter(s, 0, 1, 0, p);
  }

  /** ASCII '0'..'9' never start or join a `Constant`: each one is a
      one-character `Illegal` token. */
  lemma TokenizeAsciiDigit(s: string, p: nat)
    requires p < |s| && '0' <= s[p] <= '9'
    ensures Tokenize(s).Some?
    ensures TokenAt(Tokenize(s).value, Starts(s, 0), p, Illegal, [s[p]])
  {
    ClassesAreDisjoint(s[p]);
    TokenizeSingleCharacter(s, p);
  }

  /** Without newlines, spaces and tabs in the input, the literals put
      back together are the input itself. */
  lemma {:induction false} TilesWithoutSkips(s: string, lits: seq<string>)
    requires Tiles(s, lits)
    requires forall k :: 0 <= k < |s| ==> !IsSkipped(s[k])
    ensures Concat(lits) == s
    decreases |s|
  {
    if |s| > 0 {
      var n := |lits[0]|;
      assert forall k :: 0 <= k < |s| - n ==> s[n..][k] == s[n + k];
      TilesWithoutSkips(s[n..], lits[1..]);
      assert s == lits[0] + s[n..];
    }
  }

  /** The round trip for inputs free of newlines, spaces and tabs. */
  lemma TokenizeConcat(s: string)
    requires |s| > 0
    requires forall k :: 0 <= k < |s| ==> !IsSkipped(s[k])
    ensures Tokenize(s).Some?
    ensures Concat(Literals(Tokenize(s).value)) == s
  {
    TilesWithoutSkips(s, Literals(Tokenize(s).value));
  }

  /** Each of the twelve punctuation characters alone is one token. */
  lemma TokenizePunctuation(c: char)
    requires Punctuation(c).Some?
    ensures Tokenize([c]) == Some([Token(Punctuation(c).value, [c], 1, 0)])
  {
    var s := [c];
    assert Lex(s, 0) == Emit(Punctuation(c).value, 1);
    assert Scan(s, 1, 1, 0) == [];
    assert s[0..1] == [c];
    assert Scan(s, 0, 1, 0) == [Token(Punctuation(c).value, [c], 1, 0)];
  }

  /** `Tokenize` wraps the scan from line 1, column 0, when it is not empty. */
  lemma TokenizeNonEmptyScan(s: string, ts: seq<Token>)
    requires Scan(s, 0, 1, 0) == ts && |ts| > 0
    ensures Tokenize(s) == Some(ts)
  {
  }

  /** Blank input, the empty one included, yields nothing. */
  lemma ExampleBlank()
    ensures Tokenize("") == None
    ensures Tokenize(" \t\n\n ") == None
  {
  }

  /** A newline moves the next token to line 2 and leaves the column 0. */
  lemma ExampleNewline()
    ensures Tokenize("ab\ncd") == Some([Token(Identifier, "ab", 1, 0), Token(Identifier, "cd", 2, 0)])
  {
    var s := "ab\ncd";
    var ab, cd := Token(Identifier, "ab", 1, 0), Token(Identifier, "cd", 2, 0);
    assert Scan(s, 3, 2, 0) == [cd] by {
      assert Lex(s, 3) == Emit(Identifier, 5) by { assert RunEnd(s, 4, IsLetter) == 5; }
      assert s[3..5] == "cd";
    }
    assert Scan(s, 2, 1, 0) == [cd] by { assert Lex(s, 2) == Newline; }
    assert Scan(s, 0, 1, 0) == [ab, cd] by {
      assert Lex(s, 0) == Emit(Identifier, 2) by { assert RunEnd(s, 1, IsLetter) == 2; }
      assert s[0..2] == "ab";
    }
  }

  /** `=` and ASCII `1` are illegal characters, and blanks between tokens
      leave no trace. The input is a parameter fixed by the precondition
      rather than a literal in the contract: with the literal inlined, the
      solver unfolds `Tokenize`'s contract on it and the proof costs
      several times more. */
  lemma ExampleAssignment(s: string)
    requires s == "x = 1;"
    ensures Tokenize(s) == Some([Token(Identifier, "x", 1, 0), Token(Illegal, "=", 1, 0),
                                        Token(Illegal, "1", 1, 0), Token(SemiColon, ";", 1, 0)])
  {
    var x, eq, one, semi := Token(Identifier, "x", 1, 0), Token(Illegal, "=", 1, 0),
                            Token(Illegal, "1", 1, 0), Token(SemiColon, ";", 1, 0);
    assert Scan(s, 0, 1, 0) == [x, eq, one, semi] by {
      assert Scan(s, 5, 1, 0) == [semi] by {
        assert Lex(s, 5) == Emit(SemiColon, 6);
        assert s[5..6] == ";";
      }
      assert Scan(s, 4, 1, 0) == [one, semi] by {
        assert Lex(s, 4) == Emit(Illegal, 5);
        assert s[4..5] == "1";
      }
      assert Scan(s, 3, 1, 0) == [one, semi] by { assert Lex(s, 3) == Blank; }
      assert Scan(s, 2, 1, 0) == [eq, one, semi] by {
        assert Lex(s, 2) == Emit(Illegal, 3);
        assert s[2..3] == "=";
      }
      assert Scan(s, 1, 1, 0) == [eq, one, semi] by { assert Lex(s, 1) == Blank; }
      assert Scan(s, 0, 1, 0) == [x, eq, one, semi] by {
        assert Lex(s, 0) == Emit(Identifier, 1) by { assert RunEnd(s, 1, IsLetter) == 1; }
        assert s[0..1] == "x";
      }
    }
    TokenizeNonEmptyScan(s, [x, eq, one, semi]);
  }

  /** Control characters form a `Constant`, and a tab inside the run is
      absorbed into it. */
  lemma ExampleControlConstant()
    ensures Tokenize("\U{1}\t\U{2}") == Some([Token(Constant, "\U{1}\t\U{2}", 1, 0)])
  {
    var s := "\U{1}\t\U{2}";
    assert Lex(s, 0) == Emit(Constant, 3) by {
      assert RunEnd(s, 3, IsDigit) == 3;
      assert RunEnd(s, 1, IsDigit) == 3;
    }
    assert Scan(s, 3, 1, 0) == [];
    assert s[0..3] == s;
    assert Scan(s, 0, 1, 0) == [Token(Constant, s, 1, 0)];
  }
}
