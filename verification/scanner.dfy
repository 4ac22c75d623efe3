/**
  The scanning pass of `tokenize` (src/lexer.rs:31-83), as a recursion over
  a cursor `i` into the whole input. `Lex` is one turn of the source's
  `loop`; `Scan` is the loop itself, carrying the line and column counters.
 */
module Scanner {
  import opened Tokens

  /** The end of the maximal run of characters satisfying `p` that starts
      at `i` (the `while let Some(t) = chars.next_if(..)` loops). */
  function RunEnd(s: string, i: nat, p: char -> bool): (j: nat)
    requires i <= |s|
    ensures i <= j <= |s|
    ensures forall k :: i <= k < j ==> p(s[k])
    ensures j == |s| || !p(s[j])
    decreases |s| - i
  {
    if i == |s| || !p(s[i]) then i else RunEnd(s, i + 1, p)
  }

  /** What one turn of the loop does with the character at the cursor:
      count a newline, skip a blank, or emit a token of `kind` whose
      literal ends just before `end`. */
  datatype Step = Newline | Blank | Emit(kind: TokenType, end: nat)

  /** A run-length token cannot be extended: the character after it, if
      any, does not belong to its class. */
  ghost predicate Maximal(s: string, kind: TokenType, end: nat)
    requires end <= |s|
  {
    && (kind == Identifier ==> end == |s| || !IsLetter(s[end]))
    && (kind == Constant ==> end == |s| || !IsDigit(s[end]))
  }

  /** One turn of the loop at cursor `i` (src/lexer.rs:39-79). */
  function Lex(s: string, i: nat): (st: Step)
    requires i < |s|
    ensures st.Newline? <==> s[i] == '\n'
    ensures st.Blank? <==> IsBlank(s[i])
    ensures st.Emit? ==> i < st.end <= |s|
  {
    var c := s[i];
    if c == '\n' then Newline
    else match Punctuation(c)
      case Some(k) => Emit(k, i + 1)
      case None =>
        if IsBlank(c) then Blank
        else if IsLetter(c) then Emit(Identifier, RunEnd(s, i + 1, IsLetter))
        else if IsDigit(c) then Emit(Constant, RunEnd(s, i + 1, IsDigit))
        else Emit(Illegal, i + 1)
  }

  /** What `Lex` emits is a lexeme of its kind and cannot be extended. */
  lemma LexEmits(s: string, i: nat)
    requires i < |s|
    ensures var st := Lex(s, i);
      st.Emit? ==> Lexeme(st.kind, s[i..st.end]) && Maximal(s, st.kind, st.end)
  {
  }

  /** The tokens the loop pushes from cursor `i` on, given the current
      line and column. The column is only ever reset, never advanced. */
  function Scan(s: string, i: nat, line: nat, col: nat): (ts: seq<Token>)
    requires i <= |s|
    ensures |ts| <= |s| - i
    decreases |s| - i
  {
    if i == |s| then []
    else match Lex(s, i)
      case Newline => Scan(s, i + 1, line + 1, 0)
      case Blank => Scan(s, i + 1, line, col)
      case Emit(kind, j) => [Token(kind, s[i..j], line, col)] + Scan(s, j, line, col)
  }

  /** One step of `Scan`, stated by what `Lex` decides at the cursor. */
  lemma ScanStep(s: string, i: nat, line: nat, col: nat)
    requires i < |s|
    ensures Lex(s, i).Newline? ==> Scan(s, i, line, col) == Scan(s, i + 1, line + 1, 0)
    ensures Lex(s, i).Blank? ==> Scan(s, i, line, col) == Scan(s, i + 1, line, col)
    ensures Lex(s, i).Emit? ==>
      var j := Lex(s, i).end;
      Scan(s, i, line, col) == [Token(Lex(s, i).kind, s[i..j], line, col)] + Scan(s, j, line, col)
  {
  }

  /** The input offset of the first character of each token `Scan`
      produces from cursor `i`; the source does not keep it. */
  ghost function Starts(s: string, i: nat): seq<nat>
    requires i <= |s|
    decreases |s| - i
  {
    if i == |s| then []
    else match Lex(s, i)
      case Emit(_, j) => [i] + Starts(s, j)
      case _ => Starts(s, i + 1)
  }

  /** The number of newline characters in `s[a..b]`. */
  ghost function NewlinesBetween(s: string, a: nat, b: nat): nat
    requires a <= b <= |s|
    decreases b - a
  {
    if a == b then 0
    else (if s[a] == '\n' then 1 else 0) + NewlinesBetween(s, a + 1, b)
  }

  /** The literals of a token sequence, in order. */
  function Literals(ts: seq<Token>): (lits: seq<string>)
    ensures |lits| == |ts|
    ensures forall k :: 0 <= k < |ts| ==> lits[k] == ts[k].literal
  {
    seq(|ts|, k requires 0 <= k < |ts| => ts[k].literal)
  }

  /** `s` is the literals `lits`, in order and each contiguous, with only
      newlines, spaces and tabs between, before and after them; no literal
      starts with one of those. */
  ghost predicate Tiles(s: string, lits: seq<string>)
    decreases |s|
  {
    if |s| == 0 then lits == []
    else if IsSkipped(s[0]) then Tiles(s[1..], lits)
    else |lits| > 0 && 0 < |lits[0]| <= |s| && lits[0] == s[..|lits[0]|] && Tiles(s[|lits[0]|..], lits[1..])
  }

  /** The concatenation of a sequence of strings. */
  function Concat(lits: seq<string>): string
  {
    if |lits| == 0 then [] else lits[0] + Concat(lits[1..])
  }

  /** Scanning produces nothing exactly when every remaining character is a
      newline, space or tab. */
  lemma {:induction false} ScanEmptyIff(s: string, i: nat, line: nat, col: nat)
    requires i <= |s|
    ensures |Scan(s, i, line, col)| == 0 <==> forall k :: i <= k < |s| ==> IsSkipped(s[k])
    decreases |s| - i
  {
    if i < |s| {
      match Lex(s, i)
      case Newline =>
        assert Scan(s, i, line, col) == Scan(s, i + 1, line + 1, 0);
        ScanEmptyIff(s, i + 1, line + 1, 0);
      case Blank =>
        assert Scan(s, i, line, col) == Scan(s, i + 1, line, col);
        ScanEmptyIff(s, i + 1, line, col);
      case Emit(kind, j) =>
        assert Scan(s, i, line, col) == [Token(kind, s[i..j], line, col)] + Scan(s, j, line, col);
    }
  }

  /** Every token carries the starting column or 0; the column counter is
      assigned nothing else. */
  lemma {:induction false} ScanColumns(s: string, i: nat, line: nat, col: nat)
    requires i <= |s|
    ensures forall t :: t in Scan(s, i, line, col) ==> t.colNum == col || t.colNum == 0
    decreases |s| - i
  {
    if i < |s| {
      match Lex(s, i)
      case Newline =>
        assert Scan(s, i, line, col) == Scan(s, i + 1, line + 1, 0);
        ScanColumns(s, i + 1, line + 1, 0);
      case Blank =>
        assert Scan(s, i, line, col) == Scan(s, i + 1, line, col);
        ScanColumns(s, i + 1, line, col);
      case Emit(kind, j) =>
        assert Scan(s, i, line, col) == [Token(kind, s[i..j], line, col)] + Scan(s, j, line, col);
        ScanColumns(s, j, line, col);
    }
  }

  /** Every token's literal has the shape its kind prescribes. */
  lemma {:induction false} ScanLexemes(s: string, i: nat, line: nat, col: nat)
    requires i <= |s|
    ensures forall t :: t in Scan(s, i, line, col) ==> Lexeme(t.tokenType, t.literal)
    decreases |s| - i
  {
    if i < |s| {
      match Lex(s, i)
      case Newline =>
        assert Scan(s, i, line, col) == Scan(s, i + 1, line + 1, 0);
        ScanLexemes(s, i + 1, line + 1, 0);
      case Blank =>
        assert Scan(s, i, line, col) == Scan(s, i + 1, line, col);
        ScanLexemes(s, i + 1, line, col);
      case Emit(kind, j) =>
        assert Scan(s, i, line, col) == [Token(kind, s[i..j], line, col)] + Scan(s, j, line, col);
        LexEmits(s, i);
        ScanLexemes(s, j, line, col);
    }
  }

  /** Reading the rest of the input from `i`: it is the token literals in
      order, separated only by newlines, spaces and tabs. */
  lemma {:induction false} ScanTiles(s: string, i: nat, line: nat, col: nat)
    requires i <= |s|
    ensures Tiles(s[i..], Literals(Scan(s, i, line, col)))
    decreases |s| - i
  {
    if i < |s| {
      match Lex(s, i)
      case Newline =>
        assert Scan(s, i, line, col) == Scan(s, i + 1, line + 1, 0);
        ScanTiles(s, i + 1, line + 1, 0);
        TilesSkip(s, i, Literals(Scan(s, i + 1, line + 1, 0)));
      case Blank =>
        assert Scan(s, i, line, col) == Scan(s, i + 1, line, col);
        ScanTiles(s, i + 1, line, col);
        TilesSkip(s, i, Literals(Scan(s, i + 1, line, col)));
      case Emit(kind, j) =>
        var tail := Scan(s, j, line, col);
        assert Scan(s, i, line, col) == [Token(kind, s[i..j], line, col)] + tail;
        assert Literals([Token(kind, s[i..j], line, col)] + tail) == [s[i..j]] + Literals(tail);
        ScanTiles(s, j, line, col);
        TilesLiteral(s, i, j, Literals(tail));
    }
  }

  /** A skipped character in front of a tiling is part of the tiling. */
  lemma TilesSkip(s: string, i: nat, lits: seq<string>)
    requires i < |s| && IsSkipped(s[i])
    requires Tiles(s[i + 1..], lits)
    ensures Tiles(s[i..], lits)
  {
    assert s[i..][1..] == s[i + 1..];
  }

  /** A literal `s[i..j]` in front of a tiling of `s[j..]` extends it. */
  lemma TilesLiteral(s: string, i: nat, j: nat, lits: seq<string>)
    requires i < j <= |s| && !IsSkipped(s[i])
    requires Tiles(s[j..], lits)
    ensures Tiles(s[i..], [s[i..j]] + lits)
  {
    var rest, all := s[i..], [s[i..j]] + lits;
    assert rest[0] == s[i];
    assert all[0] == rest[..j - i];
    assert rest[j - i..] == s[j..];
    assert all[1..] == lits;
  }

  /** A newline-free stretch `s[a..b]` adds nothing to the newline count. */
  lemma {:induction false} NewlinesSkip(s: string, a: nat, b: nat, o: nat)
    requires a <= b <= o <= |s|
    requires forall k :: a <= k < b ==> s[k] != '\n'
    ensures NewlinesBetween(s, a, o) == NewlinesBetween(s, b, o)
    decreases b - a
  {
    if a < b {
      NewlinesSkip(s, a + 1, b, o);
    }
  }

  /** Newline counts add up over adjacent stretches. */
  lemma {:induction false} NewlinesSplit(s: string, a: nat, b: nat, c: nat)
    requires a <= b <= c <= |s|
    ensures NewlinesBetween(s, a, c) == NewlinesBetween(s, a, b) + NewlinesBetween(s, b, c)
    decreases b - a
  {
    if a < b {
      NewlinesSplit(s, a + 1, b, c);
    }
  }

  /** Token `t` sits at offset `o` of `s`: its literal is the input from
      `o` on, and a run-length token is not followed by another character
      of its class. */
  ghost predicate Placed(s: string, t: Token, o: nat) {
    && o + |t.literal| <= |s|
    && s[o..o + |t.literal|] == t.literal
    && Maximal(s, t.tokenType, o + |t.literal|)
  }

  /** Where the tokens sit in the input: one start offset per token, at or
      after the cursor, each token placed at its offset. */
  lemma {:induction false} ScanPlacement(s: string, i: nat, line: nat, col: nat)
    requires i <= |s|
    ensures var ts, os := Scan(s, i, line, col), Starts(s, i);
      && |os| == |ts|
      && (forall k :: 0 <= k < |ts| ==> i <= os[k] && Placed(s, ts[k], os[k]))
    decreases |s| - i
  {
    StartsLength(s, i, line, col);
    if i < |s| {
      var ts, os := Scan(s, i, line, col), Starts(s, i);
      match Lex(s, i)
      case Newline =>
        assert ts == Scan(s, i + 1, line + 1, 0) && os == Starts(s, i + 1);
        ScanPlacement(s, i + 1, line + 1, 0);
      case Blank =>
        assert ts == Scan(s, i + 1, line, col) && os == Starts(s, i + 1);
        ScanPlacement(s, i + 1, line, col);
      case Emit(kind, j) =>
        var t := Token(kind, s[i..j], line, col);
        var tail, tailOs := Scan(s, j, line, col), Starts(s, j);
        assert ts == [t] + tail && os == [i] + tailOs;
        assert Placed(s, t, i) by {
          LexEmits(s, i);
        }
        ScanPlacement(s, j, line, col);
        forall k | 0 < k < |ts|
          ensures i <= os[k] && Placed(s, ts[k], os[k])
        {
          assert ts[k] == tail[k - 1] && os[k] == tailOs[k - 1];
        }
    }
  }

  /** No two tokens overlap: any token ends at or before the offset of
      every later one. */
  lemma {:induction false} ScanSeparated(s: string, i: nat, line: nat, col: nat)
    requires i <= |s|
    ensures var ts, os := Scan(s, i, line, col), Starts(s, i);
      && |os| == |ts|
      && (forall k :: 0 <= k < |ts| ==> i <= os[k])
      && (forall a, b :: 0 <= a < b < |ts| ==> os[a] + |ts[a].literal| <= os[b])
    decreases |s| - i
  {
    StartsLength(s, i, line, col);
    if i < |s| {
      var ts, os := Scan(s, i, line, col), Starts(s, i);
      match Lex(s, i)
      case Newline =>
        assert ts == Scan(s, i + 1, line + 1, 0) && os == Starts(s, i + 1);
        ScanSeparated(s, i + 1, line + 1, 0);
      case Blank =>
        assert ts == Scan(s, i + 1, line, col) && os == Starts(s, i + 1);
        ScanSeparated(s, i + 1, line, col);
      case Emit(kind, j) =>
        var tail, tailOs := Scan(s, j, line, col), Starts(s, j);
        assert ts == [Token(kind, s[i..j], line, col)] + tail && os == [i] + tailOs;
        ScanSeparated(s, j, line, col);
        SeparatedCons(Token(kind, s[i..j], line, col), i, tail, tailOs, j);
    }
  }

  /** Putting a token that ends by `bound` in front of tokens that all
      start at or after `bound` keeps every pair apart. */
  lemma SeparatedCons(t: Token, o: nat, ts: seq<Token>, os: seq<nat>, bound: nat)
    requires |os| == |ts| && o + |t.literal| <= bound
    requires forall k :: 0 <= k < |ts| ==> bound <= os[k]
    requires forall a, b :: 0 <= a < b < |ts| ==> os[a] + |ts[a].literal| <= os[b]
    ensures forall k :: 0 <= k < |ts| + 1 ==> o <= ([o] + os)[k]
    ensures forall a, b :: 0 <= a < b < |ts| + 1 ==>
      ([o] + os)[a] + |([t] + ts)[a].literal| <= ([o] + os)[b]
  {
    var ts', os' := [t] + ts, [o] + os;
    forall a, b | 0 <= a < b < |ts'|
      ensures os'[a] + |ts'[a].literal| <= os'[b]
    {
      assert os'[b] == os[b - 1];
      if a > 0 {
        assert ts'[a] == ts[a - 1] && os'[a] == os[a - 1];
      }
    }
  }

  /** Tokens come in input order and do not overlap: each one ends at or
      before the offset where the next one starts. The consecutive case
      of `ScanSeparated`. */
  lemma ScanOrdered(s: string, i: nat, line: nat, col: nat)
    requires i <= |s|
    ensures var ts, os := Scan(s, i, line, col), Starts(s, i);
      && |os| == |ts|
      && (forall k :: 0 <= k < |ts| ==> i <= os[k])
      && (forall k :: 0 <= k < |ts| - 1 ==> os[k] + |ts[k].literal| <= os[k + 1])
  {
    var ts, os := Scan(s, i, line, col), Starts(s, i);
    ScanSeparated(s, i, line, col);
    forall k | 0 <= k < |ts| - 1
      ensures os[k] + |ts[k].literal| <= os[k + 1]
    {
      assert 0 <= k < k + 1 < |ts|;
    }
  }

  /** A token's line is the starting line plus the number of newlines
      between the cursor and the token's first character. */
  lemma {:induction false} ScanLines(s: string, i: nat, line: nat, col: nat)
    requires i <= |s|
    ensures var ts, os := Scan(s, i, line, col), Starts(s, i);
      && |os| == |ts|
      && forall k :: 0 <= k < |ts| ==>
           i <= os[k] <= |s| && ts[k].lineNum == line + NewlinesBetween(s, i, os[k])
    decreases |s| - i
  {
    StartsLength(s, i, line, col);
    if i < |s| {
      var ts, os := Scan(s, i, line, col), Starts(s, i);
      match Lex(s, i)
      case Newline =>
        assert ts == Scan(s, i + 1, line + 1, 0) && os == Starts(s, i + 1);
        ScanLines(s, i + 1, line + 1, 0);
      case Blank =>
        assert ts == Scan(s, i + 1, line, col) && os == Starts(s, i + 1);
        ScanLines(s, i + 1, line, col);
      case Emit(kind, j) =>
        var tail, tailOs := Scan(s, j, line, col), Starts(s, j);
        assert ts == [Token(kind, s[i..j], line, col)] + tail && os == [i] + tailOs;
        ScanLines(s, j, line, col);
        assert forall m :: i <= m < j ==> s[m] != '\n' by {
          LexEmits(s, i);
          LexemeFacts(kind, s[i..j]);
          assert forall m :: i <= m < j ==> s[m] == s[i..j][m - i];
        }
        forall k | 0 < k < |ts|
          ensures i <= os[k] <= |s| && ts[k].lineNum == line + NewlinesBetween(s, i, os[k])
        {
          assert ts[k] == tail[k - 1] && os[k] == tailOs[k - 1];
          NewlinesSkip(s, i, j, os[k]);
        }
    }
  }

  /** Position `p` lies inside the literal of the token at some index. */
  ghost predicate Covered(ts: seq<Token>, os: seq<nat>, p: nat) {
    exists k :: 0 <= k < |ts| && k < |os| && os[k] <= p < os[k] + |ts[k].literal|
  }

  /** Every character other than a newline, space or tab lies inside the
      literal of some token. */
  lemma {:induction false} ScanCovers(s: string, i: nat, line: nat, col: nat, p: nat)
    requires i <= p < |s|
    requires !IsSkipped(s[p])
    ensures Covered(Scan(s, i, line, col), Starts(s, i), p)
    decreases |s| - i
  {
    var ts, os := Scan(s, i, line, col), Starts(s, i);
    match Lex(s, i)
    case Newline =>
      assert ts == Scan(s, i + 1, line + 1, 0) && os == Starts(s, i + 1);
      ScanCovers(s, i + 1, line + 1, 0, p);
    case Blank =>
      assert ts == Scan(s, i + 1, line, col) && os == Starts(s, i + 1);
      ScanCovers(s, i + 1, line, col, p);
    case Emit(kind, j) =>
      var tail, tailOs := Scan(s, j, line, col), Starts(s, j);
      assert ts == [Token(kind, s[i..j], line, col)] + tail && os == [i] + tailOs;
      if p < j {
        assert os[0] <= p < os[0] + |ts[0].literal|;
      } else {
        ScanCovers(s, j, line, col, p);
        var k :| 0 <= k < |tail| && k < |tailOs| && tailOs[k] <= p < tailOs[k] + |tail[k].literal|;
        assert ts[k + 1] == tail[k] && os[k + 1] == tailOs[k];
        assert os[k + 1] <= p < os[k + 1] + |ts[k + 1].literal|;
      }
  }

  /** There is one start offset per token. */
  lemma {:induction false} StartsLength(s: string, i: nat, line: nat, col: nat)
    requires i <= |s|
    ensures |Starts(s, i)| == |Scan(s, i, line, col)|
    decreases |s| - i
  {
    if i < |s| {
      match Lex(s, i)
      case Newline =>
        assert Scan(s, i, line, col) == Scan(s, i + 1, line + 1, 0);
        assert Starts(s, i) == Starts(s, i + 1);
        StartsLength(s, i + 1, line + 1, 0);
      case Blank =>
        assert Scan(s, i, line, col) == Scan(s, i + 1, line, col);
        assert Starts(s, i) == Starts(s, i + 1);
        StartsLength(s, i + 1, line, col);
      case Emit(kind, j) =>
        assert Scan(s, i, line, col) == [Token(kind, s[i..j], line, col)] + Scan(s, j, line, col);
        assert Starts(s, i) == [i] + Starts(s, j);
        StartsLength(s, j, line, col);
    }
  }

  /** Some token at index `k` starts at offset `p` and has this kind and
      literal. */
  ghost predicate TokenAt(ts: seq<Token>, os: seq<nat>, p: nat, kind: TokenType, lit: string) {
    exists k :: 0 <= k < |ts| && k < |os| && os[k] == p && ts[k].tokenType == kind && ts[k].literal == lit
  }

  /** A character that is neither skipped nor a letter nor an `is_digit`
      digit is a one-character token of its own. */
  lemma ScanSingleCharacter(s: string, i: nat, line: nat, col: nat, p: nat)
    requires i <= p < |s|
    requires !IsSkipped(s[p]) && !IsLetter(s[p]) && !IsDigit(s[p])
    ensures TokenAt(Scan(s, i, line, col), Starts(s, i), p, SingleKind(s[p]), [s[p]])
  {
    var ts, os := Scan(s, i, line, col), Starts(s, i);
    ScanCovers(s, i, line, col, p);
    var k :| 0 <= k < |ts| && k < |os| && os[k] <= p < os[k] + |ts[k].literal|;
    var t := ts[k];
    assert Lexeme(t.tokenType, t.literal) by {
      ScanLexemes(s, i, line, col);
      assert t in ts;
    }
    assert t.literal[p - os[k]] == s[p] by {
      ScanPlacement(s, i, line, col);
      assert Placed(s, t, os[k]);
    }
    SingleCharacterLexeme(t.tokenType, t.literal, p - os[k]);
    assert os[k] == p && t.literal == [s[p]];
  }
}
