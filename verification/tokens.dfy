/**
  Token vocabulary and character classes of the lexer (src/lexer.rs).

  Characters are Unicode scalar values, as Rust's `char` is. The two
  classification helpers of the source work on numbers: `is_letter`
  receives the code point (`c as u32`), `is_digit` receives only its low
  byte (`c as u8`, a truncating cast) and compares it with the NUMBERS
  0..9, not with the characters '0'..'9'.
 */
module Tokens {

  /** The result type of `tokenize`. */
  datatype Option<+T> = None | Some(value: T)

  /** Token kinds, in the order the source declares them. `Keyword` and
      `Symbol` are declared but the scanner never produces them. */
  datatype TokenType =
    | Identifier
    | Constant
    | Keyword
    | OParen
    | CParen
    | OBrace
    | CBrace
    | OAngle
    | CAngle
    | SemiColon
    | Plus
    | Minus
    | Divide
    | Multiply
    | Modulo
    | Symbol(name: string)
    | Illegal

  /** A token with the line and column the scanner recorded for it.
      The source stores both as `u32`; here they are unbounded. */
  datatype Token = Token(tokenType: TokenType, literal: string, lineNum: nat, colNum: nat)

  /** `is_letter`: the code point is an ASCII upper- or lower-case letter. */
  predicate IsLetter(c: char) {
    (65 <= c as int <= 90) || (97 <= c as int <= 122)
  }

  /** `is_digit` applied to `c as u8`: the low byte of the code point is at
      most 9. ASCII '0'..'9' (bytes 48..57) are NOT digits in this sense,
      while U+0000..U+0009 (tab included) and e.g. U+0101 are. */
  predicate IsDigit(c: char) {
    (c as int) % 256 <= 9
  }

  /** Space and tab, skipped when they are read at top level. */
  predicate IsBlank(c: char) {
    c == ' ' || c == '\t'
  }

  /** Characters that never start a token: newline, space and tab. */
  predicate IsSkipped(c: char) {
    c == '\n' || IsBlank(c)
  }

  /** The twelve one-character punctuation and operator tokens. */
  function Punctuation(c: char): Option<TokenType> {
    match c
    case '(' => Some(OParen)
    case ')' => Some(CParen)
    case '<' => Some(OAngle)
    case '>' => Some(CAngle)
    case '{' => Some(OBrace)
    case '}' => Some(CBrace)
    case '+' => Some(Plus)
    case '-' => Some(Minus)
    case '/' => Some(Divide)
    case '*' => Some(Multiply)
    case '%' => Some(Modulo)
    case ';' => Some(SemiColon)
    case _ => None
  }

  /** The kind of a one-character token: its punctuation kind, or
      `Illegal` when it has none. */
  function SingleKind(c: char): TokenType {
    if Punctuation(c).Some? then Punctuation(c).value else Illegal
  }

  /** A character that falls through every rule and becomes `Illegal`. */
  predicate IsIllegal(c: char) {
    !IsSkipped(c) && Punctuation(c).None? && !IsLetter(c) && !IsDigit(c)
  }

  /** What a literal of each kind looks like, independent of how the
      scanner finds it. The first character decides the kind; the length
      is decided by maximality (see `Scanner.Maximal`). */
  ghost predicate Lexeme(kind: TokenType, lit: string) {
    |lit| > 0 &&
    match kind
    case Identifier => forall k :: 0 <= k < |lit| ==> IsLetter(lit[k])
    case Constant => lit[0] != '\t' && forall k :: 0 <= k < |lit| ==> IsDigit(lit[k])
    case Illegal => |lit| == 1 && IsIllegal(lit[0])
    case Keyword => false
    case Symbol(_) => false
    case _ => |lit| == 1 && Punctuation(lit[0]) == Some(kind)
  }

  /** The low byte of an ASCII letter or punctuation character is above 9,
      so `is_digit` never accepts a character of another class, and no
      ASCII decimal digit is a `is_digit` digit. */
  lemma ClassesAreDisjoint(c: char)
    ensures IsDigit(c) ==> !IsLetter(c) && Punctuation(c).None? && c != '\n' && c != ' '
    ensures IsLetter(c) ==> Punctuation(c).None? && !IsSkipped(c)
    ensures '0' <= c <= '9' ==> !IsDigit(c) && !IsLetter(c) && Punctuation(c).None? && IsIllegal(c)
  {
  }

  /** No literal of any kind contains a newline, and a literal holding an
      ASCII decimal digit is that digit alone, as an `Illegal` token. */
  lemma LexemeFacts(kind: TokenType, lit: string)
    requires Lexeme(kind, lit)
    ensures forall k :: 0 <= k < |lit| ==> lit[k] != '\n'
    ensures kind != Keyword && !kind.Symbol?
    ensures forall k :: 0 <= k < |lit| && '0' <= lit[k] <= '9' ==> kind == Illegal && lit == [lit[k]]
  {
  }

  /** `is_letter` accepts exactly the 52 ASCII letters. */
  lemma LetterRanges(c: char)
    ensures IsLetter(c) <==> 'A' <= c <= 'Z' || 'a' <= c <= 'z'
  {
  }

  /** Below U+0100 the `is_digit` digits are exactly U+0000..U+0009, tab
      included; the truncating cast makes U+0100..U+0109 digits too, and
      the ASCII decimal digits are not. */
  lemma DigitLowByte(c: char)
    ensures c as int < 256 ==> (IsDigit(c) <==> c <= '\t')
    ensures IsDigit('\U{100}') && IsDigit('\U{109}') && !IsDigit('\U{10A}')
    ensures '0' <= c <= '9' ==> !IsDigit(c)
  {
  }

  /** Exactly the twelve listed characters have a punctuation kind,
      and it is never a run, keyword, symbol or illegal kind. */
  lemma PunctuationTable(c: char)
    ensures Punctuation(c).Some? <==> c in "(){}<>+-/*%;"
    ensures Punctuation(c).Some? ==>
      var k := Punctuation(c).value;
      !(k.Identifier? || k.Constant? || k.Keyword? || k.Symbol? || k.Illegal?)
  {
  }

  /** Different punctuation characters have different kinds, so a
      punctuation token's kind determines its literal. */
  lemma PunctuationInjective(a: char, b: char)
    requires Punctuation(a).Some? && Punctuation(a) == Punctuation(b)
    ensures a == b
  {
  }

  /** A literal holding a character that is neither a letter nor an
      `is_digit` digit is that character alone, and its kind is the
      character's punctuation kind, or `Illegal` when it has none. */
  lemma SingleCharacterLexeme(kind: TokenType, lit: string, m: nat)
    requires Lexeme(kind, lit)
    requires m < |lit| && !IsLetter(lit[m]) && !IsDigit(lit[m])
    ensures lit == [lit[m]]
    ensures kind == SingleKind(lit[m])
  {
  }
}
