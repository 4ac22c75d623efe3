# Lexer of a small C-like compiler, modelled in Dafny

This project models `tokenize`, the scanner of a small C-like compiler
written in Rust (`src/lexer.rs`). `tokenize` reads the whole source text left
to right and keeps a line counter and a column counter. It pushes tokens of
the kinds `Identifier`, `Constant`, the twelve punctuation and operator kinds,
and `Illegal`. It returns `Some(tokens)`, or `None` when nothing was pushed.

The model copies the code as written, including its quirks:

- `is_digit` receives `c as u8`, the low byte of the code point, and compares
  it with the numbers 0..9, not with the characters '0'..'9'. So ASCII
  `'1'` becomes an `Illegal` token. The "digits" are control characters
  U+0000..U+0009 and every code point whose low byte is at most 9.
  This includes a tab inside a constant run. A tab read at top level is still
  skipped. `Tokens.IsDigit` states this as `(c as int) % 256 <= 9`.
- The column counter is set to 0 at the start and reset to 0 on every
  newline. It is never advanced, so every token has column 0.
- Every character that is not a newline, space, tab, one of the twelve
  punctuation characters, an ASCII letter or an `is_digit` character becomes
  a one-character `Illegal` token: `=`, `,`, `[`, `]` and ASCII digits among
  them. The code has no error path.
- `Keyword` and `Symbol(String)` are declared but never produced.

Layout:
- `tokens.dfy` (module `Tokens`): the `TokenType` and `Token` datatypes and
  the character classes `is_letter` and `is_digit`. It also holds the
  punctuation table, and `Lexeme`, which describes what a literal of each
  kind looks like without reference to the scanner.
- `scanner.dfy` (module `Scanner`): one turn of the loop (`Lex`), the loop as
  a recursion over a cursor (`Scan`), and the lemmas about it. It also holds
  a ghost function `Starts` that records each token's input offset, which
  the source does not keep.
- `lexer.dfy` (module `Lexer`): `Tokenize` and its contract. It also holds
  `TokenizeLoop`, an imperative version with the source's loop structure
  that is proved equal to `Tokenize`, plus corollaries and concrete inputs.

Key definitions:
- `Tiles(s, lits)` holds when `s` is the literals `lits` in order, with only
  newlines, spaces and tabs around and between them. It is the reference
  definition for "the tokens' literals, put back together with the skipped
  characters, are the input".
- `Lexeme(kind, lit)` says what a literal of each kind looks like:
  - `Identifier`: ASCII letters only.
  - `Constant`: `is_digit` characters only, not starting with a tab.
  - `Illegal`: one character that falls through every rule.
  - Punctuation kinds: the one mapped character.
  - `Keyword` and `Symbol`: never a lexeme.
- `Placed(s, t, o)` says the token's literal is the input at offset `o`, and
  that an identifier or constant is not followed by another character of
  its class.

## Model

| member | source | states |
|---|---|---|
| Lexer.Tokenize | src/lexer.rs:31-88 | `None` exactly when every input character is a newline, space or tab (the empty input included). A `Some` result holds between 1 and `|s|` tokens. Every token has column 0 and a literal of the shape its kind prescribes. The input is the literals in order, with only skipped characters between them. |
| Lexer.TokenizeLoop | src/lexer.rs:31-88 | The loop with mutable `tokens`, `line`, `col` and a cursor, classifying each character in the source's order (newline, punctuation, space or tab, letter run, `is_digit` run, `Illegal`), returns exactly `Tokenize(s)`: the same tokens, and `None` when none were pushed. |
| Lexer.ScanRun | src/lexer.rs:64-66 | Advancing a cursor while the next character satisfies the class stops at the end of the maximal run (`RunEnd`). |
| Lexer.TokenizePositions | src/lexer.rs:33-43 | For each token there is an input offset where its literal occurs. Offsets increase without overlap. An identifier is not followed by a letter, and a constant is not followed by an `is_digit` character. The token's line is 1 plus the number of newlines before its offset. |
| Lexer.TokenizeLinesAdvance | src/lexer.rs:40-43 | For any two tokens in order, the later one starts at a larger offset, and its line is the earlier one's plus the newlines between the two offsets. So line numbers never decrease. |
| Lexer.TokenizeCovers | src/lexer.rs:45-79 | Every character other than newline, space or tab lies inside the literal of a returned token, at the offset recorded for that token. These are the same offsets that `TokenizePositions` uses. |
| Lexer.TokenizeSingleCharacter | src/lexer.rs:46-57 | A character that is not skipped, not a letter and not an `is_digit` digit becomes a token of its own at its offset, wherever it appears. Its literal is that character. Its kind is the mapped punctuation kind, or `Illegal`. |
| Lexer.TokenizeAsciiDigit | src/lexer.rs:68-75 | Every ASCII '0'..'9' in the input is a one-character `Illegal` token at its own offset. It never starts or joins a `Constant`. |
| Lexer.TokenizeConcat | src/lexer.rs:62-79 | For a non-empty input without newlines, spaces or tabs, concatenating the token literals gives back the input. |
| Lexer.TokenizePunctuation | src/lexer.rs:46-57 | Each of the twelve punctuation characters alone gives exactly one token of its mapped kind on line 1, column 0. |
| Lexer.ExampleBlank | src/lexer.rs:84-86 | The empty input and an input of blanks and newlines give `None`. |
| Lexer.ExampleNewline | src/lexer.rs:40-43 | `"ab\ncd"` gives `ab` on line 1 and `cd` on line 2, both at column 0. |
| Lexer.ExampleAssignment | src/lexer.rs:58-75 | `"x = 1;"` gives `Identifier x`, `Illegal =`, `Illegal 1`, `SemiColon ;`. |
| Lexer.ExampleControlConstant | src/lexer.rs:68-73 | U+0001, tab, U+0002 form one `Constant`: the tab inside the run is absorbed. |
| Tokens.IsLetter | src/lexer.rs:90-92 | Definition of `is_letter` on the code point: 65..90 or 97..122. `LetterRanges` and `ClassesAreDisjoint` state the facts derived from it. |
| Tokens.IsDigit | src/lexer.rs:102-104 | Definition of `is_digit(c as u8)`: the truncating cast keeps the low byte, `(c as int) % 256`, and the test is that byte `<= 9`. `DigitLowByte` and `ClassesAreDisjoint` state the facts derived from it. |
| Tokens.Punctuation | src/lexer.rs:46-57 | Definition of the twelve punctuation arms, character to kind. `PunctuationTable` and `PunctuationInjective` state the facts derived from it. |
| Tokens.LetterRanges | src/lexer.rs:90-92 | `is_letter` holds exactly for 'A'..'Z' and 'a'..'z'. |
| Tokens.DigitLowByte | src/lexer.rs:102-104 | Below U+0100, `is_digit` holds exactly for U+0000..U+0009 (tab included). U+0100 and U+0109 pass and U+010A does not. ASCII '0'..'9' never pass. |
| Tokens.PunctuationTable | src/lexer.rs:46-57 | A character has a punctuation kind exactly when it is one of `( ) { } < > + - / * % ;`. That kind is never `Identifier`, `Constant`, `Keyword`, `Symbol` or `Illegal`. |
| Tokens.PunctuationInjective | src/lexer.rs:46-57 | Two characters with the same punctuation kind are the same character. |
| Tokens.ClassesAreDisjoint | src/lexer.rs:90-104 | An `is_digit` character is not a letter, punctuation, newline or space. A letter is not punctuation and not skipped. ASCII '0'..'9' are not `is_digit` digits and fall through to `Illegal`. |
| Tokens.LexemeFacts | src/lexer.rs:61-76 | No literal contains a newline. No literal has kind `Keyword` or `Symbol`. A literal containing an ASCII decimal digit is that digit alone, as `Illegal`. |
| Tokens.SingleCharacterLexeme | src/lexer.rs:46-57 | A literal containing a character that is neither a letter nor an `is_digit` digit is exactly that one character. Its kind is the punctuation kind of that character, or `Illegal`. |
| Scanner.RunEnd | src/lexer.rs:70-72 | The returned end lies within the input. Every character from the start up to it is in the class, and the character at the end is not. |
| Scanner.Lex | src/lexer.rs:39-78 | Gives `Newline` exactly on `'\n'` and `Blank` exactly on space or tab. Otherwise it emits a token that consumes at least one character. |
| Scanner.LexEmits | src/lexer.rs:62-75 | An emitted literal is a `Lexeme` of its kind, and an identifier or constant run is maximal. |
| Scanner.Scan | src/lexer.rs:36-83 | From cursor `i`, at most `|s| - i` tokens are pushed. |
| Scanner.ScanEmptyIff | src/lexer.rs:40-60 | The scan pushes nothing exactly when every remaining character is a newline, space or tab. |
| Scanner.ScanColumns | src/lexer.rs:34-42 | Every token's column is the starting column or 0. |
| Scanner.ScanLexemes | src/lexer.rs:46-76 | Every token's literal is a `Lexeme` of its kind. |
| Scanner.ScanTiles | src/lexer.rs:40-79 | The rest of the input is the token literals in order, with only newlines, spaces and tabs between them. |
| Scanner.ScanPlacement | src/lexer.rs:62-73 | Each token has a start offset at or after the cursor. The token's literal is the input at that offset, and a run token is maximal. |
| Scanner.ScanOrdered | src/lexer.rs:79 | Tokens are pushed in input order: each one ends at or before the start of the next. Proved as the consecutive case of `ScanSeparated`. |
| Scanner.ScanSeparated | src/lexer.rs:62-79 | For any two tokens in push order, the earlier one's literal ends at or before the later one's offset. |
| Scanner.ScanLines | src/lexer.rs:40-43 | A token's line is the starting line plus the newlines between the cursor and the token's offset. |
| Scanner.ScanCovers | src/lexer.rs:58-79 | Every character other than newline, space and tab lies inside some token's literal. |
| Scanner.ScanSingleCharacter | src/lexer.rs:46-75 | A non-skipped character that is neither a letter nor an `is_digit` digit is a one-character token at its own offset, of its punctuation kind or `Illegal`. |

## Left out

- `src/main.rs` is not part of this model: argument parsing, reading the file, printing and exit codes are process I/O. Its `match` on `Ok`/`Err` does not fit the `Option` that `tokenize` returns.
- The parser module is not part of this model. It is called from the driver, and its source is not available.
- The `u32` line and column counters are unbounded `nat`s here. Wrap-around after 2^32 - 1 newlines is not modelled.
- `#[derive(Debug)]` formatting and `String` ownership and allocation have no counterpart in the model.
- The integer-suffix error, the strict illegal-character error and keyword classification are not modelled, because the code does not implement them.
- Lexer.TokenizeConcat: states the exact round trip only for inputs without newlines, spaces or tabs. For general inputs the statement is `Tiles` in the contract of `Tokenize`, because skipped characters leave no trace in the literals.
