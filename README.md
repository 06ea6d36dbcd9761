# cocalc calculator core in Dafny

A model of the two files at the heart of the cocalc Android calculator:

- The native evaluator `cocalc/app/src/main/cpp/native-lib.cpp`. It is a
  recursive-descent parser that evaluates while it parses. `expr` handles
  `+`/`-`, `term` handles `*`/`/`, and `factor` handles a unary sign, a
  parenthesised expression or a number, each followed by any number of
  postfix `%`. Before parsing, `normalizeParens` rejects a text that
  closes a parenthesis it never opened and closes the ones left open.
- The keypad of `cocalc/app/src/main/java/com/example/cocalc/MainActivity.kt`.
  It edits the text `expr` at the cursor of the text field and keeps a
  flag `justEvaluated` while a result is on screen.

Modules, one per file:

| module | file | what it holds |
|---|---|---|
| `Wrappers` | `wrappers.dfy` | `Option` |
| `Numerals` | `numerals.dfy` | `isdigit`, `isspace`, the value of a numeral (what `std::stod` reads), decimal spelling of naturals |
| `Parens` | `parens.dfy` | parenthesis balance, `normalizeParens` as a method with its loops |
| `Parser` | `parser.dfy` | one function per parse step, saying what it yields from a position, and the source's loops as methods proved to compute them |
| `Evaluator` | `evaluator.dfy` | `evalExpression` up to formatting: `Evaluate` and the method `EvalExpression` |
| `Arith` | `arith.dfy` | an independent reference: formula trees, their values, and a printer. `ShowEvaluates` proves that the evaluator gives every printed formula its value |
| `Behaviour` | `behaviour.dfy` | inputs outside the printer's range: auto-closing, a sign after an operator, repeated `%`, and the texts answered with "ERR" |
| `Keypad` | `keypad.dfy` | the state `Screen`, one function per key, the class `MainActivity` whose methods are the handlers, and what the keys promise |
| `Session` | `session.dfy` | keypad and evaluator together: `=` on a typed formula shows its value |

How the evaluator is modelled:

- Values are exact `real`s. The numeral `d1…dn.f1…fm` is worth its exact
  decimal value.
- A failed parse is `None`; in the source it is the string "ERR".
- The parser's index `i`, passed by reference, becomes the `next` position
  of a `Parsed` result.
- On failure the source's index stops wherever the failing step left it.
  The methods `ParseNumber`, `ParseFactor`, `ParseTerm` and `ParseExpr`
  also return a position on failure, only bounded by `i <= j <= |s|`; the
  functions they are proved against return `None` and no position.

How the keypad is modelled:

- The activity's state is `expr`, the selection of the text field and
  `justEvaluated`.
- `render(c)` writes `expr` to the field and moves the selection to `c`
  clamped to the text. In the model it only clamps the cursor.
- The selection is any integer, because the field may report -1; every
  handler clamps it through `safeCursor`.
- Each handler is a method of `MainActivity`. Each is proved to leave
  exactly the state its `After*` function describes.

Four behaviours of the code are worth knowing:

- The evaluator accepts a sign after an operator (`"2++3"` is 5) and
  closes parentheses left open (`"2*(3+4"` is 14). Both are modelled as
  the code has them.
- The '.' key looks only at the text before the cursor. With the cursor
  inside `1|.5`, it types a second '.' (`DotLooksLeftOnly`). `=` then
  answers "ERR" for that text (`DoubleDotRejected`).
- The paren key also looks only at the text before the cursor. Inside
  `(1|)` it closes the group again, giving `(1))` (`ParenLooksLeftOnly`),
  which `=` answers with "ERR" (`ExtraCloserRejected`). That the paren key
  never closes too much (`ParenKeepsNoDeficit`) holds at the end of the
  text only.
- Replacing an operator skips the rule that only '-' may follow '(':
  typing "(", "-", "*" gives `(*` (`ReplaceAfterOpen`).

## Model

| member | source | states |
|---|---|---|
| Parser.SkipSpaces | cocalc/app/src/main/cpp/native-lib.cpp:7-9 | the index it returns is where `Skip` stops: the end or the first non-space at or after `i` |
| Parser.SkipOverSpaces | cocalc/app/src/main/cpp/native-lib.cpp:7-9 | everything skipSpaces passes over is a space |
| Parser.ParseNumber | cocalc/app/src/main/cpp/native-lib.cpp:11-39 | succeeds exactly when `Number` does, with the same value and end; the index never moves backwards or past the end |
| Parser.NumberAccepts | cocalc/app/src/main/cpp/native-lib.cpp:11-31 | parseNumber succeeds iff, after spaces, a digit comes next, or a '.' followed by a digit; a lone '.' is rejected |
| Parser.NumberShape | cocalc/app/src/main/cpp/native-lib.cpp:11-39 | what it consumes is a numeral (digits, at most one '.', at least one digit) worth the value returned. No digit follows it, and a '.' after it means the numeral already has its dot |
| Numerals.IsDigit | cocalc/app/src/main/cpp/native-lib.cpp:18 | `std::isdigit` in the "C" locale: exactly '0' to '9' |
| Numerals.IsSpace | cocalc/app/src/main/cpp/native-lib.cpp:8 | `std::isspace` in the "C" locale: exactly ' ', '\t', '\n', '\r', vertical tab and form feed |
| Numerals.NumeralValue | cocalc/app/src/main/cpp/native-lib.cpp:34 | stands for std::stod: the exact decimal value of a numeral, digits before the '.' plus the fraction digits over a power of ten; never negative |
| Numerals.NatDigitsNumeral | cocalc/app/src/main/cpp/native-lib.cpp:33-34 | the decimal spelling of a natural is a numeral whose value (what std::stod reads) is that natural |
| Parser.Factor | cocalc/app/src/main/cpp/native-lib.cpp:48-87 | a successful factor consumes at least one character and stops neither before a space nor before a '%' |
| Parser.PercentsDivide | cocalc/app/src/main/cpp/native-lib.cpp:75-84 | the '%' loop consumes only '%' and spaces, and divides the value by 100 once per '%' consumed |
| Parser.ParseFactor | cocalc/app/src/main/cpp/native-lib.cpp:48-87 | succeeds exactly when `Factor` does, with its value and end: a signed factor, a group closed by ')', or a number, then the '%' loop |
| Parser.TermLoop | cocalc/app/src/main/cpp/native-lib.cpp:94-111 | a successful term loop stops, after spaces, at the end or at a character other than '*' and '/' |
| Parser.ParseTerm | cocalc/app/src/main/cpp/native-lib.cpp:90-115 | succeeds exactly when `Term` does, with its value and end: factors folded left to right by '*' and '/', failing on a zero divisor |
| Parser.ExprLoop | cocalc/app/src/main/cpp/native-lib.cpp:121-134 | a successful expression loop stops, after spaces, at the end or at a character other than '+' and '-' |
| Parser.ParseExpr | cocalc/app/src/main/cpp/native-lib.cpp:117-138 | succeeds exactly when `Expr` does, with its value and end: terms folded left to right by '+' and '-' |
| Parens.NormalizeParens | cocalc/app/src/main/cpp/native-lib.cpp:158-172 | fails, leaving the text unchanged, iff some prefix has more ')' than '('; otherwise appends exactly one ')' per parenthesis left open |
| Parens.ClosersBalance | cocalc/app/src/main/cpp/native-lib.cpp:167-170 | the ')' appended for `n` open parentheses bring the balance down by `n` and never below zero |
| Parens.NormalizedBalanced | cocalc/app/src/main/cpp/native-lib.cpp:158-172 | what normalizeParens produces on success is balanced, and no prefix of it closes more than it opened |
| Evaluator.Closed | cocalc/app/src/main/cpp/native-lib.cpp:182-185 | the text the parser sees is balanced, never runs short of '(', and starts with the original text |
| Evaluator.EvalExpression | cocalc/app/src/main/cpp/native-lib.cpp:176-200 | the result is `Evaluate(expr)`: "ERR" for an extra ')', for a failed parse, or when anything but spaces is left over; otherwise the parsed value |
| Evaluator.AutoCloseAgrees | cocalc/app/src/main/cpp/native-lib.cpp:153-172 | closing the open parentheses oneself changes nothing: the closed text needs no closing and evaluates as the original does |
| Arith.FactorShows | cocalc/app/src/main/cpp/native-lib.cpp:48-87 | parseFactor on a printed factor ends right after it, with the formula's value, or fails when the formula divides by zero |
| Arith.TermShows | cocalc/app/src/main/cpp/native-lib.cpp:90-115 | parseTerm on a printed product hands the formula's value to the '*'/'/' loop at its end |
| Arith.ExprShows | cocalc/app/src/main/cpp/native-lib.cpp:117-138 | parseExpr on a printed sum hands the formula's value to the '+'/'-' loop at its end |
| Arith.ShowBalanced | cocalc/app/src/main/cpp/native-lib.cpp:158-172 | a printed formula is balanced, so normalizeParens accepts it and appends nothing |
| Arith.ShowEvaluates | cocalc/app/src/main/cpp/native-lib.cpp:41-138 | for every formula, evaluating its printed text gives the formula's value; the text is rejected exactly when the formula divides by zero. So precedence, left associativity, unary minus and '%' are those of the tree |
| Arith.ProductBeforeSum | cocalc/app/src/main/cpp/native-lib.cpp:117-138 | "2+3*4" is 14 |
| Arith.ParenthesesFirst | cocalc/app/src/main/cpp/native-lib.cpp:61-69 | "(2+3)*4" is 20 |
| Arith.GroupLast | cocalc/app/src/main/cpp/native-lib.cpp:61-69 | "2*(3+4)" is 14 |
| Arith.SubtractionFromLeft | cocalc/app/src/main/cpp/native-lib.cpp:121-134 | "10-4-3" is 3 |
| Arith.DivisionFromLeft | cocalc/app/src/main/cpp/native-lib.cpp:94-111 | "8/4/2" is 1 |
| Arith.DivisionByZero | cocalc/app/src/main/cpp/native-lib.cpp:107-110 | "5/0" is rejected |
| Arith.UnaryMinus | cocalc/app/src/main/cpp/native-lib.cpp:52-59 | "-5+3" is -2 |
| Arith.PercentOfFactor | cocalc/app/src/main/cpp/native-lib.cpp:75-84 | "200*10%" is 20: '%' applies to its factor, not to the running total |
| Behaviour.OneLeftOpen | cocalc/app/src/main/cpp/native-lib.cpp:159-166 | "2*(3+4" never closes more than it opened and leaves one parenthesis open |
| Behaviour.OpenGroupClosed | cocalc/app/src/main/cpp/native-lib.cpp:167-171 | "2*(3+4" is closed at the end and is 14 |
| Behaviour.SignAfterOperator | cocalc/app/src/main/cpp/native-lib.cpp:52-59 | "2++3" is 5: the second '+' is a unary sign |
| Behaviour.PercentTwice | cocalc/app/src/main/cpp/native-lib.cpp:75-84 | "50%%" is 0.005 |
| Behaviour.NumbersApartRejected | cocalc/app/src/main/cpp/native-lib.cpp:190-196 | "2 3" is rejected: something other than spaces is left over |
| Behaviour.SecondDotRejected | cocalc/app/src/main/cpp/native-lib.cpp:23-29 | "1.2.3" is rejected: a number takes one '.' only |
| Behaviour.DoubleDotRejected | cocalc/app/src/main/cpp/native-lib.cpp:23-29 | "1..5", what the '.' key can make of "1.5", is rejected: the number stops at "1." |
| Behaviour.TrailingOperatorRejected | cocalc/app/src/main/cpp/native-lib.cpp:48-50 | "2+" is rejected: a factor is missing at the end |
| Behaviour.EmptyGroupRejected | cocalc/app/src/main/cpp/native-lib.cpp:61-66 | "()" is rejected |
| Behaviour.CloserFirstRejected | cocalc/app/src/main/cpp/native-lib.cpp:162-164 | ")(" is rejected |
| Behaviour.ExtraCloserRejected | cocalc/app/src/main/cpp/native-lib.cpp:162-164 | "(1))", what the paren key can make of "(1)", is rejected: its last ')' closes nothing |
| Behaviour.EmptyRejected | cocalc/app/src/main/cpp/native-lib.cpp:48-50 | the empty text is rejected |
| Keypad.IsOperator | cocalc/app/src/main/java/com/example/cocalc/MainActivity.kt:252-254 | isOperator: exactly '+', '-', '*' and '/' |
| Keypad.IsWhitespace | cocalc/app/src/main/java/com/example/cocalc/MainActivity.kt:83 | Kotlin's `Char.isWhitespace`: '\t' to '\r', U+001C to U+001F, the space, and the Unicode space, line and paragraph separators |
| Keypad.IsBlank | cocalc/app/src/main/java/com/example/cocalc/MainActivity.kt:83 | Kotlin's `String.isBlank`, used at lines 83, 178 and 238: every character is whitespace (so the empty text is blank) |
| Keypad.Clamp | cocalc/app/src/main/java/com/example/cocalc/MainActivity.kt:113 | coerceIn(0, n), here and at line 126: within 0..n, unchanged when already there, 0 below, n above |
| Keypad.Cursor | cocalc/app/src/main/java/com/example/cocalc/MainActivity.kt:123-127 | the cursor used by every edit lies within the text |
| Keypad.PrevIsLast | cocalc/app/src/main/java/com/example/cocalc/MainActivity.kt:166 | `left.lastOrNull()` is the last character of the text before the cursor, and null exactly when that text is empty |
| Keypad.MainActivity.constructor | cocalc/app/src/main/java/com/example/cocalc/MainActivity.kt:12-15 | the activity starts with an empty text, the cursor at 0 and no result shown |
| Keypad.MainActivity.Render | cocalc/app/src/main/java/com/example/cocalc/MainActivity.kt:108-115 | the text stays, and the cursor moves to the position given, clamped to the text |
| Keypad.MainActivity.SafeCursor | cocalc/app/src/main/java/com/example/cocalc/MainActivity.kt:123-127 | returns a position within the text, equal to the selection whenever that is within the text |
| Keypad.MainActivity.InsertText | cocalc/app/src/main/java/com/example/cocalc/MainActivity.kt:129-133 | the new state is `Inserted`: the text goes in at the cursor and the cursor ends after it |
| Keypad.InsertedSplices | cocalc/app/src/main/java/com/example/cocalc/MainActivity.kt:129-133 | what insertText leaves: the text before the cursor, then the inserted text, then the text after the cursor, with the cursor after the insertion and the flag unchanged |
| Keypad.MainActivity.DeleteBeforeCursor | cocalc/app/src/main/java/com/example/cocalc/MainActivity.kt:135-140 | the new state is `Deleted` |
| Keypad.DeletedRemovesOne | cocalc/app/src/main/java/com/example/cocalc/MainActivity.kt:135-140 | at the start of the text nothing changes. Elsewhere exactly the character before the cursor goes, the rest stays in order, and the cursor moves back one |
| Keypad.DeleteUndoesInsert | cocalc/app/src/main/java/com/example/cocalc/MainActivity.kt:129-140 | deleting right after inserting one character restores the text and the cursor |
| Keypad.InsertUndoesDelete | cocalc/app/src/main/java/com/example/cocalc/MainActivity.kt:129-140 | typing the deleted character again restores the text and the cursor |
| Keypad.MainActivity.AppendNumber | cocalc/app/src/main/java/com/example/cocalc/MainActivity.kt:142-150 | the new state is `AfterNumber`: a fresh text after a result, then the digits inserted at the cursor |
| Keypad.ResultThenNumber | cocalc/app/src/main/java/com/example/cocalc/MainActivity.kt:142-158 | after a result, a digit key shows just that digit and the '.' key shows "0.", with the cursor at the end |
| Keypad.TrailingNumber | cocalc/app/src/main/java/com/example/cocalc/MainActivity.kt:162 | takeLastWhile: a suffix of the text before the cursor, made of digits and '.', and the longest such suffix |
| Keypad.TrailingSnoc | cocalc/app/src/main/java/com/example/cocalc/MainActivity.kt:162 | one more digit or '.' extends the trailing number; any other character empties it |
| Keypad.TrailingEmpty | cocalc/app/src/main/java/com/example/cocalc/MainActivity.kt:162 | before anything but a digit or '.', the trailing number is empty |
| Keypad.MainActivity.AppendDot | cocalc/app/src/main/java/com/example/cocalc/MainActivity.kt:152-172 | the new state is `AfterDot`: nothing when the number before the cursor has a '.'. Otherwise "0." at the start or after an operator or '(', else "." |
| Keypad.DotTypes | cocalc/app/src/main/java/com/example/cocalc/MainActivity.kt:165-171 | when the number before the cursor has no '.', the text before the cursor gains "0." or "." as the previous character demands |
| Keypad.DotEndsNumber | cocalc/app/src/main/java/com/example/cocalc/MainActivity.kt:162-170 | "." after a number without a dot ends that number with its one and only dot |
| Keypad.ZeroDotStartsNumber | cocalc/app/src/main/java/com/example/cocalc/MainActivity.kt:166-168 | "0." where no number ends starts the number "0." |
| Keypad.DotGivesOneDot | cocalc/app/src/main/java/com/example/cocalc/MainActivity.kt:160-171 | the '.' key never gives the number before the cursor a second '.': after it, that number ends in its only '.' |
| Keypad.DotLooksLeftOnly | cocalc/app/src/main/java/com/example/cocalc/MainActivity.kt:160-163 | with the cursor between "1" and ".5", the '.' key makes "1..5": only the text before the cursor is checked |
| Keypad.MainActivity.AppendOperator | cocalc/app/src/main/java/com/example/cocalc/MainActivity.kt:174-205 | the new state is `AfterOperator`, with the blank, replace, after-'.', after-'(' and plain cases as in the source |
| Keypad.ReplaceAfterOpen | cocalc/app/src/main/java/com/example/cocalc/MainActivity.kt:188-202 | "(", "-", "*" gives "(*": the replace case at lines 188-192 comes before the after-'(' check at line 202 |
| Keypad.OperatorOnBlank | cocalc/app/src/main/java/com/example/cocalc/MainActivity.kt:178-181 | on a blank text only "-" goes in (a unary minus); other operators change nothing but the flag, which is cleared |
| Keypad.OperatorReplacesOperator | cocalc/app/src/main/java/com/example/cocalc/MainActivity.kt:187-193 | an operator after an operator replaces it; the text keeps its length for a one-character operator |
| Keypad.OperatorAfterDot | cocalc/app/src/main/java/com/example/cocalc/MainActivity.kt:195-199 | an operator after '.' completes the number with a "0" |
| Keypad.OperatorAfterOpen | cocalc/app/src/main/java/com/example/cocalc/MainActivity.kt:201-202 | after '(' only "-" goes in |
| Keypad.InsertedAtEnd | cocalc/app/src/main/java/com/example/cocalc/MainActivity.kt:129-133 | with the cursor at the end, insertText appends |
| Keypad.OperatorKeepsSingle | cocalc/app/src/main/java/com/example/cocalc/MainActivity.kt:174-205 | typed at the end of the text, the operator keys never put two operators side by side |
| Keypad.MainActivity.AppendParenSmart | cocalc/app/src/main/java/com/example/cocalc/MainActivity.kt:207-233 | the new state is `AfterParen` |
| Keypad.ParenChoice | cocalc/app/src/main/java/com/example/cocalc/MainActivity.kt:207-233 | the paren key types ")" when a parenthesis is open before the cursor and an operand ends there; "*(" after an operand otherwise; "(" everywhere else |
| Keypad.ParenAtEnd | cocalc/app/src/main/java/com/example/cocalc/MainActivity.kt:207-233 | at the end of the text, the paren key appends ")", "*(" or "(" by the same rule |
| Keypad.ParenKeepsNoDeficit | cocalc/app/src/main/java/com/example/cocalc/MainActivity.kt:207-233 | typed at the end of the text, the paren key never closes more than is open, so normalizeParens never rejects what it builds |
| Keypad.ParenLooksLeftOnly | cocalc/app/src/main/java/com/example/cocalc/MainActivity.kt:211-222 | with the cursor inside "(1|)", the paren key types ")" and gives "(1))": only the text before the cursor is counted |
| Keypad.MainActivity.AppendPercent | cocalc/app/src/main/java/com/example/cocalc/MainActivity.kt:234-250 | the new state is `AfterPercent` |
| Keypad.PercentOnlyAfterOperand | cocalc/app/src/main/java/com/example/cocalc/MainActivity.kt:234-250 | "%" goes in at the cursor iff the text is not blank and a digit or ')' is before the cursor; otherwise the text stays |
| Keypad.MainActivity.Clear | cocalc/app/src/main/java/com/example/cocalc/MainActivity.kt:69-73 | empty text, cursor at 0, no result shown |
| Keypad.MainActivity.Backspace | cocalc/app/src/main/java/com/example/cocalc/MainActivity.kt:76-79 | deleteBeforeCursor, then no result shown |
| Keypad.MainActivity.Equals | cocalc/app/src/main/java/com/example/cocalc/MainActivity.kt:82-101 | the new state is `AfterEquals`; it calls `EvalExpression` |
| Keypad.EqualsOutcome | cocalc/app/src/main/java/com/example/cocalc/MainActivity.kt:82-101 | '=' shows the formatted result with the cursor at its end and the flag set, iff the text is complete and the evaluator accepts it. Otherwise nothing changes |
| Keypad.TypingKeepsSettled | cocalc/app/src/main/java/com/example/cocalc/MainActivity.kt:142-250 | the number, '.', operator, paren and '%' keys keep the cursor within the text |
| Keypad.CommandsKeepSettled | cocalc/app/src/main/java/com/example/cocalc/MainActivity.kt:69-101 | Clear, Backspace and '=' keep the cursor within the text |
| Session.ShowEnds | cocalc/app/src/main/java/com/example/cocalc/MainActivity.kt:84-88 | a typed formula starts with a digit, '-' or '(' and ends with a digit, ')' or '%', so '=' does not stop at an incomplete text |
| Session.ShowComplete | cocalc/app/src/main/java/com/example/cocalc/MainActivity.kt:83-88 | a typed formula passes the blank and last-character checks of '=' |
| Session.EqualsOnFormula | cocalc/app/src/main/java/com/example/cocalc/MainActivity.kt:82-101 | '=' on a fully typed formula shows its formatted value with the cursor at the end. When the formula divides by zero, the screen stays |

## Left out

- JNI marshalling (`GetStringUTFChars`, `NewStringUTF`) and the UTF-8 conversion are left out; the text is a Dafny string on both sides.
- formatDouble is not part of this model. A value within 1e-10 of an integer is written as that integer through `llround` (2.00000000001 shows as "2") when its magnitude is below 2^63; above that, `llround`'s result is unspecified. Other values are written with `%.10g`. The '=' handler takes it as a parameter `format`.
- Floating point: values are exact reals, so the rounding of `double` arithmetic and of std::stod is not modelled, nor is overflow: the product of two 200-digit numerals is `inf` as a `double` and the source shows "inf", where the model gives a finite real.
- Parser.ParseTerm: a divisor is rejected only when it is exactly zero. The source rejects any divisor whose magnitude is below 1e-12, so tiny nonzero divisors such as "1/0.0000000000001" are not modelled.
- Parser.ParseNumber: std::stod's out_of_range exception, which the source maps to a failure, cannot happen on exact reals.
- Parens.NormalizeParens: `balance` is an unbounded integer; the overflow of the source's `int` for texts of more than 2^31 parentheses is not modelled.
- Keypad.EndsOperand, Keypad.InNumber, Keypad.TrailingNumber: the digit test is ASCII '0'..'9'. Kotlin's `Char.isDigit` also accepts other Unicode digits, which the keypad never types.
- The Snackbar of `showError` is left out; in the model an error leaves the state unchanged.
- The UI wiring in onCreate is left out: the listeners, the hint, the soft keyboard and `setContentView`. The selection the user sets by tapping the field is left out too. `selection` holds whatever the user last chose.
- `etExpression.setText` is not modelled separately: the field's text is `expr` after every render.
