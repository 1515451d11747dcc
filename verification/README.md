# exprstack in Dafny

A model of the core of `exprstack.py`, an interpreter for a postfix (Reverse
Polish) arithmetic language. Three parts are modelled, as the Python code
actually runs them:

- **the lexer**: the `Lexer` class with `read_ch` and `read_tokens`, and the
  `TokenKind`/`Token` types;
- **token collection**: the loop in `functionality` that calls `read_tokens`
  until it returns `TOKEN_EOF`;
- **the evaluator**: `evaluate`, a stack machine over the collected tokens.

The lexer is modelled exactly as the code runs.
The number branch, the identifier branch and the single-character `match`
run one after another, so a later branch can overwrite the token an earlier
one built. `read_ch` runs once more at the end of every call, so the
character after a number or a word is always consumed.

Modules, one per part of the program:

| module | file | what it holds |
|---|---|---|
| `Chars` | chars.dfy | the cursor character (`Char(c)`, or `End` for Python's `""` sentinel) and the ASCII `isspace`/`isdigit`/`isalpha` |
| `Tokens` | tokens.dfy | `TokenKind` (plus `Unset`, the integer `0` a fresh `Token()` starts with), `Token`, the symbol table, and `Lexable`: the token shapes the lexer can produce |
| `Lexing` | lexer.dfy | the lexer state `Lexer(expr, pos, readPos, ch)`, `ReadCh`, each branch of `read_tokens`, `ReadTokens`, and lemmas about what one call returns |
| `Collection` | collection.dfy | `Collect`/`Tokenize` (the collection loop as a function), the loop itself as the method `CollectTokens`, and a reference reading of sources made of space-separated words |
| `Seqs` | seqs.dfy | `ConcatAssoc`, the one sequence identity that both the token and the event proofs regroup with |
| `Numbers` | numbers.dfy | stack values `IntV(int)` and `FloatV(bv64)`, `int()` of a digit string, and Python's arithmetic with promotion |
| `Evaluator` | evaluator.dfy | `Binary`, `PushLiteral`, `PrintTop`, `DupTop`, `Step` (one `match` on the token kind), `Run` (the `for` loop with its early returns), and lemmas about runs |
| `Interpreter` | interpreter.dfy | `Interpret` (lex, then evaluate on an empty stack) and worked examples |

Output is not text. Each step records events:

- `Printed(value)`;
- `Error(...)`, one per evaluation error message;
- `IllegalToken(literal)`;
- `Raised`, for a Python exception.

The evaluator returns an `Outcome(stack, events, aborted)`. The stack is a
sequence whose last element is the top.

Float parsing and float arithmetic are parameters: a `FloatHost` record
supplies `float(literal)`, and `+ - * /` and `**` whenever the result is a
float. Its `None` stands for Python raising an exception.

## Model

| member | source | states |
|---|---|---|
| Tokens.KindOf | exprstack.py:104-110 | each of the six symbol characters has one token kind, and that kind's symbol is the character again |
| Tokens.FloatLiteralOf | exprstack.py:76-87 | a non-empty digit run, a point and a possibly empty digit run form a float literal containing a point (`12.` is one) |
| Lexing.ReadCh | exprstack.py:53-60 | after `read_ch`, the cursor sits at the old read position, the read position is one past it, and `ch` is the source character there or `""` at or past the end |
| Lexing.NewLexer | exprstack.py:46-51 | the constructor leaves the cursor at position 0 on the first character, or on `""` for an empty source |
| Lexing.SkipSpace | exprstack.py:66-67 | the whitespace loop stops on a non-space, and everything it passed over is whitespace |
| Lexing.ReadRun | exprstack.py:72-74 | a `while ch.isdigit()` or `while ch.isalpha()` loop collects exactly the source text it passes, all of it in the class, and stops on a character outside the class |
| Lexing.ReadRunTo | exprstack.py:72-74 | such a loop started before a run that ends at `q` stops exactly at `q`, having collected the run |
| Lexing.NumberBranch | exprstack.py:69-87 | the number literal is exactly the consumed text; the kind is FLOAT exactly when it contains the point, INT otherwise; the branch stops on a non-digit |
| Lexing.FloatBranch | exprstack.py:76-87 | on the fractional path, digits, point and digits are exactly the source between the two cursors, and they spell a float literal |
| Lexing.DigitsPointDigits | exprstack.py:69-87 | on `d1.d2` followed by a non-digit, the number branch gives the FLOAT token `d1.d2` and stops after it |
| Lexing.IdentBranch | exprstack.py:89-102 | the literal is the maximal letter run consumed; the kind is DUP exactly when it spells `dup` and ILLEGAL otherwise, so IDENT never leaves the branch |
| Lexing.MatchSingle | exprstack.py:104-111 | a symbol replaces the token built so far with that symbol's token; `""` replaces it with EOF; any other character leaves it unchanged |
| Lexing.SymbolRoundTrip | exprstack.py:104-110 | dispatching on the symbol of an operator kind gives that kind back with the symbol as its literal |
| Lexing.Branches | exprstack.py:63-102 | the cursor never moves back; when no branch consumed anything the token is the fresh `Token()` (kind unset, literal `""`); the result is never EOF |
| Lexing.ReadTokens | exprstack.py:62-114 | every call strictly advances the cursor; it returns EOF exactly when the cursor went past the end; once the source is exhausted it returns EOF; every token has a shape the lexer can produce |
| Lexing.ExhaustedStaysEof | exprstack.py:111-113 | after the end, every further call returns EOF and moves the cursor by exactly one |
| Lexing.NumberSurvives | exprstack.py:69-111 | a number token is returned exactly when the character after it is neither a letter, nor a symbol, nor the end; otherwise a later branch overwrites it |
| Lexing.OverwrittenUnlessSeparated | exprstack.py:89-111 | after the number branch, the identifier branch and the dispatch keep the number exactly when the next character is neither a letter, a symbol nor the end |
| Lexing.IdentSurvives | exprstack.py:89-111 | a DUP or ILLEGAL token is returned exactly when the character after the word is neither a symbol nor the end |
| Lexing.WordOverwrittenUnlessSeparated | exprstack.py:104-111 | the dispatch keeps a word's token exactly when the next character is neither a symbol nor the end |
| Lexing.DigitsThenOther | exprstack.py:69-102 | a digit run followed by a character that is not a digit, point or letter, or by the end, gives the INT token for the run and stops there |
| Lexing.IntThenSeparator | exprstack.py:62-114 | a digit run followed by a character that is neither a digit, a letter nor a symbol returns INT with the run as literal, and that character is consumed too |
| Lexing.FloatThenSeparator | exprstack.py:69-113 | `d1.d2` followed by such a character returns FLOAT with literal `d1.d2`, and that character is consumed too |
| Lexing.IntThenSymbol | exprstack.py:69-113 | a digit run directly followed by an operator symbol returns only the symbol's token; the number is lost |
| Lexing.IntAtEnd | exprstack.py:69-113 | a digit run that reaches the end of the source returns EOF; the number is lost |
| Lexing.WordThenSeparator | exprstack.py:89-113 | a letter run followed by a character that is neither a letter nor a symbol returns DUP or ILLEGAL with the run as literal, and that character is consumed too |
| Lexing.SymbolToken | exprstack.py:104-113 | a symbol is returned as its own token and the cursor moves just past it |
| Lexing.IntThenWord | exprstack.py:69-113 | a digit run directly followed by a letter run returns the word's token as if the digits were not there; at the end of the source, EOF |
| Lexing.DigitsThenLetters | exprstack.py:69-102 | the branches on a digit run followed by a letter run end where the letters end, with the word's token |
| Lexing.UnknownCharacter | exprstack.py:62-114 | a character that is no space, digit, letter or symbol returns the fresh `Token()`, kind unset and literal `""`, and is consumed |
| Collection.Collect | exprstack.py:185-189 | the collection loop ends: it yields at most one token per remaining source character |
| Collection.CollectWellFormed | exprstack.py:185-189 | no collected token is EOF, and each has a shape the lexer can produce |
| Collection.Tokenize | exprstack.py:182-189 | a source yields at most as many tokens as it has characters |
| Collection.TokenizeWellFormed | exprstack.py:185-189 | the tokens of a source contain no EOF and no IDENT |
| Collection.CollectCons | exprstack.py:185-189 | a call that does not return EOF adds its token in front of the tokens collected after it |
| Collection.CollectTokens | exprstack.py:182-189 | the `while` loop as written terminates and collects exactly `Tokenize(expr)`, with no EOF among them |
| Collection.CollectInt | exprstack.py:185-189 | from a digit run ended by a separator: one INT token, then whatever follows the separator |
| Collection.CollectWord | exprstack.py:185-189 | from a letter run ended by a separator: one DUP or ILLEGAL token, then whatever follows the separator |
| Collection.CollectSymbol | exprstack.py:185-189 | from a symbol: its token, then whatever follows it |
| Collection.CollectSkipsSpace | exprstack.py:66-67 | a space in front changes nothing about what is collected |
| Collection.CollectEnd | exprstack.py:185-187 | nothing is collected once the source is exhausted |
| Collection.CollectNumberSpaced | exprstack.py:185-189 | a digit run followed by a space, anywhere in a source, is read as its INT token |
| Collection.CollectNameSpaced | exprstack.py:185-189 | a letter run followed by a space, anywhere in a source, is read as its DUP or ILLEGAL token |
| Collection.CollectSymSpaced | exprstack.py:185-189 | a symbol followed by a space, anywhere in a source, is read as its operator token |
| Collection.CollectWordSpaced | exprstack.py:185-189 | any word followed by a space, anywhere in a source, is read as the token it stands for |
| Collection.CollectSpacedCons | exprstack.py:185-189 | the first spaced word's token goes in front of the tokens collected after it |
| Collection.CollectSpaced | exprstack.py:185-189 | words each followed by one space are read one token per word, in order, each the token the word stands for |
| Collection.CollectSpacedPrefix | exprstack.py:185-189 | a spaced prefix is read word by word whatever text follows it |
| Collection.TokenizeSpaced | exprstack.py:182-189 | a source of words, each followed by one space (the last one included), lexes to exactly the tokens the words stand for |
| Collection.TokenizeSpacedThenSymbol | exprstack.py:182-189 | such a source closed by an operator symbol lexes to the words' tokens followed by the symbol's token |
| Collection.TokenizeSpacedThenNumber | exprstack.py:182-189 | such a source closed by a number lexes as if the number were not there: the number at the end is lost |
| Collection.CollectIntAtEnd | exprstack.py:185-187 | a digit run that ends the source collects nothing |
| Collection.CollectNumberAtEnd | exprstack.py:185-187 | a number that closes a source collects nothing, whatever precedes it |
| Numbers.FloatZeroes | exprstack.py:150 | Python's `n2 == 0` on a float holds for exactly `0.0` and `-0.0` |
| Numbers.Decimal | exprstack.py:168 | the text `print` writes for a non-negative int is a non-empty digit string |
| Numbers.DecimalRoundTrip | exprstack.py:121 | `int()` of the text printed for a non-negative int gives the int back |
| Numbers.Apply | exprstack.py:123-165 | for two ints, `+ - *` give exactly the int sum, difference and product, and `**` by a non-negative exponent gives exactly `IntPow`; `0 **` a negative int raises; `/`, a negative int exponent and anything with a float give a float or raise |
| Numbers.IntPowAdd | exprstack.py:165 | int `**` adds exponents when multiplying powers of one base, `a ** (m + n) == a ** m * a ** n` |
| Numbers.IntPowMul | exprstack.py:165 | int `**` multiplies exponents when raising a power, `(a ** m) ** n == a ** (m * n)` |
| Evaluator.MessagesDistinct | exprstack.py:123-177 | the four evaluation errors print four different messages, none of which looks like an illegal-token report |
| Evaluator.OpOf | exprstack.py:123-160 | each operator token's error message names its own symbol |
| Evaluator.Binary | exprstack.py:123-165 | with fewer than two values: an arity error, the stack untouched, and an early return; otherwise never an arity error: `n2` (top) and `n1` are popped, and the run returns with both operands gone exactly when the zero test for `/` or `^` fails or Python raises, each with its own event; in every other case `n1 op n2` is pushed and the depth drops by one |
| Evaluator.PushLiteral | exprstack.py:121-122 | a lexed INT pushes its decimal value and a lexed FLOAT pushes a float; nothing else changes |
| Evaluator.PrintTop | exprstack.py:166-169 | on a non-empty stack, prints the top and pops it; on an empty one, does nothing and does not stop |
| Evaluator.DupTop | exprstack.py:170-175 | on a non-empty stack, pushes a copy of the top and leaves the rest as it was; on an empty one, reports the error and stops |
| Evaluator.Step | exprstack.py:120-177 | an ILLEGAL token is reported and changes nothing else; the unset kind, EOF and IDENT match no case and change nothing |
| Evaluator.Run | exprstack.py:118-177 | at most one event per token; a run stops exactly when its last event is an error or an exception, and no earlier event is one |
| Evaluator.RunCons | exprstack.py:119-177 | a run is its first token's step followed by the rest of the tokens |
| Evaluator.RunAppend | exprstack.py:119-177 | running `a + b` is running `a` and then `b` on the stack `a` left, and not running `b` at all when `a` returned early |
| Evaluator.AbortIsFinal | exprstack.py:123-175 | after an early return, no later token changes the stack or the output |
| Evaluator.IllegalContinues | exprstack.py:176-177 | an ILLEGAL token is reported and evaluation goes on with the stack it found |
| Evaluator.RunNumber | exprstack.py:121 | an INT token pushes its value, and the run goes on from there |
| Evaluator.RunPrint | exprstack.py:166-169 | `.` on a non-empty stack prints the top, pops it, and the run goes on from there |
| Evaluator.RunDup | exprstack.py:170-175 | `dup` on a non-empty stack pushes a copy of the top, and the run goes on from there |
| Evaluator.PushThenPrint | exprstack.py:166-169 | pushing a number and then printing prints exactly that number and leaves the stack as it was |
| Evaluator.DupRepeatsNumber | exprstack.py:170-175 | `dup` right after a number does what writing the number twice does |
| Evaluator.RunOperatorContinues | exprstack.py:123-165 | an operator that goes through replaces its operands with the result, and the run goes on |
| Evaluator.RunOperatorStops | exprstack.py:123-165 | an operator that fails ends the run with its own outcome |
| Evaluator.RunEmpty | exprstack.py:119 | no tokens: the stack is unchanged and nothing is written |
| Evaluator.RunBinaryExpression | exprstack.py:121-165 | two INT tokens and an operator apply the operator to the two values on top of whatever the stack held |
| Interpreter.Interpret | exprstack.py:182-191 | one invocation writes at most one event per source character, and returns early exactly when its last event is an error or an exception |
| Interpreter.LexThreeFourPlus | exprstack.py:62-114 | `3 4 +` lexes to INT 3, INT 4, PLUS |
| Interpreter.EvalThreeFourPlus | exprstack.py:121-129 | those tokens leave `[7]` and print nothing |
| Interpreter.ThreeFourPlus | exprstack.py:182-191 | interpreting `3 4 +` leaves `[7]` |
| Interpreter.LexFiveDupTimes | exprstack.py:62-114 | `5 dup *` lexes to INT 5, DUP, MUL |
| Interpreter.EvalFiveFiveTimes | exprstack.py:137-143 | INT 5, INT 5, MUL leaves `[25]` |
| Interpreter.EvalFiveDupTimes | exprstack.py:170-175 | INT 5, DUP, MUL leaves `[25]` |
| Interpreter.FiveDupTimes | exprstack.py:182-191 | interpreting `5 dup *` leaves `[25]` |
| Interpreter.LexTenZeroDivide | exprstack.py:62-114 | `10 0 /` lexes to INT 10, INT 0, DIV |
| Interpreter.EvalTenZeroDivide | exprstack.py:144-152 | those tokens report the division by zero with both operands popped: the stack ends empty |
| Interpreter.TenZeroDivide | exprstack.py:182-191 | interpreting `10 0 /` reports the division by zero on an empty stack |
| Interpreter.LexZeroZeroPower | exprstack.py:62-114 | `0 0 ^` lexes to INT 0, INT 0, POW |
| Interpreter.EvalZeroZeroPower | exprstack.py:155-163 | those tokens report `0^0` with both zeros popped: the stack ends empty |
| Interpreter.ZeroZeroPower | exprstack.py:182-191 | interpreting `0 0 ^` reports `0^0` on an empty stack |
| Interpreter.LexPlus | exprstack.py:104-113 | `+` lexes to PLUS alone |
| Interpreter.EvalPlusOnEmpty | exprstack.py:123-126 | PLUS on an empty stack reports the missing arguments and returns |
| Interpreter.PlusOnEmpty | exprstack.py:182-191 | interpreting `+` reports the missing arguments |
| Interpreter.LexIllegalThenPrint | exprstack.py:62-114 | `foo 1 .` lexes to ILLEGAL `foo`, INT 1, PRINT |
| Interpreter.EvalIllegalThenPrint | exprstack.py:166-177 | those tokens report `foo`, carry on, and print 1 |
| Interpreter.IllegalThenPrint | exprstack.py:182-191 | interpreting `foo 1 .` reports `foo` and prints 1 |
| Interpreter.TrailingNumberLost | exprstack.py:69-113 | `3` alone yields no token: EOF overwrites the number |
| Interpreter.NumberOverwrittenBySymbol | exprstack.py:69-113 | `3+` yields only PLUS |
| Interpreter.NumberThenWordAtEnd | exprstack.py:69-113 | `12dup` yields no token: the word overwrites the number and EOF overwrites the word |
| Interpreter.NumberOverwrittenByWord | exprstack.py:69-113 | `12dup ` yields only DUP |
| Interpreter.FloatWithEmptyFraction | exprstack.py:76-87 | `12. ` yields the single FLOAT `12.` |
| Interpreter.SeparatorSwallowed | exprstack.py:104-113 | in `3@4` the `@` is consumed after the 3, and the 4 at the end is lost: only INT 3 |
| Interpreter.UnknownIgnored | exprstack.py:40-42 | `@` yields one token of the unset kind, which the evaluator ignores |

Helpers without a row cover the following:

- the cursor invariant (`Lexing.Valid`) and `Lexing.LexerAt`;
- the unfolding steps `ReadTokensDispatch`, `DigitsFirst` and `LettersFirst`;
- sequence identities: `SliceAround`, `Seqs.ConcatAssoc` and `OccursSplit`;
- `ThenAppend`, which is the step of `RunAppend`;
- `Lexing.Calls`, `n` repeated calls of `read_tokens`, which keeps the
  lexer valid over the same source and exists to state `ExhaustedStaysEof`;
- `Tokens.NoPointInDigits`, a digit run holds no `.`, used by the number
  branch;
- definitions that the rows above constrain through their partners:
  `Numbers.DigitsValue` (`int()` of a digit string, exprstack.py:121,
  pinned down by `DecimalRoundTrip`), `Numbers.IsZero` (Python's `== 0`,
  exprstack.py:150 and 161, pinned down by `FloatZeroes`) and
  `Evaluator.Then` (the early `return` of `evaluate`, pinned down by
  `RunAppend` and `AbortIsFinal`).

### Behaviour worth knowing

Each of these follows from the code as written:

- **A number or word at the very end of the source is lost.** The dispatch
  sees `""` after the run and overwrites the token with EOF. A digit string
  at the very end of the source yields no token
  (`Interpreter.TrailingNumberLost`), and neither does `dup` or `1.5`.
- **`12dup` is not two tokens.** The identifier branch overwrites the
  number, so `12dup ` yields DUP alone (`Interpreter.NumberOverwrittenByWord`),
  and `12dup` yields nothing (`Interpreter.NumberThenWordAtEnd`).
- **The final `read_ch` is unconditional.** It consumes the character after
  every number and word, whatever that character is, and not only after a
  single-character token (`Interpreter.SeparatorSwallowed`).
- **An unrecognised character gives a fresh token.** `read_tokens` makes a
  new `Token()` on every call, so such a character yields kind `0` and an
  empty literal rather than the previous token's fields, and the evaluator
  skips it (`Interpreter.UnknownIgnored`).
- **Whitespace is whatever `str.isspace` accepts.** That is more than space,
  tab and newline.
- **`10 0 /` ends on an empty stack.** Both operands are popped before the
  zero test, so the early return leaves neither of them behind.

## Left out

- Command-line and file handling (exprstack.py:1-21): this is I/O. The
  model starts from the source text.
- The REPL (exprstack.py:193-202): it is unreachable, because the program
  exits at line 11 first. It is interactive I/O as well.
- The global `tokens` list (exprstack.py:180, 189). It keeps tokens across
  calls of `functionality`, but with one invocation per process it only
  ever holds one source's tokens. The model evaluates each source's own
  tokens on a fresh stack, which is passed as a parameter.
- Numbers.Apply: float results are not computed. `float(literal)` and float
  `+ - * / **` come from the `FloatHost` parameter, and only whether the
  result is an int or a float is stated. This includes Python's promotion
  of `int ** negative int` to a float.
- Numbers.Apply: Python's `**` can return a `complex` (a negative base
  with a non-integral float exponent). That case is folded into the host's float
  result.
- Evaluator.PushLiteral: Python's limit on the number of digits `int()`
  accepts (4300 by default) is not modelled. Every lexed digit string
  converts.
- Chars.IsSpace, Chars.IsDigit, Chars.IsAlpha: these are ASCII only. Python's
  `isspace`, `isdigit` and `isalpha` accept Unicode characters as well.
- Evaluator.PrintTop: it records the printed value, not its text. Only
  `str()` of a non-negative int is modelled (`Numbers.Decimal`); negative
  ints and floats are not.
- Evaluator.PrintTop: `str()` of an int with more than 4300 digits raises
  `ValueError` on CPython 3.10.7 and later (for example `10 4300 ^ .`). The
  model records `Printed` for every int and does not end the run there.
- Evaluator.Binary: a Python exception (such as `OverflowError`) ends the
  run as the event `Raised`, and no traceback is modelled.
