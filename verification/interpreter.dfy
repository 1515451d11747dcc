/** `functionality` in exprstack.py for a one-shot invocation: lex the whole
    source, then evaluate the tokens on a fresh, empty stack. The examples
    below pin down the behaviour of the code as written on small sources;
    each takes the source as a parameter fixed by its precondition. */
module Interpreter {
  import opened Chars
  import opened Tokens
  import opened Lexing
  import opened Collection
  import opened Numbers
  import opened Evaluator

  /** One invocation: the collected tokens run on an empty stack. */
  function Interpret(host: FloatHost, expr: string): (r: Outcome)
    ensures |r.events| <= |expr|
    ensures r.aborted <==> |r.events| > 0 && Stops(r.events[|r.events| - 1])
  {
    Run(host, Tokenize(expr), [])
  }

  /** `3 4 +` lexes to two ints and a plus. */
  lemma LexThreeFourPlus(e: string)
    requires e == "3 4 +"
    ensures Tokenize(e) == [Token(Int, "3"), Token(Int, "4"), Token(Plus, "+")]
  {
    var ws := [Number("3"), Number("4")];
    assert Spaced(ws) + ['+'] == e;
    assert Meanings(ws) + [Token(KindOf('+'), ['+'])] == [Token(Int, "3"), Token(Int, "4"), Token(Plus, "+")];
    TokenizeSpacedThenSymbol(ws, '+');
  }

  /** `3 4 +` evaluates to 7 and prints nothing. */
  lemma EvalThreeFourPlus(host: FloatHost, tokens: seq<Token>)
    requires tokens == [Token(Int, "3"), Token(Int, "4"), Token(Plus, "+")]
    ensures Run(host, tokens, []) == Outcome([IntV(7)], [], false)
  {
    assert DigitsValue("3") == 3 && DigitsValue("4") == 4;
    assert Binary(host, AddOp, [IntV(3), IntV(4)]) == Outcome([IntV(7)], [], false);
    RunBinaryExpression(host, tokens, []);
  }

  /** Interpreting `3 4 +` leaves 7 and prints nothing. */
  lemma ThreeFourPlus(host: FloatHost, e: string)
    requires e == "3 4 +"
    ensures Interpret(host, e) == Outcome([IntV(7)], [], false)
  {
    LexThreeFourPlus(e);
    EvalThreeFourPlus(host, Tokenize(e));
  }

  /** `5 dup *` lexes to an int, `dup` and a times. */
  lemma LexFiveDupTimes(e: string)
    requires e == "5 dup *"
    ensures Tokenize(e) == [Token(Int, "5"), Token(Dup, "dup"), Token(Mul, "*")]
  {
    var ws := [Number("5"), Name("dup")];
    assert Spaced(ws) + ['*'] == e;
    assert Meanings(ws) + [Token(KindOf('*'), ['*'])] == [Token(Int, "5"), Token(Dup, "dup"), Token(Mul, "*")];
    TokenizeSpacedThenSymbol(ws, '*');
  }

  /** `5 5 *` evaluates to 25. */
  lemma EvalFiveFiveTimes(host: FloatHost, tokens: seq<Token>)
    requires tokens == [Token(Int, "5"), Token(Int, "5"), Token(Mul, "*")]
    ensures Run(host, tokens, []) == Outcome([IntV(25)], [], false)
  {
    assert DigitsValue("5") == 5;
    assert Binary(host, MulOp, [IntV(5), IntV(5)]) == Outcome([IntV(25)], [], false);
    RunBinaryExpression(host, tokens, []);
  }

  /** `5 dup *` evaluates to 25, as `5 5 *` does. */
  lemma EvalFiveDupTimes(host: FloatHost, tokens: seq<Token>)
    requires tokens == [Token(Int, "5"), Token(Dup, "dup"), Token(Mul, "*")]
    ensures Run(host, tokens, []) == Outcome([IntV(25)], [], false)
  {
    var twice := [Token(Int, "5"), Token(Int, "5"), Token(Mul, "*")];
    DupRepeatsNumber(host, tokens, twice, []);
    EvalFiveFiveTimes(host, twice);
  }

  /** Interpreting `5 dup *` leaves 25. */
  lemma FiveDupTimes(host: FloatHost, e: string)
    requires e == "5 dup *"
    ensures Interpret(host, e) == Outcome([IntV(25)], [], false)
  {
    LexFiveDupTimes(e);
    EvalFiveDupTimes(host, Tokenize(e));
  }

  /** `10 0 /` lexes to two ints and a divide. */
  lemma LexTenZeroDivide(e: string)
    requires e == "10 0 /"
    ensures Tokenize(e) == [Token(Int, "10"), Token(Int, "0"), Token(Div, "/")]
  {
    var ws := [Number("10"), Number("0")];
    assert Spaced(ws) + ['/'] == e;
    assert Meanings(ws) + [Token(KindOf('/'), ['/'])] == [Token(Int, "10"), Token(Int, "0"), Token(Div, "/")];
    TokenizeSpacedThenSymbol(ws, '/');
  }

  /** `10 0 /` pops both operands before the zero test, so the abort leaves
      the stack empty. */
  lemma EvalTenZeroDivide(host: FloatHost, tokens: seq<Token>)
    requires tokens == [Token(Int, "10"), Token(Int, "0"), Token(Div, "/")]
    ensures Run(host, tokens, []) == Outcome([], [Error(DivByZero)], true)
  {
    assert DigitsValue("10") == 10 && DigitsValue("0") == 0;
    assert Binary(host, DivOp, [IntV(10), IntV(0)]) == Outcome([], [Error(DivByZero)], true);
    RunBinaryExpression(host, tokens, []);
  }

  /** Interpreting `10 0 /` reports the division by zero on an empty stack. */
  lemma TenZeroDivide(host: FloatHost, e: string)
    requires e == "10 0 /"
    ensures Interpret(host, e) == Outcome([], [Error(DivByZero)], true)
  {
    LexTenZeroDivide(e);
    EvalTenZeroDivide(host, Tokenize(e));
  }

  /** `0 0 ^` lexes to two zeros and a power. */
  lemma LexZeroZeroPower(e: string)
    requires e == "0 0 ^"
    ensures Tokenize(e) == [Token(Int, "0"), Token(Int, "0"), Token(Pow, "^")]
  {
    var ws := [Number("0"), Number("0")];
    assert Spaced(ws) + ['^'] == e;
    assert Meanings(ws) + [Token(KindOf('^'), ['^'])] == [Token(Int, "0"), Token(Int, "0"), Token(Pow, "^")];
    TokenizeSpacedThenSymbol(ws, '^');
  }

  /** `0 0 ^` is reported undefined after both zeros are popped. */
  lemma EvalZeroZeroPower(host: FloatHost, tokens: seq<Token>)
    requires tokens == [Token(Int, "0"), Token(Int, "0"), Token(Pow, "^")]
    ensures Run(host, tokens, []) == Outcome([], [Error(ZeroPowZero)], true)
  {
    assert DigitsValue("0") == 0;
    assert Binary(host, PowOp, [IntV(0), IntV(0)]) == Outcome([], [Error(ZeroPowZero)], true);
    RunBinaryExpression(host, tokens, []);
  }

  /** Interpreting `0 0 ^` reports the undefined power on an empty stack. */
  lemma ZeroZeroPower(host: FloatHost, e: string)
    requires e == "0 0 ^"
    ensures Interpret(host, e) == Outcome([], [Error(ZeroPowZero)], true)
  {
    LexZeroZeroPower(e);
    EvalZeroZeroPower(host, Tokenize(e));
  }

  /** `+` lexes to a plus. */
  lemma LexPlus(e: string)
    requires e == "+"
    ensures Tokenize(e) == [Token(Plus, "+")]
  {
    var ws: seq<Word> := [];
    assert Spaced(ws) + ['+'] == e;
    assert Meanings(ws) + [Token(KindOf('+'), ['+'])] == [Token(Plus, "+")];
    TokenizeSpacedThenSymbol(ws, '+');
  }

  /** `+` on the empty stack reports the missing arguments. */
  lemma EvalPlusOnEmpty(host: FloatHost, tokens: seq<Token>)
    requires tokens == [Token(Plus, "+")]
    ensures Run(host, tokens, []) == Outcome([], [Error(Arity(AddOp))], true)
  {
    RunOperatorStops(host, tokens, []);
  }

  /** Interpreting `+` reports the missing arguments. */
  lemma PlusOnEmpty(host: FloatHost, e: string)
    requires e == "+"
    ensures Interpret(host, e) == Outcome([], [Error(Arity(AddOp))], true)
  {
    LexPlus(e);
    EvalPlusOnEmpty(host, Tokenize(e));
  }

  /** A number at the very end of the source is lost: `3` yields no token. */
  lemma TrailingNumberLost(e: string)
    requires e == "3"
    ensures Tokenize(e) == []
  {
    assert e[0] == '3';
    assert NewLexer(e) == LexerAt(e, 0);
    IntAtEnd(LexerAt(e, 0));
  }

  /** A number directly followed by a symbol is overwritten: `3+` yields
      only the plus. */
  lemma NumberOverwrittenBySymbol(e: string)
    requires e == "3+"
    ensures Tokenize(e) == [Token(Plus, "+")]
  {
    assert e[0] == '3' && e[1] == '+';
    assert NewLexer(e) == LexerAt(e, 0);
    IntThenSymbol(LexerAt(e, 0), 1);
    CollectCons(LexerAt(e, 0), Lexed(LexerAt(e, 2), Token(Plus, "+")));
    CollectEnd(e, 2);
  }

  /** A number directly followed by a word is overwritten by the word, and a
      word that reaches the end of the source is lost as well: `12dup`
      yields nothing. */
  lemma NumberThenWordAtEnd(e: string)
    requires e == "12dup"
    ensures Tokenize(e) == []
  {
    assert e[0] == '1' && e[1] == '2' && e[2] == 'd' && e[3] == 'u' && e[4] == 'p';
    assert NewLexer(e) == LexerAt(e, 0);
    IntThenWord(LexerAt(e, 0), 2, 5);
  }

  /** With a separator after it, `12dup ` yields only `dup`. */
  lemma NumberOverwrittenByWord(e: string)
    requires e == "12dup "
    ensures Tokenize(e) == [Token(Dup, "dup")]
  {
    assert e[0] == '1' && e[1] == '2' && e[2] == 'd' && e[3] == 'u' && e[4] == 'p' && e[5] == ' ';
    assert e[2..5] == "dup";
    assert NewLexer(e) == LexerAt(e, 0);
    IntThenWord(LexerAt(e, 0), 2, 5);
    CollectCons(LexerAt(e, 0), Lexed(LexerAt(e, 6), Token(Dup, "dup")));
    CollectEnd(e, 6);
  }

  /** A point right after digits belongs to the number: `12. ` is the one
      float `12.`. */
  lemma FloatWithEmptyFraction(e: string)
    requires e == "12. "
    ensures Tokenize(e) == [Token(Float, "12.")]
  {
    assert e[0] == '1' && e[1] == '2' && e[2] == '.' && e[3] == ' ';
    assert e[0..3] == "12.";
    assert NewLexer(e) == LexerAt(e, 0);
    FloatThenSeparator(LexerAt(e, 0), 2, 3);
    CollectCons(LexerAt(e, 0), Lexed(LexerAt(e, 4), Token(Float, "12.")));
    CollectEnd(e, 4);
  }

  /** The character after a token is swallowed whatever it is: in `3@4` the
      `@` separates the two numbers, and the `4`, at the end, is lost. */
  lemma SeparatorSwallowed(e: string)
    requires e == "3@4"
    ensures Tokenize(e) == [Token(Int, "3")]
  {
    assert e[0] == '3' && e[1] == '@' && e[2] == '4';
    assert e[0..1] == "3";
    assert NewLexer(e) == LexerAt(e, 0);
    CollectInt(e, 0, 1, 2);
    CollectIntAtEnd(e, 2);
  }

  /** A lone unknown character yields the fresh token, which the evaluator
      ignores. */
  lemma UnknownIgnored(host: FloatHost, e: string)
    requires e == "@"
    ensures Tokenize(e) == [Token(Unset, "")]
    ensures Interpret(host, e) == Outcome([], [], false)
  {
    assert e[0] == '@';
    assert NewLexer(e) == LexerAt(e, 0);
    UnknownCharacter(LexerAt(e, 0));
    CollectCons(LexerAt(e, 0), Lexed(LexerAt(e, 1), Token(Unset, "")));
    CollectEnd(e, 1);
    RunCons(host, Token(Unset, ""), [], []);
  }

  /** `foo 1 .` lexes to an illegal word, an int and a print. */
  lemma LexIllegalThenPrint(e: string)
    requires e == "foo 1 ."
    ensures Tokenize(e) == [Token(Illegal, "foo"), Token(Int, "1"), Token(Print, ".")]
  {
    var ws := [Name("foo"), Number("1")];
    assert Spaced(ws) + ['.'] == e;
    assert Meanings(ws) + [Token(KindOf('.'), ['.'])] == [Token(Illegal, "foo"), Token(Int, "1"), Token(Print, ".")];
    TokenizeSpacedThenSymbol(ws, '.');
  }

  /** An illegal word is reported and evaluation carries on: `foo 1 .`
      reports `foo` and then prints 1. */
  lemma EvalIllegalThenPrint(host: FloatHost, tokens: seq<Token>)
    requires tokens == [Token(Illegal, "foo"), Token(Int, "1"), Token(Print, ".")]
    ensures Run(host, tokens, []) == Outcome([], [IllegalToken("foo"), Printed(IntV(1))], false)
  {
    IllegalContinues(host, tokens, []);
    PushThenPrint(host, tokens[1..], []);
    assert DigitsValue("1") == 1;
  }

  /** Interpreting `foo 1 .` reports `foo` and then prints 1. */
  lemma IllegalThenPrint(host: FloatHost, e: string)
    requires e == "foo 1 ."
    ensures Interpret(host, e) == Outcome([], [IllegalToken("foo"), Printed(IntV(1))], false)
  {
    LexIllegalThenPrint(e);
    EvalIllegalThenPrint(host, Tokenize(e));
  }
}
