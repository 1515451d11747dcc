/** The `evaluate` function of exprstack.py: a stack machine run over a
    token sequence. The stack is a sequence whose last element is the top
    (a Python list used with `append` and `pop`); output is recorded as
    events instead of printed text. */
module Evaluator {
  import opened Chars
  import opened Tokens
  import opened Numbers
  import opened Seqs

  /** The evaluation errors `evaluate` reports before returning early. */
  datatype EvalError = Arity(op: BinOp) | DivByZero | ZeroPowZero | DupEmpty

  /** What an evaluation step writes to the output: a printed value, an
      evaluation error, the illegal-token message, or an exception Python
      raised (which ends the run as well). */
  datatype Event =
    | Printed(value: Num)
    | Error(error: EvalError)
    | IllegalToken(literal: string)
    | Raised

  /** The events that end an evaluation. */
  predicate Stops(e: Event) {
    e.Error? || e.Raised?
  }

  /** The printed text of an evaluation error. */
  function ErrorMessage(e: EvalError): string {
    match e
    case Arity(op) => "error: operator '" + [OpSymbol(op)] + "' requires two numerical arguments"
    case DivByZero => "error: cannot divide by 0"
    case ZeroPowZero => "error: 0^0 is undefined"
    case DupEmpty => "error: one parameter is needed for dup"
  }

  /** The printed text of an illegal token. */
  function IllegalMessage(literal: string): string {
    "Got illegal token: " + literal
  }

  /** Distinct errors print distinct messages, and none is mistaken for an
      illegal-token report. */
  lemma MessagesDistinct(a: EvalError, b: EvalError, literal: string)
    ensures ErrorMessage(a) == ErrorMessage(b) ==> a == b
    ensures ErrorMessage(a) != IllegalMessage(literal)
  {
    var ma, mb := ErrorMessage(a), ErrorMessage(b);
    if ma == mb {
      assert ma[7] == mb[7] && ma[8] == mb[8] && ma[17] == mb[17];
    }
    assert ma[0] == 'e' && IllegalMessage(literal)[0] == 'G';
  }

  /** The state after some tokens: the stack, what was written, and whether
      the evaluation returned early. */
  datatype Outcome = Outcome(stack: seq<Num>, events: seq<Event>, aborted: bool)

  predicate IsOperatorKind(k: TokenKind) {
    k.Plus? || k.Minus? || k.Mul? || k.Div? || k.Pow?
  }

  function OpOf(k: TokenKind): (op: BinOp)
    requires IsOperatorKind(k)
    ensures OpSymbol(op) == Symbol(k)
  {
    match k
    case Plus => AddOp
    case Minus => SubOp
    case Mul => MulOp
    case Div => DivOp
    case Pow => PowOp
  }

  /** A binary operator: the arity check on the untouched stack; then pop
      `n2` (the top) and `n1` (below it); then, for `/` and `^`, the zero
      test with both operands already gone; then push `n1 op n2`. */
  function Binary(host: FloatHost, op: BinOp, stack: seq<Num>): (r: Outcome)
    ensures |stack| < 2 ==> r == Outcome(stack, [Error(Arity(op))], true)
    ensures |stack| >= 2 ==> var rest := stack[..|stack| - 2];
      var n1 := stack[|stack| - 2]; var n2 := stack[|stack| - 1];
      && (r.aborted ==> r.stack == rest && |r.events| == 1 && Stops(r.events[0]))
      && (!r.aborted ==>
            && r.events == [] && |r.stack| == |stack| - 1 && r.stack[..|rest|] == rest
            && Apply(host, op, n1, n2) == Some(r.stack[|rest|]))
      && (op == DivOp ==> (r.events == [Error(DivByZero)] <==> IsZero(n2)))
      && (op == PowOp ==> (r.events == [Error(ZeroPowZero)] <==> IsZero(n1) && IsZero(n2)))
      && (r.aborted <==>
            (op == DivOp && IsZero(n2)) || (op == PowOp && IsZero(n1) && IsZero(n2))
            || Apply(host, op, n1, n2) == None)
      && r.events != [Error(Arity(op))]
      && (r.events == [Raised] <==>
            (r.aborted && Apply(host, op, n1, n2) == None
             && !(op == DivOp && IsZero(n2))
             && !(op == PowOp && IsZero(n1) && IsZero(n2))))
  {
    if |stack| < 2 then
      Outcome(stack, [Error(Arity(op))], true)
    else
      var n2 := stack[|stack| - 1];
      var n1 := stack[|stack| - 2];
      var rest := stack[..|stack| - 2];
      if op == DivOp && IsZero(n2) then
        Outcome(rest, [Error(DivByZero)], true)
      else if op == PowOp && IsZero(n2) && IsZero(n1) then
        Outcome(rest, [Error(ZeroPowZero)], true)
      else
        match Apply(host, op, n1, n2)
        case Some(v) => Outcome(rest + [v], [], false)
        case None => Outcome(rest, [Raised], true)
  }

  /** A number literal: `int(literal)` or `float(literal)` pushed on the
      stack. A token the lexer cannot produce is modelled as raising;
      `Interpret` never hands one over. */
  function PushLiteral(host: FloatHost, tok: Token, stack: seq<Num>): (r: Outcome)
    requires tok.kind == Int || tok.kind == Float
    ensures Lexable(tok) ==>
      !r.aborted && r.events == [] && |r.stack| == |stack| + 1 && r.stack[..|stack|] == stack
    ensures Lexable(tok) && tok.kind == Int ==> r.stack[|stack|] == IntV(DigitsValue(tok.literal))
    ensures Lexable(tok) && tok.kind == Float ==> r.stack[|stack|].FloatV?
    ensures !Lexable(tok) ==> r == Outcome(stack, [Raised], true)
  {
    if tok.kind == Int then
      if |tok.literal| > 0 && AllIn(Digits, tok.literal) then
        Outcome(stack + [IntV(DigitsValue(tok.literal))], [], false)
      else
        Outcome(stack, [Raised], true)
    else
      if IsFloatLiteral(tok.literal) then
        Outcome(stack + [FloatV(host.parse(tok.literal))], [], false)
      else
        Outcome(stack, [Raised], true)
  }

  /** `.`: print the top and pop it; on an empty stack, nothing at all. */
  function PrintTop(stack: seq<Num>): (r: Outcome)
    ensures !r.aborted
    ensures |stack| > 0 ==>
      r.events == [Printed(stack[|stack| - 1])] && r.stack + [stack[|stack| - 1]] == stack
    ensures |stack| == 0 ==> r.events == [] && r.stack == stack
  {
    if |stack| > 0 then
      Outcome(stack[..|stack| - 1], [Printed(stack[|stack| - 1])], false)
    else
      Outcome(stack, [], false)
  }

  /** `dup`: push a copy of the top; on an empty stack, report and stop. */
  function DupTop(stack: seq<Num>): (r: Outcome)
    ensures r.aborted <==> |stack| == 0
    ensures |stack| == 0 ==> r == Outcome(stack, [Error(DupEmpty)], true)
    ensures |stack| > 0 ==>
      && r.events == [] && |r.stack| == |stack| + 1
      && r.stack[..|stack|] == stack && r.stack[|stack|] == stack[|stack| - 1]
  {
    if |stack| <= 0 then
      Outcome(stack, [Error(DupEmpty)], true)
    else
      Outcome(stack + [stack[|stack| - 1]], [], false)
  }

  /** One iteration of the `for` loop: the `match` on the token kind. The
      unset kind, `EOF` and `IDENT` have no case and do nothing. */
  function Step(host: FloatHost, stack: seq<Num>, tok: Token): (r: Outcome)
    ensures |r.events| <= 1
    ensures r.aborted <==> |r.events| == 1 && Stops(r.events[0])
    ensures tok.kind == Illegal ==> r == Outcome(stack, [IllegalToken(tok.literal)], false)
    ensures tok.kind.Unset? || tok.kind.Eof? || tok.kind.Ident? ==> r == Outcome(stack, [], false)
  {
    match tok.kind
    case Int => PushLiteral(host, tok, stack)
    case Float => PushLiteral(host, tok, stack)
    case Plus => Binary(host, AddOp, stack)
    case Minus => Binary(host, SubOp, stack)
    case Mul => Binary(host, MulOp, stack)
    case Div => Binary(host, DivOp, stack)
    case Pow => Binary(host, PowOp, stack)
    case Print => PrintTop(stack)
    case Dup => DupTop(stack)
    case Illegal => Outcome(stack, [IllegalToken(tok.literal)], false)
    case Unset => Outcome(stack, [], false)
    case Eof => Outcome(stack, [], false)
    case Ident => Outcome(stack, [], false)
  }

  /** Continue an outcome with more tokens, unless it already returned. */
  function Then(host: FloatHost, o: Outcome, tokens: seq<Token>): Outcome
    decreases |tokens|, 1
  {
    if o.aborted then o
    else
      var rest := Run(host, tokens, o.stack);
      Outcome(rest.stack, o.events + rest.events, rest.aborted)
  }

  /** `evaluate`: the tokens in order, each on the stack the previous one
      left, returning at the first step that stops. Only the last event of a
      run can stop it, and a run that stopped ends with one. */
  function Run(host: FloatHost, tokens: seq<Token>, stack: seq<Num>): (r: Outcome)
    ensures |r.events| <= |tokens|
    ensures r.aborted <==> |r.events| > 0 && Stops(r.events[|r.events| - 1])
    ensures forall i :: 0 <= i < |r.events| - 1 ==> !Stops(r.events[i])
    decreases |tokens|, 0
  {
    if |tokens| == 0 then Outcome(stack, [], false)
    else Then(host, Step(host, stack, tokens[0]), tokens[1..])
  }

  /** A run is its first step followed by the rest. */
  lemma RunCons(host: FloatHost, tok: Token, rest: seq<Token>, stack: seq<Num>)
    ensures Run(host, [tok] + rest, stack) == Then(host, Step(host, stack, tok), rest)
  {
    assert ([tok] + rest)[0] == tok && ([tok] + rest)[1..] == rest;
  }

  /** The step of `RunAppend`: continuing an outcome with `a + b` is
      continuing it with `a` and then with `b`, once that holds for runs
      starting from the outcome's stack. */
  lemma ThenAppend(host: FloatHost, o: Outcome, a: seq<Token>, b: seq<Token>)
    requires Run(host, a + b, o.stack) == Then(host, Run(host, a, o.stack), b)
    ensures Then(host, o, a + b) == Then(host, Then(host, o, a), b)
  {
    if !o.aborted {
      var mid := Run(host, a, o.stack);
      if !mid.aborted {
        var last := Run(host, b, mid.stack);
        ConcatAssoc(o.events, mid.events, last.events);
      }
    }
  }

  /** Running two token sequences one after the other is running their
      concatenation: the second starts on the stack the first left, and
      does not start at all when the first returned early. */
  lemma {:induction false} RunAppend(host: FloatHost, a: seq<Token>, b: seq<Token>, stack: seq<Num>)
    ensures Run(host, a + b, stack) == Then(host, Run(host, a, stack), b)
    decreases |a|
  {
    if |a| == 0 {
      assert a + b == b;
      assert [] + Run(host, b, stack).events == Run(host, b, stack).events;
    } else {
      var o := Step(host, stack, a[0]);
      assert (a + b)[0] == a[0] && (a + b)[1..] == a[1..] + b;
      RunAppend(host, a[1..], b, o.stack);
      ThenAppend(host, o, a[1..], b);
    }
  }

  /** Once a run returns early, no later token changes the stack or the
      output. */
  lemma AbortIsFinal(host: FloatHost, a: seq<Token>, b: seq<Token>, stack: seq<Num>)
    requires Run(host, a, stack).aborted
    ensures Run(host, a + b, stack) == Run(host, a, stack)
  {
    RunAppend(host, a, b, stack);
  }

  /** An illegal token is reported and evaluation goes on with the stack it
      found. */
  lemma IllegalContinues(host: FloatHost, tokens: seq<Token>, stack: seq<Num>)
    requires |tokens| > 0 && tokens[0].kind == Illegal
    ensures var after := Run(host, tokens[1..], stack);
      Run(host, tokens, stack) == Outcome(after.stack, [IllegalToken(tokens[0].literal)] + after.events, after.aborted)
  {
  }

  /** Pushing a number and printing it prints exactly that number and gives
      back the stack as it was. */
  lemma PushThenPrint(host: FloatHost, tokens: seq<Token>, stack: seq<Num>)
    requires |tokens| == 2 && tokens[0].kind == Int && Lexable(tokens[0]) && tokens[1].kind == Print
    ensures Run(host, tokens, stack) == Outcome(stack, [Printed(IntV(DigitsValue(tokens[0].literal)))], false)
  {
    var v := IntV(DigitsValue(tokens[0].literal));
    var pushed := stack + [v];
    RunNumber(host, tokens, stack);
    RunPrint(host, tokens[1..], pushed);
    assert pushed[..|pushed| - 1] == stack;
    RunEmpty(host, tokens[1..][1..], stack);
  }

  /** `dup` right after a number does what repeating the number does. */
  lemma DupRepeatsNumber(host: FloatHost, tokens: seq<Token>, twice: seq<Token>, stack: seq<Num>)
    requires |tokens| > 1 && tokens[0].kind == Int && Lexable(tokens[0]) && tokens[1].kind == Dup
    requires twice == [tokens[0], tokens[0]] + tokens[2..]
    ensures Run(host, tokens, stack) == Run(host, twice, stack)
  {
    var v := IntV(DigitsValue(tokens[0].literal));
    assert tokens[1..][1..] == tokens[2..] && twice[1..][1..] == tokens[2..];
    RunNumber(host, tokens, stack);
    RunDup(host, tokens[1..], stack + [v]);
    RunNumber(host, twice, stack);
    RunNumber(host, twice[1..], stack + [v]);
  }

  /** A number literal pushes its value, and the run goes on from there. */
  lemma RunNumber(host: FloatHost, tokens: seq<Token>, stack: seq<Num>)
    requires |tokens| > 0 && tokens[0].kind == Int && Lexable(tokens[0])
    ensures Run(host, tokens, stack) == Run(host, tokens[1..], stack + [IntV(DigitsValue(tokens[0].literal))])
  {
    var pushed := stack + [IntV(DigitsValue(tokens[0].literal))];
    assert Step(host, stack, tokens[0]) == Outcome(pushed, [], false);
    var rest := Run(host, tokens[1..], pushed);
    assert [] + rest.events == rest.events;
  }

  /** An operator that goes through replaces its operands by the result,
      and the run goes on from there. */
  lemma RunOperatorContinues(host: FloatHost, tokens: seq<Token>, stack: seq<Num>)
    requires |tokens| > 0 && IsOperatorKind(tokens[0].kind)
    requires !Binary(host, OpOf(tokens[0].kind), stack).aborted
    ensures Run(host, tokens, stack) == Run(host, tokens[1..], Binary(host, OpOf(tokens[0].kind), stack).stack)
  {
    var o := Binary(host, OpOf(tokens[0].kind), stack);
    assert Step(host, stack, tokens[0]) == o;
    var rest := Run(host, tokens[1..], o.stack);
    assert [] + rest.events == rest.events;
  }

  /** An operator that stops ends the run with its own outcome. */
  lemma RunOperatorStops(host: FloatHost, tokens: seq<Token>, stack: seq<Num>)
    requires |tokens| > 0 && IsOperatorKind(tokens[0].kind)
    requires Binary(host, OpOf(tokens[0].kind), stack).aborted
    ensures Run(host, tokens, stack) == Binary(host, OpOf(tokens[0].kind), stack)
  {
    assert Step(host, stack, tokens[0]) == Binary(host, OpOf(tokens[0].kind), stack);
  }

  /** The end of the tokens leaves the stack as it is and writes nothing. */
  lemma RunEmpty(host: FloatHost, tokens: seq<Token>, stack: seq<Num>)
    requires |tokens| == 0
    ensures Run(host, tokens, stack) == Outcome(stack, [], false)
  {
  }

  /** Two numbers and an operator: the operator is applied to the two values
      on top of whatever the stack held. */
  lemma RunBinaryExpression(host: FloatHost, tokens: seq<Token>, stack: seq<Num>)
    requires |tokens| == 3 && IsOperatorKind(tokens[2].kind)
    requires tokens[0].kind == Int && Lexable(tokens[0]) && tokens[1].kind == Int && Lexable(tokens[1])
    ensures var a, b := IntV(DigitsValue(tokens[0].literal)), IntV(DigitsValue(tokens[1].literal));
      var o := Binary(host, OpOf(tokens[2].kind), stack + [a, b]);
      Run(host, tokens, stack) == if o.aborted then o else Outcome(o.stack, [], false)
  {
    var a, b := IntV(DigitsValue(tokens[0].literal)), IntV(DigitsValue(tokens[1].literal));
    var rest1, rest2 := tokens[1..], tokens[1..][1..];
    assert rest1[0] == tokens[1] && rest2[0] == tokens[2];
    assert stack + [a] + [b] == stack + [a, b];
    RunNumber(host, tokens, stack);
    RunNumber(host, rest1, stack + [a]);
    var o := Binary(host, OpOf(tokens[2].kind), stack + [a, b]);
    if o.aborted {
      RunOperatorStops(host, rest2, stack + [a, b]);
    } else {
      RunOperatorContinues(host, rest2, stack + [a, b]);
      RunEmpty(host, rest2[1..], o.stack);
    }
  }

  /** `print` on a non-empty stack prints the top, pops it, and the run goes
      on from there. */
  lemma RunPrint(host: FloatHost, tokens: seq<Token>, stack: seq<Num>)
    requires |tokens| > 0 && tokens[0].kind == Print && |stack| > 0
    ensures var rest := Run(host, tokens[1..], stack[..|stack| - 1]);
      Run(host, tokens, stack)
        == Outcome(rest.stack, [Printed(stack[|stack| - 1])] + rest.events, rest.aborted)
  {
  }

  /** `dup` on a non-empty stack pushes a copy of the top, and the run goes
      on from there. */
  lemma RunDup(host: FloatHost, tokens: seq<Token>, stack: seq<Num>)
    requires |tokens| > 0 && tokens[0].kind == Dup && |stack| > 0
    ensures Run(host, tokens, stack) == Run(host, tokens[1..], stack + [stack[|stack| - 1]])
  {
    var pushed := stack + [stack[|stack| - 1]];
    var rest := Run(host, tokens[1..], pushed);
    assert Step(host, stack, tokens[0]) == Outcome(pushed, [], false);
    assert [] + rest.events == rest.events;
  }
}
