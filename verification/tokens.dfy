/** Tokens of exprstack.py: the `TokenKind` enumeration and the `Token`
    record with its `kind` and `literal`. */
module Tokens {
  import opened Chars

  /** `TokenKind` plus `Unset`, the integer `0` a fresh `Token()` starts
      with. `Unset` is not a member of the enumeration, so it equals none of
      them, `EOF` included. */
  datatype TokenKind =
    | Unset
    | Eof | Plus | Minus | Mul | Div | Pow
    | Int | Float | Print | Ident | Dup | Illegal

  datatype Token = Token(kind: TokenKind, literal: string)

  /** The kinds the single-character dispatch produces from one symbol. */
  predicate IsSymbolKind(k: TokenKind) {
    k.Plus? || k.Minus? || k.Mul? || k.Div? || k.Pow? || k.Print?
  }

  /** The source character of a single-character token kind. */
  function Symbol(k: TokenKind): char
    requires IsSymbolKind(k)
  {
    match k
    case Plus => '+'
    case Minus => '-'
    case Mul => '*'
    case Div => '/'
    case Pow => '^'
    case Print => '.'
  }

  predicate IsSymbolChar(c: char) {
    c == '+' || c == '-' || c == '*' || c == '/' || c == '^' || c == '.'
  }

  /** The kind a symbol character stands for: the inverse of `Symbol`. */
  function KindOf(c: char): (k: TokenKind)
    requires IsSymbolChar(c)
    ensures IsSymbolKind(k) && Symbol(k) == c
  {
    if c == '+' then Plus
    else if c == '-' then Minus
    else if c == '*' then Mul
    else if c == '/' then Div
    else if c == '^' then Pow
    else Print
  }

  /** A float literal: a non-empty digit run, a point, and a possibly empty
      digit run (`"12."` is one). */
  predicate IsFloatLiteral(s: string) {
    exists k :: 0 < k < |s| && s[k] == '.' && AllIn(Digits, s[..k]) && AllIn(Digits, s[k+1..])
  }

  /** A digit run, a point and a digit run form a float literal, and the
      point is the only one in it. */
  lemma FloatLiteralOf(whole: string, frac: string)
    requires |whole| > 0 && AllIn(Digits, whole) && AllIn(Digits, frac)
    ensures IsFloatLiteral(whole + "." + frac) && '.' in whole + "." + frac
  {
    var s := whole + "." + frac;
    assert s[..|whole|] == whole && s[|whole| + 1..] == frac;
    assert s[|whole|] == '.';
  }

  /** A digit run holds no point. */
  lemma NoPointInDigits(s: string)
    requires AllIn(Digits, s)
    ensures '.' !in s
  {
  }

  /** The shapes of token the lexer can hand out. `Ident` is declared but
      never produced: an identifier is immediately reclassified as `Dup` or
      `Illegal`. */
  predicate Lexable(t: Token) {
    match t.kind
    case Unset => t.literal == ""
    case Eof => t.literal == ""
    case Plus => t.literal == "+"
    case Minus => t.literal == "-"
    case Mul => t.literal == "*"
    case Div => t.literal == "/"
    case Pow => t.literal == "^"
    case Print => t.literal == "."
    case Int => |t.literal| > 0 && AllIn(Digits, t.literal)
    case Float => IsFloatLiteral(t.literal)
    case Ident => false
    case Dup => t.literal == "dup"
    case Illegal => |t.literal| > 0 && AllIn(Letters, t.literal) && t.literal != "dup"
  }
}
