/** The `Lexer` class of exprstack.py as pure functions over an immutable
    cursor state. Every branch of `read_tokens` is modelled as written: the
    number, identifier and single-character branches run one after the
    other, so a later branch may overwrite the token an earlier one built,
    and one character is always consumed after the token. */
module Lexing {
  import opened Chars
  import opened Tokens

  /** The lexer's fields: the source, the current position, the next read
      position and the character at the current position. */
  datatype Lexer = Lexer(expr: string, pos: nat, readPos: nat, ch: Ch)

  /** A lexer state paired with the token read from it. */
  datatype Lexed = Lexed(lexer: Lexer, token: Token)

  /** A lexer state paired with the run of characters just consumed. */
  datatype Scanned = Scanned(lexer: Lexer, text: string)

  function CharAt(expr: string, i: nat): Ch {
    if i < |expr| then Char(expr[i]) else End
  }

  /** The cursor invariant `read_ch` establishes: the next read position is
      one past the current one, and the current character is the source
      character there, or the sentinel at or past the end. */
  predicate Valid(lx: Lexer) {
    lx.readPos == lx.pos + 1 && lx.ch == CharAt(lx.expr, lx.pos)
  }

  /** Characters still ahead of the cursor. */
  function Remaining(lx: Lexer): nat {
    if lx.pos <= |lx.expr| then |lx.expr| - lx.pos else 0
  }

  /** `read_ch`: move the cursor to the next read position, whatever state it
      was in. */
  function ReadCh(lx: Lexer): (r: Lexer)
    ensures Valid(r)
    ensures r.expr == lx.expr && r.pos == lx.readPos
  {
    var ch := if lx.readPos >= |lx.expr| then End else Char(lx.expr[lx.readPos]);
    Lexer(lx.expr, lx.readPos, lx.readPos + 1, ch)
  }

  /** The constructor: both positions start at 0 with an empty character,
      and one `read_ch` puts the cursor on the first character. */
  function NewLexer(expr: string): (r: Lexer)
    ensures Valid(r) && r.expr == expr && r.pos == 0
    ensures r.ch == (if |expr| == 0 then End else Char(expr[0]))
  {
    ReadCh(Lexer(expr, 0, 0, End))
  }

  /** The whitespace-skipping loop at the top of `read_tokens`. */
  function SkipSpace(lx: Lexer): (r: Lexer)
    requires Valid(lx)
    ensures Valid(r) && r.expr == lx.expr && r.pos >= lx.pos
    ensures !IsSpaceCh(r.ch)
    ensures r.pos > lx.pos ==> r.pos <= |lx.expr|
    ensures forall i :: lx.pos <= i < r.pos ==> IsSpace(lx.expr[i])
    decreases Remaining(lx)
  {
    if IsSpaceCh(lx.ch) then SkipSpace(ReadCh(lx)) else lx
  }

  /** A `while self.ch.isdigit()` or `while self.ch.isalpha()` loop: append
      the current character and advance while it is in the class. */
  function ReadRun(lx: Lexer, cls: CharClass): (r: Scanned)
    requires Valid(lx)
    ensures Valid(r.lexer) && r.lexer.expr == lx.expr
    ensures r.lexer.pos == lx.pos + |r.text|
    ensures AllIn(cls, r.text)
    ensures !InClassCh(cls, r.lexer.ch)
    ensures r.text == [] ==> r.lexer == lx
    ensures r.text != [] ==> r.lexer.pos <= |lx.expr| && r.text == lx.expr[lx.pos..r.lexer.pos]
    decreases Remaining(lx)
  {
    if InClassCh(cls, lx.ch) then
      var rest := ReadRun(ReadCh(lx), cls);
      Scanned(rest.lexer, [lx.ch.c] + rest.text)
    else
      Scanned(lx, "")
  }

  /** The number branch: a digit run, and when a `.` follows, the point and
      a second (possibly empty) digit run. The literal is exactly what was
      consumed, and the kind is `Float` exactly when the point was. */
  function NumberBranch(lx: Lexer): (r: Lexed)
    requires Valid(lx) && InClassCh(Digits, lx.ch)
    ensures Valid(r.lexer) && r.lexer.expr == lx.expr
    ensures lx.pos < r.lexer.pos <= |lx.expr|
    ensures r.token.literal == lx.expr[lx.pos..r.lexer.pos]
    ensures r.token.kind == Int || r.token.kind == Float
    ensures r.token.kind == Float <==> '.' in r.token.literal
    ensures Lexable(r.token)
    ensures !InClassCh(Digits, r.lexer.ch)
    ensures r.token.kind == Int ==> r.lexer.ch != Char('.')
  {
    var whole := ReadRun(lx, Digits);
    if whole.lexer.ch == Char('.') then
      var frac := ReadRun(ReadCh(whole.lexer), Digits);
      FloatBranch(lx, whole, frac);
      Lexed(frac.lexer, Token(Float, whole.text + "." + frac.text))
    else
      NoPointInDigits(whole.text);
      Lexed(whole.lexer, Token(Int, whole.text))
  }

  /** The fractional path of the number branch: the digits, the point and
      the digits after it are exactly the source between the two cursors,
      and they spell a float literal. */
  lemma FloatBranch(lx: Lexer, whole: Scanned, frac: Scanned)
    requires Valid(lx) && InClassCh(Digits, lx.ch)
    requires whole == ReadRun(lx, Digits) && whole.lexer.ch == Char('.')
    requires frac == ReadRun(ReadCh(whole.lexer), Digits)
    ensures var lit := whole.text + "." + frac.text;
      && lx.pos < frac.lexer.pos <= |lx.expr|
      && lit == lx.expr[lx.pos..frac.lexer.pos]
      && IsFloatLiteral(lit) && '.' in lit
  {
    var w := whole.lexer.pos;
    assert whole.text == lx.expr[lx.pos..w];
    assert frac.text == lx.expr[w + 1..frac.lexer.pos];
    assert lx.expr[w] == '.';
    FloatLiteralOf(whole.text, frac.text);
    SliceAround(lx.expr, lx.pos, w, frac.lexer.pos);
  }

  /** A slice split around one character. */
  lemma SliceAround(s: string, i: nat, j: nat, k: nat)
    requires i <= j < k <= |s|
    ensures s[i..k] == s[i..j] + [s[j]] + s[j + 1..k]
  {
  }

  /** The identifier branch: a letter run, which is `Dup` when it spells
      `dup` and `Illegal` otherwise. The kind is first set to `Ident` and
      then overwritten on both paths, so `Ident` never leaves this branch. */
  function IdentBranch(lx: Lexer): (r: Lexed)
    requires Valid(lx) && InClassCh(Letters, lx.ch)
    ensures Valid(r.lexer) && r.lexer.expr == lx.expr
    ensures lx.pos < r.lexer.pos <= |lx.expr|
    ensures r.token.literal == lx.expr[lx.pos..r.lexer.pos]
    ensures AllIn(Letters, r.token.literal)
    ensures !InClassCh(Letters, r.lexer.ch)
    ensures r.token.kind == Dup <==> r.token.literal == "dup"
    ensures r.token.kind == Illegal <==> r.token.literal != "dup"
    ensures Lexable(r.token)
  {
    var word := ReadRun(lx, Letters);
    var kind := if word.text != "dup" then Illegal else Dup;
    Lexed(word.lexer, Token(kind, word.text))
  }

  /** The single-character `match`: a symbol or the sentinel replaces the
      token built so far; any other character leaves it as it was. */
  function MatchSingle(ch: Ch, tok: Token): (r: Token)
    ensures ch == End ==> r == Token(Eof, "")
    ensures ch.Char? && !IsSymbolChar(ch.c) ==> r == tok
    ensures forall k :: IsSymbolKind(k) && ch == Char(Symbol(k)) ==> r == Token(k, [Symbol(k)])
    ensures ch.Char? && IsSymbolChar(ch.c) ==> r == Token(KindOf(ch.c), [ch.c])
    ensures tok.kind != Eof ==> (r.kind == Eof <==> ch == End)
    ensures Lexable(tok) ==> Lexable(r)
  {
    match ch
    case End => Token(Eof, "")
    case Char(c) =>
      if c == '+' then Token(Plus, "+")
      else if c == '-' then Token(Minus, "-")
      else if c == '*' then Token(Mul, "*")
      else if c == '/' then Token(Div, "/")
      else if c == '^' then Token(Pow, "^")
      else if c == '.' then Token(Print, ".")
      else tok
  }

  /** The token `read_tokens` starts from before any branch fires. */
  const Fresh := Token(Unset, "")

  /** The number branch followed by the identifier branch, each run only
      when the cursor is on a character of its class: the token so far is
      the fresh one when neither ran, and a well-formed one otherwise. */
  function Branches(lx: Lexer): (r: Lexed)
    requires Valid(lx)
    ensures Valid(r.lexer) && r.lexer.expr == lx.expr && r.lexer.pos >= lx.pos
    ensures r.lexer.pos > lx.pos ==> r.lexer.pos <= |lx.expr|
    ensures r.lexer.pos == lx.pos ==> r == Lexed(lx, Fresh)
    ensures Lexable(r.token) && r.token.kind != Eof
  {
    var num := if InClassCh(Digits, lx.ch) then NumberBranch(lx) else Lexed(lx, Fresh);
    if InClassCh(Letters, num.lexer.ch) then IdentBranch(num.lexer) else num
  }

  /** `read_tokens`: skip whitespace, run the number branch, then the
      identifier branch, then the single-character dispatch, and finally
      consume one more character unconditionally. */
  function ReadTokens(lx: Lexer): (r: Lexed)
    requires Valid(lx)
    ensures Valid(r.lexer) && r.lexer.expr == lx.expr
    ensures r.lexer.pos > lx.pos
    ensures r.token.kind == Eof <==> r.lexer.pos > |lx.expr|
    ensures lx.pos >= |lx.expr| ==> r.token == Token(Eof, "") && r.lexer.pos == lx.pos + 1
    ensures Lexable(r.token)
  {
    var word := Branches(SkipSpace(lx));
    Lexed(ReadCh(word.lexer), MatchSingle(word.lexer.ch, word.token))
  }

  /** The lexer after `n` further calls of `read_tokens`. */
  function Calls(lx: Lexer, n: nat): (r: Lexer)
    requires Valid(lx)
    ensures Valid(r) && r.expr == lx.expr
    decreases n
  {
    if n == 0 then lx else Calls(ReadTokens(lx).lexer, n - 1)
  }

  /** Once the source is exhausted, every later call returns EOF, and each
      call still advances the cursor by exactly one. */
  lemma {:induction false} ExhaustedStaysEof(lx: Lexer, n: nat)
    requires Valid(lx) && lx.pos >= |lx.expr|
    ensures Calls(lx, n).pos == lx.pos + n
    ensures ReadTokens(Calls(lx, n)).token == Token(Eof, "")
    decreases n
  {
    if n > 0 {
      ExhaustedStaysEof(ReadTokens(lx).lexer, n - 1);
    }
  }

  /** A number token reaches the caller exactly when the character after it
      is neither a letter, nor a symbol, nor the end of the source;
      otherwise a later branch overwrites it. */
  lemma NumberSurvives(lx: Lexer)
    requires Valid(lx)
    requires InClassCh(Digits, SkipSpace(lx).ch)
    ensures var n := NumberBranch(SkipSpace(lx));
      (ReadTokens(lx).token == n.token
       <==> n.lexer.ch.Char? && !IsAlpha(n.lexer.ch.c) && !IsSymbolChar(n.lexer.ch.c))
  {
    var lx1 := SkipSpace(lx);
    var n := NumberBranch(lx1);
    var word := Branches(lx1);
    DigitsFirst(lx1);
    ReadTokensDispatch(lx);
    OverwrittenUnlessSeparated(n, word);
  }

  /** The dispatch after the number branch keeps the number token exactly
      when the character after it is neither a letter, a symbol nor the end. */
  lemma OverwrittenUnlessSeparated(n: Lexed, word: Lexed)
    requires Valid(n.lexer) && (n.token.kind == Int || n.token.kind == Float)
    requires word == (if InClassCh(Letters, n.lexer.ch) then IdentBranch(n.lexer) else n)
    ensures MatchSingle(word.lexer.ch, word.token) == n.token
      <==> n.lexer.ch.Char? && !IsAlpha(n.lexer.ch.c) && !IsSymbolChar(n.lexer.ch.c)
  {
    var ch := n.lexer.ch;
    var t := MatchSingle(word.lexer.ch, word.token);
    if InClassCh(Letters, ch) {
      assert t.kind != n.token.kind by {
        assert !IsSymbolChar(ch.c);
        assert word.lexer.ch.End? || word.lexer.ch.Char?;
      }
    } else if ch.End? {
      assert t.kind == Eof;
    } else if IsSymbolChar(ch.c) {
      assert IsSymbolKind(t.kind);
    }
  }

  /** An identifier token reaches the caller exactly when the character after
      it is neither a symbol nor the end of the source. */
  lemma IdentSurvives(lx: Lexer)
    requires Valid(lx)
    requires InClassCh(Letters, SkipSpace(lx).ch)
    ensures var w := IdentBranch(SkipSpace(lx));
      (ReadTokens(lx).token == w.token
       <==> w.lexer.ch.Char? && !IsSymbolChar(w.lexer.ch.c))
  {
    var lx1 := SkipSpace(lx);
    var w := IdentBranch(lx1);
    LettersFirst(lx1);
    ReadTokensDispatch(lx);
    WordOverwrittenUnlessSeparated(w);
  }

  /** The token of one call is the single-character dispatch applied after
      the whitespace skip and the two branches. */
  lemma ReadTokensDispatch(lx: Lexer)
    requires Valid(lx)
    ensures var word := Branches(SkipSpace(lx));
      ReadTokens(lx) == Lexed(ReadCh(word.lexer), MatchSingle(word.lexer.ch, word.token))
  {
  }

  /** On a digit, the branches are the number branch, followed by the
      identifier branch when a letter comes straight after the number. */
  lemma DigitsFirst(lx: Lexer)
    requires Valid(lx) && InClassCh(Digits, lx.ch)
    ensures var n := NumberBranch(lx);
      Branches(lx) == (if InClassCh(Letters, n.lexer.ch) then IdentBranch(n.lexer) else n)
  {
  }

  /** On a letter, the branches are the identifier branch alone. */
  lemma LettersFirst(lx: Lexer)
    requires Valid(lx) && InClassCh(Letters, lx.ch)
    ensures Branches(lx) == IdentBranch(lx)
  {
    assert !InClassCh(Digits, lx.ch);
  }

  /** The dispatch after the identifier branch keeps its token exactly when
      the character after it is neither a symbol nor the end. */
  lemma WordOverwrittenUnlessSeparated(w: Lexed)
    requires w.token.kind == Dup || w.token.kind == Illegal
    ensures MatchSingle(w.lexer.ch, w.token) == w.token
      <==> w.lexer.ch.Char? && !IsSymbolChar(w.lexer.ch.c)
  {
    var t := MatchSingle(w.lexer.ch, w.token);
    if w.lexer.ch.End? {
      assert t.kind == Eof;
    } else if IsSymbolChar(w.lexer.ch.c) {
      assert IsSymbolKind(t.kind);
    }
  }

  /** Lexing the symbol of an operator kind gives that kind back, with the
      symbol as its literal, whatever token was built before. */
  lemma SymbolRoundTrip(k: TokenKind, tok: Token)
    requires IsSymbolKind(k)
    ensures MatchSingle(Char(Symbol(k)), tok) == Token(k, [Symbol(k)])
  {
  }

  /** The valid lexer state with its cursor at `pos`. */
  function LexerAt(expr: string, pos: nat): (r: Lexer)
    ensures Valid(r) && r.expr == expr && r.pos == pos
  {
    Lexer(expr, pos, pos + 1, CharAt(expr, pos))
  }

  /** A run scan stops exactly at the first character outside the class. */
  lemma {:induction false} ReadRunTo(lx: Lexer, cls: CharClass, q: nat)
    requires Valid(lx) && lx.pos <= q <= |lx.expr|
    requires forall i :: lx.pos <= i < q ==> InClass(cls, lx.expr[i])
    requires q == |lx.expr| || !InClass(cls, lx.expr[q])
    ensures ReadRun(lx, cls) == Scanned(LexerAt(lx.expr, q), lx.expr[lx.pos..q])
    decreases q - lx.pos
  {
    if lx.pos < q {
      var next := ReadCh(lx);
      assert InClassCh(cls, lx.ch);
      ReadRunTo(next, cls, q);
      var rest := ReadRun(next, cls);
      assert ReadRun(lx, cls) == Scanned(rest.lexer, [lx.expr[lx.pos]] + rest.text);
      assert [lx.expr[lx.pos]] + lx.expr[next.pos..q] == lx.expr[lx.pos..q];
    } else {
      assert !InClassCh(cls, lx.ch);
    }
  }

  /** A digit run followed by a character that is neither a point, a
      letter, a symbol nor a digit is an `Int` token, and that character is
      swallowed with it. */
  lemma IntThenSeparator(lx: Lexer, q: nat)
    requires Valid(lx) && lx.pos < q < |lx.expr|
    requires forall i :: lx.pos <= i < q ==> IsDigit(lx.expr[i])
    requires var c := lx.expr[q]; !IsDigit(c) && !IsAlpha(c) && !IsSymbolChar(c)
    ensures ReadTokens(lx) == Lexed(LexerAt(lx.expr, q + 1), Token(Int, lx.expr[lx.pos..q]))
  {
    DigitsThenOther(lx, q);
    ReadTokensDispatch(lx);
  }

  /** A digit run, a point, a possibly empty digit run and then a character
      that is neither a digit, a letter nor a symbol is a `Float` token whose
      literal runs up to that character, which is swallowed with it. */
  lemma FloatThenSeparator(lx: Lexer, q: nat, f: nat)
    requires Valid(lx) && lx.pos < q < f < |lx.expr|
    requires forall i :: lx.pos <= i < q ==> IsDigit(lx.expr[i])
    requires lx.expr[q] == '.' && forall i :: q < i < f ==> IsDigit(lx.expr[i])
    requires var c := lx.expr[f]; !IsDigit(c) && !IsAlpha(c) && !IsSymbolChar(c)
    ensures ReadTokens(lx) == Lexed(LexerAt(lx.expr, f + 1), Token(Float, lx.expr[lx.pos..f]))
  {
    DigitsPointDigits(lx, q, f);
    assert SkipSpace(lx) == lx;
    assert Branches(lx) == NumberBranch(lx);
    ReadTokensDispatch(lx);
  }

  /** The number branch on a digit run, a point and a digit run stops where
      the second run ends, with the `Float` token spelling all of it. */
  lemma DigitsPointDigits(lx: Lexer, q: nat, f: nat)
    requires Valid(lx) && lx.pos < q < f <= |lx.expr|
    requires forall i :: lx.pos <= i < q ==> IsDigit(lx.expr[i])
    requires lx.expr[q] == '.' && forall i :: q < i < f ==> IsDigit(lx.expr[i])
    requires f == |lx.expr| || !IsDigit(lx.expr[f])
    ensures IsDigit(lx.expr[lx.pos])
    ensures NumberBranch(lx) == Lexed(LexerAt(lx.expr, f), Token(Float, lx.expr[lx.pos..f]))
  {
    var e := lx.expr;
    assert IsDigit(e[lx.pos]);
    ReadRunTo(lx, Digits, q);
    var point := LexerAt(e, q);
    assert ReadCh(point) == LexerAt(e, q + 1);
    ReadRunTo(LexerAt(e, q + 1), Digits, f);
    SliceAround(e, lx.pos, q, f);
  }

  /** The branches on a digit run followed by a character that is neither a
      digit, a point nor a letter, or by the end, give the `Int` token and
      stop on that character. */
  lemma DigitsThenOther(lx: Lexer, q: nat)
    requires Valid(lx) && lx.pos < q <= |lx.expr|
    requires forall i :: lx.pos <= i < q ==> IsDigit(lx.expr[i])
    requires q == |lx.expr| || (var c := lx.expr[q]; !IsDigit(c) && c != '.' && !IsAlpha(c))
    ensures SkipSpace(lx) == lx
    ensures Branches(lx) == Lexed(LexerAt(lx.expr, q), Token(Int, lx.expr[lx.pos..q]))
  {
    assert IsDigit(lx.expr[lx.pos]);
    ReadRunTo(lx, Digits, q);
    assert NumberBranch(lx) == Lexed(LexerAt(lx.expr, q), Token(Int, lx.expr[lx.pos..q]));
  }

  /** A digit run directly followed by a symbol yields only the symbol's
      token: the number is overwritten. */
  lemma IntThenSymbol(lx: Lexer, q: nat)
    requires Valid(lx) && lx.pos < q < |lx.expr|
    requires forall i :: lx.pos <= i < q ==> IsDigit(lx.expr[i])
    requires var c := lx.expr[q]; IsSymbolChar(c) && c != '.'
    ensures var c := lx.expr[q];
      ReadTokens(lx) == Lexed(LexerAt(lx.expr, q + 1), Token(KindOf(c), [c]))
  {
    DigitsThenOther(lx, q);
    ReadTokensDispatch(lx);
  }

  /** A digit run that reaches the end of the source is lost: the call
      returns EOF. */
  lemma IntAtEnd(lx: Lexer)
    requires Valid(lx) && lx.pos < |lx.expr|
    requires forall i :: lx.pos <= i < |lx.expr| ==> IsDigit(lx.expr[i])
    ensures ReadTokens(lx) == Lexed(LexerAt(lx.expr, |lx.expr| + 1), Token(Eof, ""))
  {
    DigitsThenOther(lx, |lx.expr|);
    ReadTokensDispatch(lx);
  }

  /** A letter run followed by a character that is neither a letter nor a
      symbol is a `Dup` or `Illegal` token, and that character is swallowed
      with it. */
  lemma WordThenSeparator(lx: Lexer, q: nat)
    requires Valid(lx) && lx.pos < q < |lx.expr|
    requires forall i :: lx.pos <= i < q ==> IsAlpha(lx.expr[i])
    requires var c := lx.expr[q]; !IsAlpha(c) && !IsSymbolChar(c)
    ensures var w := lx.expr[lx.pos..q];
      ReadTokens(lx) == Lexed(LexerAt(lx.expr, q + 1), Token(if w == "dup" then Dup else Illegal, w))
  {
    assert IsAlpha(lx.expr[lx.pos]);
    assert SkipSpace(lx) == lx;
    ReadRunTo(lx, Letters, q);
    assert Branches(lx) == IdentBranch(lx);
  }

  /** A symbol is its own token, and the cursor moves just past it. */
  lemma SymbolToken(lx: Lexer)
    requires Valid(lx) && lx.pos < |lx.expr| && IsSymbolChar(lx.expr[lx.pos])
    ensures var c := lx.expr[lx.pos];
      ReadTokens(lx) == Lexed(LexerAt(lx.expr, lx.pos + 1), Token(KindOf(c), [c]))
  {
    assert SkipSpace(lx) == lx;
    assert Branches(lx) == Lexed(lx, Fresh);
    ReadTokensDispatch(lx);
  }

  /** A digit run directly followed by a letter run is overwritten by the
      word, which is then read as if the digits were not there. */
  lemma IntThenWord(lx: Lexer, q: nat, w: nat)
    requires Valid(lx) && lx.pos < q < w <= |lx.expr|
    requires forall i :: lx.pos <= i < q ==> IsDigit(lx.expr[i])
    requires forall i :: q <= i < w ==> IsAlpha(lx.expr[i])
    requires w == |lx.expr| || (!IsAlpha(lx.expr[w]) && !IsSymbolChar(lx.expr[w]))
    ensures var word := lx.expr[q..w];
      ReadTokens(lx) == Lexed(LexerAt(lx.expr, w + 1),
        if w == |lx.expr| then Token(Eof, "") else Token(if word == "dup" then Dup else Illegal, word))
  {
    assert SkipSpace(lx) == lx;
    DigitsThenLetters(lx, q, w);
  }

  /** The branches on a digit run directly followed by a letter run end
      where the letters end, with the word's token. */
  lemma DigitsThenLetters(lx: Lexer, q: nat, w: nat)
    requires Valid(lx) && lx.pos < q < w <= |lx.expr|
    requires forall i :: lx.pos <= i < q ==> IsDigit(lx.expr[i])
    requires forall i :: q <= i < w ==> IsAlpha(lx.expr[i])
    requires w == |lx.expr| || !IsAlpha(lx.expr[w])
    ensures var word := lx.expr[q..w];
      Branches(lx) == Lexed(LexerAt(lx.expr, w), Token(if word == "dup" then Dup else Illegal, word))
  {
    assert IsDigit(lx.expr[lx.pos]);
    ReadRunTo(lx, Digits, q);
    var atWord := LexerAt(lx.expr, q);
    assert IsAlpha(lx.expr[q]);
    ReadRunTo(atWord, Letters, w);
    assert Branches(lx) == IdentBranch(atWord);
  }

  /** A character that is no space, digit, letter or symbol produces the
      fresh token, kind unset and literal empty, and is swallowed. */
  lemma UnknownCharacter(lx: Lexer)
    requires Valid(lx) && lx.pos < |lx.expr|
    requires var c := lx.expr[lx.pos];
      !IsSpace(c) && !IsDigit(c) && !IsAlpha(c) && !IsSymbolChar(c)
    ensures ReadTokens(lx) == Lexed(LexerAt(lx.expr, lx.pos + 1), Token(Unset, ""))
  {
    assert SkipSpace(lx) == lx;
    assert Branches(lx) == Lexed(lx, Fresh);
  }
}
