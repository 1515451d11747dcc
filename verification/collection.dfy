/** The token-collection loop of `functionality` in exprstack.py: call
    `read_tokens` until it returns EOF, keeping every token before it. */
module Collection {
  import opened Chars
  import opened Tokens
  import opened Lexing
  import opened Seqs

  /** The tokens `read_tokens` hands out from `lx` on, up to and excluding
      the first EOF. Every call that does not return EOF stays within the
      source and moves the cursor forward, so the collection ends. */
  function Collect(lx: Lexer): (r: seq<Token>)
    requires Valid(lx)
    ensures |r| <= Remaining(lx)
    decreases Remaining(lx)
  {
    var next := ReadTokens(lx);
    if next.token.kind == Eof then [] else [next.token] + Collect(next.lexer)
  }

  /** Every collected token is a well-formed one other than EOF. */
  lemma {:induction false} CollectWellFormed(lx: Lexer)
    requires Valid(lx)
    ensures forall i :: 0 <= i < |Collect(lx)| ==> Collect(lx)[i].kind != Eof && Lexable(Collect(lx)[i])
    decreases Remaining(lx)
  {
    var next := ReadTokens(lx);
    if next.token.kind != Eof {
      CollectWellFormed(next.lexer);
      var r, rest := Collect(lx), Collect(next.lexer);
      assert r == [next.token] + rest;
      assert forall i :: 0 < i < |r| ==> r[i] == rest[i - 1];
    }
  }

  /** The token sequence of a whole source text: never longer than the
      text. */
  function Tokenize(expr: string): (r: seq<Token>)
    ensures |r| <= |expr|
  {
    Collect(NewLexer(expr))
  }

  /** The tokens of a source text are free of EOF and of `Ident`, and made
      only of well-formed tokens. */
  lemma TokenizeWellFormed(expr: string)
    ensures var r := Tokenize(expr);
      forall i :: 0 <= i < |r| ==> r[i].kind != Eof && r[i].kind != Ident && Lexable(r[i])
  {
    CollectWellFormed(NewLexer(expr));
  }

  /** One more call of `read_tokens` that is not EOF adds its token in
      front of the rest. */
  lemma CollectCons(lx: Lexer, next: Lexed)
    requires Valid(lx) && ReadTokens(lx) == next && next.token.kind != Eof
    ensures Collect(lx) == [next.token] + Collect(next.lexer)
  {
  }

  /** Collecting from a digit run at `p` ended by a separator at `q`: one
      `Int` token, then whatever follows the separator. */
  lemma CollectInt(e: string, p: nat, q: nat, next: nat)
    requires p < q < |e| && forall i :: p <= i < q ==> IsDigit(e[i])
    requires !IsDigit(e[q]) && !IsAlpha(e[q]) && !IsSymbolChar(e[q]) && next == q + 1
    ensures Collect(LexerAt(e, p)) == [Token(Int, e[p..q])] + Collect(LexerAt(e, next))
  {
    var lx := LexerAt(e, p);
    IntThenSeparator(lx, q);
    CollectCons(lx, Lexed(LexerAt(e, next), Token(Int, e[p..q])));
  }

  /** Collecting from a letter run at `p` ended by a separator at `q`: one
      `Dup` or `Illegal` token, then whatever follows the separator. */
  lemma CollectWord(e: string, p: nat, q: nat, next: nat)
    requires p < q < |e| && forall i :: p <= i < q ==> IsAlpha(e[i])
    requires !IsAlpha(e[q]) && !IsSymbolChar(e[q]) && next == q + 1
    ensures var w := e[p..q];
      Collect(LexerAt(e, p)) == [Token(if w == "dup" then Dup else Illegal, w)] + Collect(LexerAt(e, next))
  {
    var lx := LexerAt(e, p);
    var w := e[p..q];
    WordThenSeparator(lx, q);
    CollectCons(lx, Lexed(LexerAt(e, next), Token(if w == "dup" then Dup else Illegal, w)));
  }

  /** Collecting from a symbol at `p`: its operator token, then whatever
      follows it. */
  lemma CollectSymbol(e: string, p: nat, next: nat)
    requires p < |e| && IsSymbolChar(e[p]) && next == p + 1
    ensures Collect(LexerAt(e, p)) == [Token(KindOf(e[p]), [e[p]])] + Collect(LexerAt(e, next))
  {
    var lx := LexerAt(e, p);
    SymbolToken(lx);
    CollectCons(lx, Lexed(LexerAt(e, next), Token(KindOf(e[p]), [e[p]])));
  }

  /** A space at `p` changes nothing about what is collected. */
  lemma CollectSkipsSpace(e: string, p: nat, next: nat)
    requires p < |e| && IsSpace(e[p]) && next == p + 1
    ensures Collect(LexerAt(e, p)) == Collect(LexerAt(e, next))
  {
    var lx, lx' := LexerAt(e, p), LexerAt(e, next);
    assert ReadCh(lx) == lx';
    assert SkipSpace(lx) == SkipSpace(lx');
    assert ReadTokens(lx) == ReadTokens(lx');
  }

  /** Nothing is collected once the source is exhausted. */
  lemma CollectEnd(e: string, p: nat)
    requires p >= |e|
    ensures Collect(LexerAt(e, p)) == []
  {
  }

  /** The loop as written: pull tokens until EOF and append the others. */
  method CollectTokens(expr: string) returns (tokens: seq<Token>)
    ensures tokens == Tokenize(expr)
    ensures forall i :: 0 <= i < |tokens| ==> tokens[i].kind != Eof
  {
    var lexer := NewLexer(expr);
    tokens := [];
    assert [] + Collect(lexer) == Collect(lexer);
    while true
      invariant Valid(lexer) && lexer.expr == expr
      invariant tokens + Collect(lexer) == Tokenize(expr)
      invariant forall i :: 0 <= i < |tokens| ==> tokens[i].kind != Eof
      decreases Remaining(lexer)
    {
      var next := ReadTokens(lexer);
      if next.token.kind == Eof {
        break;
      }
      CollectCons(lexer, next);
      ConcatAssoc(tokens, [next.token], Collect(next.lexer));
      tokens := tokens + [next.token];
      lexer := next.lexer;
    }
  }

  /** A source word the lexer is meant to read as one token: a digit run, a
      letter run or a symbol. */
  datatype Word = Number(digits: string) | Name(letters: string) | Sym(symbol: char)

  predicate WellSpelled(w: Word) {
    match w
    case Number(d) => |d| > 0 && AllIn(Digits, d)
    case Name(l) => |l| > 0 && AllIn(Letters, l)
    case Sym(c) => IsSymbolChar(c)
  }

  function Spell(w: Word): string {
    match w
    case Number(d) => d
    case Name(l) => l
    case Sym(c) => [c]
  }

  /** The token a word stands for. */
  function Meaning(w: Word): Token
    requires WellSpelled(w)
  {
    match w
    case Number(d) => Token(Int, d)
    case Name(l) => Token(if l == "dup" then Dup else Illegal, l)
    case Sym(c) => Token(KindOf(c), [c])
  }

  function Meanings(ws: seq<Word>): seq<Token>
    requires forall i :: 0 <= i < |ws| ==> WellSpelled(ws[i])
  {
    if |ws| == 0 then [] else [Meaning(ws[0])] + Meanings(ws[1..])
  }

  /** The words, each followed by one space. */
  function Spaced(ws: seq<Word>): string {
    if |ws| == 0 then "" else Spell(ws[0]) + " " + Spaced(ws[1..])
  }

  /** `s` occurs in `e` from position `p` on. */
  predicate Occurs(s: string, e: string, p: nat) {
    p + |s| <= |e| && forall i :: 0 <= i < |s| ==> e[p + i] == s[i]
  }

  /** An occurrence of `a + b` is an occurrence of `a` followed by one of `b`. */
  lemma OccursSplit(a: string, b: string, e: string, p: nat)
    requires Occurs(a + b, e, p)
    ensures Occurs(a, e, p) && Occurs(b, e, p + |a|)
  {
    forall i | 0 <= i < |a| ensures e[p + i] == a[i] {
      assert (a + b)[i] == a[i];
    }
    forall i | 0 <= i < |b| ensures e[p + |a| + i] == b[i] {
      assert (a + b)[|a| + i] == b[i];
    }
  }

  /** A digit run followed by a space, wherever it occurs in a source, is
      read as one `Int` token, and collection resumes after the space at
      `next`. */
  lemma CollectNumberSpaced(e: string, p: nat, d: string, next: nat)
    requires WellSpelled(Number(d)) && Occurs(d + " ", e, p) && next == p + |d| + 1
    ensures Collect(LexerAt(e, p)) == [Token(Int, d)] + Collect(LexerAt(e, next))
  {
    var q := p + |d|;
    OccursSplit(d, " ", e, p);
    assert e[p + |d| + 0] == " "[0];
    forall i | p <= i < q ensures IsDigit(e[i]) {
      assert e[p + (i - p)] == d[i - p] && InClass(Digits, d[i - p]);
    }
    assert e[p..q] == d;
    CollectInt(e, p, q, next);
  }

  /** A letter run followed by a space, wherever it occurs in a source, is
      read as one `Dup` or `Illegal` token, and collection resumes after the
      space at `next`. */
  lemma CollectNameSpaced(e: string, p: nat, l: string, next: nat)
    requires WellSpelled(Name(l)) && Occurs(l + " ", e, p) && next == p + |l| + 1
    ensures Collect(LexerAt(e, p)) == [Meaning(Name(l))] + Collect(LexerAt(e, next))
  {
    var q := p + |l|;
    OccursSplit(l, " ", e, p);
    assert e[p + |l| + 0] == " "[0];
    forall i | p <= i < q ensures IsAlpha(e[i]) {
      assert e[p + (i - p)] == l[i - p] && InClass(Letters, l[i - p]);
    }
    assert e[p..q] == l;
    CollectWord(e, p, q, next);
  }

  /** A symbol followed by a space, wherever it occurs in a source, is read
      as its operator token, and collection resumes after the space at
      `next`. */
  lemma CollectSymSpaced(e: string, p: nat, c: char, next: nat)
    requires WellSpelled(Sym(c)) && Occurs([c] + " ", e, p) && next == p + 2
    ensures Collect(LexerAt(e, p)) == [Meaning(Sym(c))] + Collect(LexerAt(e, next))
  {
    OccursSplit([c], " ", e, p);
    assert e[p + 0] == [c][0] && e[p + 1 + 0] == " "[0];
    CollectSymbol(e, p, p + 1);
    CollectSkipsSpace(e, p + 1, next);
  }

  /** A word followed by a space, wherever it occurs in a source, is read as
      its meaning, and collection resumes after the space at `next`. */
  lemma CollectWordSpaced(e: string, p: nat, w: Word, next: nat)
    requires WellSpelled(w) && Occurs(Spell(w) + " ", e, p) && next == p + |Spell(w)| + 1
    ensures Collect(LexerAt(e, p)) == [Meaning(w)] + Collect(LexerAt(e, next))
  {
    match w
    case Number(d) => CollectNumberSpaced(e, p, d, next);
    case Name(l) => CollectNameSpaced(e, p, l, next);
    case Sym(c) => CollectSymSpaced(e, p, c, next);
  }

  /** The step of `CollectSpaced`: the first word's token goes in front of
      the tokens `m` collected from after its space. */
  lemma CollectSpacedCons(e: string, p: nat, w: Word, m: seq<Token>, mid: nat, next: nat)
    requires WellSpelled(w) && Occurs(Spell(w) + " ", e, p) && mid == p + |Spell(w)| + 1
    requires Collect(LexerAt(e, mid)) == m + Collect(LexerAt(e, next))
    ensures Collect(LexerAt(e, p)) == [Meaning(w)] + m + Collect(LexerAt(e, next))
  {
    CollectWordSpaced(e, p, w, mid);
    ConcatAssoc([Meaning(w)], m, Collect(LexerAt(e, next)));
  }

  /** Words each followed by one space, wherever they occur in a source, are
      lexed word by word: one token per word, in order, each the word's
      meaning, and collection resumes at `next`, just past them. */
  lemma {:induction false} CollectSpaced(e: string, p: nat, ws: seq<Word>, next: nat)
    requires forall i :: 0 <= i < |ws| ==> WellSpelled(ws[i])
    requires Occurs(Spaced(ws), e, p) && next == p + |Spaced(ws)|
    ensures Collect(LexerAt(e, p)) == Meanings(ws) + Collect(LexerAt(e, next))
    decreases |ws|
  {
    if |ws| == 0 {
      var c := Collect(LexerAt(e, p));
      assert Meanings(ws) == [] && next == p;
      assert [] + c == c;
    } else {
      var head, rest := Spell(ws[0]) + " ", ws[1..];
      var mid := p + |head|;
      assert Spaced(ws) == head + Spaced(rest);
      OccursSplit(head, Spaced(rest), e, p);
      CollectSpaced(e, mid, rest, next);
      CollectSpacedCons(e, p, ws[0], Meanings(rest), mid, next);
      assert Meanings(ws) == [Meaning(ws[0])] + Meanings(rest);
    }
  }

  /** A spaced prefix is lexed word by word, whatever follows it. */
  lemma CollectSpacedPrefix(ws: seq<Word>, rest: string)
    requires forall i :: 0 <= i < |ws| ==> WellSpelled(ws[i])
    ensures var e := Spaced(ws) + rest;
      Collect(LexerAt(e, 0)) == Meanings(ws) + Collect(LexerAt(e, |Spaced(ws)|))
  {
    var e := Spaced(ws) + rest;
    assert Occurs(e, e, 0);
    OccursSplit(Spaced(ws), rest, e, 0);
    CollectSpaced(e, 0, ws, |Spaced(ws)|);
  }

  /** A source of words each followed by one space lexes to their meanings. */
  lemma TokenizeSpaced(ws: seq<Word>)
    requires forall i :: 0 <= i < |ws| ==> WellSpelled(ws[i])
    ensures Tokenize(Spaced(ws)) == Meanings(ws)
  {
    var e := Spaced(ws);
    assert e + "" == e;
    CollectSpacedPrefix(ws, "");
    assert NewLexer(e) == LexerAt(e, 0);
    CollectEnd(e, |e|);
    assert Meanings(ws) + [] == Meanings(ws);
  }

  /** A digit run that reaches the end of the source collects nothing. */
  lemma CollectIntAtEnd(e: string, p: nat)
    requires p < |e| && forall i :: p <= i < |e| ==> IsDigit(e[i])
    ensures Collect(LexerAt(e, p)) == []
  {
    IntAtEnd(LexerAt(e, p));
  }

  /** A digit run closing a source collects nothing, whatever precedes it. */
  lemma CollectNumberAtEnd(pre: string, d: string)
    requires WellSpelled(Number(d))
    ensures Collect(LexerAt(pre + d, |pre|)) == []
  {
    var e, n := pre + d, |pre|;
    forall i | n <= i < |e| ensures IsDigit(e[i]) {
      assert e[i] == d[i - n] && InClass(Digits, d[i - n]);
    }
    CollectIntAtEnd(e, n);
  }

  /** A symbol closing a spaced source is read like the words before it. */
  lemma TokenizeSpacedThenSymbol(ws: seq<Word>, c: char)
    requires forall i :: 0 <= i < |ws| ==> WellSpelled(ws[i])
    requires IsSymbolChar(c)
    ensures Tokenize(Spaced(ws) + [c]) == Meanings(ws) + [Token(KindOf(c), [c])]
  {
    var e, n := Spaced(ws) + [c], |Spaced(ws)|;
    CollectSpacedPrefix(ws, [c]);
    assert e[n] == c;
    CollectSymbol(e, n, n + 1);
    CollectEnd(e, n + 1);
    assert NewLexer(e) == LexerAt(e, 0);
    var t := Token(KindOf(c), [c]);
    assert [t] + [] == [t];
    ConcatAssoc(Meanings(ws), [t], []);
  }

  /** A number closing a spaced source is lost: the source lexes as if it
      were not there. */
  lemma TokenizeSpacedThenNumber(ws: seq<Word>, d: string)
    requires forall i :: 0 <= i < |ws| ==> WellSpelled(ws[i])
    requires WellSpelled(Number(d))
    ensures Tokenize(Spaced(ws) + d) == Meanings(ws)
  {
    var e := Spaced(ws) + d;
    CollectSpacedPrefix(ws, d);
    CollectNumberAtEnd(Spaced(ws), d);
    assert NewLexer(e) == LexerAt(e, 0);
    assert Meanings(ws) + [] == Meanings(ws);
  }
}
