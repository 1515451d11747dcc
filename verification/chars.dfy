/** Character classes used by the lexer of exprstack.py.

    The lexer asks three questions of the character under its cursor:
    `isspace()`, `isdigit()` and `isalpha()`. The cursor character is either
    one character of the source text or the empty string once the cursor has
    run past the end; the empty string answers "no" to all three questions.
    This model answers them for ASCII only (see README). */
module Chars {

  /** The character under the lexer's cursor: a character of the source, or
      the empty-string sentinel `""` once the cursor is at or past the end. */
  datatype Ch = Char(c: char) | End

  /** Python's `str.isspace` restricted to ASCII: tab, line feed, vertical
      tab, form feed, carriage return, the four separators 0x1C-0x1F, and
      the space. */
  predicate IsSpace(c: char) {
    c == ' ' || (9 <= c as int <= 13) || (28 <= c as int <= 31)
  }

  /** Python's `str.isdigit` restricted to ASCII. */
  predicate IsDigit(c: char) {
    '0' <= c <= '9'
  }

  /** Python's `str.isalpha` restricted to ASCII. */
  predicate IsAlpha(c: char) {
    ('a' <= c <= 'z') || ('A' <= c <= 'Z')
  }

  /** The two runs the lexer scans for: digit runs and letter runs. */
  datatype CharClass = Digits | Letters

  predicate InClass(cls: CharClass, c: char) {
    match cls
    case Digits => IsDigit(c)
    case Letters => IsAlpha(c)
  }

  /** The sentinel `""` belongs to no class. */
  predicate InClassCh(cls: CharClass, ch: Ch) {
    ch.Char? && InClass(cls, ch.c)
  }

  predicate IsSpaceCh(ch: Ch) {
    ch.Char? && IsSpace(ch.c)
  }

  predicate AllIn(cls: CharClass, s: string) {
    forall i :: 0 <= i < |s| ==> InClass(cls, s[i])
  }
}
