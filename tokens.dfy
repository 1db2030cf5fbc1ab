/** The tokens of an expression and the character classes the scanner uses. */
module Tokens {

  /** An element of the service's `(number | string)[]` token list. */
  datatype Token = Num(value: real) | Str(text: string)

  /** The four operator strings `isValidExp` accepts (its `exArray`). */
  const Operators: seq<string> := ["+", "-", "*", "/"]

  predicate IsOperator(t: Token)
  {
    t.Str? && t.text in Operators
  }

  /** `\d`: an ASCII decimal digit. */
  predicate IsDigit(c: char)
  {
    '0' <= c <= '9'
  }

  function DigitValue(c: char): (d: nat)
    requires IsDigit(c)
    ensures d < 10
  {
    (c as int) - ('0' as int)
  }

  // The character class of the scanner's second alternative: + - * / ( )
  predicate IsSymbol(c: char)
  {
    c == '+' || c == '-' || c == '*' || c == '/' || c == '(' || c == ')'
  }

  /** `\s`, which is also the set `String.prototype.trim` removes:
      ECMAScript's WhiteSpace and LineTerminator characters. */
  predicate IsWhitespace(c: char)
    ensures IsWhitespace(c) ==> !IsDigit(c) && !IsSymbol(c) && c != '.'
  {
    c == '\t' || c == '\n' || c == '\U{B}' || c == '\U{C}' || c == '\r' || c == ' '
    || c == '\U{A0}' || c == '\U{1680}' || ('\U{2000}' <= c <= '\U{200A}')
    || c == '\U{2028}' || c == '\U{2029}' || c == '\U{202F}' || c == '\U{205F}'
    || c == '\U{3000}' || c == '\U{FEFF}'
  }

  /** The character class `[\d+\-*\/\s]` of the service's pre-check. */
  predicate IsAllowed(c: char)
  {
    IsDigit(c) || c == '+' || c == '-' || c == '*' || c == '/' || IsWhitespace(c)
  }

  /** A real that is a natural number: what a literal of digits alone denotes. */
  predicate IsNatural(r: real)
  {
    r.Floor >= 0 && r == r.Floor as real
  }
}
