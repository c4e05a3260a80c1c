/**
 * Character classes and character runs over a message body, as the regular
 * expression of the transaction parser sees them. Strings are sequences of
 * characters; the pattern has no fixed-count `.`, so counting code points
 * rather than UTF-16 code units changes no capture.
 */
module Text {

  /** `\d`: the ASCII digits only. */
  predicate IsDigit(c: char) {
    '0' <= c <= '9'
  }

  /** `[\d,]` */
  predicate IsDigitOrComma(c: char) {
    IsDigit(c) || c == ','
  }

  /** A character of a captured amount or balance: `[\d,]`, `.` or `\d`. */
  predicate IsNumberChar(c: char) {
    IsDigitOrComma(c) || c == '.'
  }

  /** The characters that `.` does not match when the `s` flag is absent: LF, CR, LS and PS. */
  predicate IsLineTerminator(c: char) {
    c == '\n' || c == '\r' || c == '\U{2028}' || c == '\U{2029}'
  }

  predicate AllDigitOrComma(s: string, i: nat, j: nat)
    requires i <= j <= |s|
  {
    forall k :: i <= k < j ==> IsDigitOrComma(s[k])
  }

  predicate AllDigits(s: string, i: nat, j: nat)
    requires i <= j <= |s|
  {
    forall k :: i <= k < j ==> IsDigit(s[k])
  }

  predicate AllNumberChars(s: string, i: nat, j: nat)
    requires i <= j <= |s|
  {
    forall k :: i <= k < j ==> IsNumberChar(s[k])
  }

  /** What `.*` or `.+` may consume: no line terminator in `s[i..j]`. */
  predicate NoLineTerminator(s: string, i: nat, j: nat)
    requires i <= j <= |s|
  {
    forall k :: i <= k < j ==> !IsLineTerminator(s[k])
  }

  /** The text `lit` occurs in `s` at position `i`. */
  predicate LiteralAt(s: string, i: nat, lit: string) {
    i + |lit| <= |s| && s[i..i + |lit|] == lit
  }

  /** The end of the longest run of `[\d,]` starting at `i`. */
  function DigitOrCommaRunEnd(s: string, i: nat): (j: nat)
    requires i <= |s|
    ensures i <= j <= |s| && AllDigitOrComma(s, i, j)
    ensures j < |s| ==> !IsDigitOrComma(s[j])
    decreases |s| - i
  {
    if i < |s| && IsDigitOrComma(s[i]) then DigitOrCommaRunEnd(s, i + 1) else i
  }

  /** The end of the longest run of `\d` starting at `i`. */
  function DigitRunEnd(s: string, i: nat): (j: nat)
    requires i <= |s|
    ensures i <= j <= |s| && AllDigits(s, i, j)
    ensures j < |s| ==> !IsDigit(s[j])
    decreases |s| - i
  {
    if i < |s| && IsDigit(s[i]) then DigitRunEnd(s, i + 1) else i
  }

  /** The position of the first line terminator at or after `i`, or `|s|`. */
  function LineEnd(s: string, i: nat): (j: nat)
    requires i <= |s|
    ensures i <= j <= |s| && NoLineTerminator(s, i, j)
    ensures j < |s| ==> IsLineTerminator(s[j])
    decreases |s| - i
  {
    if i < |s| && !IsLineTerminator(s[i]) then LineEnd(s, i + 1) else i
  }

  /** `.*` starting at `i` can stop exactly at the positions up to the end of the line. */
  lemma NoLineTerminatorUpToLineEnd(s: string, i: nat, x: nat)
    requires i <= x <= |s|
    ensures NoLineTerminator(s, i, x) <==> x <= LineEnd(s, i)
  {
  }
}
