/** Case mapping restricted to ASCII: `toUpperCase`/`toLowerCase` change only the
    letters `a`-`z` and `A`-`Z`, so a string keeps its length. */
module Ascii {

  predicate IsLower(c: char) { 'a' <= c <= 'z' }

  predicate IsUpper(c: char) { 'A' <= c <= 'Z' }

  predicate IsLetter(c: char) { IsLower(c) || IsUpper(c) }

  function Upper(c: char): char
  {
    if IsLower(c) then (c as int - 32) as char else c
  }

  function Lower(c: char): char
  {
    if IsUpper(c) then (c as int + 32) as char else c
  }

  function UpperStr(s: string): (r: string)
    ensures |r| == |s|
  {
    seq(|s|, i requires 0 <= i < |s| => Upper(s[i]))
  }

  function LowerStr(s: string): (r: string)
    ensures |r| == |s|
  {
    seq(|s|, i requires 0 <= i < |s| => Lower(s[i]))
  }

  predicate HasNoLetters(s: string)
  {
    forall i :: 0 <= i < |s| ==> !IsLetter(s[i])
  }

  /** Upper-casing a character depends only on its lower-case form. */
  lemma UpperOfLowerEq(a: char, b: char)
    requires Lower(a) == Lower(b)
    ensures Upper(a) == Upper(b)
  {
  }

  /** A character that is not a letter is the only character with its lower-case form. */
  lemma LowerEqNonLetter(a: char, b: char)
    requires Lower(a) == Lower(b) && !IsLetter(a)
    ensures a == b
  {
  }

  lemma LowerStrConcat(a: string, b: string)
    ensures LowerStr(a + b) == LowerStr(a) + LowerStr(b)
  {
  }

  /** `String(n)` for an integer: its decimal digits, with a leading `-` when negative. */
  function Decimal(n: int): string
    decreases if n < 0 then 1 - n else n
  {
    if n < 0 then "-" + Decimal(-n)
    else if n < 10 then [Digit(n)]
    else Decimal(n / 10) + [Digit(n % 10)]
  }

  function Digit(d: int): char
    requires 0 <= d < 10
  {
    ('0' as int + d) as char
  }
}
