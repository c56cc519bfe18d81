/**
 * ASCII letters and their case mapping. Locale- and Unicode-aware case
 * mapping is not modelled: only 'A'..'Z' and 'a'..'z' change case.
 */
module Ascii {

  predicate IsUpper(c: char) { 'A' <= c <= 'Z' }

  predicate IsLower(c: char) { 'a' <= c <= 'z' }

  predicate IsLetter(c: char) { IsUpper(c) || IsLower(c) }

  /** The upper-case form of a letter; every other character is returned unchanged. */
  function ToUpper(c: char): (u: char)
    ensures IsLetter(c) ==> IsUpper(u)
    ensures IsLetter(u) == IsLetter(c)
    ensures !IsLower(c) ==> u == c
    ensures IsLower(c) ==> u as int == c as int - 32
  {
    if IsLower(c) then (c as int - 32) as char else c
  }

  /** The lower-case form of a letter; every other character is returned unchanged. */
  function ToLower(c: char): (l: char)
    ensures IsLetter(c) ==> IsLower(l)
    ensures IsLetter(l) == IsLetter(c)
    ensures !IsUpper(c) ==> l == c
    ensures IsUpper(c) ==> l as int == c as int + 32
  {
    if IsUpper(c) then (c as int + 32) as char else c
  }

  /** Upper and lower case of the same character fold to the same upper-case character. */
  lemma CaseFold(c: char)
    ensures ToUpper(ToLower(c)) == ToUpper(c)
    ensures ToUpper(ToUpper(c)) == ToUpper(c)
  {
  }

  /** Every character of a string, upper-cased. */
  function UpperCased(s: string): (r: string)
    ensures |r| == |s|
    ensures forall i :: 0 <= i < |s| ==> r[i] == ToUpper(s[i])
  {
    seq(|s|, i requires 0 <= i < |s| => ToUpper(s[i]))
  }

  /** Every character of a string, lower-cased. */
  function LowerCased(s: string): (r: string)
    ensures |r| == |s|
    ensures forall i :: 0 <= i < |s| ==> r[i] == ToLower(s[i])
  {
    seq(|s|, i requires 0 <= i < |s| => ToLower(s[i]))
  }
}
