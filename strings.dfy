/**
 * Character and string helpers shared by the model: the ASCII letter classes
 * that the regular expressions `[a-z]` and `[A-Z]` denote, ASCII lower-casing,
 * and the end-anchored suffix test that `/\.xyz$/.test(s)` performs.
 */
module Strings {

  predicate IsLower(c: char) { 'a' <= c <= 'z' }

  predicate IsUpper(c: char) { 'A' <= c <= 'Z' }

  /** ASCII lower-casing of one character; every other character is returned as it is. */
  function LowerChar(c: char): (r: char)
    ensures !IsUpper(r)
    ensures IsUpper(c) ==> IsLower(r) && r as int == c as int + 32
    ensures !IsUpper(c) ==> r == c
  {
    if IsUpper(c) then (c as int + 32) as char else c
  }

  /** `s` ends with `suffix`: the regular expression `/<suffix>$/` without the `m` flag matches `s`. */
  predicate EndsWith(s: string, suffix: string)
  {
    |suffix| <= |s| && s[|s| - |suffix|..] == suffix
  }

  /** Two suffixes whose last characters differ never end the same string. */
  lemma SuffixesExclusive(s: string, a: string, b: string)
    requires |a| > 0 && |b| > 0 && a[|a| - 1] != b[|b| - 1]
    ensures !(EndsWith(s, a) && EndsWith(s, b))
  {
  }
}
