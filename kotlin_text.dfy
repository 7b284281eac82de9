/**
 * The few operations of Kotlin's (and, underneath, Java's) `String` class that the
 * scanner is built from, each given its library meaning as a function on `seq<char>`.
 * Each search is a recursive function whose contract says which index it finds;
 * the scanner's own contracts are proved from these.
 */
module KotlinText {

  /** `s.startsWith(prefix, at)`: whether `prefix` is a prefix of `s[at..]`; false for a
      negative `at` and for any `at` past the last place where `prefix` still fits. */
  predicate StartsWithAt(s: string, prefix: string, at: int)
    ensures StartsWithAt(s, prefix, at) <==> 0 <= at <= |s| && prefix <= s[at..]
  {
    0 <= at <= |s| - |prefix| && s[at..at + |prefix|] == prefix
  }

  /** The index a search really starts from: negative start indices count as 0. */
  function NonNegative(from: int): nat
  {
    if from < 0 then 0 else from
  }

  /** `s.indexOf(c, from)`: the first index at or after `from` holding `c`, or -1. */
  function IndexOfChar(s: string, c: char, from: int): (r: int)
    ensures r == -1 || (NonNegative(from) <= r < |s| && s[r] == c)
    ensures forall k :: NonNegative(from) <= k < |s| && (r == -1 || k < r) ==> s[k] != c
    decreases |s| - from
  {
    if from < 0 then IndexOfChar(s, c, 0)
    else if from >= |s| then -1
    else if s[from] == c then from
    else IndexOfChar(s, c, from + 1)
  }

  /** The index a substring search starts from: start indices are clamped to `0..|s|`. */
  function ClampedStart(s: string, from: int): nat
  {
    if from < 0 then 0 else if from > |s| then |s| else from
  }

  /** `s.indexOf(t, from)`: the first index at or after `from` where `t` occurs, or -1. */
  function IndexOfString(s: string, t: string, from: int): (r: int)
    ensures r == -1 || (ClampedStart(s, from) <= r && StartsWithAt(s, t, r))
    ensures forall k :: ClampedStart(s, from) <= k && (r == -1 || k < r) ==> !StartsWithAt(s, t, k)
    decreases if from > |s| then 1 else 0, |s| - from
  {
    if from < 0 then IndexOfString(s, t, 0)
    else if from > |s| then IndexOfString(s, t, |s|)
    else if from > |s| - |t| then -1
    else if StartsWithAt(s, t, from) then from
    else IndexOfString(s, t, from + 1)
  }

  /** ASCII lower-casing of one character; every other character is left alone. */
  function LowerChar(c: char): char
  {
    if 'A' <= c <= 'Z' then (c as int + 32) as char else c
  }

  /** ASCII upper-casing of one character; every other character is left alone. */
  function UpperChar(c: char): char
  {
    if 'a' <= c <= 'z' then (c as int - 32) as char else c
  }

  /** `s.lowercase()`, restricted to ASCII letters: same length, each character lowered. */
  function Lowercase(s: string): (r: string)
    ensures |r| == |s|
    ensures forall i :: 0 <= i < |s| ==> r[i] == LowerChar(s[i])
  {
    seq(|s|, i requires 0 <= i < |s| => LowerChar(s[i]))
  }

  /** `s.uppercase()`, restricted to ASCII letters: same length, each character raised. */
  function Uppercase(s: string): (r: string)
    ensures |r| == |s|
    ensures forall i :: 0 <= i < |s| ==> r[i] == UpperChar(s[i])
  {
    seq(|s|, i requires 0 <= i < |s| => UpperChar(s[i]))
  }
}
