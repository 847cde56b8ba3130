/**
 The few operations on Python `str` values that the two upload scripts use,
 on strings as sequences of characters.
 */
module Strings {

  /** `s.startswith(prefix)` */
  predicate StartsWith(s: string, prefix: string) {
    |prefix| <= |s| && s[..|prefix|] == prefix
  }

  /** `s.endswith(suffix)` */
  predicate EndsWith(s: string, suffix: string) {
    |suffix| <= |s| && s[|s| - |suffix|..] == suffix
  }

  predicate IsDigit(c: char) {
    '0' <= c <= '9'
  }

  predicate AllDigits(s: string) {
    forall i :: 0 <= i < |s| ==> IsDigit(s[i])
  }

  /** `str.lower()` on one character; only the ASCII letters A-Z have a case here */
  function LowerChar(c: char): char {
    if 'A' <= c <= 'Z' then (c as int - 'A' as int + 'a' as int) as char else c
  }

  /** `s.lower()` */
  function Lower(s: string): (r: string)
    ensures |r| == |s|
    decreases |s|
  {
    if s == [] then [] else Lower(s[..|s| - 1]) + [LowerChar(s[|s| - 1])]
  }

  /** A string without capital letters is its own lower-case form. */
  lemma LowerOfLowerCase(s: string)
    requires forall i :: 0 <= i < |s| ==> !('A' <= s[i] <= 'Z')
    ensures Lower(s) == s
  {
    LowerChars(s);
  }

  /** Lower-casing works character by character. */
  lemma {:induction false} LowerChars(s: string)
    ensures forall i :: 0 <= i < |s| ==> Lower(s)[i] == LowerChar(s[i])
    decreases |s|
  {
    if s != [] {
      LowerChars(s[..|s| - 1]);
    }
  }

  /**
   `s.rfind(c)`: the index of the last occurrence of `c` in `s`, or -1 when
   there is none.
   */
  function LastIndex(s: string, c: char): (r: int)
    ensures -1 <= r < |s|
    ensures r >= 0 ==> s[r] == c
    ensures forall k :: r < k < |s| ==> s[k] != c
    decreases |s|
  {
    if s == [] then -1
    else if s[|s| - 1] == c then |s| - 1
    else LastIndex(s[..|s| - 1], c)
  }

  /** The properties in the contract of `LastIndex` determine it. */
  lemma LastIndexIs(s: string, c: char, r: int)
    requires -1 <= r < |s|
    requires r >= 0 ==> s[r] == c
    requires forall k :: r < k < |s| ==> s[k] != c
    ensures LastIndex(s, c) == r
  {
  }

  /** Lower-casing works character by character, so it distributes over concatenation. */
  lemma LowerAppend(a: string, b: string)
    ensures Lower(a + b) == Lower(a) + Lower(b)
  {
    LowerChars(a + b);
    LowerChars(a);
    LowerChars(b);
    assert forall i :: 0 <= i < |a + b| ==> Lower(a + b)[i] == (Lower(a) + Lower(b))[i];
  }

  /** Digits have no case. */
  lemma LowerOfDigits(d: string)
    requires AllDigits(d)
    ensures Lower(d) == d
  {
    LowerChars(d);
  }

  /** Lower-casing twice is lower-casing once. */
  lemma LowerIdempotent(s: string)
    ensures Lower(Lower(s)) == Lower(s)
  {
    LowerChars(s);
    LowerChars(Lower(s));
  }

  /**
   A run of digits in front of a string cannot supply the first character of a
   suffix that does not start with a digit: the suffix test sees only the rest.
   */
  lemma EndsWithAfterDigits(d: string, rest: string, suffix: string)
    requires AllDigits(d)
    requires suffix != [] && !IsDigit(suffix[0])
    ensures EndsWith(d + rest, suffix) <==> EndsWith(rest, suffix)
  {
    var s := d + rest;
    if |suffix| <= |rest| {
      assert s[|s| - |suffix|..] == rest[|rest| - |suffix|..];
    } else if |suffix| <= |s| {
      var i := |s| - |suffix|;
      assert s[i..][0] == d[i];
    }
  }
}
