/** Upper-casing of strings, standing in for Java's `String.toUpperCase()`.

    Java's `toUpperCase()` with no argument uses the default locale and the full
    Unicode case mapping (under a Turkish locale "i" becomes a dotted capital I,
    and "ß" becomes "SS", changing the length). This model maps only the ASCII
    letters 'a'..'z' and leaves every other character alone. */
module Ascii {

  predicate IsLower(c: char) {
    'a' <= c <= 'z'
  }

  /** No character of `s` is a lower-case ASCII letter. */
  predicate NoLower(s: string) {
    forall i :: 0 <= i < |s| ==> !IsLower(s[i])
  }

  /** Upper-cases one character: a lower-case letter moves to its capital
      (32 code points down), anything else is left as it is. */
  function UpperChar(c: char): (u: char)
    ensures !IsLower(u)
    ensures IsLower(c) ==> 'A' <= u <= 'Z' && u as int == c as int - 32
    ensures !IsLower(c) ==> u == c
  {
    if IsLower(c) then (c as int - 32) as char else c
  }

  /** Upper-cases a string character by character. */
  function Upper(s: string): (u: string)
    ensures |u| == |s|
    ensures forall i :: 0 <= i < |s| ==> u[i] == UpperChar(s[i])
    ensures NoLower(u)
  {
    if s == [] then [] else [UpperChar(s[0])] + Upper(s[1..])
  }

  /** Upper-casing twice is the same as upper-casing once. */
  lemma UpperIdempotent(s: string)
    ensures Upper(Upper(s)) == Upper(s)
  {
    var u := Upper(s);
    forall i | 0 <= i < |s|
      ensures Upper(u)[i] == u[i]
    {
      assert !IsLower(u[i]);
    }
  }

  /** A string is its own upper-case form exactly when it holds no lower-case letter. */
  lemma UpperFixedIffNoLower(s: string)
    ensures Upper(s) == s <==> NoLower(s)
  {
    if NoLower(s) {
      forall i | 0 <= i < |s|
        ensures Upper(s)[i] == s[i]
      {
        assert !IsLower(s[i]);
      }
    }
  }
}
