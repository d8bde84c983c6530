/**
 * The three JavaScript string built-ins the candidate search relies on:
 * `String.prototype.trim`, `String.prototype.toLowerCase` and
 * `String.prototype.includes`. Strings are `seq<char>`, sequences of Unicode
 * scalar values; JavaScript's strings are UTF-16 code units, which agree with
 * this for well-formed strings as far as these three functions go.
 */
module Text {

  /** The characters ECMAScript's `trim` removes: WhiteSpace and LineTerminator. */
  predicate IsWhitespace(c: char)
  {
    || c == '\t' || c == '\n' || c == '\U{000B}' || c == '\U{000C}' || c == '\r'
    || c == ' ' || c == '\U{00A0}' || c == '\U{1680}'
    || ('\U{2000}' <= c <= '\U{200A}')
    || c == '\U{2028}' || c == '\U{2029}' || c == '\U{202F}' || c == '\U{205F}'
    || c == '\U{3000}' || c == '\U{FEFF}'
  }

  /** Every character of `s` is whitespace (this includes the empty string). */
  predicate Blank(s: string)
  {
    forall i :: 0 <= i < |s| ==> IsWhitespace(s[i])
  }

  /** Leading whitespace removed: the result is the suffix of `s` that starts at
      its first non-whitespace character. */
  function TrimStart(s: string): (r: string)
    ensures |r| <= |s| && r == s[|s| - |r|..]
    ensures r == [] || !IsWhitespace(r[0])
    ensures Blank(s[..|s| - |r|])
  {
    if s != [] && IsWhitespace(s[0]) then TrimStart(s[1..]) else s
  }

  /** Trailing whitespace removed: the result is the prefix of `s` that ends at
      its last non-whitespace character. */
  function TrimEnd(s: string): (r: string)
    ensures |r| <= |s| && r == s[..|r|]
    ensures r == [] || !IsWhitespace(r[|r| - 1])
    ensures Blank(s[|r|..])
  {
    if s != [] && IsWhitespace(s[|s| - 1]) then TrimEnd(s[..|s| - 1]) else s
  }

  /** `s.trim()` */
  function Trim(s: string): (r: string)
    ensures |r| <= |s|
    ensures r == [] || (!IsWhitespace(r[0]) && !IsWhitespace(r[|r| - 1]))
  {
    TrimEnd(TrimStart(s))
  }

  /** `s.trim() === ''` holds exactly for the strings made only of whitespace. */
  lemma TrimEmptyIffBlank(s: string)
    ensures Trim(s) == "" <==> Blank(s)
  {
  }

  /** `toLowerCase` of one character, over the ASCII letters. */
  function LowerChar(c: char): (r: char)
    ensures 'A' <= c <= 'Z' ==> r as int == c as int + 32
    ensures !('A' <= c <= 'Z') ==> r == c
  {
    if 'A' <= c <= 'Z' then (c as int + 32) as char else c
  }

  /** `s.toLowerCase()`: character by character, the length never changes. */
  function ToLower(s: string): (r: string)
    ensures |r| == |s|
    ensures forall i :: 0 <= i < |s| ==> r[i] == LowerChar(s[i])
  {
    seq(|s|, i requires 0 <= i < |s| => LowerChar(s[i]))
  }

  /** Lowercasing a second time changes nothing. */
  lemma ToLowerIdempotent(s: string)
    ensures ToLower(ToLower(s)) == ToLower(s)
  {
  }

  /** Lowercasing never turns whitespace into non-whitespace or back. */
  lemma ToLowerKeepsBlank(s: string)
    ensures Blank(ToLower(s)) <==> Blank(s)
  {
  }

  /** `n` occurs in `h` starting at index `i`. */
  predicate OccursAt(h: string, n: string, i: nat)
  {
    i + |n| <= |h| && h[i..i + |n|] == n
  }

  /** `h.includes(n)`: try every starting position from the left. */
  function Includes(h: string, n: string): (r: bool)
    ensures r ==> |n| <= |h|
    decreases |h|
  {
    if |n| > |h| then false
    else if h[..|n|] == n then true
    else Includes(h[1..], n)
  }

  /** `includes` is substring search: it holds exactly when `n` occurs in `h`
      at some position (the empty string occurs everywhere). */
  lemma {:induction false} IncludesIffOccurs(h: string, n: string)
    ensures Includes(h, n) <==> exists i: nat :: OccursAt(h, n, i)
    decreases |h|
  {
    if |n| > |h| {
    } else if h[..|n|] == n {
      assert OccursAt(h, n, 0);
    } else {
      IncludesIffOccurs(h[1..], n);
      forall i: nat | OccursAt(h, n, i)
        ensures i >= 1 && OccursAt(h[1..], n, i - 1)
      {
        assert h[1..][i - 1..i - 1 + |n|] == h[i..i + |n|];
      }
      forall j: nat | OccursAt(h[1..], n, j)
        ensures OccursAt(h, n, j + 1)
      {
        assert h[1..][j..j + |n|] == h[j + 1..j + 1 + |n|];
      }
    }
  }
}
