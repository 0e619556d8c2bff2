/** The JavaScript string operations the dashboard relies on: `trim`, `toLowerCase`
    (ASCII letters only) and `includes`. */
module JsString {

  /** ECMAScript WhiteSpace and LineTerminator code points: what `String.prototype.trim`
      strips from both ends. */
  predicate IsWhitespace(c: char)
  {
    || c == '\t' || c == '\n' || c == '\U{B}' || c == '\U{C}' || c == '\r' || c == ' '
    || c == '\U{A0}' || c == '\U{1680}' || ('\U{2000}' <= c <= '\U{200A}')
    || c == '\U{2028}' || c == '\U{2029}' || c == '\U{202F}' || c == '\U{205F}'
    || c == '\U{3000}' || c == '\U{FEFF}'
  }

  /** The number of whitespace characters `s` starts with. */
  function LeadingWhitespace(s: string): (k: nat)
    ensures k <= |s|
    ensures forall i :: 0 <= i < k ==> IsWhitespace(s[i])
    ensures k < |s| ==> !IsWhitespace(s[k])
  {
    if s == [] || !IsWhitespace(s[0]) then 0 else 1 + LeadingWhitespace(s[1..])
  }

  /** The number of whitespace characters `s` ends with. */
  function TrailingWhitespace(s: string): (k: nat)
    ensures k <= |s|
    ensures forall i :: |s| - k <= i < |s| ==> IsWhitespace(s[i])
    ensures k < |s| ==> !IsWhitespace(s[|s| - k - 1])
  {
    if s == [] || !IsWhitespace(s[|s| - 1]) then 0 else 1 + TrailingWhitespace(s[..|s| - 1])
  }

  /** `s.trim()`: `s` without its leading and trailing whitespace. */
  function Trim(s: string): (r: string)
    ensures r == [] || (!IsWhitespace(r[0]) && !IsWhitespace(r[|r| - 1]))
    ensures exists a, b :: && 0 <= a <= b <= |s| && r == s[a..b]
                           && (forall i :: 0 <= i < a ==> IsWhitespace(s[i]))
                           && (forall i :: b <= i < |s| ==> IsWhitespace(s[i]))
  {
    var lead := LeadingWhitespace(s);
    var rest := s[lead..];
    var trail := TrailingWhitespace(rest);
    assert rest[..|rest| - trail] == s[lead..|s| - trail];
    assert forall i :: |s| - trail <= i < |s| ==> s[i] == rest[i - lead];
    rest[..|rest| - trail]
  }

  /** `s.trim()` is empty exactly when `s` is whitespace only. */
  lemma TrimEmptyIffWhitespace(s: string)
    ensures Trim(s) == [] <==> forall i :: 0 <= i < |s| ==> IsWhitespace(s[i])
  {
    var lead := LeadingWhitespace(s);
    var rest := s[lead..];
    var trail := TrailingWhitespace(rest);
    assert Trim(s) == rest[..|rest| - trail];
    if lead < |s| {
      assert s[lead] == rest[0];
    }
  }

  /** `c.toLowerCase()` on the ASCII capitals; every other character is kept. */
  function LowerChar(c: char): char
  {
    if 'A' <= c <= 'Z' then (c as int + ('a' as int - 'A' as int)) as char else c
  }

  /** `s.toLowerCase()`, restricted to ASCII: no capital letter is left and every
      character that is not a capital is kept in place. */
  function ToLower(s: string): (r: string)
    ensures |r| == |s|
    ensures forall i :: 0 <= i < |r| ==> !('A' <= r[i] <= 'Z')
    ensures forall i :: 0 <= i < |s| && !('A' <= s[i] <= 'Z') ==> r[i] == s[i]
    ensures forall i :: 0 <= i < |s| && 'A' <= s[i] <= 'Z' ==> r[i] as int == s[i] as int + 32
  {
    if s == [] then [] else [LowerChar(s[0])] + ToLower(s[1..])
  }

  /** `s.includes(t)`: `t` is a prefix of some suffix of `s`, that is, occurs in `s`. */
  predicate Includes(s: string, t: string): (b: bool)
    ensures b <==> exists i, j :: 0 <= i <= j <= |s| && s[i..j] == t
  {
    assert forall i, j :: 0 <= i <= j <= |s| && s[i..j] == t ==> t <= s[i..] by {
      forall i, j | 0 <= i <= j <= |s| && s[i..j] == t ensures t <= s[i..] {
        assert s[i..][..j - i] == s[i..j];
      }
    }
    assert forall i :: 0 <= i <= |s| && t <= s[i..] ==> s[i..i + |t|] == t;
    exists i :: 0 <= i <= |s| && t <= s[i..]
  }

  /** Every string includes the empty string. */
  lemma IncludesEmpty(s: string)
    ensures Includes(s, [])
  {
    assert [] <= s[0..];
  }
}
