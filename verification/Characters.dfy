/** Characters of ASCII, and the white space of JavaScript. */
module Characters {
  predicate IsDigit(c: char) { '0' <= c <= '9' }

  predicate IsLetter(c: char) { 'A' <= c <= 'Z' || 'a' <= c <= 'z' }

  predicate IsAlnum(c: char) { IsLetter(c) || IsDigit(c) }

  predicate IsWord(c: char) { IsLetter(c) || IsDigit(c) || c == '_' }

  /** What `trim` takes away and `\s` stands for, line terminators included. */
  predicate IsJsSpace(c: char) {
    var n := c as int;
    9 <= n <= 13 || n == 32 || n == 160 || n == 5760 || 8192 <= n <= 8202 || n == 8232 || n == 8233 || n == 8239
    || n == 8287 || n == 12288 || n == 65279
  }

  function LowerChar(c: char): char {
    if 'A' <= c <= 'Z' then c + (32 as char) else c
  }

  function UpperChar(c: char): char {
    if 'a' <= c <= 'z' then c - (32 as char) else c
  }

  /** Lower-casing of ASCII letters. */
  function Lower(s: string): (r: string)
    ensures |r| == |s| && forall k :: 0 <= k < |s| ==> r[k] == LowerChar(s[k])
  {
    LowerFirst(s, |s|)
  }

  function LowerFirst(s: string, n: nat): (r: string)
    requires n <= |s|
    ensures |r| == n && forall k :: 0 <= k < n ==> r[k] == LowerChar(s[k])
  {
    if n == 0 then [] else LowerFirst(s, n - 1) + [LowerChar(s[n - 1])]
  }

  /** Upper-casing of ASCII letters. */
  function Upper(s: string): (r: string)
    ensures |r| == |s| && forall k :: 0 <= k < |s| ==> r[k] == UpperChar(s[k])
  {
    UpperFirst(s, |s|)
  }

  function UpperFirst(s: string, n: nat): (r: string)
    requires n <= |s|
    ensures |r| == n && forall k :: 0 <= k < n ==> r[k] == UpperChar(s[k])
  {
    if n == 0 then "" else UpperFirst(s, n - 1) + [UpperChar(s[n - 1])]
  }

  /** A text of one character, `n` times. */
  function Repeat(c: char, n: nat): (s: string)
    ensures |s| == n && forall k :: 0 <= k < n ==> s[k] == c
  {
    if n == 0 then "" else Repeat(c, n - 1) + [c]
  }
}
