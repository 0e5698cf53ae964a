/**
 Byte classes and case-insensitive comparison, as the SQL front end uses them.

 A text is a `string`. Every character from U+0080 up is treated as the source
 treats a byte >= 0x80, so the byte strings of the source are the strings whose
 characters are all below U+0100.
 */
module Text {

  predicate IsSpace(c: char) {
    c == ' ' || '\t' <= c <= '\r'
  }

  predicate IsDigit(c: char) {
    '0' <= c <= '9'
  }

  predicate IsUpper(c: char) {
    'A' <= c <= 'Z'
  }

  predicate IsLower(c: char) {
    'a' <= c <= 'z'
  }

  predicate IsAlpha(c: char) {
    IsUpper(c) || IsLower(c)
  }

  predicate IsAlnum(c: char) {
    IsAlpha(c) || IsDigit(c)
  }

  predicate IsIdentStart(c: char) {
    IsAlpha(c) || c == '_' || c >= '\U{0080}'
  }

  predicate IsIdentByte(c: char) {
    IsAlnum(c) || c == '_' || c == '$' || c >= '\U{0080}'
  }

  function LowerChar(c: char): char {
    if IsUpper(c) then (c as int + 32) as char else c
  }

  function UpperChar(c: char): char {
    if IsLower(c) then (c as int - 32) as char else c
  }

  function Lower(s: string): (r: string)
    ensures |r| == |s|
  {
    seq(|s|, i requires 0 <= i < |s| => LowerChar(s[i]))
  }

  function Upper(s: string): (r: string)
    ensures |r| == |s|
  {
    seq(|s|, i requires 0 <= i < |s| => UpperChar(s[i]))
  }

  /** Equal up to ASCII case. */
  predicate Ieq(a: string, b: string) {
    |a| == |b| && forall i :: 0 <= i < |a| ==> LowerChar(a[i]) == LowerChar(b[i])
  }

  /** The character before position `i` of `s`; at the start, the one given. */
  function Before(prev: char, s: string, i: nat): char
    requires i <= |s|
  {
    if i == 0 then prev else s[i - 1]
  }

  // ---------- sequences ----------

  lemma SliceSnoc<T>(s: seq<T>, a: nat, i: nat)
    requires a <= i < |s|
    ensures s[a..i + 1] == s[a..i] + [s[i]]
  {
  }
}
