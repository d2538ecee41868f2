/**
 * Go strings are byte strings. The model writes a Go string as a Dafny
 * `string` whose characters each stand for one byte (code below 256), so
 * `|s|` is Go's `len(s)` and `s[..1]` is Go's `s[:1]`.
 */
module GoText {

  type GoString = string

  predicate IsAscii(c: char) { c < '\U{80}' }
  predicate IsAsciiLower(c: char) { 'a' <= c <= 'z' }
  predicate IsAsciiUpper(c: char) { 'A' <= c <= 'Z' }
  predicate IsAsciiLetter(c: char) { IsAsciiLower(c) || IsAsciiUpper(c) }
  predicate IsAsciiDigit(c: char) { '0' <= c <= '9' }

  /** The ASCII upper-case mapping of `unicode.ToUpper` / `strings.ToUpper`. */
  function ToUpperAscii(c: char): (u: char)
    ensures IsAsciiLower(c) ==> IsAsciiUpper(u) && u as int == c as int - 32
    ensures !IsAsciiLower(c) ==> u == c
  {
    if IsAsciiLower(c) then (c as int - 32) as char else c
  }

  /** The ASCII lower-case mapping of `strings.ToLower`. */
  function ToLowerAscii(c: char): (l: char)
    ensures IsAsciiUpper(c) ==> IsAsciiLower(l) && l as int == c as int + 32
    ensures !IsAsciiUpper(c) ==> l == c
  {
    if IsAsciiUpper(c) then (c as int + 32) as char else c
  }

  /**
   * `strings.ToLower` on the ASCII bytes of `s`; bytes at or above 0x80 are
   * kept as they are (Unicode case mapping is not part of this model).
   */
  function ToLower(s: GoString): (r: GoString)
    ensures |r| == |s|
    ensures forall i :: 0 <= i < |s| ==> r[i] == ToLowerAscii(s[i])
  {
    if s == [] then [] else [ToLowerAscii(s[0])] + ToLower(s[1..])
  }

  /** `sub` occurs in `s` starting at index `i`. */
  predicate OccursAt(s: GoString, sub: GoString, i: int)
  {
    0 <= i && i + |sub| <= |s| && s[i..i + |sub|] == sub
  }

  /** `strings.Contains(s, sub)`. */
  predicate Contains(s: GoString, sub: GoString)
  {
    exists i | 0 <= i <= |s| :: OccursAt(s, sub, i)
  }

  /** An occurrence of `sub` in a part of a concatenation is an occurrence in the whole. */
  lemma ContainsInSuffix(prefix: GoString, sub: GoString, rest: GoString)
    requires |sub| <= |rest| && rest[..|sub|] == sub
    ensures Contains(prefix + rest, sub)
  {
    var s := prefix + rest;
    assert s[|prefix|..|prefix| + |sub|] == rest[..|sub|];
    assert OccursAt(s, sub, |prefix|);
  }

  /** `strings.LastIndexByte(s, c)`: the last index holding `c`, or -1. */
  function LastIndexOf(s: GoString, c: char): (k: int)
    ensures -1 <= k < |s|
    ensures k >= 0 ==> s[k] == c
    ensures forall i :: k < i < |s| ==> s[i] != c
  {
    if s == [] then -1
    else if s[|s| - 1] == c then |s| - 1
    else LastIndexOf(s[..|s| - 1], c)
  }

  /** `strings.IndexByte(s, c)`: the first index holding `c`, or -1. */
  function IndexOf(s: GoString, c: char): (k: int)
    ensures -1 <= k < |s|
    ensures k >= 0 ==> s[k] == c
    ensures forall i :: 0 <= i < |s| && (k < 0 || i < k) ==> s[i] != c
  {
    if s == [] then -1
    else if s[0] == c then 0
    else var k := IndexOf(s[1..], c); if k < 0 then -1 else k + 1
  }
}
