/** util/title.go: `CapitalizeFirstLetter` upper-cases the first byte of a string. */
module Title {
  import opened GoText

  /** The UTF-8 encoding of U+FFFD, which `strings.Map` writes for a byte that is not valid UTF-8. */
  const ReplacementBytes: GoString := "\U{EF}\U{BF}\U{BD}"

  /**
   * `strings.ToUpper` of the one-byte string `[b]`: an ASCII byte is upper-cased;
   * a lone byte at or above 0x80 is not valid UTF-8, so it becomes `ReplacementBytes`.
   */
  function ToUpperFirstByte(b: char): (u: GoString)
    ensures IsAscii(b) ==> u == [ToUpperAscii(b)]
    ensures !IsAscii(b) ==> u == ReplacementBytes
  {
    if IsAscii(b) then [ToUpperAscii(b)] else ReplacementBytes
  }

  /** util/title.go `CapitalizeFirstLetter`. */
  function CapitalizeFirstLetter(s: GoString): (r: GoString)
    ensures s == "" ==> r == ""
    ensures s != "" ==> |r| >= |s| && r[|r| - |s| + 1..] == s[1..]
    ensures s != "" && IsAscii(s[0]) ==> |r| == |s| && r[0] == ToUpperAscii(s[0])
    ensures s != "" && !IsAscii(s[0]) ==> r == ReplacementBytes + s[1..] && |r| == |s| + 2
  {
    if s == "" then s else ToUpperFirstByte(s[0]) + s[1..]
  }

  /** A string whose first byte is ASCII but not a lower-case letter comes back unchanged. */
  lemma CapitalizeKeepsNonLowerAscii(s: GoString)
    requires s != "" && IsAscii(s[0]) && !IsAsciiLower(s[0])
    ensures CapitalizeFirstLetter(s) == s
  {
    assert [s[0]] + s[1..] == s;
  }

  /**
   * Capitalizing twice is capitalizing once exactly when the string is empty or
   * starts with an ASCII byte; a non-ASCII first byte grows the string each time.
   */
  lemma CapitalizeIdempotentIff(s: GoString)
    ensures CapitalizeFirstLetter(CapitalizeFirstLetter(s)) == CapitalizeFirstLetter(s)
        <==> s == "" || IsAscii(s[0])
  {
    if s != "" {
      var r := CapitalizeFirstLetter(s);
      if IsAscii(s[0]) {
        assert r == [ToUpperAscii(s[0])] + s[1..];
        assert r[1..] == s[1..];
      } else {
        assert |CapitalizeFirstLetter(r)| == |r| + 2;
      }
    }
  }
}
