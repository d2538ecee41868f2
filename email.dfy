/**
 * util/email.go: `IsValidEmail` tests a string against the anchored pattern
 *   ^[a-zA-Z0-9._%+-]+@[a-zA-Z0-9.-]+\.[a-zA-Z]{2,}$
 * The model runs a finite automaton over the string (`Run`) and proves it
 * accepts exactly the strings the pattern describes (`MatchesPattern`).
 */
module Email {
  import opened GoText
  import opened Wrappers

  /** `[a-zA-Z0-9._%+-]`: the local part before the '@'. */
  predicate LocalChar(c: char)
  {
    IsAsciiLetter(c) || IsAsciiDigit(c) || c == '.' || c == '_' || c == '%' || c == '+' || c == '-'
  }

  /** `[a-zA-Z0-9.-]`: the host part between the '@' and the final dot. */
  predicate DomainChar(c: char)
  {
    IsAsciiLetter(c) || IsAsciiDigit(c) || c == '.' || c == '-'
  }

  predicate AllLocal(s: GoString) { forall i :: 0 <= i < |s| ==> LocalChar(s[i]) }
  predicate AllDomain(s: GoString) { forall i :: 0 <= i < |s| ==> DomainChar(s[i]) }
  predicate AllAlpha(s: GoString) { forall i :: 0 <= i < |s| ==> IsAsciiLetter(s[i]) }

  // ---------------------------------------------------------------------
  // The pattern, read structurally.

  /** `h` splits at index `dot` into `[a-zA-Z0-9.-]*`, a '.', and `[a-zA-Z]{2,}`. */
  ghost predicate SplitsAtDot(h: GoString, dot: int)
  {
    0 <= dot && dot + 2 < |h| && h[dot] == '.' && AllDomain(h[..dot]) && AllAlpha(h[dot + 1..])
  }

  /** `[a-zA-Z0-9.-]+\.[a-zA-Z]{2,}`: what follows the '@'. */
  ghost predicate HostPattern(h: GoString)
  {
    exists dot :: 0 < dot && SplitsAtDot(h, dot)
  }

  /** `[a-zA-Z0-9.-]*\.[a-zA-Z]{2,}`: what remains once one host character is read. */
  ghost predicate HostTail(h: GoString)
  {
    exists dot :: SplitsAtDot(h, dot)
  }

  /** `s` splits at index `at` into `[a-zA-Z0-9._%+-]*`, an '@', and a host. */
  ghost predicate SplitsAtAt(s: GoString, at: int)
  {
    0 <= at < |s| && s[at] == '@' && AllLocal(s[..at]) && HostPattern(s[at + 1..])
  }

  ghost predicate LocalTail(s: GoString)
  {
    exists at :: SplitsAtAt(s, at)
  }

  /** The whole anchored pattern: a non-empty local part, '@', a host. */
  ghost predicate MatchesPattern(s: GoString)
  {
    exists at :: 0 < at && SplitsAtAt(s, at)
  }

  // ---------------------------------------------------------------------
  // The recognizer.

  datatype State =
    | LocalStart        // nothing read yet
    | Local             // one or more local characters read
    | HostStart         // the '@' was just read
    | Host              // host characters read, no usable dot since
    | Tld(letters: nat) // a dot after at least one host character, then `letters` letters

  function Step(st: State, c: char): Option<State>
  {
    match st
    case LocalStart => if LocalChar(c) then Some(Local) else None
    case Local =>
      if LocalChar(c) then Some(Local) else if c == '@' then Some(HostStart) else None
    case HostStart => if DomainChar(c) then Some(Host) else None
    case Host =>
      if c == '.' then Some(Tld(0)) else if DomainChar(c) then Some(Host) else None
    case Tld(n) =>
      if c == '.' then Some(Tld(0))
      else if IsAsciiLetter(c) then Some(Tld(n + 1))
      else if DomainChar(c) then Some(Host)
      else None
  }

  predicate Accepting(st: State)
  {
    st.Tld? && st.letters >= 2
  }

  function Run(st: State, s: GoString): bool
    decreases |s|
  {
    if s == [] then Accepting(st)
    else match Step(st, s[0])
      case None => false
      case Some(next) => Run(next, s[1..])
  }

  /** util/email.go `IsValidEmail`: the anchored match of the whole string. */
  predicate IsValidEmail(email: GoString)
  {
    Run(LocalStart, email)
  }

  // ---------------------------------------------------------------------
  // The recognizer accepts exactly the pattern.

  lemma AllAlphaCons(c: char, w: GoString)
    ensures AllAlpha([c] + w) <==> IsAsciiLetter(c) && AllAlpha(w)
  {
    if AllAlpha([c] + w) {
      assert ([c] + w)[0] == c;
      forall i | 0 <= i < |w| ensures IsAsciiLetter(w[i]) { assert ([c] + w)[i + 1] == w[i]; }
    }
  }

  lemma AllDomainCons(c: char, w: GoString)
    ensures AllDomain([c] + w) <==> DomainChar(c) && AllDomain(w)
  {
    if AllDomain([c] + w) {
      assert ([c] + w)[0] == c;
      forall i | 0 <= i < |w| ensures DomainChar(w[i]) { assert ([c] + w)[i + 1] == w[i]; }
    }
  }

  lemma AllLocalCons(c: char, w: GoString)
    ensures AllLocal([c] + w) <==> LocalChar(c) && AllLocal(w)
  {
    if AllLocal([c] + w) {
      assert ([c] + w)[0] == c;
      forall i | 0 <= i < |w| ensures LocalChar(w[i]) { assert ([c] + w)[i + 1] == w[i]; }
    }
  }

  /** A dot split past the first character is a dot split of the rest. */
  lemma DotSplitShift(c: char, w: GoString, dot: int)
    requires 0 < dot && SplitsAtDot([c] + w, dot)
    ensures DomainChar(c) && SplitsAtDot(w, dot - 1)
  {
    var h := [c] + w;
    assert h[..dot] == [c] + w[..dot - 1];
    AllDomainCons(c, w[..dot - 1]);
    assert h[dot + 1..] == w[dot..];
  }

  /** A host character in front moves a dot split one place right. */
  lemma DotJoinShift(c: char, w: GoString, dot: int)
    requires DomainChar(c) && SplitsAtDot(w, dot)
    ensures SplitsAtDot([c] + w, dot + 1)
  {
    var h := [c] + w;
    assert h[..dot + 1] == [c] + w[..dot];
    AllDomainCons(c, w[..dot]);
    assert h[dot + 2..] == w[dot + 1..];
  }

  /** An '@' split past the first character is an '@' split of the rest. */
  lemma AtSplitShift(c: char, w: GoString, at: int)
    requires 0 < at && SplitsAtAt([c] + w, at)
    ensures LocalChar(c) && SplitsAtAt(w, at - 1)
  {
    var s := [c] + w;
    assert s[..at] == [c] + w[..at - 1];
    AllLocalCons(c, w[..at - 1]);
    assert s[at + 1..] == w[at..];
  }

  /** A local character in front moves an '@' split one place right. */
  lemma AtJoinShift(c: char, w: GoString, at: int)
    requires LocalChar(c) && SplitsAtAt(w, at)
    ensures SplitsAtAt([c] + w, at + 1)
  {
    var s := [c] + w;
    assert s[..at + 1] == [c] + w[..at];
    AllLocalCons(c, w[..at]);
    assert s[at + 2..] == w[at + 1..];
  }

  lemma HostTailCons(c: char, w: GoString)
    ensures HostTail([c] + w) <==>
      (c == '.' && |w| >= 2 && AllAlpha(w)) || (DomainChar(c) && HostTail(w))
  {
    var h := [c] + w;
    assert h[1..] == w;
    if HostTail(h) {
      var dot :| SplitsAtDot(h, dot);
      if dot > 0 {
        DotSplitShift(c, w, dot);
      }
    }
    if c == '.' && |w| >= 2 && AllAlpha(w) {
      assert h[..0] == [];
      assert SplitsAtDot(h, 0);
    }
    if DomainChar(c) && HostTail(w) {
      var dot :| SplitsAtDot(w, dot);
      DotJoinShift(c, w, dot);
    }
  }

  lemma HostPatternCons(c: char, w: GoString)
    ensures HostPattern([c] + w) <==> DomainChar(c) && HostTail(w)
  {
    if HostPattern([c] + w) {
      var dot :| 0 < dot && SplitsAtDot([c] + w, dot);
      DotSplitShift(c, w, dot);
    }
    if DomainChar(c) && HostTail(w) {
      var dot :| SplitsAtDot(w, dot);
      DotJoinShift(c, w, dot);
    }
  }

  lemma LocalTailCons(c: char, w: GoString)
    ensures LocalTail([c] + w) <==> (c == '@' && HostPattern(w)) || (LocalChar(c) && LocalTail(w))
  {
    var s := [c] + w;
    assert s[1..] == w;
    if LocalTail(s) {
      var at :| SplitsAtAt(s, at);
      if at > 0 {
        AtSplitShift(c, w, at);
      }
    }
    if c == '@' && HostPattern(w) {
      assert s[..0] == [];
      assert SplitsAtAt(s, 0);
    }
    if LocalChar(c) && LocalTail(w) {
      var at :| SplitsAtAt(w, at);
      AtJoinShift(c, w, at);
    }
  }

  lemma MatchesPatternCons(c: char, w: GoString)
    ensures MatchesPattern([c] + w) <==> LocalChar(c) && LocalTail(w)
  {
    if MatchesPattern([c] + w) {
      var at :| 0 < at && SplitsAtAt([c] + w, at);
      AtSplitShift(c, w, at);
    }
    if LocalChar(c) && LocalTail(w) {
      var at :| SplitsAtAt(w, at);
      AtJoinShift(c, w, at);
    }
  }

  /** From `Host` and from `Tld(n)` the automaton accepts the languages of the pattern's tail. */
  lemma {:induction false} RunHostStates(n: nat, w: GoString)
    ensures Run(Host, w) == HostTail(w)
    ensures Run(Tld(n), w) == ((AllAlpha(w) && n + |w| >= 2) || HostTail(w))
    decreases |w|
  {
    if w == [] {
      assert !HostTail(w);
    } else {
      var c, rest := w[0], w[1..];
      assert w == [c] + rest;
      RunHostStates(0, rest);
      RunHostStates(n + 1, rest);
      HostTailCons(c, rest);
      AllAlphaCons(c, rest);
    }
  }

  lemma RunHostStart(w: GoString)
    ensures Run(HostStart, w) == HostPattern(w)
  {
    if w == [] {
      assert !HostPattern(w);
    } else {
      assert w == [w[0]] + w[1..];
      RunHostStates(0, w[1..]);
      HostPatternCons(w[0], w[1..]);
    }
  }

  lemma {:induction false} RunLocal(w: GoString)
    ensures Run(Local, w) == LocalTail(w)
    decreases |w|
  {
    if w == [] {
      assert !LocalTail(w);
    } else {
      var c, rest := w[0], w[1..];
      assert w == [c] + rest;
      RunLocal(rest);
      RunHostStart(rest);
      LocalTailCons(c, rest);
    }
  }

  /** The recognizer decides exactly the anchored pattern (util/email.go:22,31). */
  lemma IsValidEmailMatchesPattern(s: GoString)
    ensures IsValidEmail(s) == MatchesPattern(s)
  {
    if s == [] {
      assert !MatchesPattern(s);
    } else {
      assert s == [s[0]] + s[1..];
      RunLocal(s[1..]);
      MatchesPatternCons(s[0], s[1..]);
    }
  }

  // ---------------------------------------------------------------------
  // What an accepted address looks like.

  /** The pieces of an accepted address, as the pattern lays them out. */
  lemma AcceptedSplit(s: GoString) returns (at: int, dot: int)
    requires IsValidEmail(s)
    ensures 0 < at && at + 1 < dot && dot + 2 < |s|
    ensures s[at] == '@' && s[dot] == '.'
    ensures AllLocal(s[..at]) && AllDomain(s[at + 1..dot]) && AllAlpha(s[dot + 1..])
  {
    IsValidEmailMatchesPattern(s);
    at :| 0 < at && SplitsAtAt(s, at);
    var h := s[at + 1..];
    var d :| 0 < d && SplitsAtDot(h, d);
    dot := at + 1 + d;
    assert s[at + 1..dot] == h[..d];
    assert s[dot + 1..] == h[d + 1..];
  }

  /** Accepted addresses have at least six characters, so the empty string is rejected (util/email.go:22). */
  lemma AcceptedEmailMinLength(s: GoString)
    requires IsValidEmail(s)
    ensures |s| >= 6
  {
    var at, dot := AcceptedSplit(s);
  }

  /** An accepted address holds exactly one '@': no character class of the pattern admits it. */
  lemma AcceptedEmailHasOneAt(s: GoString)
    requires IsValidEmail(s)
    ensures multiset(s)['@'] == 1
  {
    var at, dot := AcceptedSplit(s);
    var local, host, tld := s[..at], s[at + 1..dot], s[dot..];
    assert s == local + ['@'] + host + tld;
    assert '@' !in local by {
      forall i | 0 <= i < |local| ensures local[i] != '@' { assert LocalChar(local[i]); }
    }
    assert '@' !in host by {
      forall i | 0 <= i < |host| ensures host[i] != '@' { assert DomainChar(host[i]); }
    }
    assert '@' !in tld by {
      forall i | 0 <= i < |tld| ensures tld[i] != '@' {
        if i > 0 { assert tld[i] == s[dot + 1..][i - 1]; }
      }
    }
    assert multiset(local)['@'] == 0 && multiset(host)['@'] == 0 && multiset(tld)['@'] == 0;
  }

  /**
   * In an accepted address the text after the last '.' is two or more ASCII
   * letters, and the text between the '@' and that dot is a non-empty run of
   * `[a-zA-Z0-9.-]` (util/email.go:22).
   */
  lemma AcceptedEmailParts(s: GoString)
    requires IsValidEmail(s)
    ensures var at, dot := IndexOf(s, '@'), LastIndexOf(s, '.');
      0 < at && at + 1 < dot && |s| - dot - 1 >= 2
      && AllLocal(s[..at]) && AllDomain(s[at + 1..dot]) && AllAlpha(s[dot + 1..])
  {
    var at, dot := AcceptedSplit(s);
    FirstAt(s, at);
    LastDot(s, dot);
  }

  lemma FirstAt(s: GoString, at: int)
    requires 0 <= at < |s| && s[at] == '@' && AllLocal(s[..at])
    ensures IndexOf(s, '@') == at
  {
    forall i | 0 <= i < at ensures s[i] != '@' {
      assert s[..at][i] == s[i];
    }
  }

  lemma LastDot(s: GoString, dot: int)
    requires 0 <= dot < |s| && s[dot] == '.' && AllAlpha(s[dot + 1..])
    ensures LastIndexOf(s, '.') == dot
  {
    forall i | dot < i < |s| ensures s[i] != '.' {
      assert s[dot + 1..][i - dot - 1] == s[i];
    }
  }

  // ---------------------------------------------------------------------
  // Case does not matter.

  /** Swap the ASCII case of a letter; other characters are kept. */
  function FlipCase(c: char): char
  {
    if IsAsciiLower(c) then ToUpperAscii(c) else ToLowerAscii(c)
  }

  /** `t` is `s` with the ASCII case of any of its letters flipped. */
  predicate SameUpToCase(s: GoString, t: GoString)
  {
    |s| == |t| && forall i :: 0 <= i < |s| ==> t[i] == s[i] || t[i] == FlipCase(s[i])
  }

  lemma StepIgnoresCase(st: State, c: char)
    ensures Step(st, FlipCase(c)) == Step(st, c)
  {
  }

  lemma {:induction false} RunIgnoresCase(st: State, s: GoString, t: GoString)
    requires SameUpToCase(s, t)
    ensures Run(st, s) == Run(st, t)
    decreases |s|
  {
    if s != [] {
      StepIgnoresCase(st, s[0]);
      assert Step(st, t[0]) == Step(st, s[0]);
      assert SameUpToCase(s[1..], t[1..]) by {
        forall i | 0 <= i < |s| - 1 ensures t[1..][i] == s[1..][i] || t[1..][i] == FlipCase(s[1..][i]) {
          assert t[1..][i] == t[i + 1] && s[1..][i] == s[i + 1];
        }
      }
      match Step(st, s[0])
      case None =>
      case Some(next) => RunIgnoresCase(next, s[1..], t[1..]);
    }
  }

  /** Flipping the ASCII case of any letters does not change acceptance (util/email.go:22). */
  lemma CaseFlipPreservesValidity(s: GoString, t: GoString)
    requires SameUpToCase(s, t)
    ensures IsValidEmail(s) == IsValidEmail(t)
  {
    RunIgnoresCase(LocalStart, s, t);
  }
}
