/**
 * util/oauth.go: the anti-forgery state of the Google sign-in, kept in the
 * "oauthstate" cookie. The random source is a parameter: `entropy` is what
 * `rand.Read` wrote into the buffer, and a short read leaves the rest zero.
 */
module OauthState {
  import opened GoText
  import opened Wrappers
  import opened Cookies
  import opened Base64Url

  const StateCookieName: GoString := "oauthstate"
  const StateBytes: nat := 16
  const StateLifetime: int := 365 * 24 * Hour

  /** The 16-byte buffer after `rand.Read`: the bytes it delivered, then zeros. */
  function StateBuffer(entropy: seq<Byte>): (b: seq<Byte>)
    ensures |b| == StateBytes
    ensures forall i :: 0 <= i < StateBytes ==> b[i] == (if i < |entropy| then entropy[i] else 0)
  {
    seq(StateBytes, i requires 0 <= i < StateBytes => if i < |entropy| then entropy[i] else 0)
  }

  /** The cookie that carries `state`, issued at `now`. */
  function StateCookie(now: int, state: GoString): (c: Cookie)
    ensures c.name == StateCookieName && c.value == state
    ensures c.expires == Some(now + StateLifetime) && c.maxAge == 0 && c.path == ""
  {
    Cookie(StateCookieName, state, "", Some(now + StateLifetime), 0, false, false, SameSiteUnset)
  }

  /**
   * `GenerateStateOauthCookie`: fills a zeroed 16-byte buffer from the random
   * source, encodes it, and returns the state with the cookie it sets.
   */
  method GenerateStateOauthCookie(now: int, entropy: seq<Byte>) returns (state: GoString, cookie: Cookie)
    ensures state == Encode(StateBuffer(entropy))
    ensures cookie == StateCookie(now, state)
  {
    var b := new Byte[StateBytes](_ => 0);
    var i := 0;
    while i < StateBytes && i < |entropy|
      invariant 0 <= i <= StateBytes && i <= |entropy|
      invariant forall j :: 0 <= j < i ==> b[j] == entropy[j]
      invariant forall j :: i <= j < StateBytes ==> b[j] == 0
    {
      b[i] := entropy[i];
      i := i + 1;
    }
    assert b[..] == StateBuffer(entropy);
    state := Encode(b[..]);
    cookie := StateCookie(now, state);
  }

  /** A state is 24 characters of the URL-safe alphabet followed by "==". */
  lemma StateShape(entropy: seq<Byte>)
    ensures var s := Encode(StateBuffer(entropy));
      |s| == 24 && s[22..] == "==" && forall i :: 0 <= i < 22 ==> IsAlphabetChar(s[i])
  {
    var s := Encode(StateBuffer(entropy));
    EncodePaddingOneByte(StateBuffer(entropy));
    assert s[22..] == [s[22], s[23]];
  }

  /** The state decodes back to the buffer it was made from. */
  lemma StateDecodes(entropy: seq<Byte>)
    ensures Decode(Encode(StateBuffer(entropy))) == Some(StateBuffer(entropy))
  {
    DecodeEncode(StateBuffer(entropy));
  }

  /** Different buffers give different states. */
  lemma StateInjective(e1: seq<Byte>, e2: seq<Byte>)
    requires StateBuffer(e1) != StateBuffer(e2)
    ensures Encode(StateBuffer(e1)) != Encode(StateBuffer(e2))
  {
    StateDecodes(e1);
    StateDecodes(e2);
  }
}
