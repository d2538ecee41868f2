/**
 * The padded URL-safe base64 encoding (section 5 of RFC 4648), which
 * `base64.URLEncoding` implements and util/oauth.go uses for the OAuth state.
 * A decoder is given as the encoding's partner.
 */
module Base64Url {
  import opened Wrappers

  type Byte = b: int | 0 <= b < 256

  /** The character for a 6-bit value: A-Z, a-z, 0-9, '-', '_'. */
  function SextetChar(v: int): (c: char)
    requires 0 <= v < 64
    ensures c != '='
  {
    if v < 26 then ('A' as int + v) as char
    else if v < 52 then ('a' as int + (v - 26)) as char
    else if v < 62 then ('0' as int + (v - 52)) as char
    else if v == 62 then '-'
    else '_'
  }

  /** The 6-bit value of an alphabet character, `None` for any other character. */
  function CharSextet(c: char): (r: Option<int>)
    ensures r.Some? ==> 0 <= r.value < 64 && SextetChar(r.value) == c
  {
    if 'A' <= c <= 'Z' then Some(c as int - 'A' as int)
    else if 'a' <= c <= 'z' then Some(c as int - 'a' as int + 26)
    else if '0' <= c <= '9' then Some(c as int - '0' as int + 52)
    else if c == '-' then Some(62)
    else if c == '_' then Some(63)
    else None
  }

  predicate IsAlphabetChar(c: char)
  {
    CharSextet(c).Some?
  }

  lemma CharSextetOfSextetChar(v: int)
    requires 0 <= v < 64
    ensures CharSextet(SextetChar(v)) == Some(v)
  {
  }

  /** Three bytes as four characters, most significant bits first. */
  function EncodeGroup(a: Byte, b: Byte, c: Byte): (s: string)
    ensures |s| == 4 && forall i :: 0 <= i < 4 ==> IsAlphabetChar(s[i])
  {
    CharSextetOfSextetChar(a / 4);
    CharSextetOfSextetChar((a % 4) * 16 + b / 16);
    CharSextetOfSextetChar((b % 16) * 4 + c / 64);
    CharSextetOfSextetChar(c % 64);
    [SextetChar(a / 4), SextetChar((a % 4) * 16 + b / 16), SextetChar((b % 16) * 4 + c / 64), SextetChar(c % 64)]
  }

  /** A final single byte: two characters and "==". */
  function EncodeTail1(a: Byte): (s: string)
    ensures |s| == 4 && s[2] == '=' && s[3] == '=' && IsAlphabetChar(s[0]) && IsAlphabetChar(s[1])
  {
    CharSextetOfSextetChar(a / 4);
    CharSextetOfSextetChar((a % 4) * 16);
    [SextetChar(a / 4), SextetChar((a % 4) * 16), '=', '=']
  }

  /** A final pair of bytes: three characters and "=". */
  function EncodeTail2(a: Byte, b: Byte): (s: string)
    ensures |s| == 4 && s[2] != '=' && s[3] == '=' && IsAlphabetChar(s[0]) && IsAlphabetChar(s[1]) && IsAlphabetChar(s[2])
  {
    CharSextetOfSextetChar(a / 4);
    CharSextetOfSextetChar((a % 4) * 16 + b / 16);
    CharSextetOfSextetChar((b % 16) * 4);
    [SextetChar(a / 4), SextetChar((a % 4) * 16 + b / 16), SextetChar((b % 16) * 4), '=']
  }

  /** `base64.URLEncoding.EncodeToString`. */
  function Encode(bytes: seq<Byte>): (s: string)
    ensures |s| == (|bytes| + 2) / 3 * 4
    decreases |bytes|
  {
    if |bytes| == 0 then ""
    else if |bytes| == 1 then EncodeTail1(bytes[0])
    else if |bytes| == 2 then EncodeTail2(bytes[0], bytes[1])
    else
      assert (|bytes| + 2) / 3 == (|bytes[3..]| + 2) / 3 + 1;
      EncodeGroup(bytes[0], bytes[1], bytes[2]) + Encode(bytes[3..])
  }

  function DecodeGroup(s0: char, s1: char, s2: char, s3: char): Option<seq<Byte>>
  {
    match (CharSextet(s0), CharSextet(s1), CharSextet(s2), CharSextet(s3))
    case (Some(v0), Some(v1), Some(v2), Some(v3)) =>
      Some([v0 * 4 + v1 / 16, (v1 % 16) * 16 + v2 / 4, (v2 % 4) * 64 + v3])
    case _ => None
  }

  function DecodeTail1(s0: char, s1: char): Option<seq<Byte>>
  {
    match (CharSextet(s0), CharSextet(s1))
    case (Some(v0), Some(v1)) => Some([v0 * 4 + v1 / 16])
    case _ => None
  }

  function DecodeTail2(s0: char, s1: char, s2: char): Option<seq<Byte>>
  {
    match (CharSextet(s0), CharSextet(s1), CharSextet(s2))
    case (Some(v0), Some(v1), Some(v2)) => Some([v0 * 4 + v1 / 16, (v1 % 16) * 16 + v2 / 4])
    case _ => None
  }

  /** The padded decoder; `None` for text that is not a sequence of whole quanta. */
  function Decode(s: string): Option<seq<Byte>>
    decreases |s|
  {
    if |s| == 0 then Some([])
    else if |s| < 4 then None
    else if |s| == 4 && s[2] == '=' && s[3] == '=' then DecodeTail1(s[0], s[1])
    else if |s| == 4 && s[3] == '=' then DecodeTail2(s[0], s[1], s[2])
    else
      match (DecodeGroup(s[0], s[1], s[2], s[3]), Decode(s[4..]))
      case (Some(g), Some(rest)) => Some(g + rest)
      case _ => None
  }

  /** Euclidean division by 4, 16 and 64 undoes packing a high and a low part. */
  lemma Unpack(hi: int, lo: int, k: int)
    requires k == 4 || k == 16 || k == 64
    requires 0 <= hi && 0 <= lo < k
    ensures (hi * k + lo) / k == hi && (hi * k + lo) % k == lo
  {
    if k == 4 {
    } else if k == 16 {
    } else {
    }
  }

  lemma DecodeEncodeGroup(a: Byte, b: Byte, c: Byte)
    ensures var s := EncodeGroup(a, b, c); DecodeGroup(s[0], s[1], s[2], s[3]) == Some([a, b, c])
  {
    var v0, v1, v2, v3 := a / 4, (a % 4) * 16 + b / 16, (b % 16) * 4 + c / 64, c % 64;
    CharSextetOfSextetChar(v0);
    CharSextetOfSextetChar(v1);
    CharSextetOfSextetChar(v2);
    CharSextetOfSextetChar(v3);
    Unpack(a % 4, b / 16, 16);
    Unpack(b % 16, c / 64, 4);
    assert v0 * 4 + v1 / 16 == a;
    assert (v1 % 16) * 16 + v2 / 4 == b;
    assert (v2 % 4) * 64 + v3 == c;
  }

  lemma DecodeEncodeTail1(a: Byte)
    ensures var s := EncodeTail1(a); DecodeTail1(s[0], s[1]) == Some([a])
  {
    CharSextetOfSextetChar(a / 4);
    CharSextetOfSextetChar((a % 4) * 16);
    Unpack(a % 4, 0, 16);
    assert (a / 4) * 4 + ((a % 4) * 16) / 16 == a;
  }

  lemma DecodeEncodeTail2(a: Byte, b: Byte)
    ensures var s := EncodeTail2(a, b); DecodeTail2(s[0], s[1], s[2]) == Some([a, b])
  {
    CharSextetOfSextetChar(a / 4);
    CharSextetOfSextetChar((a % 4) * 16 + b / 16);
    CharSextetOfSextetChar((b % 16) * 4);
    var v0, v1, v2 := a / 4, (a % 4) * 16 + b / 16, (b % 16) * 4;
    Unpack(a % 4, b / 16, 16);
    Unpack(b % 16, 0, 4);
    assert v0 * 4 + v1 / 16 == a;
    assert (v1 % 16) * 16 + v2 / 4 == b;
  }

  /** A full quantum whose last character is not padding is decoded, then the rest. */
  lemma DecodeFullQuantum(s: string, g: seq<Byte>, rest: seq<Byte>)
    requires |s| >= 4 && IsAlphabetChar(s[3])
    requires DecodeGroup(s[0], s[1], s[2], s[3]) == Some(g) && Decode(s[4..]) == Some(rest)
    ensures Decode(s) == Some(g + rest)
  {
  }

  /** A single byte survives the round trip. */
  lemma DecodeEncodeOne(bytes: seq<Byte>)
    requires |bytes| == 1
    ensures Decode(Encode(bytes)) == Some(bytes)
  {
    DecodeEncodeTail1(bytes[0]);
    assert bytes == [bytes[0]];
  }

  /** Two bytes survive the round trip. */
  lemma DecodeEncodeTwo(bytes: seq<Byte>)
    requires |bytes| == 2
    ensures Decode(Encode(bytes)) == Some(bytes)
  {
    DecodeEncodeTail2(bytes[0], bytes[1]);
    assert bytes == [bytes[0], bytes[1]];
  }

  /** Encoding emits the leading group of three bytes, then the rest. */
  lemma EncodeSplit(bytes: seq<Byte>)
    requires |bytes| >= 3
    ensures Encode(bytes) == EncodeGroup(bytes[0], bytes[1], bytes[2]) + Encode(bytes[3..])
  {
  }

  /** Decoding a full unpadded quantum in front of decodable text. */
  lemma DecodeGroupThenRest(g: string, e: string, x: seq<Byte>, y: seq<Byte>)
    requires |g| == 4 && IsAlphabetChar(g[3])
    requires DecodeGroup(g[0], g[1], g[2], g[3]) == Some(x) && Decode(e) == Some(y)
    ensures Decode(g + e) == Some(x + y)
  {
    var s := g + e;
    assert s[0] == g[0] && s[1] == g[1] && s[2] == g[2] && s[3] == g[3];
    assert s[4..] == e;
    DecodeFullQuantum(s, x, y);
  }

  lemma SplitThree(bytes: seq<Byte>)
    requires |bytes| >= 3
    ensures bytes == [bytes[0], bytes[1], bytes[2]] + bytes[3..]
  {
  }

  /** A leading group of three bytes survives the round trip when the rest does. */
  lemma DecodeEncodeStep(a: Byte, b: Byte, c: Byte, rest: seq<Byte>)
    requires Decode(Encode(rest)) == Some(rest)
    ensures Decode(Encode([a, b, c] + rest)) == Some([a, b, c] + rest)
  {
    var bytes := [a, b, c] + rest;
    assert bytes[0] == a && bytes[1] == b && bytes[2] == c && bytes[3..] == rest;
    EncodeSplit(bytes);
    DecodeEncodeGroup(a, b, c);
    DecodeGroupThenRest(EncodeGroup(a, b, c), Encode(rest), [a, b, c], rest);
  }

  /** Decoding undoes encoding, for every byte sequence. */
  lemma {:induction false} DecodeEncode(bytes: seq<Byte>)
    ensures Decode(Encode(bytes)) == Some(bytes)
    decreases |bytes|
  {
    if |bytes| == 0 {
    } else if |bytes| == 1 {
      DecodeEncodeOne(bytes);
    } else if |bytes| == 2 {
      DecodeEncodeTwo(bytes);
    } else {
      DecodeEncode(bytes[3..]);
      SplitThree(bytes);
      DecodeEncodeStep(bytes[0], bytes[1], bytes[2], bytes[3..]);
    }
  }

  /** Every character of an encoding is in the URL-safe alphabet or is the padding '='. */
  lemma {:induction false} EncodeAlphabet(bytes: seq<Byte>)
    ensures forall i :: 0 <= i < |Encode(bytes)| ==> IsAlphabetChar(Encode(bytes)[i]) || Encode(bytes)[i] == '='
    decreases |bytes|
  {
    if |bytes| > 2 {
      EncodeAlphabet(bytes[3..]);
      var g := EncodeGroup(bytes[0], bytes[1], bytes[2]);
      var rest := Encode(bytes[3..]);
      assert forall i :: 4 <= i < |g + rest| ==> (g + rest)[i] == rest[i - 4];
    }
  }

  /** The encodings of 3k+1 bytes end in "==", in which case no other character is padding. */
  lemma {:induction false} EncodePaddingOneByte(bytes: seq<Byte>)
    requires |bytes| % 3 == 1
    ensures var s := Encode(bytes); s[|s| - 2] == '=' && s[|s| - 1] == '=' && forall i :: 0 <= i < |s| - 2 ==> IsAlphabetChar(s[i])
    decreases |bytes|
  {
    if |bytes| > 1 {
      EncodePaddingOneByte(bytes[3..]);
      var g := EncodeGroup(bytes[0], bytes[1], bytes[2]);
      var rest := Encode(bytes[3..]);
      assert forall i :: 4 <= i < |g + rest| ==> (g + rest)[i] == rest[i - 4];
    }
  }
}
