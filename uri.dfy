/**
 * `encodeURIComponent` and `decodeURIComponent` of ECMAScript (sections
 * 19.2.6.4 and 19.2.6.2 of ECMA-262): characters outside the unreserved set
 * become the `%XX` escapes of their UTF-8 bytes (RFC 3629, section 3).
 */
module Uri {
  import opened Wrappers
  import opened Text

  type Byte = b: nat | b < 256

  /** Characters `encodeURIComponent` leaves as they are. */
  predicate Unreserved(c: char) {
    IsAlphaNum(c) || c == '-' || c == '_' || c == '.' || c == '!' || c == '~'
    || c == '*' || c == '\'' || c == '(' || c == ')'
  }

  /** Characters that can appear in an encoded component. */
  predicate UriSafe(c: char) {
    Unreserved(c) || c == '%'
  }

  /** The UTF-8 bytes of a character, six bits at a time from the low end. */
  function Utf8(c: char): (bs: seq<Byte>)
    ensures 1 <= |bs| <= 4
  {
    var n := c as int;
    var r0, n1 := n % 64, n / 64;
    var r1, n2 := n1 % 64, n1 / 64;
    var r2, n3 := n2 % 64, n2 / 64;
    if n < 0x80 then [n]
    else if n < 0x800 then [0xC0 + n1, 0x80 + r0]
    else if n < 0x1_0000 then [0xE0 + n2, 0x80 + r1, 0x80 + r0]
    else [0xF0 + n3, 0x80 + r2, 0x80 + r1, 0x80 + r0]
  }

  const HexDigits: string := "0123456789ABCDEF"

  /** The value of a hexadecimal digit, either case. */
  function HexValue(c: char): (v: Option<nat>)
    ensures v.Some? ==> v.value < 16
  {
    if '0' <= c <= '9' then Some(c as int - '0' as int)
    else if 'A' <= c <= 'F' then Some(c as int - 'A' as int + 10)
    else if 'a' <= c <= 'f' then Some(c as int - 'a' as int + 10)
    else None
  }

  lemma HexValueOfDigit(d: nat)
    requires d < 16
    ensures HexValue(HexDigits[d]) == Some(d)
  {
  }

  /** `%XX` with upper-case hex digits. */
  function Triplet(b: Byte): (t: string)
    ensures |t| == 3 && t[0] == '%'
    ensures forall i :: 0 <= i < |t| ==> UriSafe(t[i])
  {
    ['%', HexDigits[b / 16], HexDigits[b % 16]]
  }

  function PercentEncode(bs: seq<Byte>): (t: string)
    ensures |t| == 3 * |bs|
    ensures forall i :: 0 <= i < |t| ==> UriSafe(t[i])
  {
    if bs == [] then [] else Triplet(bs[0]) + PercentEncode(bs[1..])
  }

  function EncodeChar(c: char): (t: string)
    ensures 1 <= |t|
    ensures forall i :: 0 <= i < |t| ==> UriSafe(t[i])
  {
    if Unreserved(c) then [c] else PercentEncode(Utf8(c))
  }

  /** `encodeURIComponent`. */
  function EncodeURIComponent(s: string): (t: string)
    ensures forall i :: 0 <= i < |t| ==> UriSafe(t[i])
    ensures (forall i :: 0 <= i < |s| ==> Unreserved(s[i])) ==> t == s
  {
    if s == [] then [] else EncodeChar(s[0]) + EncodeURIComponent(s[1..])
  }

  /** Encoded text never holds a query delimiter, a fragment mark or a space. */
  lemma EncodedHasNoDelimiters(s: string)
    ensures '&' !in EncodeURIComponent(s) && '=' !in EncodeURIComponent(s)
    ensures '?' !in EncodeURIComponent(s) && '#' !in EncodeURIComponent(s)
    ensures ' ' !in EncodeURIComponent(s)
  {
    var t := EncodeURIComponent(s);
    forall i | 0 <= i < |t| ensures t[i] != '&' && t[i] != '=' && t[i] != '?' && t[i] != '#' && t[i] != ' ' {
      SafeIsNoDelimiter(t[i]);
    }
  }

  lemma SafeIsNoDelimiter(c: char)
    requires UriSafe(c)
    ensures c != '&' && c != '=' && c != '?' && c != '#' && c != ' '
  {
  }

  // ---------------------------------------------------------------- decoding

  /** The byte written as `%XX` at position `i`, if there is one. */
  function ReadByte(t: string, i: nat): (b: Option<Byte>)
    ensures b.Some? ==> i + 3 <= |t|
  {
    if i + 3 <= |t| && t[i] == '%' then
      match (HexValue(t[i + 1]), HexValue(t[i + 2]))
      case (Some(h), Some(l)) => Some(16 * h + l)
      case _ => None
    else None
  }

  /** The payload of a UTF-8 continuation byte written at position `i`. */
  function ContAt(t: string, i: nat): (x: Option<nat>)
    ensures x.Some? ==> i + 3 <= |t| && x.value < 64
  {
    match ReadByte(t, i)
    case Some(b) => if 0x80 <= b < 0xC0 then Some(b - 0x80) else None
    case None => None
  }

  /**
   * One escaped UTF-8 sequence at the start of `t`: the character and how
   * many characters of `t` it takes; overlong forms and surrogates are refused.
   */
  function DecodeEscape(t: string): (r: Option<(char, nat)>)
    ensures r.Some? ==> 0 < r.value.1 <= |t|
  {
    match ReadByte(t, 0)
    case None => None
    case Some(b0) =>
      if b0 < 0x80 then Some((b0 as char, 3))
      else if 0xC0 <= b0 < 0xE0 then
        match ContAt(t, 3)
        case None => None
        case Some(x1) =>
          var n := (b0 - 0xC0) * 64 + x1;
          if 0x80 <= n then Some((n as char, 6)) else None
      else if 0xE0 <= b0 < 0xF0 then
        match (ContAt(t, 3), ContAt(t, 6))
        case (Some(x1), Some(x2)) =>
          var n := ((b0 - 0xE0) * 64 + x1) * 64 + x2;
          if 0x800 <= n && !(0xD800 <= n < 0xE000) then Some((n as char, 9)) else None
        case _ => None
      else if 0xF0 <= b0 < 0xF8 then
        match (ContAt(t, 3), ContAt(t, 6), ContAt(t, 9))
        case (Some(x1), Some(x2), Some(x3)) =>
          var n := (((b0 - 0xF0) * 64 + x1) * 64 + x2) * 64 + x3;
          if 0x1_0000 <= n < 0x11_0000 then Some((n as char, 12)) else None
        case _ => None
      else None
  }

  /** `decodeURIComponent`; `None` where it throws. */
  function DecodeURIComponent(t: string): Option<string>
    decreases |t|
  {
    if t == [] then Some("")
    else if t[0] != '%' then
      match DecodeURIComponent(t[1..])
      case None => None
      case Some(rest) => Some([t[0]] + rest)
    else
      match DecodeEscape(t)
      case None => None
      case Some((c, k)) =>
        match DecodeURIComponent(t[k..])
        case None => None
        case Some(rest) => Some([c] + rest)
  }

  lemma ReadTriplet(b: Byte, rest: string)
    ensures ReadByte(Triplet(b) + rest, 0) == Some(b)
  {
    var t := Triplet(b) + rest;
    assert t[0] == '%' && t[1] == HexDigits[b / 16] && t[2] == HexDigits[b % 16];
    HexValueOfDigit(b / 16);
    HexValueOfDigit(b % 16);
  }

  lemma ReadByteShift(a: string, t: string, i: nat)
    ensures ReadByte(a + t, |a| + i) == ReadByte(t, i)
  {
    if i + 3 <= |t| {
      assert (a + t)[|a| + i] == t[i];
      assert (a + t)[|a| + i + 1] == t[i + 1];
      assert (a + t)[|a| + i + 2] == t[i + 2];
    }
  }

  lemma {:induction false} PercentEncodeAt(bs: seq<Byte>, j: nat, rest: string)
    requires j < |bs|
    ensures ReadByte(PercentEncode(bs) + rest, 3 * j) == Some(bs[j])
  {
    var u := PercentEncode(bs[1..]) + rest;
    assert PercentEncode(bs) + rest == Triplet(bs[0]) + u;
    if j == 0 {
      ReadTriplet(bs[0], u);
    } else {
      PercentEncodeAt(bs[1..], j - 1, rest);
      ReadByteShift(Triplet(bs[0]), u, 3 * (j - 1));
    }
  }

  /** The continuation byte `0x80 + x` written as the `j`-th escape reads back as `x`. */
  lemma ContAtEncoded(bs: seq<Byte>, j: nat, rest: string, x: nat)
    requires j < |bs| && x < 64 && bs[j] == 0x80 + x
    ensures ContAt(PercentEncode(bs) + rest, 3 * j) == Some(x)
  {
    PercentEncodeAt(bs, j, rest);
  }

  lemma DecodeTwo(c: char, rest: string)
    requires 0x80 <= c as int < 0x800
    ensures DecodeEscape(PercentEncode(Utf8(c)) + rest) == Some((c, 6))
  {
    var n := c as int;
    var b0, x1 := n / 64, n % 64;
    var bs := Utf8(c);
    assert bs == [0xC0 + b0, 0x80 + x1];
    PercentEncodeAt(bs, 0, rest);
    ContAtEncoded(bs, 1, rest, x1);
    assert b0 * 64 + x1 == n;
  }

  /** Three base-64 digits put back together. */
  lemma Base64Three(n: nat)
    ensures ((n / 64 / 64) * 64 + n / 64 % 64) * 64 + n % 64 == n
  {
    var q := n / 64;
    assert q * 64 + n % 64 == n;
    assert (q / 64) * 64 + q % 64 == q;
  }

  /** Three escapes of a lead byte and two continuation bytes decode to the character they spell. */
  lemma DecodeThreeEscapes(t: string, b0: nat, x1: nat, x2: nat)
    requires b0 < 16 && ReadByte(t, 0) == Some(0xE0 + b0)
    requires ContAt(t, 3) == Some(x1) && ContAt(t, 6) == Some(x2)
    requires 0x800 <= (b0 * 64 + x1) * 64 + x2 < 0x1_0000
    requires !(0xD800 <= (b0 * 64 + x1) * 64 + x2 < 0xE000)
    ensures DecodeEscape(t) == Some((((b0 * 64 + x1) * 64 + x2) as char, 9))
  {
  }

  lemma DecodeThree(c: char, rest: string)
    requires 0x800 <= c as int < 0x1_0000
    ensures DecodeEscape(PercentEncode(Utf8(c)) + rest) == Some((c, 9))
  {
    var n := c as int;
    var b0, x1, x2 := n / 64 / 64, n / 64 % 64, n % 64;
    var bs := Utf8(c);
    assert bs == [0xE0 + b0, 0x80 + x1, 0x80 + x2];
    PercentEncodeAt(bs, 0, rest);
    ContAtEncoded(bs, 1, rest, x1);
    ContAtEncoded(bs, 2, rest, x2);
    Base64Three(n);
    assert (b0 * 64 + x1) * 64 + x2 == n;
    DecodeThreeEscapes(PercentEncode(bs) + rest, b0, x1, x2);
  }

  /** Four escapes of a lead byte and three continuation bytes decode to the character they spell. */
  lemma DecodeFourEscapes(t: string, b0: nat, x1: nat, x2: nat, x3: nat)
    requires b0 < 8 && ReadByte(t, 0) == Some(0xF0 + b0)
    requires ContAt(t, 3) == Some(x1) && ContAt(t, 6) == Some(x2) && ContAt(t, 9) == Some(x3)
    requires 0x1_0000 <= ((b0 * 64 + x1) * 64 + x2) * 64 + x3 < 0x11_0000
    ensures DecodeEscape(t) == Some(((((b0 * 64 + x1) * 64 + x2) * 64 + x3) as char, 12))
  {
  }

  lemma DecodeFour(c: char, rest: string)
    requires 0x1_0000 <= c as int
    ensures DecodeEscape(PercentEncode(Utf8(c)) + rest) == Some((c, 12))
  {
    var n := c as int;
    var b0, x1, x2, x3 := n / 64 / 64 / 64, n / 64 / 64 % 64, n / 64 % 64, n % 64;
    var bs := Utf8(c);
    assert bs == [0xF0 + b0, 0x80 + x1, 0x80 + x2, 0x80 + x3];
    PercentEncodeAt(bs, 0, rest);
    ContAtEncoded(bs, 1, rest, x1);
    ContAtEncoded(bs, 2, rest, x2);
    ContAtEncoded(bs, 3, rest, x3);
    Base64Three(n / 64);
    assert ((b0 * 64 + x1) * 64 + x2) * 64 + x3 == n;
    DecodeFourEscapes(PercentEncode(bs) + rest, b0, x1, x2, x3);
  }

  /** An escaped character decodes back to itself, taking exactly its escapes. */
  lemma DecodeEscapeOfChar(c: char, rest: string)
    requires !Unreserved(c)
    ensures DecodeEscape(EncodeChar(c) + rest) == Some((c, |EncodeChar(c)|))
  {
    var n := c as int;
    if n < 0x80 {
      PercentEncodeAt(Utf8(c), 0, rest);
    } else if n < 0x800 {
      DecodeTwo(c, rest);
    } else if n < 0x1_0000 {
      DecodeThree(c, rest);
    } else {
      DecodeFour(c, rest);
    }
  }

  /** Decoding an encoded character followed by decodable text. */
  lemma DecodeStep(c: char, u: string, x: string)
    requires DecodeURIComponent(u) == Some(x)
    ensures DecodeURIComponent(EncodeChar(c) + u) == Some([c] + x)
  {
    var t := EncodeChar(c) + u;
    if Unreserved(c) {
      assert t[0] == c && t[1..] == u;
    } else {
      DecodeEscapeOfChar(c, u);
      assert t[0] == '%';
      assert t[|EncodeChar(c)|..] == u;
    }
  }

  /** Decoding undoes encoding: the receiver of an encoded component gets the original text back. */
  lemma {:induction false} DecodeEncode(s: string)
    ensures DecodeURIComponent(EncodeURIComponent(s)) == Some(s)
  {
    if s != [] {
      DecodeEncode(s[1..]);
      DecodeStep(s[0], EncodeURIComponent(s[1..]), s[1..]);
      assert [s[0]] + s[1..] == s;
    }
  }
}
