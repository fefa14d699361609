/** `decodeURIComponent`, restricted to percent-escapes of ASCII octets (section 2.1 of RFC 3986). */
module UriDecoding {
  import opened JsCore

  predicate IsHexDigit(c: char) {
    '0' <= c <= '9' || 'a' <= c <= 'f' || 'A' <= c <= 'F'
  }

  function HexValue(c: char): (n: nat)
    requires IsHexDigit(c)
    ensures n < 16
  {
    if '0' <= c <= '9' then c as int - '0' as int
    else if 'a' <= c <= 'f' then c as int - 'a' as int + 10
    else c as int - 'A' as int + 10
  }

  predicate IsAscii(s: string) {
    forall i :: 0 <= i < |s| ==> s[i] as int < 0x80
  }

  /**
   * `decodeURIComponent(s)`: every `%XY` with two hex digits becomes the character with code XY,
   * scanning left to right; a `%` not followed by two hex digits throws URIError. Nothing is
   * reserved, so escapes of `:`, `/`, `?` and `%` itself are decoded too, and `+` stays `+`.
   * An escape of an octet >= 0x80 (the start of a UTF-8 sequence) yields NonAsciiEscape.
   */
  function DecodeURIComponent(s: string): (r: Result<string>)
    ensures r.Ok? ==> |r.value| <= |s|
    ensures '%' !in s ==> r == Ok(s)
  {
    if s == [] then Ok([])
    else if s[0] != '%' then
      assert [s[0]] + s[1..] == s;
      assert '%' !in s ==> '%' !in s[1..];
      match DecodeURIComponent(s[1..])
      case Ok(t) => Ok([s[0]] + t)
      case Err(e) => Err(e)
    else if |s| < 3 || !IsHexDigit(s[1]) || !IsHexDigit(s[2]) then Err(URIError)
    else
      var octet := 16 * HexValue(s[1]) + HexValue(s[2]);
      if octet >= 0x80 then Err(NonAsciiEscape)
      else
        match DecodeURIComponent(s[3..])
        case Ok(t) => Ok([octet as char] + t)
        case Err(e) => Err(e)
  }

  const UpperHexDigits: string := "0123456789ABCDEF"

  /** Percent-encodes every character of an ASCII string as `%XY`, the inverse partner of the decoder. */
  function PercentEncodeAll(s: string): (r: string)
    requires IsAscii(s)
    ensures |r| == 3 * |s|
  {
    if s == [] then []
    else
      var n := s[0] as int;
      ['%', UpperHexDigits[n / 16], UpperHexDigits[n % 16]] + PercentEncodeAll(s[1..])
  }

  lemma HexDigitRoundTrip(n: nat)
    requires n < 16
    ensures IsHexDigit(UpperHexDigits[n]) && HexValue(UpperHexDigits[n]) == n
  {
  }

  /** Decoding undoes percent-encoding: one decoding pass recovers the ASCII string. */
  lemma {:induction false} DecodeEncodeRoundTrip(s: string)
    requires IsAscii(s)
    ensures DecodeURIComponent(PercentEncodeAll(s)) == Ok(s)
  {
    if s != [] {
      var n := s[0] as int;
      HexDigitRoundTrip(n / 16);
      HexDigitRoundTrip(n % 16);
      var d1, d2 := UpperHexDigits[n / 16], UpperHexDigits[n % 16];
      var rest := PercentEncodeAll(s[1..]);
      assert PercentEncodeAll(s) == ['%', d1, d2] + rest;
      assert 16 * HexValue(d1) + HexValue(d2) == n < 0x80;
      DecodeEscape(d1, d2, rest);
      DecodeEncodeRoundTrip(s[1..]);
      assert (n as char) == s[0];
      assert [s[0]] + s[1..] == s;
    }
  }

  /** One ASCII escape `%XY` at the front decodes to the character with code XY, followed by the decoded rest. */
  lemma DecodeEscape(c1: char, c2: char, rest: string)
    requires IsHexDigit(c1) && IsHexDigit(c2) && 16 * HexValue(c1) + HexValue(c2) < 0x80
    ensures DecodeURIComponent(['%', c1, c2] + rest) ==
      match DecodeURIComponent(rest)
      case Ok(t) => Ok([(16 * HexValue(c1) + HexValue(c2)) as char] + t)
      case Err(e) => Err(e)
  {
    var s := ['%', c1, c2] + rest;
    assert s[0] == '%' && s[1] == c1 && s[2] == c2 && s[3..] == rest;
  }

  /** Decoding is left to right: the result of a concatenation at an escape-free split point is the concatenation of the results. */
  lemma {:induction false} DecodeLiteralPrefix(p: string, rest: string)
    requires '%' !in p
    ensures DecodeURIComponent(p + rest) ==
      match DecodeURIComponent(rest)
      case Ok(t) => Ok(p + t)
      case Err(e) => Err(e)
  {
    if p != [] {
      assert (p + rest)[1..] == p[1..] + rest;
      DecodeLiteralPrefix(p[1..], rest);
      assert '%' !in p[1..];
      assert (p + rest)[0] == p[0] && p[0] != '%';
      match DecodeURIComponent(rest)
      case Ok(t) => assert [p[0]] + (p[1..] + t) == p + t;
      case Err(_) =>
    } else {
      assert p + rest == rest;
      match DecodeURIComponent(rest)
      case Ok(t) => assert p + t == t;
      case Err(_) =>
    }
  }
}
