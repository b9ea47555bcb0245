/**
 * Percent-encoding as the guard's login redirect uses it: `encodeURIComponent`
 * and the `application/x-www-form-urlencoded` serialisation of
 * `URLSearchParams`. Both encode a character as the UTF-8 bytes of its code
 * point (RFC 3629, section 3), each byte written `%XY` with upper-case hex
 * digits, except for the characters each scheme leaves as they are.
 */
module UrlEncoding {
  import opened Wrappers

  /** The two encoders differ only in the characters they leave unescaped and in the space. */
  datatype Scheme = UriComponent | FormUrlEncoded

  predicate IsByte(b: int) {
    0 <= b < 256
  }

  predicate IsContinuation(b: int) {
    0x80 <= b < 0xC0
  }

  /** The UTF-8 encoding of one code point. */
  function Utf8(c: char): (bytes: seq<int>)
    ensures 1 <= |bytes| <= 4
    ensures forall i :: 0 <= i < |bytes| ==> IsByte(bytes[i])
    ensures forall i :: 1 <= i < |bytes| ==> IsContinuation(bytes[i])
    ensures |bytes| == 1 <==> c as int < 0x80
  {
    var cp := c as int;
    if cp < 0x80 then [cp]
    else if cp < 0x800 then [0xC0 + cp / 64, 0x80 + cp % 64]
    else if cp < 0x1_0000 then [0xE0 + cp / 4096, 0x80 + cp / 64 % 64, 0x80 + cp % 64]
    else [0xF0 + cp / 262144, 0x80 + cp / 4096 % 64, 0x80 + cp / 64 % 64, 0x80 + cp % 64]
  }

  /** The length of the UTF-8 sequence a lead byte starts, 0 when it cannot start one. */
  function SequenceLength(lead: int): nat {
    if 0 <= lead < 0x80 then 1
    else if 0xC0 <= lead < 0xE0 then 2
    else if 0xE0 <= lead < 0xF0 then 3
    else if 0xF0 <= lead < 0xF8 then 4
    else 0
  }

  predicate IsScalar(cp: int) {
    0 <= cp < 0xD800 || 0xE000 <= cp < 0x11_0000
  }

  /** The code point a complete UTF-8 sequence denotes, if it denotes one. */
  function DecodeUtf8(bytes: seq<int>): Option<char> {
    if |bytes| == 0 || SequenceLength(bytes[0]) != |bytes|
       || exists i | 1 <= i < |bytes| :: !IsContinuation(bytes[i])
    then None
    else
      var cp :=
        if |bytes| == 1 then bytes[0]
        else if |bytes| == 2 then (bytes[0] - 0xC0) * 64 + (bytes[1] - 0x80)
        else if |bytes| == 3 then (bytes[0] - 0xE0) * 4096 + (bytes[1] - 0x80) * 64 + (bytes[2] - 0x80)
        else (bytes[0] - 0xF0) * 262144 + (bytes[1] - 0x80) * 4096 + (bytes[2] - 0x80) * 64 + (bytes[3] - 0x80);
      if IsScalar(cp) then Some(cp as char) else None
  }

  lemma Utf8LeadLength(c: char)
    ensures SequenceLength(Utf8(c)[0]) == |Utf8(c)|
  {
  }

  lemma Utf8RoundTrip(c: char)
    ensures DecodeUtf8(Utf8(c)) == Some(c)
  {
    var cp := c as int;
    Utf8LeadLength(c);
    if cp < 0x80 {
    } else if cp < 0x800 {
      TwoBytes(c);
    } else if cp < 0x1_0000 {
      ThreeBytes(c);
    } else {
      FourBytes(c);
    }
  }

  lemma TwoBytes(c: char)
    requires 0x80 <= c as int < 0x800
    ensures DecodeUtf8(Utf8(c)) == Some(c)
  {
    var cp := c as int;
    assert (cp / 64) * 64 + cp % 64 == cp;
    assert SequenceLength(Utf8(c)[0]) == 2;
  }

  lemma ThreeBytes(c: char)
    requires 0x800 <= c as int < 0x1_0000
    ensures DecodeUtf8(Utf8(c)) == Some(c)
  {
    var cp := c as int;
    assert (cp / 4096) * 4096 + (cp / 64 % 64) * 64 + cp % 64 == cp by {
      assert cp / 64 == (cp / 4096) * 64 + cp / 64 % 64;
      assert cp == (cp / 64) * 64 + cp % 64;
    }
    assert SequenceLength(Utf8(c)[0]) == 3;
  }

  lemma FourBytes(c: char)
    requires 0x1_0000 <= c as int
    ensures DecodeUtf8(Utf8(c)) == Some(c)
  {
    var cp := c as int;
    assert (cp / 262144) * 262144 + (cp / 4096 % 64) * 4096 + (cp / 64 % 64) * 64 + cp % 64 == cp by {
      assert cp / 4096 == (cp / 262144) * 64 + cp / 4096 % 64;
      assert cp / 64 == (cp / 4096) * 64 + cp / 64 % 64;
      assert cp == (cp / 64) * 64 + cp % 64;
    }
    assert SequenceLength(Utf8(c)[0]) == 4;
  }

  /** An upper-case hex digit. */
  function HexDigit(d: int): (c: char)
    requires 0 <= d < 16
    ensures IsUpperHexDigit(c)
  {
    if d < 10 then ('0' as int + d) as char else ('A' as int + d - 10) as char
  }

  predicate IsUpperHexDigit(c: char) {
    '0' <= c <= '9' || 'A' <= c <= 'F'
  }

  /** The value of a hex digit of either case. */
  function HexValue(c: char): (v: Option<int>)
    ensures v.Some? ==> 0 <= v.value < 16
  {
    if '0' <= c <= '9' then Some(c as int - '0' as int)
    else if 'A' <= c <= 'F' then Some(c as int - 'A' as int + 10)
    else if 'a' <= c <= 'f' then Some(c as int - 'a' as int + 10)
    else None
  }

  lemma HexDigitValue(d: int)
    requires 0 <= d < 16
    ensures HexValue(HexDigit(d)) == Some(d)
  {
  }

  /** One byte as `%XY`. */
  function PercentByte(b: int): string
    requires IsByte(b)
  {
    ['%', HexDigit(b / 16), HexDigit(b % 16)]
  }

  function PercentBytes(bytes: seq<int>): (s: string)
    requires forall i :: 0 <= i < |bytes| ==> IsByte(bytes[i])
    ensures |s| == 3 * |bytes|
  {
    if bytes == [] then [] else PercentByte(bytes[0]) + PercentBytes(bytes[1..])
  }

  /** The byte written `%XY` at the start of `s`, if there is one. */
  function ReadByte(s: string): Option<int> {
    if |s| < 3 || s[0] != '%' then None
    else match (HexValue(s[1]), HexValue(s[2]))
      case (Some(h), Some(l)) => Some(h * 16 + l)
      case _ => None
  }

  /** `n` bytes written `%XY` at the start of `s`, if there are. */
  function ReadBytes(s: string, n: nat): Option<seq<int>> {
    if n == 0 then Some([])
    else if |s| < 3 then None
    else match (ReadByte(s), ReadBytes(s[3..], n - 1))
      case (Some(b), Some(rest)) => Some([b] + rest)
      case _ => None
  }

  lemma {:induction false} ReadPercentBytes(bytes: seq<int>, t: string)
    requires forall i :: 0 <= i < |bytes| ==> IsByte(bytes[i])
    ensures ReadBytes(PercentBytes(bytes) + t, |bytes|) == Some(bytes)
  {
    if bytes != [] {
      var b := bytes[0];
      var s := PercentBytes(bytes) + t;
      assert s == PercentByte(b) + (PercentBytes(bytes[1..]) + t);
      HexDigitValue(b / 16);
      HexDigitValue(b % 16);
      assert ReadByte(s) == Some(b);
      assert s[3..] == PercentBytes(bytes[1..]) + t;
      ReadPercentBytes(bytes[1..], t);
      assert [b] + bytes[1..] == bytes;
    }
  }

  /** The characters a scheme leaves as they are. */
  predicate Unreserved(scheme: Scheme, c: char) {
    || 'A' <= c <= 'Z' || 'a' <= c <= 'z' || '0' <= c <= '9'
    || c == '-' || c == '_' || c == '.' || c == '*'
    || (scheme == UriComponent && (c == '!' || c == '~' || c == '\'' || c == '(' || c == ')'))
  }

  function EncodeChar(scheme: Scheme, c: char): string {
    if Unreserved(scheme, c) then [c]
    else if scheme == FormUrlEncoded && c == ' ' then "+"
    else PercentBytes(Utf8(c))
  }

  function Encode(scheme: Scheme, s: string): string {
    if s == [] then [] else EncodeChar(scheme, s[0]) + Encode(scheme, s[1..])
  }

  /** `encodeURIComponent`. */
  function EncodeURIComponent(s: string): string {
    Encode(UriComponent, s)
  }

  /** The encoding `URLSearchParams` applies to each name and value. */
  function FormEncode(s: string): string {
    Encode(FormUrlEncoded, s)
  }

  /** The inverse of `Encode`: percent-decoding, and `+` as a space in form encoding. */
  function Decode(scheme: Scheme, s: string): Option<string>
    decreases |s|
  {
    if s == [] then Some([])
    else if s[0] == '%' then
      match ReadByte(s)
      case None => None
      case Some(lead) =>
        var n := SequenceLength(lead);
        if n == 0 || |s| < 3 * n then None
        else match (ReadBytes(s, n), Decode(scheme, s[3 * n..]))
          case (Some(bytes), Some(rest)) =>
            (match DecodeUtf8(bytes)
             case Some(c) => Some([c] + rest)
             case None => None)
          case _ => None
    else
      match Decode(scheme, s[1..])
      case Some(rest) => Some([if scheme == FormUrlEncoded && s[0] == '+' then ' ' else s[0]] + rest)
      case None => None
  }

  lemma DecodeEncodedChar(scheme: Scheme, c: char, t: string)
    ensures Decode(scheme, EncodeChar(scheme, c) + t) ==
      match Decode(scheme, t) case Some(rest) => Some([c] + rest) case None => None
  {
    if Unreserved(scheme, c) || (scheme == FormUrlEncoded && c == ' ') {
      DecodeUnescaped(scheme, c, t);
    } else {
      DecodeEscaped(scheme, c, t);
    }
  }

  lemma DecodeUnescaped(scheme: Scheme, c: char, t: string)
    requires Unreserved(scheme, c) || (scheme == FormUrlEncoded && c == ' ')
    ensures Decode(scheme, EncodeChar(scheme, c) + t) ==
      match Decode(scheme, t) case Some(rest) => Some([c] + rest) case None => None
  {
    var s := EncodeChar(scheme, c) + t;
    assert s[1..] == t;
  }

  lemma DecodeEscaped(scheme: Scheme, c: char, t: string)
    requires !(Unreserved(scheme, c) || (scheme == FormUrlEncoded && c == ' '))
    ensures Decode(scheme, EncodeChar(scheme, c) + t) ==
      match Decode(scheme, t) case Some(rest) => Some([c] + rest) case None => None
  {
    var s := EncodeChar(scheme, c) + t;
    var bytes := Utf8(c);
    assert s == PercentByte(bytes[0]) + (PercentBytes(bytes[1..]) + t);
    HexDigitValue(bytes[0] / 16);
    HexDigitValue(bytes[0] % 16);
    assert ReadByte(s) == Some(bytes[0]);
    Utf8LeadLength(c);
    ReadPercentBytes(bytes, t);
    Utf8RoundTrip(c);
    assert s[3 * |bytes|..] == t;
  }

  /** Decoding undoes encoding, for every string and both schemes. */
  lemma {:induction false} DecodeEncode(scheme: Scheme, s: string)
    ensures Decode(scheme, Encode(scheme, s)) == Some(s)
  {
    if s != [] {
      DecodeEncode(scheme, s[1..]);
      DecodeEncodedChar(scheme, s[0], Encode(scheme, s[1..]));
      assert [s[0]] + s[1..] == s;
    }
  }

  /** The characters an encoder can emit. */
  predicate Emitted(scheme: Scheme, c: char) {
    Unreserved(scheme, c) || c == '%' || IsUpperHexDigit(c) || (scheme == FormUrlEncoded && c == '+')
  }

  lemma {:induction false} PercentBytesAlphabet(bytes: seq<int>, scheme: Scheme)
    requires forall i :: 0 <= i < |bytes| ==> IsByte(bytes[i])
    ensures forall i :: 0 <= i < |PercentBytes(bytes)| ==> Emitted(scheme, PercentBytes(bytes)[i])
  {
    if bytes != [] {
      PercentBytesAlphabet(bytes[1..], scheme);
      assert PercentBytes(bytes) == PercentByte(bytes[0]) + PercentBytes(bytes[1..]);
    }
  }

  predicate AllEmitted(scheme: Scheme, e: string) {
    forall i :: 0 <= i < |e| ==> Emitted(scheme, e[i])
  }

  lemma EncodeCharAlphabet(scheme: Scheme, c: char)
    ensures AllEmitted(scheme, EncodeChar(scheme, c))
  {
    if !Unreserved(scheme, c) && !(scheme == FormUrlEncoded && c == ' ') {
      PercentBytesAlphabet(Utf8(c), scheme);
    }
  }

  lemma AppendAlphabet(scheme: Scheme, x: string, y: string)
    requires AllEmitted(scheme, x) && AllEmitted(scheme, y)
    ensures AllEmitted(scheme, x + y)
  {
    forall i | 0 <= i < |x + y|
      ensures Emitted(scheme, (x + y)[i])
    {
      if i >= |x| {
        assert (x + y)[i] == y[i - |x|];
      }
    }
  }

  /** Every character of an encoding is unreserved, `%`, an upper-case hex digit, or (form) `+`. */
  lemma {:induction false} EncodeAlphabet(scheme: Scheme, s: string)
    ensures forall i :: 0 <= i < |Encode(scheme, s)| ==> Emitted(scheme, Encode(scheme, s)[i])
  {
    if s != [] {
      EncodeAlphabet(scheme, s[1..]);
      EncodeCharAlphabet(scheme, s[0]);
      AppendAlphabet(scheme, EncodeChar(scheme, s[0]), Encode(scheme, s[1..]));
    }
  }

  /** An encoded component carries none of the delimiters of a URL or a query. */
  lemma NoDelimiters(scheme: Scheme, s: string, i: int)
    requires 0 <= i < |Encode(scheme, s)|
    ensures Encode(scheme, s)[i] !in {'/', '?', '#', '&', '=', ' '}
  {
    EncodeAlphabet(scheme, s);
  }

  /** One `name=value` pair. */
  function SerializePair(pair: (string, string)): string {
    FormEncode(pair.0) + "=" + FormEncode(pair.1)
  }

  /** `URLSearchParams.toString()`: the encoded pairs in order, joined by `&`. */
  function SerializeQuery(pairs: seq<(string, string)>): string {
    if pairs == [] then ""
    else if |pairs| == 1 then SerializePair(pairs[0])
    else SerializePair(pairs[0]) + "&" + SerializeQuery(pairs[1..])
  }

  /** The serialised query is empty exactly when there are no pairs. */
  lemma SerializeQueryEmpty(pairs: seq<(string, string)>)
    ensures SerializeQuery(pairs) == "" <==> pairs == []
  {
    if pairs != [] {
      assert |SerializePair(pairs[0])| > 0;
    }
  }

  lemma {:induction false} EncodeAppend(scheme: Scheme, a: string, b: string)
    ensures Encode(scheme, a + b) == Encode(scheme, a) + Encode(scheme, b)
  {
    if a == [] {
      assert a + b == b;
    } else {
      assert (a + b)[1..] == a[1..] + b;
      EncodeAppend(scheme, a[1..], b);
    }
  }

  /** A string of unreserved characters is its own encoding. */
  lemma {:induction false} EncodeUnreserved(scheme: Scheme, s: string)
    requires forall i :: 0 <= i < |s| ==> Unreserved(scheme, s[i])
    ensures Encode(scheme, s) == s
  {
    if s != [] {
      EncodeUnreserved(scheme, s[1..]);
      assert [s[0]] + s[1..] == s;
    }
  }

  /** `encodeURIComponent('/')` is `%2F`. */
  lemma EncodeSlash()
    ensures EncodeURIComponent("/") == "%2F"
  {
    assert Utf8('/') == [47];
    assert PercentByte(47) == "%2F";
    assert PercentBytes([47]) == "%2F";
  }
}
