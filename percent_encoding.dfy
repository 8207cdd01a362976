/** `encodeURIComponent` as the calendar link uses it: the characters of
    section 2.3 of RFC 3986 that ECMAScript leaves alone (letters, digits and
    `- _ . ! ~ * ' ( )`) pass through, and every other code point becomes the
    percent-encoded octets of its UTF-8 form, with upper-case hexadecimal
    digits (section 2.1 of RFC 3986). The partner is a decoder: octets back
    from the percent escapes, then code points back from UTF-8. */
module PercentEncoding {
  import opened Wrappers

  /** The characters `encodeURIComponent` does not escape. */
  predicate IsUnreserved(c: char)
  {
    ('A' <= c <= 'Z') || ('a' <= c <= 'z') || ('0' <= c <= '9')
    || c == '-' || c == '_' || c == '.' || c == '!' || c == '~' || c == '*'
    || c == '\'' || c == '(' || c == ')'
  }

  predicate IsUpperHex(c: char)
  {
    ('0' <= c <= '9') || ('A' <= c <= 'F')
  }

  function HexChar(n: int): (c: char)
    requires 0 <= n < 16
    ensures IsUpperHex(c) && IsUnreserved(c)
  {
    if n < 10 then ('0' as int + n) as char else ('A' as int + n - 10) as char
  }

  function HexValue(c: char): (n: int)
    ensures IsUpperHex(c) ==> 0 <= n < 16
  {
    if '0' <= c <= '9' then c as int - '0' as int
    else if 'A' <= c <= 'F' then c as int - 'A' as int + 10
    else 0
  }

  lemma HexRoundTrip(n: int)
    requires 0 <= n < 16
    ensures HexValue(HexChar(n)) == n
  {
  }

  predicate IsByte(b: int) { 0 <= b < 256 }

  predicate AllBytes(bs: seq<int>) { forall i :: 0 <= i < |bs| ==> IsByte(bs[i]) }

  /** A Unicode scalar value: what a Dafny `char` holds. */
  predicate IsScalar(v: int)
  {
    (0 <= v < 0xD800) || (0xE000 <= v < 0x11_0000)
  }

  /** The UTF-8 encoding of one code point: one octet below 0x80, two below
      0x800, three below 0x10000, four otherwise. */
  function Utf8(c: char): (bs: seq<int>)
    ensures 1 <= |bs| <= 4 && AllBytes(bs)
    ensures |bs| == 1 <==> c as int < 0x80
    ensures |bs| == 1 ==> bs[0] == c as int
  {
    var v := c as int;
    if v < 0x80 then [v]
    else if v < 0x800 then [0xC0 + v / 64, 0x80 + v % 64]
    else if v < 0x1_0000 then [0xE0 + v / 4096, 0x80 + (v / 64) % 64, 0x80 + v % 64]
    else [0xF0 + v / 262144, 0x80 + (v / 4096) % 64, 0x80 + (v / 64) % 64, 0x80 + v % 64]
  }

  /** `%XY` for one octet. */
  function PercentOctet(b: int): (t: string)
    requires IsByte(b)
    ensures |t| == 3 && t[0] == '%' && IsUpperHex(t[1]) && IsUpperHex(t[2])
  {
    ['%', HexChar(b / 16), HexChar(b % 16)]
  }

  function PercentOctets(bs: seq<int>): (t: string)
    requires AllBytes(bs)
    ensures |t| == 3 * |bs|
    ensures forall k :: 0 <= k < |t| ==> t[k] == '%' || IsUnreserved(t[k])
  {
    if bs == [] then [] else PercentOctet(bs[0]) + PercentOctets(bs[1..])
  }

  function EncodeChar(c: char): string
  {
    if IsUnreserved(c) then [c] else PercentOctets(Utf8(c))
  }

  /** `encodeURIComponent(s)`. Every Dafny string is a sequence of scalar
      values, so the `URIError` for a lone surrogate cannot arise here. */
  function EncodeURIComponent(s: string): (t: string)
    ensures |s| <= |t|
    ensures forall k :: 0 <= k < |t| ==> t[k] == '%' || IsUnreserved(t[k])
  {
    if s == [] then []
    else
      var head := EncodeChar(s[0]);
      assert forall k :: 0 <= k < |head| ==> head[k] == '%' || IsUnreserved(head[k]);
      head + EncodeURIComponent(s[1..])
  }

  /** The encoded text never holds a character that delimits URL parts or
      query parameters: no `&`, `=`, `?`, `#`, `/`, `:` and no space. */
  lemma EncodedHasNoDelimiters(s: string)
    ensures var t := EncodeURIComponent(s);
            '&' !in t && '=' !in t && '?' !in t && '#' !in t && '/' !in t && ':' !in t && ' ' !in t
  {
    var t := EncodeURIComponent(s);
    forall c | c in t
      ensures c != '&' && c != '=' && c != '?' && c != '#' && c != '/' && c != ':' && c != ' '
    {
      var k :| 0 <= k < |t| && t[k] == c;
      assert t[k] == '%' || IsUnreserved(t[k]);
    }
  }

  /** Octets back from an encoded string: an unreserved character stands for
      its own code, `%XY` for the octet XY; anything else is malformed. */
  function PercentDecode(t: string): Option<seq<int>>
    decreases |t|
  {
    if t == [] then Some([])
    else if t[0] == '%' then
      if |t| < 3 || !IsUpperHex(t[1]) || !IsUpperHex(t[2]) then None
      else
        match PercentDecode(t[3..])
        case None => None
        case Some(rest) => Some([HexValue(t[1]) * 16 + HexValue(t[2])] + rest)
    else if IsUnreserved(t[0]) then
      match PercentDecode(t[1..])
      case None => None
      case Some(rest) => Some([t[0] as int] + rest)
    else None
  }

  predicate IsContinuation(b: int) { 0x80 <= b < 0xC0 }

  /** The first code point of a UTF-8 octet string and how many octets it took. */
  function Utf8DecodeFirst(bs: seq<int>): Option<(char, nat)>
  {
    if bs == [] then None
    else
      var b0 := bs[0];
      if 0 <= b0 < 0x80 then Some((b0 as char, 1))
      else if 0xC0 <= b0 < 0xE0 && |bs| >= 2 && IsContinuation(bs[1]) then
        var v := (b0 - 0xC0) * 64 + (bs[1] - 0x80);
        if IsScalar(v) then Some((v as char, 2)) else None
      else if 0xE0 <= b0 < 0xF0 && |bs| >= 3 && IsContinuation(bs[1]) && IsContinuation(bs[2]) then
        var v := (b0 - 0xE0) * 4096 + (bs[1] - 0x80) * 64 + (bs[2] - 0x80);
        if IsScalar(v) then Some((v as char, 3)) else None
      else if 0xF0 <= b0 < 0xF8 && |bs| >= 4 && IsContinuation(bs[1]) && IsContinuation(bs[2])
              && IsContinuation(bs[3]) then
        var v := (b0 - 0xF0) * 262144 + (bs[1] - 0x80) * 4096 + (bs[2] - 0x80) * 64 + (bs[3] - 0x80);
        if IsScalar(v) then Some((v as char, 4)) else None
      else None
  }

  /** A whole UTF-8 octet string back into code points. */
  function Utf8Decode(bs: seq<int>): Option<string>
    decreases |bs|
  {
    if bs == [] then Some([])
    else
      match Utf8DecodeFirst(bs)
      case None => None
      case Some(first) =>
        if first.1 == 0 || first.1 > |bs| then None
        else
          match Utf8Decode(bs[first.1..])
          case None => None
          case Some(rest) => Some([first.0] + rest)
  }

  /** `decodeURIComponent` on well-formed input: octets, then code points. */
  function DecodeURIComponent(t: string): Option<string>
  {
    match PercentDecode(t)
    case None => None
    case Some(bs) => Utf8Decode(bs)
  }

  /** The UTF-8 form of a string: the octets of each code point in order. */
  function Utf8String(s: string): (bs: seq<int>)
    ensures AllBytes(bs)
  {
    if s == [] then [] else Utf8(s[0]) + Utf8String(s[1..])
  }

  lemma {:induction false} PercentOctetsDecode(bs: seq<int>, rest: string, tail: seq<int>)
    requires AllBytes(bs)
    requires PercentDecode(rest) == Some(tail)
    ensures PercentDecode(PercentOctets(bs) + rest) == Some(bs + tail)
    decreases |bs|
  {
    if bs != [] {
      var b := bs[0];
      var t := PercentOctets(bs) + rest;
      var more := PercentOctets(bs[1..]) + rest;
      assert t == PercentOctet(b) + more;
      PercentOctetsDecode(bs[1..], rest, tail);
      HexRoundTrip(b / 16);
      HexRoundTrip(b % 16);
      assert t[0] == '%' && t[1] == HexChar(b / 16) && t[2] == HexChar(b % 16);
      assert t[3..] == more;
      assert HexValue(t[1]) * 16 + HexValue(t[2]) == b;
      assert PercentDecode(t) == Some([b] + (bs[1..] + tail));
      assert bs + tail == [b] + (bs[1..] + tail);
    } else {
      assert PercentOctets(bs) + rest == rest && bs + tail == tail;
    }
  }

  /** Percent-decoding the encoding of a string gives its UTF-8 octets. */
  lemma {:induction false} PercentDecodeOfEncode(s: string)
    ensures PercentDecode(EncodeURIComponent(s)) == Some(Utf8String(s))
    decreases |s|
  {
    if s != [] {
      var c := s[0];
      var rest := EncodeURIComponent(s[1..]);
      PercentDecodeOfEncode(s[1..]);
      assert EncodeURIComponent(s) == EncodeChar(c) + rest;
      if IsUnreserved(c) {
        assert (EncodeChar(c) + rest)[1..] == rest;
        assert Utf8(c) == [c as int];
      } else {
        PercentOctetsDecode(Utf8(c), rest, Utf8String(s[1..]));
      }
    }
  }

  lemma DecodeFirstOfUtf8(c: char, rest: seq<int>)
    ensures Utf8DecodeFirst(Utf8(c) + rest) == Some((c, |Utf8(c)|))
  {
    var v := c as int;
    var bs := Utf8(c) + rest;
    if v < 0x80 {
    } else if v < 0x800 {
      assert v == (v / 64) * 64 + v % 64;
      assert bs[0] == 0xC0 + v / 64 && bs[1] == 0x80 + v % 64;
    } else if v < 0x1_0000 {
      Split3(v);
      assert bs[0] == 0xE0 + v / 4096 && bs[1] == 0x80 + (v / 64) % 64 && bs[2] == 0x80 + v % 64;
    } else {
      Split4(v);
      assert bs[0] == 0xF0 + v / 262144 && bs[1] == 0x80 + (v / 4096) % 64;
      assert bs[2] == 0x80 + (v / 64) % 64 && bs[3] == 0x80 + v % 64;
    }
  }

  lemma Split3(v: int)
    requires 0x800 <= v < 0x1_0000
    ensures v == (v / 4096) * 4096 + ((v / 64) % 64) * 64 + v % 64
    ensures 0 <= v / 4096 < 16
  {
    var q := v / 64;
    assert v == q * 64 + v % 64;
    assert q == (q / 64) * 64 + q % 64;
    assert q / 64 == v / 4096;
  }

  lemma Split4(v: int)
    requires 0x1_0000 <= v < 0x11_0000
    ensures v == (v / 262144) * 262144 + ((v / 4096) % 64) * 4096 + ((v / 64) % 64) * 64 + v % 64
    ensures 0 <= v / 262144 < 5
  {
    var q := v / 64;
    var p := q / 64;
    assert v == q * 64 + v % 64;
    assert q == p * 64 + q % 64;
    assert p == (p / 64) * 64 + p % 64;
    assert p == v / 4096;
    assert p / 64 == v / 262144;
  }

  /** UTF-8 decoding undoes UTF-8 encoding. */
  lemma {:induction false} Utf8RoundTrip(s: string)
    ensures Utf8Decode(Utf8String(s)) == Some(s)
    decreases |s|
  {
    if s != [] {
      var bs := Utf8String(s);
      var head := Utf8(s[0]);
      assert bs == head + Utf8String(s[1..]);
      DecodeFirstOfUtf8(s[0], Utf8String(s[1..]));
      assert bs[|head|..] == Utf8String(s[1..]);
      Utf8RoundTrip(s[1..]);
      assert s == [s[0]] + s[1..];
    }
  }

  /** Decoding undoes `encodeURIComponent` for every string. */
  lemma EncodeRoundTrip(s: string)
    ensures DecodeURIComponent(EncodeURIComponent(s)) == Some(s)
  {
    PercentDecodeOfEncode(s);
    Utf8RoundTrip(s);
  }

  /** Strings made only of unreserved characters are left as they are. */
  lemma {:induction false} EncodeKeepsUnreserved(s: string)
    requires forall k :: 0 <= k < |s| ==> IsUnreserved(s[k])
    ensures EncodeURIComponent(s) == s
    decreases |s|
  {
    if s != [] {
      EncodeKeepsUnreserved(s[1..]);
      assert s == [s[0]] + s[1..];
    }
  }
}
