/** How the front end puts text into request URLs.

    `encodeURIComponent` (ECMAScript, section 19.2.6.5) writes the UTF-8 bytes of
    a string, keeping the letters, digits and `- _ . ! ~ * ' ( )` and writing
    every other byte as `%` and two upper-case hexadecimal digits.
    `URLSearchParams` serialises name/value pairs in the
    application/x-www-form-urlencoded format of the WHATWG URL standard: the
    same scheme with a smaller safe set (letters, digits, `* - . _`), a space
    written as `+`, and pairs joined as `name=value` with `&`.

    The partner of both is a strict decoder (percent-decoding, then UTF-8
    decoding); the lemmas show that decoding what was encoded gives back the
    original text and pairs. */
module UriEncoding {
  import opened Common

  // ---------------------------------------------------------------- UTF-8

  function Utf8Char(c: char): (bs: seq<byte>)
    ensures 1 <= |bs| <= 4
  {
    var n := c as int;
    if n < 0x80 then [n as byte]
    else if n < 0x800 then [(0xC0 + n / 64) as byte, (0x80 + n % 64) as byte]
    else if n < 0x10000 then
      [(0xE0 + n / 4096) as byte, (0x80 + (n / 64) % 64) as byte, (0x80 + n % 64) as byte]
    else
      [(0xF0 + n / 262144) as byte, (0x80 + (n / 4096) % 64) as byte,
       (0x80 + (n / 64) % 64) as byte, (0x80 + n % 64) as byte]
  }

  function Utf8(s: string): (bs: seq<byte>)
    ensures |bs| >= |s|
  {
    if |s| == 0 then [] else Utf8Char(s[0]) + Utf8(s[1..])
  }

  predicate Continuation(b: byte) {
    0x80 <= b < 0xC0
  }

  predicate ScalarValue(n: int) {
    0 <= n < 0xD800 || 0xE000 <= n < 0x110000
  }

  /** The first character of `bs` and the bytes after it; `None` for a
      malformed, overlong or surrogate sequence. */
  function DecodeChar(bs: seq<byte>): (r: Option<(char, seq<byte>)>)
    requires |bs| > 0
    ensures r.Some? ==> |r.value.1| < |bs|
  {
    var b0 := bs[0] as int;
    if b0 < 0x80 then Some((b0 as char, bs[1..]))
    else if 0xC2 <= b0 < 0xE0 && |bs| >= 2 && Continuation(bs[1]) then
      var n := (b0 - 0xC0) * 64 + (bs[1] as int - 0x80);
      Some((n as char, bs[2..]))
    else if 0xE0 <= b0 < 0xF0 && |bs| >= 3 && Continuation(bs[1]) && Continuation(bs[2]) then
      var n := (b0 - 0xE0) * 4096 + (bs[1] as int - 0x80) * 64 + (bs[2] as int - 0x80);
      if 0x800 <= n && ScalarValue(n) then Some((n as char, bs[3..])) else None
    else if 0xF0 <= b0 < 0xF5 && |bs| >= 4 && Continuation(bs[1]) && Continuation(bs[2])
            && Continuation(bs[3]) then
      var n := (b0 - 0xF0) * 262144 + (bs[1] as int - 0x80) * 4096
               + (bs[2] as int - 0x80) * 64 + (bs[3] as int - 0x80);
      if 0x10000 <= n < 0x110000 then Some((n as char, bs[4..])) else None
    else None
  }

  function DecodeUtf8(bs: seq<byte>): Option<string>
    decreases |bs|
  {
    if |bs| == 0 then Some("")
    else
      match DecodeChar(bs)
      case None => None
      case Some(p) =>
        match DecodeUtf8(p.1)
        case None => None
        case Some(rest) => Some([p.0] + rest)
  }

  lemma Utf8CharRoundTrip(c: char, rest: seq<byte>)
    ensures DecodeChar(Utf8Char(c) + rest) == Some((c, rest))
  {
    var n := c as int;
    if n < 0x80 {
      assert (Utf8Char(c) + rest)[1..] == rest;
    } else if n < 0x800 {
      TwoByteRoundTrip(c, rest);
    } else if n < 0x10000 {
      ThreeByteRoundTrip(c, rest);
    } else {
      FourByteRoundTrip(c, rest);
    }
  }

  lemma TwoByteRoundTrip(c: char, rest: seq<byte>)
    requires 0x80 <= c as int < 0x800
    ensures DecodeChar(Utf8Char(c) + rest) == Some((c, rest))
  {
    var n := c as int;
    var bs := Utf8Char(c) + rest;
    assert bs[0] as int == 0xC0 + n / 64 && bs[1] as int == 0x80 + n % 64;
    assert (n / 64) * 64 + n % 64 == n;
    assert bs[2..] == rest;
  }

  lemma ThreeByteRoundTrip(c: char, rest: seq<byte>)
    requires 0x800 <= c as int < 0x10000
    ensures DecodeChar(Utf8Char(c) + rest) == Some((c, rest))
  {
    var n := c as int;
    var bs := Utf8Char(c) + rest;
    assert bs[0] as int == 0xE0 + n / 4096;
    assert bs[1] as int == 0x80 + (n / 64) % 64 && bs[2] as int == 0x80 + n % 64;
    assert (n / 4096) * 4096 + ((n / 64) % 64) * 64 + n % 64 == n;
    assert bs[3..] == rest;
  }

  lemma FourByteRoundTrip(c: char, rest: seq<byte>)
    requires 0x10000 <= c as int
    ensures DecodeChar(Utf8Char(c) + rest) == Some((c, rest))
  {
    var n := c as int;
    var bs := Utf8Char(c) + rest;
    assert n < 0x110000;
    FourByteDigits(n);
    assert bs[0] as int == 0xF0 + n / 262144;
    assert bs[1] as int == 0x80 + (n / 4096) % 64;
    assert bs[2] as int == 0x80 + (n / 64) % 64 && bs[3] as int == 0x80 + n % 64;
    assert bs[4..] == rest;
  }

  /** The four digits of a supplementary code point in base 64 (the leading
      one at most 4) put it back together. */
  lemma FourByteDigits(n: int)
    requires 0x10000 <= n < 0x110000
    ensures n / 262144 <= 4
    ensures (n / 262144) * 262144 + ((n / 4096) % 64) * 4096 + ((n / 64) % 64) * 64 + n % 64 == n
  {
    var q1 := n / 64;
    var q2 := q1 / 64;
    assert n == q1 * 64 + n % 64;
    assert q1 == q2 * 64 + q1 % 64;
    assert q2 == n / 4096;
    assert q2 == (q2 / 64) * 64 + q2 % 64;
    assert q2 / 64 == n / 262144;
  }

  lemma {:induction false} Utf8RoundTrip(s: string)
    ensures DecodeUtf8(Utf8(s)) == Some(s)
    decreases |s|
  {
    if |s| > 0 {
      Utf8CharRoundTrip(s[0], Utf8(s[1..]));
      Utf8RoundTrip(s[1..]);
      assert [s[0]] + s[1..] == s;
    }
  }

  // ---------------------------------------------------------------- percent-encoding

  /** Bytes `encodeURIComponent` leaves as they are. */
  predicate UriUnreserved(b: byte) {
    || 0x41 <= b <= 0x5A || 0x61 <= b <= 0x7A || 0x30 <= b <= 0x39
    || b == 0x2D || b == 0x5F || b == 0x2E || b == 0x21 || b == 0x7E
    || b == 0x2A || b == 0x27 || b == 0x28 || b == 0x29
  }

  /** Bytes the form-urlencoded serialiser leaves as they are. */
  predicate FormUnreserved(b: byte) {
    || 0x41 <= b <= 0x5A || 0x61 <= b <= 0x7A || 0x30 <= b <= 0x39
    || b == 0x2A || b == 0x2D || b == 0x2E || b == 0x5F
  }

  /** Which of the two schemes: `form` is the form-urlencoded one. */
  predicate Kept(b: byte, form: bool) {
    if form then FormUnreserved(b) else UriUnreserved(b)
  }

  function HexDigit(d: int): (c: char)
    requires 0 <= d < 16
  {
    if d < 10 then ('0' as int + d) as char else ('A' as int + d - 10) as char
  }

  /** Value of a hexadecimal digit of either case. */
  function HexValue(c: char): (r: Option<int>)
    ensures r.Some? ==> 0 <= r.value < 16
  {
    if '0' <= c <= '9' then Some(c as int - '0' as int)
    else if 'A' <= c <= 'F' then Some(c as int - 'A' as int + 10)
    else if 'a' <= c <= 'f' then Some(c as int - 'a' as int + 10)
    else None
  }

  function EncodeByte(b: byte, form: bool): (r: string)
    ensures 1 <= |r| <= 3
  {
    if form && b == 0x20 then "+"
    else if Kept(b, form) then [b as int as char]
    else ['%', HexDigit(b as int / 16), HexDigit(b as int % 16)]
  }

  function EncodeBytes(bs: seq<byte>, form: bool): string {
    if |bs| == 0 then "" else EncodeByte(bs[0], form) + EncodeBytes(bs[1..], form)
  }

  function EncodeUriComponent(s: string): string {
    EncodeBytes(Utf8(s), false)
  }

  function FormEncode(s: string): string {
    EncodeBytes(Utf8(s), true)
  }

  /** Percent-decoding: `%` and two hexadecimal digits give one byte, `+` gives a
      space in form decoding, any other character gives its UTF-8 bytes. */
  function DecodeBytes(s: string, form: bool): Option<seq<byte>>
    decreases |s|
  {
    if |s| == 0 then Some([])
    else if s[0] == '%' then
      if |s| >= 3 && HexValue(s[1]).Some? && HexValue(s[2]).Some? then
        var b := (HexValue(s[1]).value * 16 + HexValue(s[2]).value) as byte;
        match DecodeBytes(s[3..], form)
        case None => None
        case Some(rest) => Some([b] + rest)
      else None
    else
      var first := if form && s[0] == '+' then [0x20 as byte] else Utf8Char(s[0]);
      match DecodeBytes(s[1..], form)
      case None => None
      case Some(rest) => Some(first + rest)
  }

  function DecodeUriComponent(s: string): Option<string> {
    match DecodeBytes(s, false)
    case None => None
    case Some(bs) => DecodeUtf8(bs)
  }

  function FormDecode(s: string): Option<string> {
    match DecodeBytes(s, true)
    case None => None
    case Some(bs) => DecodeUtf8(bs)
  }

  lemma HexRoundTrip(d: int)
    requires 0 <= d < 16
    ensures HexValue(HexDigit(d)) == Some(d)
  {
  }

  lemma EncodeByteRoundTrip(b: byte, form: bool, rest: string)
    ensures DecodeBytes(EncodeByte(b, form) + rest, form) == match DecodeBytes(rest, form)
      case None => None
      case Some(r) => Some([b] + r)
  {
    var s := EncodeByte(b, form) + rest;
    if form && b == 0x20 {
      assert s[0] == '+' && s[1..] == rest;
    } else if Kept(b, form) {
      assert s[0] == b as int as char && s[1..] == rest;
      assert Utf8Char(s[0]) == [b];
    } else {
      HexRoundTrip(b as int / 16);
      HexRoundTrip(b as int % 16);
      assert s[0] == '%' && s[3..] == rest;
    }
  }

  lemma {:induction false} EncodeBytesRoundTrip(bs: seq<byte>, form: bool)
    ensures DecodeBytes(EncodeBytes(bs, form), form) == Some(bs)
    decreases |bs|
  {
    if |bs| > 0 {
      EncodeBytesRoundTrip(bs[1..], form);
      EncodeByteRoundTrip(bs[0], form, EncodeBytes(bs[1..], form));
      assert [bs[0]] + bs[1..] == bs;
    }
  }

  /** `decodeURIComponent` undoes `encodeURIComponent`. */
  lemma UriComponentRoundTrip(s: string)
    ensures DecodeUriComponent(EncodeUriComponent(s)) == Some(s)
  {
    EncodeBytesRoundTrip(Utf8(s), false);
    Utf8RoundTrip(s);
  }

  lemma FormRoundTrip(s: string)
    ensures FormDecode(FormEncode(s)) == Some(s)
  {
    EncodeBytesRoundTrip(Utf8(s), true);
    Utf8RoundTrip(s);
  }

  /** Encoded text never holds the characters that delimit a query string. */
  lemma {:induction false} EncodedHasNoDelimiters(bs: seq<byte>, form: bool)
    ensures '&' !in EncodeBytes(bs, form) && '=' !in EncodeBytes(bs, form)
    ensures '#' !in EncodeBytes(bs, form)
    decreases |bs|
  {
    if |bs| > 0 {
      EncodedHasNoDelimiters(bs[1..], form);
      var e := EncodeByte(bs[0], form);
      assert '&' !in e && '=' !in e && '#' !in e;
    }
  }

  // ---------------------------------------------------------------- query strings

  /** Splits at every occurrence of `c`. */
  function SplitAt(s: string, c: char): (parts: seq<string>)
    ensures |parts| >= 1
    decreases |s|
  {
    if |s| == 0 then [""]
    else if s[0] == c then [""] + SplitAt(s[1..], c)
    else
      var rest := SplitAt(s[1..], c);
      [[s[0]] + rest[0]] + rest[1..]
  }

  function JoinWith(parts: seq<string>, c: char): string {
    if |parts| == 0 then ""
    else if |parts| == 1 then parts[0]
    else parts[0] + [c] + JoinWith(parts[1..], c)
  }

  lemma {:induction false} SplitPrefix(a: string, c: char, t: string)
    requires c !in a
    requires |t| == 0 || t[0] == c
    ensures SplitAt(a + t, c) == [a + SplitAt(t, c)[0]] + SplitAt(t, c)[1..]
    decreases |a|
  {
    if |a| == 0 {
      assert a + t == t;
    } else {
      assert a[0] in a;
      assert c !in a[1..] by {
        forall x | x in a[1..] ensures x in a { }
      }
      SplitPrefix(a[1..], c, t);
      assert (a + t)[1..] == a[1..] + t;
      assert [a[0]] + (a[1..] + SplitAt(t, c)[0]) == a + SplitAt(t, c)[0];
    }
  }

  lemma {:induction false} SplitJoin(parts: seq<string>, c: char)
    requires |parts| >= 1
    requires forall i :: 0 <= i < |parts| ==> c !in parts[i]
    ensures SplitAt(JoinWith(parts, c), c) == parts
    decreases |parts|
  {
    if |parts| == 1 {
      SplitPrefix(parts[0], c, "");
      assert parts[0] + "" == parts[0];
    } else {
      var t := [c] + JoinWith(parts[1..], c);
      SplitJoin(parts[1..], c);
      assert t[1..] == JoinWith(parts[1..], c);
      assert SplitAt(t, c) == [""] + parts[1..];
      SplitPrefix(parts[0], c, t);
      assert JoinWith(parts, c) == parts[0] + t;
      assert parts[0] + "" == parts[0];
    }
  }

  function EncodePair(p: (string, string)): (r: string) {
    FormEncode(p.0) + "=" + FormEncode(p.1)
  }

  function EncodePairs(pairs: seq<(string, string)>): (r: seq<string>)
    ensures |r| == |pairs|
    ensures forall i :: 0 <= i < |pairs| ==> r[i] == EncodePair(pairs[i])
  {
    if |pairs| == 0 then [] else [EncodePair(pairs[0])] + EncodePairs(pairs[1..])
  }

  /** `URLSearchParams.toString()`. */
  function SearchParams(pairs: seq<(string, string)>): string {
    JoinWith(EncodePairs(pairs), '&')
  }

  function DecodePair(s: string): Option<(string, string)> {
    var kv := SplitAt(s, '=');
    if |kv| != 2 then None
    else
      match (FormDecode(kv[0]), FormDecode(kv[1]))
      case (Some(k), Some(v)) => Some((k, v))
      case _ => None
  }

  function DecodePairs(parts: seq<string>): Option<seq<(string, string)>> {
    if |parts| == 0 then Some([])
    else
      match (DecodePair(parts[0]), DecodePairs(parts[1..]))
      case (Some(p), Some(rest)) => Some([p] + rest)
      case _ => None
  }

  /** Strict reading of a query string produced by `SearchParams`. */
  function ParseSearchParams(q: string): Option<seq<(string, string)>> {
    if |q| == 0 then Some([]) else DecodePairs(SplitAt(q, '&'))
  }

  lemma PairRoundTrip(p: (string, string))
    ensures DecodePair(EncodePair(p)) == Some(p)
  {
    var k, v := FormEncode(p.0), FormEncode(p.1);
    EncodedHasNoDelimiters(Utf8(p.0), true);
    EncodedHasNoDelimiters(Utf8(p.1), true);
    SplitJoin([k, v], '=');
    assert JoinWith([k, v], '=') == EncodePair(p);
    FormRoundTrip(p.0);
    FormRoundTrip(p.1);
  }

  lemma {:induction false} PairsRoundTrip(pairs: seq<(string, string)>)
    ensures DecodePairs(EncodePairs(pairs)) == Some(pairs)
    decreases |pairs|
  {
    if |pairs| > 0 {
      var enc := EncodePairs(pairs);
      assert DecodePair(enc[0]) == Some(pairs[0]) by {
        PairRoundTrip(pairs[0]);
      }
      assert DecodePairs(enc[1..]) == Some(pairs[1..]) by {
        PairsRoundTrip(pairs[1..]);
        assert enc[1..] == EncodePairs(pairs[1..]);
      }
      DecodePairsStep(enc, pairs[0], pairs[1..]);
      assert [pairs[0]] + pairs[1..] == pairs;
    }
  }

  lemma DecodePairsStep(parts: seq<string>, p: (string, string), ps: seq<(string, string)>)
    requires |parts| > 0 && DecodePair(parts[0]) == Some(p) && DecodePairs(parts[1..]) == Some(ps)
    ensures DecodePairs(parts) == Some([p] + ps)
  {
  }

  /** Reading back the serialised parameters gives the pairs, in order. */
  lemma SearchParamsRoundTrip(pairs: seq<(string, string)>)
    ensures ParseSearchParams(SearchParams(pairs)) == Some(pairs)
  {
    var enc := EncodePairs(pairs);
    if |pairs| > 0 {
      forall i | 0 <= i < |enc| ensures '&' !in enc[i] {
        EncodedHasNoDelimiters(Utf8(pairs[i].0), true);
        EncodedHasNoDelimiters(Utf8(pairs[i].1), true);
      }
      SplitJoin(enc, '&');
      assert |enc[0]| > 0 by { assert '=' in enc[0]; }
      assert |SearchParams(pairs)| > 0 by {
        if |enc| > 1 { assert |SearchParams(pairs)| >= |enc[0]|; }
      }
      PairsRoundTrip(pairs);
    }
  }
}
