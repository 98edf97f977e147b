/** Base64 as a browser's `atob` reads it (the "forgiving-base64 decode" of the
    WHATWG Infra standard) and as a canvas writes it into a data URL (RFC 4648,
    section 4, with padding). The enrollment form turns captured data URLs back
    into bytes with `atob`; the round-trip lemma at the end says that it gets
    back exactly the bytes the canvas encoded. */
module Base64 {
  import opened Common

  // ---------------------------------------------------------------- alphabet

  /** The character for a 6-bit value: A-Z, a-z, 0-9, '+', '/'. */
  function SextetChar(v: int): (c: char)
    requires 0 <= v < 64
  {
    if v < 26 then ('A' as int + v) as char
    else if v < 52 then ('a' as int + (v - 26)) as char
    else if v < 62 then ('0' as int + (v - 52)) as char
    else if v == 62 then '+'
    else '/'
  }

  /** The 6-bit value of a character of the alphabet, `None` for any other. */
  function SextetValue(c: char): (r: Option<int>)
    ensures r.Some? ==> 0 <= r.value < 64 && SextetChar(r.value) == c
  {
    if 'A' <= c <= 'Z' then Some(c as int - 'A' as int)
    else if 'a' <= c <= 'z' then Some(c as int - 'a' as int + 26)
    else if '0' <= c <= '9' then Some(c as int - '0' as int + 52)
    else if c == '+' then Some(62)
    else if c == '/' then Some(63)
    else None
  }

  lemma SextetRoundTrip(v: int)
    requires 0 <= v < 64
    ensures SextetValue(SextetChar(v)) == Some(v)
  {
  }

  predicate IsSextets(vs: seq<int>) {
    forall i :: 0 <= i < |vs| ==> 0 <= vs[i] < 64
  }

  function Chars(vs: seq<int>): (s: string)
    requires IsSextets(vs)
    ensures |s| == |vs|
    ensures forall i :: 0 <= i < |vs| ==> s[i] == SextetChar(vs[i])
  {
    seq(|vs|, i requires 0 <= i < |vs| => SextetChar(vs[i]))
  }

  // ---------------------------------------------------------------- encoding

  /** The 6-bit groups of `bs`, with the unused low bits of a final partial
      group set to zero. */
  function EncodeSextets(bs: seq<byte>): (vs: seq<int>)
    ensures IsSextets(vs)
    ensures |vs| % 4 != 1
    ensures |vs| == |bs| / 3 * 4 + (if |bs| % 3 == 0 then 0 else |bs| % 3 + 1)
  {
    if |bs| == 0 then []
    else if |bs| == 1 then
      var b0 := bs[0] as int;
      [b0 / 4, (b0 % 4) * 16]
    else if |bs| == 2 then
      var b0, b1 := bs[0] as int, bs[1] as int;
      [b0 / 4, (b0 % 4) * 16 + b1 / 16, (b1 % 16) * 4]
    else
      var b0, b1, b2 := bs[0] as int, bs[1] as int, bs[2] as int;
      [b0 / 4, (b0 % 4) * 16 + b1 / 16, (b1 % 16) * 4 + b2 / 64, b2 % 64]
      + EncodeSextets(bs[3..])
  }

  /** RFC 4648 encoding with `=` padding to a multiple of four characters. */
  function Encode(bs: seq<byte>): (s: string)
    ensures |s| % 4 == 0
  {
    var vs := EncodeSextets(bs);
    PaddedLength(|vs|);
    Chars(vs) + (if |vs| % 4 == 2 then "==" else if |vs| % 4 == 3 then "=" else "")
  }

  /** Two `=` after a group of two, one after a group of three. */
  lemma PaddedLength(n: nat)
    requires n % 4 != 1
    ensures (n + (if n % 4 == 2 then 2 else if n % 4 == 3 then 1 else 0)) % 4 == 0
  {
  }

  // ---------------------------------------------------------------- decoding

  /** TAB, LF, FF, CR and SPACE. */
  predicate AsciiWhitespace(c: char) {
    c == '\t' || c == '\n' || c == '\U{000C}' || c == '\r' || c == ' '
  }

  function RemoveWhitespace(s: string): (r: string)
    ensures |r| <= |s|
    ensures forall i :: 0 <= i < |r| ==> !AsciiWhitespace(r[i])
    ensures (forall i :: 0 <= i < |s| ==> !AsciiWhitespace(s[i])) ==> r == s
  {
    if |s| == 0 then ""
    else if AsciiWhitespace(s[0]) then RemoveWhitespace(s[1..])
    else [s[0]] + RemoveWhitespace(s[1..])
  }

  /** When the length is a multiple of four, drop one or two trailing `=`. */
  function StripPadding(d: string): (r: string)
    ensures |r| <= |d|
  {
    if |d| % 4 == 0 && EndsWith(d, "==") then d[..|d| - 2]
    else if |d| % 4 == 0 && EndsWith(d, "=") then d[..|d| - 1]
    else d
  }

  function Sextets(d: string): (r: Option<seq<int>>)
    ensures r.Some? ==> IsSextets(r.value) && |r.value| == |d|
    ensures r.None? <==> exists i :: 0 <= i < |d| && SextetValue(d[i]).None?
  {
    if |d| == 0 then Some([])
    else
      match SextetValue(d[0])
      case None => None
      case Some(v) =>
        match Sextets(d[1..])
        case None =>
          assert forall i :: 0 < i < |d| ==> d[i] == d[1..][i - 1];
          None
        case Some(vs) =>
          assert forall i :: 0 < i < |d| ==> d[i] == d[1..][i - 1];
          Some([v] + vs)
  }

  /** Joins 6-bit groups into bytes; a final group of two or three characters
      gives one or two bytes and its leftover bits are dropped. */
  function DecodeSextets(vs: seq<int>): (bs: seq<byte>)
    requires IsSextets(vs)
    requires |vs| % 4 != 1
    ensures |bs| == |vs| / 4 * 3 + (if |vs| % 4 == 0 then 0 else |vs| % 4 - 1)
  {
    if |vs| == 0 then []
    else if |vs| == 2 then
      [(vs[0] * 4 + vs[1] / 16) as byte]
    else if |vs| == 3 then
      [(vs[0] * 4 + vs[1] / 16) as byte, ((vs[1] % 16) * 16 + vs[2] / 4) as byte]
    else
      [(vs[0] * 4 + vs[1] / 16) as byte,
       ((vs[1] % 16) * 16 + vs[2] / 4) as byte,
       ((vs[2] % 4) * 64 + vs[3]) as byte]
      + DecodeSextets(vs[4..])
  }

  /** `atob`: `None` is the `InvalidCharacterError` it throws. */
  function Decode(s: string): (r: Option<seq<byte>>)
    ensures r.Some? ==> |r.value| <= |s|
  {
    var d := StripPadding(RemoveWhitespace(s));
    if |d| % 4 == 1 then None
    else
      match Sextets(d)
      case None => None
      case Some(vs) => Some(DecodeSextets(vs))
  }

  // ---------------------------------------------------------------- lemmas

  /** Decoding rejects input of length 1 modulo 4 once whitespace is removed,
      whatever its characters. */
  lemma DecodeRejectsLengthOneModFour(s: string)
    requires |RemoveWhitespace(s)| % 4 == 1
    ensures Decode(s).None?
  {
  }

  /** In particular, input without whitespace whose length is 1 modulo 4. */
  lemma DecodeRejectsPlainLengthOneModFour(s: string)
    requires |s| % 4 == 1 && forall i :: 0 <= i < |s| ==> !AsciiWhitespace(s[i])
    ensures Decode(s).None?
  {
    assert RemoveWhitespace(s) == s;
    DecodeRejectsLengthOneModFour(s);
  }

  /** Decoding rejects any character outside the alphabet, `=` and
      whitespace. */
  lemma DecodeRejectsForeign(s: string, i: int)
    requires 0 <= i < |s|
    requires !AsciiWhitespace(s[i]) && s[i] != '=' && SextetValue(s[i]).None?
    ensures Decode(s).None?
  {
    var w := RemoveWhitespace(s);
    ForeignSurvivesWhitespace(s, i);
    var j :| 0 <= j < |w| && w[j] == s[i];
    var d := StripPadding(w);
    if |d| % 4 != 1 {
      assert d == w || d == w[..|w| - 1] || d == w[..|w| - 2];
      if d != w {
        assert EndsWith(w, "=");
        assert w[|w| - 1] == '=';
        if d == w[..|w| - 2] {
          assert w[|w| - 2..] == "==";
          assert w[|w| - 2] == '=';
        }
        assert j < |d|;
        assert d[j] == s[i];
      }
      assert SextetValue(d[j]).None?;
    }
  }

  lemma {:induction false} ForeignSurvivesWhitespace(s: string, i: int)
    requires 0 <= i < |s| && !AsciiWhitespace(s[i])
    ensures exists j :: 0 <= j < |RemoveWhitespace(s)| && RemoveWhitespace(s)[j] == s[i]
    decreases |s|
  {
    if i == 0 {
      assert RemoveWhitespace(s)[0] == s[0];
    } else {
      ForeignSurvivesWhitespace(s[1..], i - 1);
      var r := RemoveWhitespace(s[1..]);
      var j :| 0 <= j < |r| && r[j] == s[1..][i - 1];
      if AsciiWhitespace(s[0]) {
        assert RemoveWhitespace(s)[j] == s[i];
      } else {
        assert RemoveWhitespace(s)[j + 1] == s[i];
      }
    }
  }

  lemma {:induction false} SextetsOfChars(vs: seq<int>)
    requires IsSextets(vs)
    ensures Sextets(Chars(vs)) == Some(vs)
    decreases |vs|
  {
    if |vs| > 0 {
      SextetRoundTrip(vs[0]);
      SextetsOfChars(vs[1..]);
      assert Chars(vs)[1..] == Chars(vs[1..]);
      assert [vs[0]] + vs[1..] == vs;
    }
  }

  /** Three bytes survive their split into four 6-bit groups. */
  lemma GroupRoundTrip(b0: int, b1: int, b2: int)
    requires 0 <= b0 < 256 && 0 <= b1 < 256 && 0 <= b2 < 256
    ensures b0 / 4 * 4 + ((b0 % 4) * 16 + b1 / 16) / 16 == b0
    ensures (((b0 % 4) * 16 + b1 / 16) % 16) * 16 + ((b1 % 16) * 4 + b2 / 64) / 4 == b1
    ensures (((b1 % 16) * 4 + b2 / 64) % 4) * 64 + b2 % 64 == b2
  {
  }

  lemma {:induction false} DecodeEncodeSextets(bs: seq<byte>)
    ensures DecodeSextets(EncodeSextets(bs)) == bs
    decreases |bs|
  {
    if |bs| == 1 {
      DecodeOneByte(bs[0]);
      assert [bs[0]] == bs;
    } else if |bs| == 2 {
      DecodeTwoBytes(bs[0], bs[1]);
      assert [bs[0], bs[1]] == bs;
    } else if |bs| >= 3 {
      var rest := EncodeSextets(bs[3..]);
      assert DecodeSextets(rest) == bs[3..] by {
        DecodeEncodeSextets(bs[3..]);
      }
      DecodeGroup(bs[0], bs[1], bs[2], rest);
      assert [bs[0], bs[1], bs[2]] + bs[3..] == bs;
    }
  }

  lemma DecodeOneByte(b0: byte)
    ensures DecodeSextets(EncodeSextets([b0])) == [b0]
  {
    var x0 := b0 as int;
    GroupRoundTrip(x0, 0, 0);
    assert EncodeSextets([b0]) == [x0 / 4, (x0 % 4) * 16];
    assert x0 / 4 * 4 + (x0 % 4) * 16 / 16 == x0;
  }

  lemma DecodeTwoBytes(b0: byte, b1: byte)
    ensures DecodeSextets(EncodeSextets([b0, b1])) == [b0, b1]
  {
    var x0, x1 := b0 as int, b1 as int;
    GroupRoundTrip(x0, x1, 0);
    var vs := [x0 / 4, (x0 % 4) * 16 + x1 / 16, (x1 % 16) * 4];
    assert EncodeSextets([b0, b1]) == vs;
    assert vs[0] * 4 + vs[1] / 16 == x0;
    assert (vs[1] % 16) * 16 + vs[2] / 4 == x1;
  }

  /** Three bytes encoded as four 6-bit values decode back in front of
      whatever follows. */
  lemma DecodeGroup(b0: byte, b1: byte, b2: byte, rest: seq<int>)
    requires IsSextets(rest) && |rest| % 4 != 1
    ensures var x0, x1, x2 := b0 as int, b1 as int, b2 as int;
      var g := [x0 / 4, (x0 % 4) * 16 + x1 / 16, (x1 % 16) * 4 + x2 / 64, x2 % 64];
      IsSextets(g + rest) && |g + rest| % 4 != 1
      && DecodeSextets(g + rest) == [b0, b1, b2] + DecodeSextets(rest)
  {
    var x0, x1, x2 := b0 as int, b1 as int, b2 as int;
    var g := [x0 / 4, (x0 % 4) * 16 + x1 / 16, (x1 % 16) * 4 + x2 / 64, x2 % 64];
    var vs := g + rest;
    GroupRoundTrip(x0, x1, x2);
    assert vs[..4] == g && vs[4..] == rest;
    assert IsSextets(vs) by {
      forall i | 0 <= i < |vs| ensures 0 <= vs[i] < 64 {
        if i >= 4 {
          assert vs[i] == rest[i - 4];
        }
      }
    }
  }

  lemma StripEncodedPadding(bs: seq<byte>)
    ensures StripPadding(Encode(bs)) == Chars(EncodeSextets(bs))
  {
    StripPaddedChars(EncodeSextets(bs));
  }

  lemma StripPaddedChars(vs: seq<int>)
    requires IsSextets(vs) && |vs| % 4 != 1
    ensures StripPadding(Chars(vs) + (if |vs| % 4 == 2 then "==" else if |vs| % 4 == 3 then "=" else ""))
         == Chars(vs)
  {
    var c := Chars(vs);
    assert |c| > 0 ==> c[|c| - 1] != '=' by {
      if |c| > 0 {
        assert c[|c| - 1] == SextetChar(vs[|vs| - 1]);
      }
    }
    if |vs| % 4 == 2 {
      StripTwo(c);
    } else if |vs| % 4 == 3 {
      StripOne(c);
    } else {
      assert c + "" == c;
      StripNone(c);
    }
  }

  lemma StripTwo(c: string)
    requires |c + "=="| % 4 == 0
    ensures StripPadding(c + "==") == c
  {
    var e := c + "==";
    assert e[|e| - 2..] == "==";
    assert e[..|e| - 2] == c;
  }

  lemma StripOne(c: string)
    requires |c + "="| % 4 == 0 && |c| > 0 && c[|c| - 1] != '='
    ensures StripPadding(c + "=") == c
  {
    var e := c + "=";
    assert e[|e| - 1..] == "=";
    assert e[|e| - 2..][0] == c[|c| - 1];
    assert e[..|e| - 1] == c;
  }

  lemma StripNone(c: string)
    requires |c| % 4 == 0 && (|c| > 0 ==> c[|c| - 1] != '=')
    ensures StripPadding(c) == c
  {
    if |c| > 0 {
      assert c[|c| - 1..][0] == c[|c| - 1];
      assert |c| >= 2 ==> c[|c| - 2..][1] == c[|c| - 1];
    }
  }

  /** `atob` gives back exactly the bytes that were encoded. */
  lemma DecodeEncode(bs: seq<byte>)
    ensures Decode(Encode(bs)) == Some(bs)
  {
    var vs := EncodeSextets(bs);
    var e := Encode(bs);
    assert forall i :: 0 <= i < |e| ==> !AsciiWhitespace(e[i]);
    StripEncodedPadding(bs);
    SextetsOfChars(vs);
    DecodeEncodeSextets(bs);
  }
}
