/**
 * `btoa`: Base 64 encoding as defined in section 4 of RFC 4648, applied to a
 * string whose characters are all at most U+00FF (each character is one byte).
 * `Decode` inverts `Encode`, which is what makes the encoding injective.
 */
module Base64 {

  /** `btoa` accepts a string only when every character fits in one byte. */
  predicate IsLatin1(s: string) {
    forall i :: 0 <= i < |s| ==> s[i] as int < 256
  }

  /** The character for a 6-bit value: A-Z, a-z, 0-9, '+', '/' (RFC 4648, Table 1). */
  function SextetChar(v: nat): (c: char)
    requires v < 64
  {
    if v < 26 then ('A' as int + v) as char
    else if v < 52 then ('a' as int + v - 26) as char
    else if v < 62 then ('0' as int + v - 52) as char
    else if v == 62 then '+'
    else '/'
  }

  /** The 6-bit value of an alphabet character (0 for anything else). */
  function SextetValue(c: char): (v: nat)
    ensures v < 64
  {
    if 'A' <= c <= 'Z' then c as int - 'A' as int
    else if 'a' <= c <= 'z' then c as int - 'a' as int + 26
    else if '0' <= c <= '9' then c as int - '0' as int + 52
    else if c == '+' then 62
    else if c == '/' then 63
    else 0
  }

  /** The characters Base 64 output is made of: the 64-character alphabet and the pad '='. */
  predicate IsOutputChar(c: char) {
    'A' <= c <= 'Z' || 'a' <= c <= 'z' || '0' <= c <= '9' || c == '+' || c == '/' || c == '='
  }

  lemma SextetRoundTrip(v: nat)
    requires v < 64
    ensures SextetValue(SextetChar(v)) == v
    ensures IsOutputChar(SextetChar(v)) && SextetChar(v) != '='
  {
  }

  /** The four output characters for a full group of three bytes. */
  function EncodeGroup(a: char, b: char, c: char): (r: string)
    requires a as int < 256 && b as int < 256 && c as int < 256
  {
    var x, y, z := a as int, b as int, c as int;
    [SextetChar(x / 4), SextetChar((x % 4) * 16 + y / 16),
     SextetChar((y % 16) * 4 + z / 64), SextetChar(z % 64)]
  }

  /** The padded output for a final single byte. */
  function EncodeOne(a: char): (r: string)
    requires a as int < 256
  {
    var x := a as int;
    [SextetChar(x / 4), SextetChar((x % 4) * 16), '=', '=']
  }

  /** The padded output for a final pair of bytes. */
  function EncodeTwo(a: char, b: char): (r: string)
    requires a as int < 256 && b as int < 256
  {
    var x, y := a as int, b as int;
    [SextetChar(x / 4), SextetChar((x % 4) * 16 + y / 16), SextetChar((y % 16) * 4), '=']
  }

  /** `btoa(s)`: three bytes become four characters; a final one or two bytes are padded with '='. */
  function Encode(s: string): (r: string)
    requires IsLatin1(s)
    ensures |r| == 4 * ((|s| + 2) / 3)
    decreases |s|
  {
    if |s| == 0 then ""
    else if |s| == 1 then EncodeOne(s[0])
    else if |s| == 2 then EncodeTwo(s[0], s[1])
    else EncodeGroup(s[0], s[1], s[2]) + Encode(s[3..])
  }

  /** The output uses only the alphabet and the pad. */
  lemma {:induction false} EncodeAlphabet(s: string)
    requires IsLatin1(s)
    ensures forall i :: 0 <= i < |Encode(s)| ==> IsOutputChar(Encode(s)[i])
    decreases |s|
  {
    if |s| == 1 {
      var x := s[0] as int;
      SextetRoundTrip(x / 4);
      SextetRoundTrip((x % 4) * 16);
    } else if |s| == 2 {
      var x, y := s[0] as int, s[1] as int;
      SextetRoundTrip(x / 4);
      SextetRoundTrip((x % 4) * 16 + y / 16);
      SextetRoundTrip((y % 16) * 4);
    } else if |s| >= 3 {
      var x, y, z := s[0] as int, s[1] as int, s[2] as int;
      SextetRoundTrip(x / 4);
      SextetRoundTrip((x % 4) * 16 + y / 16);
      SextetRoundTrip((y % 16) * 4 + z / 64);
      SextetRoundTrip(z % 64);
      EncodeAlphabet(s[3..]);
      var g := EncodeGroup(s[0], s[1], s[2]);
      assert forall i :: 0 <= i < |Encode(s)| ==> Encode(s)[i] == if i < 4 then g[i] else Encode(s[3..])[i - 4];
    }
  }

  /** The bytes a four-character group stands for, honouring '=' padding. */
  function DecodeGroup(q: string): (r: string)
    requires |q| == 4
  {
    var a, b, c, d := SextetValue(q[0]), SextetValue(q[1]), SextetValue(q[2]), SextetValue(q[3]);
    var x := (a * 4 + b / 16) as char;
    var y := ((b % 16) * 16 + c / 4) as char;
    var z := ((c % 4) * 64 + d) as char;
    if q[2] == '=' then [x]
    else if q[3] == '=' then [x, y]
    else [x, y, z]
  }

  /** `atob` on well-formed input: decode group by group. */
  function Decode(e: string): (r: string)
    decreases |e|
  {
    if |e| < 4 then "" else DecodeGroup(e[..4]) + Decode(e[4..])
  }

  /** A full group of three bytes decodes back to those bytes. */
  lemma GroupRoundTrip(a: char, b: char, c: char)
    requires a as int < 256 && b as int < 256 && c as int < 256
    ensures DecodeGroup(EncodeGroup(a, b, c)) == [a, b, c]
  {
    var x, y, z := a as int, b as int, c as int;
    SextetRoundTrip(x / 4);
    SextetRoundTrip((x % 4) * 16 + y / 16);
    SextetRoundTrip((y % 16) * 4 + z / 64);
    SextetRoundTrip(z % 64);
    var q := EncodeGroup(a, b, c);
    assert SextetValue(q[1]) / 16 == x % 4 && SextetValue(q[1]) % 16 == y / 16;
    assert SextetValue(q[2]) / 4 == y % 16 && SextetValue(q[2]) % 4 == z / 64;
  }

  /** The padded encoding of a final single byte decodes back to it. */
  lemma OneRoundTrip(a: char)
    requires a as int < 256
    ensures DecodeGroup(EncodeOne(a)) == [a]
  {
    var x := a as int;
    SextetRoundTrip(x / 4);
    SextetRoundTrip((x % 4) * 16);
  }

  /** The padded encoding of a final pair of bytes decodes back to them. */
  lemma TwoRoundTrip(a: char, b: char)
    requires a as int < 256 && b as int < 256
    ensures DecodeGroup(EncodeTwo(a, b)) == [a, b]
  {
    var x, y := a as int, b as int;
    SextetRoundTrip(x / 4);
    SextetRoundTrip((x % 4) * 16 + y / 16);
    SextetRoundTrip((y % 16) * 4);
    var q := EncodeTwo(a, b);
    assert SextetValue(q[1]) / 16 == x % 4 && SextetValue(q[1]) % 16 == y / 16;
  }

  /** One full group comes off the front of the encoding. */
  lemma EncodeStep(s: string)
    requires IsLatin1(s) && |s| >= 3
    ensures IsLatin1(s[3..])
    ensures Encode(s) == EncodeGroup(s[0], s[1], s[2]) + Encode(s[3..])
  {
  }

  /** The encoding of three given bytes followed by more. */
  lemma EncodeCons(a: char, b: char, c: char, rest: string)
    requires a as int < 256 && b as int < 256 && c as int < 256 && IsLatin1(rest)
    ensures IsLatin1([a, b, c] + rest)
    ensures Encode([a, b, c] + rest) == EncodeGroup(a, b, c) + Encode(rest)
  {
    var s := [a, b, c] + rest;
    assert s[3..] == rest;
    EncodeStep(s);
  }

  /** Decoding takes one group of four characters at a time. */
  lemma DecodeStep(g: string, rest: string)
    requires |g| == 4
    ensures Decode(g + rest) == DecodeGroup(g) + Decode(rest)
  {
    var e := g + rest;
    assert e[..4] == g && e[4..] == rest;
  }

  /** A final one or two bytes survive the round trip. */
  lemma DecodeEncodeShort(s: string)
    requires IsLatin1(s) && 1 <= |s| <= 2
    ensures Decode(Encode(s)) == s
  {
    var e := Encode(s);
    if |s| == 1 { OneRoundTrip(s[0]); } else { TwoRoundTrip(s[0], s[1]); }
    DecodeStep(e, []);
    assert e + [] == e;
  }

  /** Decoding recovers what was encoded, so `Encode` is injective. */
  lemma {:induction false} DecodeEncode(s: string)
    requires IsLatin1(s)
    ensures Decode(Encode(s)) == s
    decreases |s|
  {
    if 1 <= |s| <= 2 {
      DecodeEncodeShort(s);
    } else if |s| >= 3 {
      EncodeStep(s);
      DecodeStep(EncodeGroup(s[0], s[1], s[2]), Encode(s[3..]));
      GroupRoundTrip(s[0], s[1], s[2]);
      DecodeEncode(s[3..]);
      assert s == [s[0], s[1], s[2]] + s[3..];
    }
  }

  lemma EncodeInjective(s: string, t: string)
    requires IsLatin1(s) && IsLatin1(t)
    ensures Encode(s) == Encode(t) <==> s == t
  {
    if Encode(s) == Encode(t) {
      DecodeEncode(s);
      DecodeEncode(t);
    }
  }
}
