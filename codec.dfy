/**
 Byte strings and the two textual forms the preview store moves digests
 through: lowercase hexadecimal (the form of an S3 ETag, undone by
 `binascii.unhexlify`) and URL-safe base64 with padding (the "base64url"
 alphabet of section 5 of RFC 4648, as `base64.urlsafe_b64encode` writes it).
 */
module Codec {
  import opened Results

  newtype byte = x: int | 0 <= x < 256

  /** An MD5 digest (RFC 1321): sixteen bytes. */
  type Digest = d: seq<byte> | |d| == 16 witness seq(16, i => 0 as byte)

  // ---------------------------------------------------------------------------
  // Hexadecimal
  // ---------------------------------------------------------------------------

  /** The lowercase hexadecimal digit for `n`. */
  function HexDigit(n: nat): (c: char)
    requires n < 16
  {
    if n < 10 then ('0' as int + n) as char else ('a' as int + n - 10) as char
  }

  predicate IsLowerHexDigit(c: char) {
    '0' <= c <= '9' || 'a' <= c <= 'f'
  }

  /** Value of one hexadecimal digit; like `binascii.unhexlify`, both cases are accepted. */
  function HexValue(c: char): (r: Option<nat>)
    ensures r.Some? ==> r.value < 16
    ensures r.Some? <==> IsLowerHexDigit(c) || 'A' <= c <= 'F'
  {
    if '0' <= c <= '9' then Some(c as int - '0' as int)
    else if 'a' <= c <= 'f' then Some(c as int - 'a' as int + 10)
    else if 'A' <= c <= 'F' then Some(c as int - 'A' as int + 10)
    else None
  }

  lemma HexValueOfDigit(n: nat)
    requires n < 16
    ensures IsLowerHexDigit(HexDigit(n)) && HexValue(HexDigit(n)) == Some(n)
  {
  }

  lemma HexDigitOfValue(c: char)
    requires IsLowerHexDigit(c)
    ensures HexValue(c).Some? && HexDigit(HexValue(c).value) == c
  {
  }

  /** Lowercase hexadecimal form of a byte string, two digits per byte, high nibble first. */
  function Hex(s: seq<byte>): (r: string)
    ensures |r| == 2 * |s|
    ensures forall i :: 0 <= i < |r| ==> IsLowerHexDigit(r[i])
  {
    if s == [] then ""
    else [HexDigit(s[0] as int / 16), HexDigit(s[0] as int % 16)] + Hex(s[1..])
  }

  /** `binascii.unhexlify`: `None` stands for the `binascii.Error` it raises on an
      odd-length string or a character that is not a hexadecimal digit. */
  function Unhexlify(t: string): (r: Option<seq<byte>>)
    ensures r.Some? ==> |t| == 2 * |r.value|
    ensures |t| % 2 == 1 ==> r.None?
    decreases |t|
  {
    if |t| == 0 then Some([])
    else if |t| == 1 then None
    else
      match (HexValue(t[0]), HexValue(t[1]), Unhexlify(t[2..]))
      case (Some(hi), Some(lo), Some(rest)) => Some([(hi * 16 + lo) as byte] + rest)
      case _ => None
  }

  /** Unhexlify undoes Hex, for every byte string. */
  lemma {:induction false} UnhexlifyHex(s: seq<byte>)
    ensures Unhexlify(Hex(s)) == Some(s)
  {
    if s != [] {
      var x := s[0] as int;
      HexValueOfDigit(x / 16);
      HexValueOfDigit(x % 16);
      assert Hex(s)[2..] == Hex(s[1..]);
      UnhexlifyHex(s[1..]);
      assert [s[0]] + s[1..] == s;
    }
  }

  /** On lowercase hexadecimal text, Hex undoes Unhexlify: the two are inverse bijections
      between byte strings and even-length lowercase hexadecimal strings. */
  lemma {:induction false} HexUnhexlify(t: string)
    requires Unhexlify(t).Some?
    requires forall i :: 0 <= i < |t| ==> IsLowerHexDigit(t[i])
    ensures Hex(Unhexlify(t).value) == t
  {
    if |t| != 0 {
      HexDigitOfValue(t[0]);
      HexDigitOfValue(t[1]);
      var s := Unhexlify(t).value;
      HexUnhexlify(t[2..]);
      assert s[1..] == Unhexlify(t[2..]).value;
      assert t == [t[0], t[1]] + t[2..];
    }
  }

  // ---------------------------------------------------------------------------
  // URL-safe base64 (RFC 4648, section 5)
  // ---------------------------------------------------------------------------

  /** Character of the base64url alphabet for the six-bit value `n`. */
  function Base64Char(n: nat): (c: char)
    requires n < 64
  {
    if n < 26 then ('A' as int + n) as char
    else if n < 52 then ('a' as int + n - 26) as char
    else if n < 62 then ('0' as int + n - 52) as char
    else if n == 62 then '-'
    else '_'
  }

  /** Membership in the base64url alphabet (which has neither '+' nor '/'). */
  predicate IsUrlSafeChar(c: char) {
    'A' <= c <= 'Z' || 'a' <= c <= 'z' || '0' <= c <= '9' || c == '-' || c == '_'
  }

  /** Six-bit value of a base64url character. */
  function Sextet(c: char): (r: Option<nat>)
    ensures r.Some? ==> r.value < 64
    ensures r.Some? <==> IsUrlSafeChar(c)
  {
    if 'A' <= c <= 'Z' then Some(c as int - 'A' as int)
    else if 'a' <= c <= 'z' then Some(c as int - 'a' as int + 26)
    else if '0' <= c <= '9' then Some(c as int - '0' as int + 52)
    else if c == '-' then Some(62)
    else if c == '_' then Some(63)
    else None
  }

  lemma SextetOfChar(n: nat)
    requires n < 64
    ensures IsUrlSafeChar(Base64Char(n)) && Sextet(Base64Char(n)) == Some(n)
  {
  }

  /** Number of '=' characters that pad the encoding of `n` bytes. */
  function PadLength(n: nat): nat {
    if n % 3 == 0 then 0 else 3 - n % 3
  }

  /** The four characters that encode three bytes. */
  function Quantum(x: byte, y: byte, z: byte): (q: string)
    ensures |q| == 4 && forall i :: 0 <= i < 4 ==> IsUrlSafeChar(q[i])
  {
    var a, b, c := x as int, y as int, z as int;
    SextetOfChar(a / 4);
    SextetOfChar(a % 4 * 16 + b / 16);
    SextetOfChar(b % 16 * 4 + c / 64);
    SextetOfChar(c % 64);
    [Base64Char(a / 4), Base64Char(a % 4 * 16 + b / 16), Base64Char(b % 16 * 4 + c / 64), Base64Char(c % 64)]
  }

  /** `base64.urlsafe_b64encode`: each group of three bytes becomes four characters;
      a final group of one or two bytes is encoded as if followed by zero bytes, and
      the characters that stand only for those zero bytes are replaced by '='. */
  function Base64Url(s: seq<byte>): (r: string)
    ensures |r| == 4 * ((|s| + 2) / 3)
    ensures forall i :: 0 <= i < |r| - PadLength(|s|) ==> IsUrlSafeChar(r[i])
    ensures forall i :: |r| - PadLength(|s|) <= i < |r| ==> r[i] == '='
    decreases |s|
  {
    if |s| == 0 then ""
    else if |s| == 1 then Quantum(s[0], 0, 0)[..2] + "=="
    else if |s| == 2 then Quantum(s[0], s[1], 0)[..3] + "="
    else Quantum(s[0], s[1], s[2]) + Base64Url(s[3..])
  }

  /** The checksum of an MD5 digest is 24 characters of the base64url alphabet
      ending in "==": no '+' and no '/'. */
  lemma DigestChecksumShape(d: Digest)
    ensures |Base64Url(d)| == 24 && Base64Url(d)[22..] == "=="
    ensures forall i :: 0 <= i < 22 ==> IsUrlSafeChar(Base64Url(d)[i])
    ensures '+' !in Base64Url(d) && '/' !in Base64Url(d)
  {
    var r := Base64Url(d);
    assert PadLength(16) == 2;
    forall i | 0 <= i < 24 ensures r[i] != '+' && r[i] != '/' {
    }
  }

  /** Decodes one four-character group; the group may end in "=" or "==". */
  function DecodeQuantum(q: string): (r: Option<seq<byte>>)
    requires |q| == 4
    ensures r.Some? ==> 1 <= |r.value| <= 3
  {
    var a, b := Sextet(q[0]), Sextet(q[1]);
    if a.None? || b.None? then None
    else
      var first := (a.value * 4 + b.value / 16) as byte;
      if q[2] == '=' && q[3] == '=' then Some([first])
      else
        var c := Sextet(q[2]);
        if c.None? then None
        else
          var second := (b.value % 16 * 16 + c.value / 4) as byte;
          if q[3] == '=' then Some([first, second])
          else
            var d := Sextet(q[3]);
            if d.None? then None
            else Some([first, second, (c.value % 4 * 64 + d.value) as byte])
  }

  /** Strict base64url decoding: only a full-length last group may carry padding. It is
      the partner that shows Base64Url loses no information. */
  function Base64UrlDecode(t: string): (r: Option<seq<byte>>)
    decreases |t|
  {
    if |t| == 0 then Some([])
    else if |t| < 4 then None
    else
      match DecodeQuantum(t[..4])
      case None => None
      case Some(group) =>
        if |t| == 4 then Some(group)
        else if |group| < 3 then None
        else
          match Base64UrlDecode(t[4..])
          case None => None
          case Some(rest) => Some(group + rest)
  }

  lemma DecodeThreeBytes(a: nat, b: nat, c: nat)
    requires a < 256 && b < 256 && c < 256
    ensures (a / 4 * 4 + (a % 4 * 16 + b / 16) / 16) == a
    ensures ((a % 4 * 16 + b / 16) % 16 * 16 + (b % 16 * 4 + c / 64) / 4) == b
    ensures ((b % 16 * 4 + c / 64) % 4 * 64 + c % 64) == c
  {
  }

  /** A full group decodes to the three bytes it encodes. */
  lemma DecodeFullQuantum(x: byte, y: byte, z: byte)
    ensures DecodeQuantum(Quantum(x, y, z)) == Some([x, y, z])
  {
    var a, b, c := x as int, y as int, z as int;
    var q := Quantum(x, y, z);
    SextetOfChar(a / 4);
    SextetOfChar(a % 4 * 16 + b / 16);
    SextetOfChar(b % 16 * 4 + c / 64);
    SextetOfChar(c % 64);
    DecodeThreeBytes(a, b, c);
    var s0, s1, s2, s3 := a / 4, a % 4 * 16 + b / 16, b % 16 * 4 + c / 64, c % 64;
    assert Sextet(q[0]) == Some(s0) && Sextet(q[1]) == Some(s1);
    assert Sextet(q[2]) == Some(s2) && Sextet(q[3]) == Some(s3);
    assert q[2] != '=' && q[3] != '=';
    assert (s0 * 4 + s1 / 16) as byte == x;
    assert (s1 % 16 * 16 + s2 / 4) as byte == y;
    assert (s2 % 4 * 64 + s3) as byte == z;
  }

  /** A final group of two bytes, padded with one '=', decodes to those two bytes. */
  lemma DecodeTwoByteQuantum(x: byte, y: byte)
    ensures DecodeQuantum(Quantum(x, y, 0)[..3] + "=") == Some([x, y])
  {
    var a, b := x as int, y as int;
    var q := Quantum(x, y, 0)[..3] + "=";
    SextetOfChar(a / 4);
    SextetOfChar(a % 4 * 16 + b / 16);
    SextetOfChar(b % 16 * 4);
    DecodeThreeBytes(a, b, 0);
    var s0, s1, s2 := a / 4, a % 4 * 16 + b / 16, b % 16 * 4;
    assert Sextet(q[0]) == Some(s0) && Sextet(q[1]) == Some(s1) && Sextet(q[2]) == Some(s2);
    assert q[2] != '=' && q[3] == '=';
    assert (s0 * 4 + s1 / 16) as byte == x;
    assert (s1 % 16 * 16 + s2 / 4) as byte == y;
  }

  /** A final group of one byte, padded with "==", decodes to that byte. */
  lemma DecodeOneByteQuantum(x: byte)
    ensures DecodeQuantum(Quantum(x, 0, 0)[..2] + "==") == Some([x])
  {
    var a := x as int;
    var q := Quantum(x, 0, 0)[..2] + "==";
    SextetOfChar(a / 4);
    SextetOfChar(a % 4 * 16);
    DecodeThreeBytes(a, 0, 0);
    var s0, s1 := a / 4, a % 4 * 16;
    assert Sextet(q[0]) == Some(s0) && Sextet(q[1]) == Some(s1);
    assert q[2] == '=' && q[3] == '=';
    assert (s0 * 4 + s1 / 16) as byte == x;
  }

  /** Decoding a group of three bytes followed by more text. */
  lemma DecodeLeadingQuantum(x: byte, y: byte, z: byte, rest: string)
    requires Base64UrlDecode(rest).Some?
    ensures Base64UrlDecode(Quantum(x, y, z) + rest) == Some([x, y, z] + Base64UrlDecode(rest).value)
  {
    var t := Quantum(x, y, z) + rest;
    DecodeFullQuantum(x, y, z);
    assert t[..4] == Quantum(x, y, z);
    if rest == [] {
      assert t == t[..4];
      assert [x, y, z] + Base64UrlDecode(rest).value == [x, y, z];
    } else {
      assert t[4..] == rest;
    }
  }

  /** A lone group decodes as that group. */
  lemma DecodeSingleQuantum(q: string)
    requires |q| == 4 && DecodeQuantum(q).Some?
    ensures Base64UrlDecode(q) == DecodeQuantum(q)
  {
    assert q[..4] == q;
  }

  lemma RoundTripShort(s: seq<byte>)
    requires 1 <= |s| <= 2
    ensures Base64UrlDecode(Base64Url(s)) == Some(s)
  {
    if |s| == 1 {
      var x := s[0];
      var q := Quantum(x, 0, 0)[..2] + "==";
      assert Base64Url(s) == q;
      DecodeOneByteQuantum(x);
      DecodeSingleQuantum(q);
      assert s == [x];
    } else {
      var x, y := s[0], s[1];
      var q := Quantum(x, y, 0)[..3] + "=";
      assert Base64Url(s) == q;
      DecodeTwoByteQuantum(x, y);
      DecodeSingleQuantum(q);
      assert s == [x, y];
    }
  }

  /** Base64UrlDecode undoes Base64Url, for every byte string. */
  lemma {:induction false} Base64UrlRoundTrip(s: seq<byte>)
    ensures Base64UrlDecode(Base64Url(s)) == Some(s)
  {
    if 1 <= |s| <= 2 {
      RoundTripShort(s);
    } else if |s| >= 3 {
      var x, y, z, rest := s[0], s[1], s[2], s[3..];
      assert Base64Url(s) == Quantum(x, y, z) + Base64Url(rest);
      Base64UrlRoundTrip(rest);
      DecodeLeadingQuantum(x, y, z, Base64Url(rest));
      assert s == [x, y, z] + rest;
    }
  }

  /** Base64Url is injective: distinct byte strings never share an encoding. */
  lemma Base64UrlInjective(s: seq<byte>, u: seq<byte>)
    requires Base64Url(s) == Base64Url(u)
    ensures s == u
  {
    Base64UrlRoundTrip(s);
    Base64UrlRoundTrip(u);
  }
}
