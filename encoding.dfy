/** The two byte-to-text encodings that `build_response` applies: Python's
    `hexdigest()` text form of a digest (lower-case hexadecimal, two characters
    per byte) and `base64.b64encode` (the alphabet and padding of section 4 of
    RFC 4648). Each comes with its decoder and a proof that decoding undoes it. */
module Encoding {
  import opened Wrappers

  // ---------------------------------------------------------------- hex

  function HexChar(d: nat): (c: char)
    requires d < 16
  {
    if d < 10 then ('0' as int + d) as char else ('a' as int + d - 10) as char
  }

  function HexValue(c: char): (r: Option<nat>)
    ensures r.Some? ==> r.value < 16
  {
    if '0' <= c <= '9' then Some(c as int - '0' as int)
    else if 'a' <= c <= 'f' then Some(c as int - 'a' as int + 10)
    else None
  }

  predicate IsHexText(s: string) {
    forall i :: 0 <= i < |s| ==> HexValue(s[i]).Some?
  }

  /** `bytes.hex()`: two lower-case hexadecimal digits per byte, high nibble first. */
  function Hex(bytes: seq<Byte>): (s: string)
    ensures |s| == 2 * |bytes|
    ensures IsHexText(s)
  {
    if bytes == [] then ""
    else [HexChar(bytes[0] / 16), HexChar(bytes[0] % 16)] + Hex(bytes[1..])
  }

  function Unhex(s: string): Option<seq<Byte>>
    decreases |s|
  {
    if s == [] then Some([])
    else if |s| == 1 then None
    else match (HexValue(s[0]), HexValue(s[1]), Unhex(s[2..]))
      case (Some(hi), Some(lo), Some(rest)) => Some([hi * 16 + lo] + rest)
      case _ => None
  }

  lemma HexValueOfHexChar(d: nat)
    requires d < 16
    ensures HexValue(HexChar(d)) == Some(d)
  {
  }

  /** The hex text determines the bytes: distinct digests give distinct ETags. */
  lemma {:induction false} HexRoundTrip(bytes: seq<Byte>)
    ensures Unhex(Hex(bytes)) == Some(bytes)
  {
    if bytes != [] {
      var s := Hex(bytes);
      assert s[2..] == Hex(bytes[1..]);
      HexValueOfHexChar(bytes[0] / 16);
      HexValueOfHexChar(bytes[0] % 16);
      HexRoundTrip(bytes[1..]);
      assert [(bytes[0] / 16) * 16 + bytes[0] % 16] + bytes[1..] == bytes;
    }
  }

  // ---------------------------------------------------------------- base64

  const Pad: char := '='

  /** The 64-character alphabet of Table 1 in section 4 of RFC 4648. */
  function Symbol(v: nat): (c: char)
    requires v < 64
    ensures c != Pad
  {
    if v < 26 then ('A' as int + v) as char
    else if v < 52 then ('a' as int + v - 26) as char
    else if v < 62 then ('0' as int + v - 52) as char
    else if v == 62 then '+'
    else '/'
  }

  function SymbolValue(c: char): (r: Option<nat>)
    ensures r.Some? ==> r.value < 64 && Symbol(r.value) == c
  {
    if 'A' <= c <= 'Z' then Some(c as int - 'A' as int)
    else if 'a' <= c <= 'z' then Some(c as int - 'a' as int + 26)
    else if '0' <= c <= '9' then Some(c as int - '0' as int + 52)
    else if c == '+' then Some(62)
    else if c == '/' then Some(63)
    else None
  }

  lemma SymbolValueOfSymbol(v: nat)
    requires v < 64
    ensures SymbolValue(Symbol(v)) == Some(v)
  {
  }

  /** Three octets become four sextets, most significant first. */
  function EncodeGroup(a: Byte, b: Byte, c: Byte): (s: string)
    ensures |s| == 4
  {
    [Symbol(a / 4), Symbol((a % 4) * 16 + b / 16), Symbol((b % 16) * 4 + c / 64), Symbol(c % 64)]
  }

  /** `base64.b64encode(bytes).decode()`: padded to a multiple of four with `=`. */
  function Base64(bytes: seq<Byte>): (s: string)
    decreases |bytes|
  {
    if |bytes| == 0 then ""
    else if |bytes| == 1 then [Symbol(bytes[0] / 4), Symbol((bytes[0] % 4) * 16), Pad, Pad]
    else if |bytes| == 2 then
      [Symbol(bytes[0] / 4), Symbol((bytes[0] % 4) * 16 + bytes[1] / 16), Symbol((bytes[1] % 16) * 4), Pad]
    else EncodeGroup(bytes[0], bytes[1], bytes[2]) + Base64(bytes[3..])
  }

  /** The encoded text takes four characters per started group of three bytes. */
  lemma {:induction false} Base64Length(bytes: seq<Byte>)
    ensures |Base64(bytes)| == 4 * ((|bytes| + 2) / 3)
    decreases |bytes|
  {
    if |bytes| > 2 {
      var n := |bytes|;
      Base64Length(bytes[3..]);
      assert |bytes[3..]| == n - 3;
      assert (n + 2) / 3 == (n - 3 + 2) / 3 + 1;
      assert |Base64(bytes)| == 4 + |Base64(bytes[3..])|;
    }
  }

  /** Four symbols give three octets; a padded final quantum gives one or two. */
  function DecodeQuantum(s: string): Option<seq<Byte>>
    requires |s| == 4
  {
    match (SymbolValue(s[0]), SymbolValue(s[1]), SymbolValue(s[2]), SymbolValue(s[3]))
    case (Some(v0), Some(v1), Some(v2), Some(v3)) =>
      Some([v0 * 4 + v1 / 16, (v1 % 16) * 16 + v2 / 4, (v2 % 4) * 64 + v3])
    case (Some(v0), Some(v1), Some(v2), None) =>
      if s[3] == Pad then Some([v0 * 4 + v1 / 16, (v1 % 16) * 16 + v2 / 4]) else None
    case (Some(v0), Some(v1), None, None) =>
      if s[2] == Pad && s[3] == Pad then Some([v0 * 4 + v1 / 16]) else None
    case _ => None
  }

  function Unbase64(s: string): Option<seq<Byte>>
    decreases |s|
  {
    if s == [] then Some([])
    else if |s| < 4 then None
    else match (DecodeQuantum(s[..4]), Unbase64(s[4..]))
      case (Some(q), Some(rest)) => if |q| < 3 && rest != [] then None else Some(q + rest)
      case _ => None
  }

  lemma LastQuantum(t: string)
    requires |t| == 4 && DecodeQuantum(t).Some?
    ensures Unbase64(t) == DecodeQuantum(t)
  {
    assert t[..4] == t;
    assert Unbase64(t[4..]) == Some([]);
    assert DecodeQuantum(t).value + [] == DecodeQuantum(t).value;
  }

  lemma GroupRoundTrip(a: Byte, b: Byte, c: Byte)
    ensures DecodeQuantum(EncodeGroup(a, b, c)) == Some([a, b, c])
  {
    SymbolValueOfSymbol(a / 4);
    SymbolValueOfSymbol((a % 4) * 16 + b / 16);
    SymbolValueOfSymbol((b % 16) * 4 + c / 64);
    SymbolValueOfSymbol(c % 64);
    var v1, v2 := (a % 4) * 16 + b / 16, (b % 16) * 4 + c / 64;
    assert v1 / 16 == a % 4 && v1 % 16 == b / 16;
    assert v2 / 4 == b % 16 && v2 % 4 == c / 64;
    assert (a / 4) * 4 + a % 4 == a;
    assert (b / 16) * 16 + b % 16 == b;
    assert (c / 64) * 64 + c % 64 == c;
  }

  lemma FullQuantum(t: string, q: seq<Byte>, rest: seq<Byte>)
    requires |t| >= 4 && |q| == 3
    requires DecodeQuantum(t[..4]) == Some(q) && Unbase64(t[4..]) == Some(rest)
    ensures Unbase64(t) == Some(q + rest)
  {
  }

  lemma OneByteRoundTrip(a: Byte)
    ensures Unbase64(Base64([a])) == Some([a])
  {
    SymbolValueOfSymbol(a / 4);
    SymbolValueOfSymbol((a % 4) * 16);
    var s := Base64([a]);
    assert DecodeQuantum(s) == Some([a]);
    LastQuantum(s);
  }

  lemma TwoBytesRoundTrip(a: Byte, b: Byte)
    ensures Unbase64(Base64([a, b])) == Some([a, b])
  {
    SymbolValueOfSymbol(a / 4);
    SymbolValueOfSymbol((a % 4) * 16 + b / 16);
    SymbolValueOfSymbol((b % 16) * 4);
    assert ((a % 4) * 16 + b / 16) % 16 == b / 16;
    assert ((b % 16) * 4) / 4 == b % 16;
    var s := Base64([a, b]);
    assert SymbolValue(s[3]) == None;
    assert DecodeQuantum(s) == Some([a, b]);
    LastQuantum(s);
  }

  /** Decoding the base64 body gives back exactly the bytes that were encoded. */
  lemma {:induction false} Base64RoundTrip(bytes: seq<Byte>)
    ensures Unbase64(Base64(bytes)) == Some(bytes)
    decreases |bytes|
  {
    if |bytes| == 1 {
      assert bytes == [bytes[0]];
      OneByteRoundTrip(bytes[0]);
    } else if |bytes| == 2 {
      assert bytes == [bytes[0], bytes[1]];
      TwoBytesRoundTrip(bytes[0], bytes[1]);
    } else if |bytes| > 2 {
      Base64RoundTrip(bytes[3..]);
      GroupThenRest(bytes);
    }
  }

  /** A leading group of three bytes decodes back in front of the rest. */
  lemma GroupThenRest(bytes: seq<Byte>)
    requires |bytes| > 2 && Unbase64(Base64(bytes[3..])) == Some(bytes[3..])
    ensures Unbase64(Base64(bytes)) == Some(bytes)
  {
    var s := Base64(bytes);
    var q := [bytes[0], bytes[1], bytes[2]];
    GroupRoundTrip(bytes[0], bytes[1], bytes[2]);
    assert s[..4] == EncodeGroup(bytes[0], bytes[1], bytes[2]);
    assert s[4..] == Base64(bytes[3..]);
    FullQuantum(s, q, bytes[3..]);
    assert bytes == q + bytes[3..];
  }
}
