/** Base64 as section 4 of RFC 4648 defines it (the standard alphabet of its
    Table 1, `=` padding), the encoding `basic_auth_validate` applies to
    `username:password`.  The decoder is not used by the server; it is here as
    the encoder's inverse. */
module Base64 {
  import opened Wrappers
  import RustStr

  type byte = RustStr.byte

  /** The alphabet character for a 6-bit value (Table 1 of RFC 4648). */
  function Sextet(v: nat): char
    requires v < 64
  {
    if v < 26 then (('A' as int) + v) as char
    else if v < 52 then (('a' as int) + (v - 26)) as char
    else if v < 62 then (('0' as int) + (v - 52)) as char
    else if v == 62 then '+'
    else '/'
  }

  /** The 6-bit value of an alphabet character; `None` for any other character, `=` included. */
  function SextetValue(c: char): Option<nat> {
    if 'A' <= c <= 'Z' then Some(c as int - 'A' as int)
    else if 'a' <= c <= 'z' then Some(c as int - 'a' as int + 26)
    else if '0' <= c <= '9' then Some(c as int - '0' as int + 52)
    else if c == '+' then Some(62)
    else if c == '/' then Some(63)
    else None
  }

  /** The alphabet has 64 distinct characters and `=` is not one of them. */
  lemma SextetRoundTrip(v: nat)
    requires v < 64
    ensures SextetValue(Sextet(v)) == Some(v)
    ensures Sextet(v) != PAD
  {
  }

  lemma SextetValueBound(c: char)
    ensures SextetValue(c).Some? ==> SextetValue(c).value < 64
  {
  }

  const PAD: char := '='

  /** A 24-bit input group as four 6-bit groups, most significant bits first. */
  function EncodeGroup(b0: byte, b1: byte, b2: byte): string {
    [Sextet(b0 / 4), Sextet((b0 % 4) * 16 + b1 / 16), Sextet((b1 % 16) * 4 + b2 / 64), Sextet(b2 % 64)]
  }

  /** Section 4: full groups of three bytes, then a final group of one byte
      (two characters and `==`) or of two bytes (three characters and `=`). */
  function Encode(b: seq<byte>): (r: string)
    ensures |r| == 4 * ((|b| + 2) / 3)
    decreases |b|
  {
    if |b| == 0 then []
    else if |b| == 1 then [Sextet(b[0] / 4), Sextet((b[0] % 4) * 16), PAD, PAD]
    else if |b| == 2 then
      [Sextet(b[0] / 4), Sextet((b[0] % 4) * 16 + b[1] / 16), Sextet((b[1] % 16) * 4), PAD]
    else EncodeGroup(b[0], b[1], b[2]) + Encode(b[3..])
  }

  /** A full leading group is encoded on its own, followed by the rest. */
  lemma EncodeGroupThen(b0: byte, b1: byte, b2: byte, rest: seq<byte>)
    ensures Encode([b0, b1, b2] + rest) == EncodeGroup(b0, b1, b2) + Encode(rest)
  {
    var b := [b0, b1, b2] + rest;
    assert b[3..] == rest;
  }

  /** Four characters back to one, two or three bytes; `None` if they are not a valid group. */
  function DecodeGroup(q: string): Option<seq<byte>>
    requires |q| == 4
  {
    SextetValueBound(q[0]);
    SextetValueBound(q[1]);
    SextetValueBound(q[2]);
    SextetValueBound(q[3]);
    var v0, v1, v2, v3 := SextetValue(q[0]), SextetValue(q[1]), SextetValue(q[2]), SextetValue(q[3]);
    if v0.None? || v1.None? then None
    else if q[2] == PAD && q[3] == PAD then
      Some([v0.value * 4 + v1.value / 16])
    else if v2.None? then None
    else if q[3] == PAD then
      Some([v0.value * 4 + v1.value / 16, (v1.value % 16) * 16 + v2.value / 4])
    else if v3.None? then None
    else
      Some([v0.value * 4 + v1.value / 16, (v1.value % 16) * 16 + v2.value / 4, (v2.value % 4) * 64 + v3.value])
  }

  /** Decoding of padded base64; padding may only end the text. */
  function Decode(s: string): Option<seq<byte>>
    decreases |s|
  {
    if s == [] then Some([])
    else if |s| < 4 then None
    else match DecodeGroup(s[..4])
      case None => None
      case Some(bytes) =>
        if |bytes| < 3 && |s| > 4 then None
        else match Decode(s[4..])
          case None => None
          case Some(more) => Some(bytes + more)
  }

  /** Splitting `x * 16 + y` by 16 recovers both parts. */
  lemma DivMod16(x: nat, y: nat)
    requires y < 16
    ensures (x * 16 + y) / 16 == x && (x * 16 + y) % 16 == y
  {
  }

  /** Splitting `x * 4 + y` by 4 recovers both parts. */
  lemma DivMod4(x: nat, y: nat)
    requires y < 4
    ensures (x * 4 + y) / 4 == x && (x * 4 + y) % 4 == y
  {
  }

  /** The sextets of a full group put back together give its three bytes. */
  lemma GroupArithmetic(b0: byte, b1: byte, b2: byte)
    ensures (b0 / 4) * 4 + ((b0 % 4) * 16 + b1 / 16) / 16 == b0
    ensures (((b0 % 4) * 16 + b1 / 16) % 16) * 16 + ((b1 % 16) * 4 + b2 / 64) / 4 == b1
    ensures (((b1 % 16) * 4 + b2 / 64) % 4) * 64 + b2 % 64 == b2
  {
    DivMod16(b0 % 4, b1 / 16);
    DivMod4(b1 % 16, b2 / 64);
  }

  /** One full group decodes to the three bytes it encodes. */
  lemma GroupRoundTrip(b0: byte, b1: byte, b2: byte)
    ensures DecodeGroup(EncodeGroup(b0, b1, b2)) == Some([b0, b1, b2])
  {
    var v0, v1, v2, v3 := b0 / 4, (b0 % 4) * 16 + b1 / 16, (b1 % 16) * 4 + b2 / 64, b2 % 64;
    SextetRoundTrip(v0);
    SextetRoundTrip(v1);
    SextetRoundTrip(v2);
    SextetRoundTrip(v3);
    GroupArithmetic(b0, b1, b2);
    var q := EncodeGroup(b0, b1, b2);
    assert q == [Sextet(v0), Sextet(v1), Sextet(v2), Sextet(v3)];
  }

  /** A final group of one byte decodes to that byte. */
  lemma OneByteRoundTrip(b0: byte)
    ensures DecodeGroup([Sextet(b0 / 4), Sextet((b0 % 4) * 16), PAD, PAD]) == Some([b0])
  {
    SextetRoundTrip(b0 / 4);
    SextetRoundTrip((b0 % 4) * 16);
  }

  /** A final group of two bytes decodes to those bytes. */
  lemma TwoBytesRoundTrip(b0: byte, b1: byte)
    ensures DecodeGroup([Sextet(b0 / 4), Sextet((b0 % 4) * 16 + b1 / 16), Sextet((b1 % 16) * 4), PAD])
         == Some([b0, b1])
  {
    SextetRoundTrip(b0 / 4);
    SextetRoundTrip((b0 % 4) * 16 + b1 / 16);
    SextetRoundTrip((b1 % 16) * 4);
  }

  /** A valid group on its own decodes as that group. */
  lemma DecodeLastGroup(g: string, bs: seq<byte>)
    requires |g| == 4 && DecodeGroup(g) == Some(bs)
    ensures Decode(g) == Some(bs)
  {
    assert g[..4] == g && g[4..] == [];
    assert bs + [] == bs;
  }

  /** A full group followed by valid text decodes group by group. */
  lemma DecodeFullGroupThen(g: string, rest: string, bs: seq<byte>, more: seq<byte>)
    requires |g| == 4 && DecodeGroup(g) == Some(bs) && |bs| == 3
    requires Decode(rest) == Some(more)
    ensures Decode(g + rest) == Some(bs + more)
  {
    assert (g + rest)[..4] == g && (g + rest)[4..] == rest;
  }

  /** A single byte encodes and decodes back to itself. */
  lemma DecodeEncodeOne(b: seq<byte>)
    requires |b| == 1
    ensures Decode(Encode(b)) == Some(b)
  {
    OneByteRoundTrip(b[0]);
    assert Encode(b) == [Sextet(b[0] / 4), Sextet((b[0] % 4) * 16), PAD, PAD];
    DecodeLastGroup(Encode(b), [b[0]]);
    assert b == [b[0]];
  }

  /** Two bytes encode and decode back to themselves. */
  lemma DecodeEncodeTwo(b: seq<byte>)
    requires |b| == 2
    ensures Decode(Encode(b)) == Some(b)
  {
    TwoBytesRoundTrip(b[0], b[1]);
    assert Encode(b) == [Sextet(b[0] / 4), Sextet((b[0] % 4) * 16 + b[1] / 16), Sextet((b[1] % 16) * 4), PAD];
    DecodeLastGroup(Encode(b), [b[0], b[1]]);
    assert b == [b[0], b[1]];
  }

  /** A full group in front of text that round-trips round-trips as well. */
  lemma DecodeEncodeStep(b: seq<byte>)
    requires |b| >= 3
    requires Decode(Encode(b[3..])) == Some(b[3..])
    ensures Decode(Encode(b)) == Some(b)
  {
    var g, rest := EncodeGroup(b[0], b[1], b[2]), b[3..];
    assert Encode(b) == g + Encode(rest);
    GroupRoundTrip(b[0], b[1], b[2]);
    DecodeFullGroupThen(g, Encode(rest), [b[0], b[1], b[2]], rest);
    FirstThree(b);
  }

  lemma FirstThree<T>(b: seq<T>)
    requires |b| >= 3
    ensures b == [b[0], b[1], b[2]] + b[3..]
  {
  }

  /** Decoding inverts encoding, for every byte string. */
  lemma {:induction false} DecodeEncode(b: seq<byte>)
    ensures Decode(Encode(b)) == Some(b)
    decreases |b|
  {
    if |b| == 0 {
    } else if |b| == 1 {
      DecodeEncodeOne(b);
    } else if |b| == 2 {
      DecodeEncodeTwo(b);
    } else {
      DecodeEncode(b[3..]);
      DecodeEncodeStep(b);
    }
  }

  /** Encoding is one-to-one, since it has an inverse. */
  lemma EncodeInjective(a: seq<byte>, b: seq<byte>)
    requires Encode(a) == Encode(b)
    ensures a == b
  {
    DecodeEncode(a);
    DecodeEncode(b);
  }

  /** Every output character is in the alphabet, except the padding, which
      only ever occupies the last two positions. */
  lemma {:induction false} EncodeCharacters(b: seq<byte>)
    ensures forall k :: 0 <= k < |Encode(b)| ==>
      SextetValue(Encode(b)[k]).Some? || (Encode(b)[k] == PAD && k >= |Encode(b)| - 2)
    decreases |b|
  {
    if |b| == 1 {
      SextetRoundTrip(b[0] / 4);
      SextetRoundTrip((b[0] % 4) * 16);
    } else if |b| == 2 {
      SextetRoundTrip(b[0] / 4);
      SextetRoundTrip((b[0] % 4) * 16 + b[1] / 16);
      SextetRoundTrip((b[1] % 16) * 4);
    } else if |b| >= 3 {
      SextetRoundTrip(b[0] / 4);
      SextetRoundTrip((b[0] % 4) * 16 + b[1] / 16);
      SextetRoundTrip((b[1] % 16) * 4 + b[2] / 64);
      SextetRoundTrip(b[2] % 64);
      EncodeCharacters(b[3..]);
      var e := Encode(b);
      forall k | 0 <= k < |e|
        ensures SextetValue(e[k]).Some? || (e[k] == PAD && k >= |e| - 2)
      {
        if k >= 4 {
          assert e[k] == Encode(b[3..])[k - 4];
        }
      }
    }
  }

  /** The test vectors of section 10 of RFC 4648. */
  lemma Rfc4648Vectors()
    ensures Encode([]) == ""
    ensures Encode([0x66]) == "Zg=="
    ensures Encode([0x66, 0x6F]) == "Zm8="
    ensures Encode([0x66, 0x6F, 0x6F]) == "Zm9v"
    ensures Encode([0x66, 0x6F, 0x6F, 0x62]) == "Zm9vYg=="
    ensures Encode([0x66, 0x6F, 0x6F, 0x62, 0x61]) == "Zm9vYmE="
    ensures Encode([0x66, 0x6F, 0x6F, 0x62, 0x61, 0x72]) == "Zm9vYmFy"
  {
    assert [0x66, 0x6F, 0x6F, 0x62][3..] == [0x62];
    assert [0x66, 0x6F, 0x6F, 0x62, 0x61][3..] == [0x62, 0x61];
    assert [0x66, 0x6F, 0x6F, 0x62, 0x61, 0x72][3..] == [0x62, 0x61, 0x72];
  }
}
