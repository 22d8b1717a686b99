/**
 * The standard base 64 encoding of section 4 of RFC 4648, as used by
 * `base64.StdEncoding.EncodeToString` for Output frames. Symbols are
 * ASCII bytes. The decoder exists only as the partner of the encoder:
 * the round trip `Decode(Encode(d)) == Some(d)` is what says that an
 * Output payload carries exactly the bytes read from the slave.
 */
module Base64 {
  import opened Common

  /** The pad character '='. */
  const Pad: byte := 61

  /** The symbol of the sextet `v` in the alphabet of RFC 4648, section 4, Table 1. */
  function Symbol(v: byte): (c: byte)
    requires v < 64
    ensures Value(c) == Some(v)
    ensures c != Pad
  {
    if v < 26 then v + 65        // 'A'..'Z'
    else if v < 52 then v + 71   // 'a'..'z'
    else if v < 62 then v - 4    // '0'..'9'
    else if v == 62 then 43      // '+'
    else 47                      // '/'
  }

  /** The sextet a symbol stands for; None for the pad and for bytes outside the alphabet. */
  function Value(c: byte): (r: Option<byte>)
    ensures r.Some? ==> r.value < 64 && c != Pad
  {
    if 65 <= c <= 90 then Some(c - 65)
    else if 97 <= c <= 122 then Some(c - 71)
    else if 48 <= c <= 57 then Some(c + 4)
    else if c == 43 then Some(62)
    else if c == 47 then Some(63)
    else None
  }

  predicate InAlphabet(c: byte) {
    Value(c).Some?
  }

  /** Three input bytes become four symbols. */
  function EncodeGroup(b0: byte, b1: byte, b2: byte): seq<byte> {
    [Symbol(b0 >> 2),
     Symbol(((b0 & 3) << 4) | (b1 >> 4)),
     Symbol(((b1 & 15) << 2) | (b2 >> 6)),
     Symbol(b2 & 63)]
  }

  /** A final single byte: two symbols and two pads. */
  function EncodeLast1(b0: byte): seq<byte> {
    [Symbol(b0 >> 2), Symbol((b0 & 3) << 4), Pad, Pad]
  }

  /** A final pair of bytes: three symbols and one pad. */
  function EncodeLast2(b0: byte, b1: byte): seq<byte> {
    [Symbol(b0 >> 2), Symbol(((b0 & 3) << 4) | (b1 >> 4)), Symbol((b1 & 15) << 2), Pad]
  }

  /**
   * Standard, padded base 64. The output is 4 * ceil(|data| / 3) bytes long,
   * each an alphabet symbol or a pad, and pads only ever close the output.
   */
  function Encode(data: seq<byte>): (r: seq<byte>)
    ensures |r| == 4 * ((|data| + 2) / 3)
    ensures forall i | 0 <= i < |r| :: InAlphabet(r[i]) || r[i] == Pad
    ensures forall i | 0 <= i < |r| - 2 :: r[i] != Pad
    decreases |data|
  {
    if |data| == 0 then []
    else if |data| == 1 then EncodeLast1(data[0])
    else if |data| == 2 then EncodeLast2(data[0], data[1])
    else EncodeGroup(data[0], data[1], data[2]) + Encode(data[3..])
  }

  /** Four symbols without padding become three bytes. */
  function DecodeGroup(c0: byte, c1: byte, c2: byte, c3: byte): Option<seq<byte>> {
    match (Value(c0), Value(c1), Value(c2), Value(c3))
    case (Some(s0), Some(s1), Some(s2), Some(s3)) =>
      Some([(s0 << 2) | (s1 >> 4), ((s1 & 15) << 4) | (s2 >> 2), ((s2 & 3) << 6) | s3])
    case _ => None
  }

  /** The last quantum, which may end in one or two pads. */
  function DecodeLast(c0: byte, c1: byte, c2: byte, c3: byte): Option<seq<byte>> {
    if c2 == Pad && c3 == Pad then
      match (Value(c0), Value(c1))
      case (Some(s0), Some(s1)) => Some([(s0 << 2) | (s1 >> 4)])
      case _ => None
    else if c3 == Pad then
      match (Value(c0), Value(c1), Value(c2))
      case (Some(s0), Some(s1), Some(s2)) => Some([(s0 << 2) | (s1 >> 4), ((s1 & 15) << 4) | (s2 >> 2)])
      case _ => None
    else DecodeGroup(c0, c1, c2, c3)
  }

  /** Padded base 64 back to bytes; None when the text is not a whole number of quanta. */
  function Decode(text: seq<byte>): Option<seq<byte>>
    decreases |text|
  {
    if |text| == 0 then Some([])
    else if |text| < 4 then None
    else if |text| == 4 then DecodeLast(text[0], text[1], text[2], text[3])
    else
      match DecodeGroup(text[0], text[1], text[2], text[3])
      case None => None
      case Some(group) =>
        match Decode(text[4..])
        case None => None
        case Some(rest) => Some(group + rest)
  }

  lemma GroupRoundTrip(b0: byte, b1: byte, b2: byte)
    ensures var g := EncodeGroup(b0, b1, b2);
      DecodeGroup(g[0], g[1], g[2], g[3]) == Some([b0, b1, b2]) &&
      DecodeLast(g[0], g[1], g[2], g[3]) == Some([b0, b1, b2])
  {
  }

  lemma Last1RoundTrip(b0: byte)
    ensures var t := EncodeLast1(b0); DecodeLast(t[0], t[1], t[2], t[3]) == Some([b0])
  {
  }

  lemma Last2RoundTrip(b0: byte, b1: byte)
    ensures var t := EncodeLast2(b0, b1); DecodeLast(t[0], t[1], t[2], t[3]) == Some([b0, b1])
  {
  }

  /** Decoding recovers exactly the encoded bytes. */
  lemma {:induction false} DecodeEncode(data: seq<byte>)
    ensures Decode(Encode(data)) == Some(data)
    decreases |data|
  {
    if |data| >= 3 {
      var b0, b1, b2 := data[0], data[1], data[2];
      var g := EncodeGroup(b0, b1, b2);
      GroupRoundTrip(b0, b1, b2);
      var rest := Encode(data[3..]);
      assert Encode(data) == g + rest;
      if |data| == 3 {
        assert data[3..] == [];
        assert Encode(data) == g;
        assert data == [b0, b1, b2];
      } else {
        DecodeEncode(data[3..]);
        assert (g + rest)[4..] == rest;
        assert data == [b0, b1, b2] + data[3..];
      }
    } else if |data| == 2 {
      Last2RoundTrip(data[0], data[1]);
      assert Encode(data) == EncodeLast2(data[0], data[1]);
      assert data == [data[0], data[1]];
    } else if |data| == 1 {
      Last1RoundTrip(data[0]);
      assert Encode(data) == EncodeLast1(data[0]);
      assert data == [data[0]];
    }
  }
}
