/**
 * The scalar quantizer of the radio telemetry codec.
 *
 * An encoder multiplies a reading by its scale (100 for 2- and 3-byte fields,
 * 1,000,000 for 4-byte fields), truncates the product toward zero to an
 * integer `aux`, and stores the low bytes of `aux` most significant first
 * into a caller-owned array. A decoder concatenates the bytes big-endian into
 * an accumulator and divides by the same scale.
 *
 * The decoders never sign-extend the leading byte. The accumulator is read
 * here as an unbounded non-negative integer (in C, an `int` of at least 32
 * bits gives the same for widths 2 and 3, while width 4 needs a wider or an
 * unsigned accumulator), so every decoded value is non-negative: a reading whose scaled integer lies in `[0, 256^w)` comes
 * back as `aux / scale`, and any other comes back as
 * `(aux mod 256^w) / scale`, which for a negative reading is a positive
 * artifact. The lemmas below state both halves.
 */
module Quantizer {
  import opened Bytes

  /** Scale of the 2- and 3-byte fields: two decimal places. */
  const Scale2: int := 100
  /** Scale of the 4-byte fields: six decimal places. */
  const Scale4: int := 1000000

  /**
   * The C cast `(int) x` of a real value: truncation toward zero, so the
   * result never lies farther from zero than `x` and is less than one away.
   */
  function TruncateTowardZero(x: real): (n: int)
    ensures x >= 0.0 ==> n as real <= x < n as real + 1.0
    ensures x < 0.0 ==> n as real - 1.0 < x <= n as real
  {
    if x >= 0.0 then x.Floor else -((-x).Floor)
  }

  /** `(int) (number * scale)`: the scaled integer every encoder starts from. */
  function Quantize(number: real, scale: int): (aux: int)
    requires scale > 0
    ensures number >= 0.0 ==> 0 <= aux && aux as real <= number * scale as real < aux as real + 1.0
    ensures number < 0.0 ==> aux <= 0 && aux as real - 1.0 < number * scale as real <= aux as real
  {
    TruncateTowardZero(number * scale as real)
  }

  // ---------------------------------------------------------------- encoders

  /** `encode2byte`: a single-precision reading at scale 100, high byte first. */
  method Encode2Byte(number: real, encodeBytes: array<Byte>)
    requires encodeBytes.Length >= 2
    modifies encodeBytes
    ensures encodeBytes[..2] == SplitBE(Quantize(number, Scale2), 2)
    ensures encodeBytes[0] == ByteAt(Quantize(number, Scale2), 1) && encodeBytes[1] == ByteAt(Quantize(number, Scale2), 0)
    ensures forall i :: 2 <= i < encodeBytes.Length ==> encodeBytes[i] == old(encodeBytes[i])
  {
    var aux := Quantize(number, Scale2);
    var hb := ByteAt(aux, 1);
    var lb := ByteAt(aux, 0);
    encodeBytes[0] := hb;
    encodeBytes[1] := lb;
    SplitBEAt(aux, 2, 0);
    SplitBEAt(aux, 2, 1);
  }

  /** `encode2byteD`: a double-precision reading at scale 100, high byte first. */
  method Encode2ByteD(number: real, encodeBytes: array<Byte>)
    requires encodeBytes.Length >= 2
    modifies encodeBytes
    ensures encodeBytes[..2] == SplitBE(Quantize(number, Scale2), 2)
    ensures encodeBytes[0] == ByteAt(Quantize(number, Scale2), 1) && encodeBytes[1] == ByteAt(Quantize(number, Scale2), 0)
    ensures forall i :: 2 <= i < encodeBytes.Length ==> encodeBytes[i] == old(encodeBytes[i])
  {
    var aux := Quantize(number, Scale2);
    var hb := ByteAt(aux, 1);
    var lb := ByteAt(aux, 0);
    encodeBytes[0] := hb;
    encodeBytes[1] := lb;
    SplitBEAt(aux, 2, 0);
    SplitBEAt(aux, 2, 1);
  }

  /** `encode3byte`: a double-precision reading at scale 100 in three bytes. */
  method Encode3Byte(number: real, encodeBytes: array<Byte>)
    requires encodeBytes.Length >= 3
    modifies encodeBytes
    ensures encodeBytes[..3] == SplitBE(Quantize(number, Scale2), 3)
    ensures encodeBytes[0] == ByteAt(Quantize(number, Scale2), 2) && encodeBytes[1] == ByteAt(Quantize(number, Scale2), 1)
      && encodeBytes[2] == ByteAt(Quantize(number, Scale2), 0)
    ensures forall i :: 3 <= i < encodeBytes.Length ==> encodeBytes[i] == old(encodeBytes[i])
  {
    var aux := Quantize(number, Scale2);
    var hb := ByteAt(aux, 2);
    var mb := ByteAt(aux, 1);
    var lb := ByteAt(aux, 0);
    encodeBytes[0] := hb;
    encodeBytes[1] := mb;
    encodeBytes[2] := lb;
    SplitBEAt(aux, 3, 0);
    SplitBEAt(aux, 3, 1);
    SplitBEAt(aux, 3, 2);
  }

  /** `encode4byteD`: a double-precision reading at scale 1,000,000 in four bytes. */
  method Encode4ByteD(number: real, encodeBytes: array<Byte>)
    requires encodeBytes.Length >= 4
    modifies encodeBytes
    ensures encodeBytes[..4] == SplitBE(Quantize(number, Scale4), 4)
    ensures encodeBytes[0] == ByteAt(Quantize(number, Scale4), 3) && encodeBytes[1] == ByteAt(Quantize(number, Scale4), 2)
      && encodeBytes[2] == ByteAt(Quantize(number, Scale4), 1) && encodeBytes[3] == ByteAt(Quantize(number, Scale4), 0)
    ensures forall i :: 4 <= i < encodeBytes.Length ==> encodeBytes[i] == old(encodeBytes[i])
  {
    var aux := Quantize(number, Scale4);
    var hb := ByteAt(aux, 3);
    var m1b := ByteAt(aux, 2);
    var m2b := ByteAt(aux, 1);
    var lb := ByteAt(aux, 0);
    encodeBytes[0] := hb;
    encodeBytes[1] := m1b;
    encodeBytes[2] := m2b;
    encodeBytes[3] := lb;
    SplitBEAt(aux, 4, 0);
    SplitBEAt(aux, 4, 1);
    SplitBEAt(aux, 4, 2);
    SplitBEAt(aux, 4, 3);
  }

  // ---------------------------------------------------------------- decoders

  /** `decode2byte`: the unsigned big-endian value of two bytes over 100. */
  function Decode2Byte(byte1: Byte, byte2: Byte): (r: real)
    ensures r == JoinBE([byte1, byte2]) as real / Scale2 as real
    ensures 0.0 <= r <= 655.35
  {
    var aux := byte1;
    var aux := aux * 256 + byte2;
    assert [byte1, byte2][..1] == [byte1];
    aux as real / 100.0
  }

  /** `decode2byteD`: the double-precision twin of `decode2byte`. */
  function Decode2ByteD(byte1: Byte, byte2: Byte): (r: real)
    ensures r == JoinBE([byte1, byte2]) as real / Scale2 as real
    ensures 0.0 <= r <= 655.35
  {
    var aux := byte1;
    var aux := aux * 256 + byte2;
    assert [byte1, byte2][..1] == [byte1];
    aux as real / 100.0
  }

  /** `decode3byte`: the unsigned big-endian value of three bytes over 100. */
  function Decode3Byte(byte1: Byte, byte2: Byte, byte3: Byte): (r: real)
    ensures r == JoinBE([byte1, byte2, byte3]) as real / Scale2 as real
    ensures 0.0 <= r <= 167772.15
  {
    var aux := byte1;
    var aux := aux * 256 + byte2;
    var aux := aux * 256 + byte3;
    assert [byte1, byte2, byte3][..2] == [byte1, byte2];
    assert [byte1, byte2][..1] == [byte1];
    assert JoinBE([byte1, byte2]) == byte1 * 256 + byte2;
    aux as real / 100.0
  }

  /**
   * `decode4byteD`: the big-endian value of four bytes over 1,000,000, read
   * as unsigned (a 32-bit accumulator whose top bit is never a sign).
   */
  function Decode4ByteD(byte1: Byte, byte2: Byte, byte3: Byte, byte4: Byte): (r: real)
    ensures r == JoinBE([byte1, byte2, byte3, byte4]) as real / Scale4 as real
    ensures 0.0 <= r <= 4294.967295
  {
    var aux := byte1;
    var aux := aux * 256 + byte2;
    var aux := aux * 256 + byte3;
    var aux := aux * 256 + byte4;
    assert [byte1, byte2, byte3, byte4][..3] == [byte1, byte2, byte3];
    assert [byte1, byte2, byte3][..2] == [byte1, byte2];
    assert [byte1, byte2][..1] == [byte1];
    assert JoinBE([byte1, byte2]) == byte1 * 256 + byte2;
    assert JoinBE([byte1, byte2, byte3]) == (byte1 * 256 + byte2) * 256 + byte3;
    aux as real / 1000000.0
  }

  // --------------------------------------------------------- round-trips

  /**
   * Width 2: decoding the two bytes an encoder stores for `aux` gives
   * `(aux mod 65536) / 100`; exactly `aux / 100` for `aux` in `[0, 65536)`,
   * and for a negative 16-bit `aux` the positive `(aux + 65536) / 100`, which
   * is at least 327.68.
   */
  lemma RoundTrip2(aux: int)
    ensures var bs := SplitBE(aux, 2);
      Decode2Byte(bs[0], bs[1]) == Decode2ByteD(bs[0], bs[1]) == (aux % 0x10000) as real / 100.0
    ensures var bs := SplitBE(aux, 2);
      0 <= aux < 0x10000 ==> Decode2Byte(bs[0], bs[1]) == aux as real / 100.0
    ensures var bs := SplitBE(aux, 2);
      -0x8000 <= aux < 0 ==> Decode2Byte(bs[0], bs[1]) == (aux + 0x10000) as real / 100.0 >= 327.68
  {
    var bs := SplitBE(aux, 2);
    assert bs == [bs[0], bs[1]];
    JoinSplit(aux, 2);
    assert Pow256(2) == 0x10000;
    if 0 <= aux < 0x10000 {
      DivModUnique(aux, 0x10000, 0, aux);
    } else if -0x8000 <= aux < 0 {
      DivModUnique(aux, 0x10000, -1, aux + 0x10000);
    }
  }

  /**
   * Width 3: decoding gives `(aux mod 2^24) / 100`, exactly `aux / 100` for
   * `aux` in `[0, 2^24)`, and for a negative 24-bit `aux` the positive
   * artifact `(aux + 2^24) / 100`, at least 83886.08.
   */
  lemma RoundTrip3(aux: int)
    ensures var bs := SplitBE(aux, 3);
      Decode3Byte(bs[0], bs[1], bs[2]) == (aux % 0x100_0000) as real / 100.0
    ensures var bs := SplitBE(aux, 3);
      0 <= aux < 0x100_0000 ==> Decode3Byte(bs[0], bs[1], bs[2]) == aux as real / 100.0
    ensures var bs := SplitBE(aux, 3);
      -0x80_0000 <= aux < 0 ==> Decode3Byte(bs[0], bs[1], bs[2]) == (aux + 0x100_0000) as real / 100.0 >= 83886.08
  {
    var bs := SplitBE(aux, 3);
    assert bs == [bs[0], bs[1], bs[2]];
    JoinSplit(aux, 3);
    assert Pow256(3) == 0x100_0000;
    if 0 <= aux < 0x100_0000 {
      DivModUnique(aux, 0x100_0000, 0, aux);
    } else if -0x80_0000 <= aux < 0 {
      DivModUnique(aux, 0x100_0000, -1, aux + 0x100_0000);
    }
  }

  /**
   * Width 4, with the accumulator read as unsigned: decoding gives
   * `(aux mod 2^32) / 1,000,000`, exactly `aux / 1,000,000` for `aux` in
   * `[0, 2^32)` (which contains every non-negative 32-bit `int`), and
   * `(aux + 2^32) / 1,000,000` for a negative 32-bit `aux`. A signed 32-bit
   * accumulator that wraps would instead give the negative `aux` back.
   */
  lemma RoundTrip4(aux: int)
    ensures var bs := SplitBE(aux, 4);
      Decode4ByteD(bs[0], bs[1], bs[2], bs[3]) == (aux % 0x1_0000_0000) as real / 1000000.0
    ensures var bs := SplitBE(aux, 4);
      0 <= aux < 0x1_0000_0000 ==> Decode4ByteD(bs[0], bs[1], bs[2], bs[3]) == aux as real / 1000000.0
    ensures var bs := SplitBE(aux, 4);
      -0x8000_0000 <= aux < 0 ==>
        Decode4ByteD(bs[0], bs[1], bs[2], bs[3]) == (aux + 0x1_0000_0000) as real / 1000000.0 >= 2147.483648
  {
    var bs := SplitBE(aux, 4);
    assert bs == [bs[0], bs[1], bs[2], bs[3]];
    JoinSplit(aux, 4);
    assert Pow256(4) == 0x1_0000_0000;
    if 0 <= aux < 0x1_0000_0000 {
      DivModUnique(aux, 0x1_0000_0000, 0, aux);
    } else if -0x8000_0000 <= aux < 0 {
      DivModUnique(aux, 0x1_0000_0000, -1, aux + 0x1_0000_0000);
    }
  }

  /**
   * From a reading to the wire and back at width 2: a reading in
   * `[0, 655.36)` decodes to its value truncated to two decimal places,
   * never above the reading and less than 0.01 below it.
   */
  lemma ReadingRoundTrip2(number: real)
    requires 0.0 <= number < 655.36
    ensures var bs := SplitBE(Quantize(number, Scale2), 2);
      var v := Decode2Byte(bs[0], bs[1]);
      v == Quantize(number, Scale2) as real / 100.0 && v <= number < v + 0.01
  {
    RoundTrip2(Quantize(number, Scale2));
  }

  /**
   * The same at width 3: a reading in `[0, 167772.16)` decodes to its value
   * truncated to two decimal places.
   */
  lemma ReadingRoundTrip3(number: real)
    requires 0.0 <= number < 167772.16
    ensures var bs := SplitBE(Quantize(number, Scale2), 3);
      var v := Decode3Byte(bs[0], bs[1], bs[2]);
      v == Quantize(number, Scale2) as real / 100.0 && v <= number < v + 0.01
  {
    RoundTrip3(Quantize(number, Scale2));
  }

  /**
   * The same at width 4 and scale 1,000,000: a reading in
   * `[0, 2147.483648)`, the range of a non-negative 32-bit `int` after
   * scaling, decodes to its value truncated to six decimal places.
   */
  lemma ReadingRoundTrip4(number: real)
    requires 0.0 <= number < 2147.483648
    ensures var bs := SplitBE(Quantize(number, Scale4), 4);
      var v := Decode4ByteD(bs[0], bs[1], bs[2], bs[3]);
      v == Quantize(number, Scale4) as real / 1000000.0 && v <= number < v + 0.000001
  {
    RoundTrip4(Quantize(number, Scale4));
  }

  // ------------------------------------------------------ pinned examples

  /** 123.45 is sent as 12345 = 0x3039 and read back exactly. */
  lemma Example2Byte()
    ensures Quantize(123.45, Scale2) == 12345
    ensures SplitBE(12345, 2) == [0x30, 0x39]
    ensures Decode2Byte(0x30, 0x39) == 123.45
  {
  }

  /**
   * -75.01 at scale 1,000,000 is -75010000, sent in two's complement as
   * 0xFB 0x87 0x70 0x30; the unsigned reading of those bytes is the positive
   * 4219.957296 (a wrapping signed 32-bit accumulator would give -75.01).
   */
  lemma Example4ByteSignDefect()
    ensures Quantize(-75.01, Scale4) == -75010000
    ensures SplitBE(-75010000, 4) == [0xFB, 0x87, 0x70, 0x30]
    ensures Decode4ByteD(0xFB, 0x87, 0x70, 0x30) == 4219.957296
  {
  }
}
