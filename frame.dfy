/**
 * The frame assembler of the radio telemetry codec (`Radio::encode` and
 * `Radio::decode`).
 *
 * One frame is 42 bytes with no tags and no length: eight double-precision
 * readings quantized into 2, 3, 3, 4, 4, 2, 2 and 2 bytes, six
 * single-precision readings in 2 bytes each, four raw bytes copied verbatim,
 * and a 32-bit counter in four big-endian bytes. The table below fixes where
 * each quantized field starts, how wide it is and at what scale it is
 * quantized; `EncodeFrame` and `DecodeFrame` are the layout read as
 * functions, and the methods `Encode` and `Decode` are proved to write
 * exactly what those functions describe.
 */
module Frame {
  import opened Bytes
  import opened Quantizer

  /** Bytes in one frame. */
  const FrameSize: nat := 42
  /** First of the four raw bytes. */
  const U8Offset: nat := 34
  /** First of the four counter bytes. */
  const CounterOffset: nat := 38

  /** The C type `uint32_t`. */
  type U32 = n: int | 0 <= n < 0x1_0000_0000

  /** A multiplier applied before truncation. */
  type Scale = s: int | s > 0 witness 1

  /** One quantized field: its first byte in the frame, its byte width and its scale. */
  datatype Field = Field(offset: nat, width: nat, scale: Scale)

  /** The double-precision slots D0..D7, in frame order. */
  const DoubleFields: seq<Field> := [
    Field(0, 2, Scale2), Field(2, 3, Scale2), Field(5, 3, Scale2), Field(8, 4, Scale4),
    Field(12, 4, Scale4), Field(16, 2, Scale2), Field(18, 2, Scale2), Field(20, 2, Scale2)]

  /** The single-precision slots F0..F5, in frame order. */
  const FloatFields: seq<Field> := [
    Field(22, 2, Scale2), Field(24, 2, Scale2), Field(26, 2, Scale2),
    Field(28, 2, Scale2), Field(30, 2, Scale2), Field(32, 2, Scale2)]

  /** The fields from index `i` on lie back to back, the first of them starting at `start`. */
  predicate Contiguous(fields: seq<Field>, i: nat, start: nat)
    requires i <= |fields|
    decreases |fields| - i
  {
    i == |fields| || (fields[i].offset == start && Contiguous(fields, i + 1, start + fields[i].width))
  }

  /** Total width of the fields from index `i` on. */
  function WidthFrom(fields: seq<Field>, i: nat): (w: nat)
    requires i <= |fields|
    decreases |fields| - i
  {
    if i == |fields| then 0 else fields[i].width + WidthFrom(fields, i + 1)
  }

  /**
   * The layout tiles the frame: D0..D7 cover bytes 0..21, F0..F5 cover
   * 22..33, the raw bytes 34..37 and the counter 38..41, with no gap and no
   * overlap.
   */
  lemma LayoutTiles()
    ensures Contiguous(DoubleFields, 0, 0) && WidthFrom(DoubleFields, 0) == 22
    ensures Contiguous(FloatFields, 0, 22) && WidthFrom(FloatFields, 0) == 12
    ensures 22 + 12 == U8Offset && U8Offset + 4 == CounterOffset && CounterOffset + 4 == FrameSize
  {
    assert Contiguous(DoubleFields, 8, 22) && WidthFrom(DoubleFields, 8) == 0;
    assert Contiguous(DoubleFields, 7, 20) && WidthFrom(DoubleFields, 7) == 2;
    assert Contiguous(DoubleFields, 6, 18) && WidthFrom(DoubleFields, 6) == 4;
    assert Contiguous(DoubleFields, 5, 16) && WidthFrom(DoubleFields, 5) == 6;
    assert Contiguous(DoubleFields, 4, 12) && WidthFrom(DoubleFields, 4) == 10;
    assert Contiguous(DoubleFields, 3, 8) && WidthFrom(DoubleFields, 3) == 14;
    assert Contiguous(DoubleFields, 2, 5) && WidthFrom(DoubleFields, 2) == 17;
    assert Contiguous(DoubleFields, 1, 2) && WidthFrom(DoubleFields, 1) == 20;
    assert Contiguous(FloatFields, 6, 34) && WidthFrom(FloatFields, 6) == 0;
    assert Contiguous(FloatFields, 5, 32) && WidthFrom(FloatFields, 5) == 2;
    assert Contiguous(FloatFields, 4, 30) && WidthFrom(FloatFields, 4) == 4;
    assert Contiguous(FloatFields, 3, 28) && WidthFrom(FloatFields, 3) == 6;
    assert Contiguous(FloatFields, 2, 26) && WidthFrom(FloatFields, 2) == 8;
    assert Contiguous(FloatFields, 1, 24) && WidthFrom(FloatFields, 1) == 10;
  }

  /** The table entries one by one. */
  lemma TableEntries()
    ensures DoubleFields[0] == Field(0, 2, Scale2) && DoubleFields[1] == Field(2, 3, Scale2)
    ensures DoubleFields[2] == Field(5, 3, Scale2) && DoubleFields[3] == Field(8, 4, Scale4)
    ensures DoubleFields[4] == Field(12, 4, Scale4) && DoubleFields[5] == Field(16, 2, Scale2)
    ensures DoubleFields[6] == Field(18, 2, Scale2) && DoubleFields[7] == Field(20, 2, Scale2)
    ensures FloatFields[0] == Field(22, 2, Scale2) && FloatFields[1] == Field(24, 2, Scale2)
    ensures FloatFields[2] == Field(26, 2, Scale2) && FloatFields[3] == Field(28, 2, Scale2)
    ensures FloatFields[4] == Field(30, 2, Scale2) && FloatFields[5] == Field(32, 2, Scale2)
  {
  }

  /** Every field is two to four bytes wide; single-precision fields are two. */
  lemma TableRanges()
    ensures forall k :: 0 <= k < |DoubleFields| ==> 2 <= DoubleFields[k].width <= 4
    ensures forall k :: 0 <= k < |FloatFields| ==> FloatFields[k].width == 2
  {
  }

  /** Every field of a contiguous run ends by the end of the run. */
  lemma {:induction false} FieldWithin(fields: seq<Field>, i: nat, start: nat, k: nat)
    requires i <= k < |fields| && Contiguous(fields, i, start)
    ensures start <= fields[k].offset
    ensures fields[k].offset + fields[k].width <= start + WidthFrom(fields, i)
    decreases k - i
  {
    if i < k {
      FieldWithin(fields, i + 1, start + fields[i].width, k);
    }
  }

  // --------------------------------------------------------------- encoding

  /** The bytes one reading takes in its field. */
  function QuantizedField(x: real, fd: Field): (bs: seq<Byte>)
    ensures |bs| == fd.width
  {
    SplitBE(Quantize(x, fd.scale), fd.width)
  }

  /** The quantized fields from index `i` on, concatenated in order. */
  function EncodeFrom(vals: seq<real>, fields: seq<Field>, i: nat): (bs: seq<Byte>)
    requires |vals| == |fields| && i <= |fields|
    ensures |bs| == WidthFrom(fields, i)
    decreases |fields| - i
  {
    if i == |fields| then [] else QuantizedField(vals[i], fields[i]) + EncodeFrom(vals, fields, i + 1)
  }

  /** The frame that `Radio::encode` assembles from its four inputs. */
  function EncodeFrame(d: seq<real>, f: seq<real>, u8: seq<Byte>, c: U32): (frame: seq<Byte>)
    requires |d| == |DoubleFields| && |f| == |FloatFields| && |u8| == 4
    ensures |frame| == FrameSize
  {
    LayoutTiles();
    EncodeFrom(d, DoubleFields, 0) + (EncodeFrom(f, FloatFields, 0) + (u8 + SplitBE(c, 4)))
  }

  /** Field `k` of a contiguous run sits at its own offset in the run's bytes. */
  lemma {:induction false} EncodeFromAt(vals: seq<real>, fields: seq<Field>, i: nat, start: nat, k: nat)
    requires |vals| == |fields| && i <= k < |fields| && Contiguous(fields, i, start)
    ensures fields[k].offset - start + fields[k].width <= |EncodeFrom(vals, fields, i)|
    ensures start <= fields[k].offset
    ensures EncodeFrom(vals, fields, i)[fields[k].offset - start .. fields[k].offset - start + fields[k].width]
         == QuantizedField(vals[k], fields[k])
    decreases k - i
  {
    FieldWithin(fields, i, start, k);
    if i < k {
      EncodeFromAt(vals, fields, i + 1, start + fields[i].width, k);
    }
  }

  /**
   * Changing one reading changes only the bytes of its own field: outside
   * field `k`, the runs encoded from two value lists that differ at most at
   * `k` are identical.
   */
  lemma {:induction false} EncodeFromIsolation(vals: seq<real>, vals': seq<real>, fields: seq<Field>, i: nat, start: nat, k: nat)
    requires |vals| == |vals'| == |fields| && i <= k < |fields| && Contiguous(fields, i, start)
    requires forall j :: 0 <= j < |fields| && j != k ==> vals[j] == vals'[j]
    ensures start <= fields[k].offset
    ensures forall n :: 0 <= n < WidthFrom(fields, i) && !(fields[k].offset <= start + n < fields[k].offset + fields[k].width) ==>
      EncodeFrom(vals, fields, i)[n] == EncodeFrom(vals', fields, i)[n]
    decreases k - i
  {
    FieldWithin(fields, i, start, k);
    if i < k {
      EncodeFromIsolation(vals, vals', fields, i + 1, start + fields[i].width, k);
    } else {
      EncodeFromSame(vals, vals', fields, i + 1);
    }
  }

  /** Runs encoded from value lists that agree from index `i` on are identical. */
  lemma {:induction false} EncodeFromSame(vals: seq<real>, vals': seq<real>, fields: seq<Field>, i: nat)
    requires |vals| == |vals'| == |fields| && i <= |fields|
    requires forall j :: i <= j < |fields| ==> vals[j] == vals'[j]
    ensures EncodeFrom(vals, fields, i) == EncodeFrom(vals', fields, i)
    decreases |fields| - i
  {
    if i < |fields| {
      EncodeFromSame(vals, vals', fields, i + 1);
    }
  }

  /**
   * The fixed frame layout: each D and F slot holds the quantized bytes of
   * its own reading at the offset and width of the table, bytes 34..37 are
   * the raw bytes as given, and bytes 38..41 are the counter most
   * significant first.
   */
  lemma FrameLayout(d: seq<real>, f: seq<real>, u8: seq<Byte>, c: U32)
    requires |d| == |DoubleFields| && |f| == |FloatFields| && |u8| == 4
    ensures var frame := EncodeFrame(d, f, u8, c);
      forall k :: 0 <= k < |DoubleFields| ==>
        var fd := DoubleFields[k];
        fd.offset + fd.width <= FrameSize && frame[fd.offset .. fd.offset + fd.width] == QuantizedField(d[k], fd)
    ensures var frame := EncodeFrame(d, f, u8, c);
      forall k :: 0 <= k < |FloatFields| ==>
        var fd := FloatFields[k];
        fd.offset + fd.width <= FrameSize && frame[fd.offset .. fd.offset + fd.width] == QuantizedField(f[k], fd)
    ensures EncodeFrame(d, f, u8, c)[U8Offset .. CounterOffset] == u8
    ensures EncodeFrame(d, f, u8, c)[CounterOffset .. FrameSize] == SplitBE(c, 4)
  {
    DoubleLayout(d, f, u8, c);
    FloatLayout(d, f, u8, c);
    TailLayout(d, f, u8, c);
  }

  /** The D part of the layout: slot `k` holds the quantized bytes of `d[k]`. */
  lemma DoubleLayout(d: seq<real>, f: seq<real>, u8: seq<Byte>, c: U32)
    requires |d| == |DoubleFields| && |f| == |FloatFields| && |u8| == 4
    ensures var frame := EncodeFrame(d, f, u8, c);
      forall k :: 0 <= k < |DoubleFields| ==>
        var fd := DoubleFields[k];
        fd.offset + fd.width <= FrameSize && frame[fd.offset .. fd.offset + fd.width] == QuantizedField(d[k], fd)
  {
    LayoutTiles();
    var frame, ds := EncodeFrame(d, f, u8, c), EncodeFrom(d, DoubleFields, 0);
    var rest := EncodeFrom(f, FloatFields, 0) + (u8 + SplitBE(c, 4));
    forall k | 0 <= k < |DoubleFields|
      ensures var fd := DoubleFields[k];
        fd.offset + fd.width <= FrameSize && frame[fd.offset .. fd.offset + fd.width] == QuantizedField(d[k], fd)
    {
      var fd := DoubleFields[k];
      EncodeFromAt(d, DoubleFields, 0, 0, k);
      SliceLeft(ds, rest, fd.offset, fd.offset + fd.width);
    }
  }

  /** The F part of the layout: slot `k` holds the quantized bytes of `f[k]`. */
  lemma FloatLayout(d: seq<real>, f: seq<real>, u8: seq<Byte>, c: U32)
    requires |d| == |DoubleFields| && |f| == |FloatFields| && |u8| == 4
    ensures var frame := EncodeFrame(d, f, u8, c);
      forall k :: 0 <= k < |FloatFields| ==>
        var fd := FloatFields[k];
        fd.offset + fd.width <= FrameSize && frame[fd.offset .. fd.offset + fd.width] == QuantizedField(f[k], fd)
  {
    LayoutTiles();
    var frame, ds, fs := EncodeFrame(d, f, u8, c), EncodeFrom(d, DoubleFields, 0), EncodeFrom(f, FloatFields, 0);
    var tail := u8 + SplitBE(c, 4);
    forall k | 0 <= k < |FloatFields|
      ensures var fd := FloatFields[k];
        fd.offset + fd.width <= FrameSize && frame[fd.offset .. fd.offset + fd.width] == QuantizedField(f[k], fd)
    {
      var fd := FloatFields[k];
      EncodeFromAt(f, FloatFields, 0, 22, k);
      SliceRight(ds, fs + tail, fd.offset, fd.offset + fd.width);
      SliceLeft(fs, tail, fd.offset - 22, fd.offset - 22 + fd.width);
    }
  }

  /** The fixed tail of the layout: the raw bytes, then the counter. */
  lemma TailLayout(d: seq<real>, f: seq<real>, u8: seq<Byte>, c: U32)
    requires |d| == |DoubleFields| && |f| == |FloatFields| && |u8| == 4
    ensures EncodeFrame(d, f, u8, c)[U8Offset .. CounterOffset] == u8
    ensures EncodeFrame(d, f, u8, c)[CounterOffset .. FrameSize] == SplitBE(c, 4)
  {
    LayoutTiles();
    var frame := EncodeFrame(d, f, u8, c);
    var ds, fs, tail := EncodeFrom(d, DoubleFields, 0), EncodeFrom(f, FloatFields, 0), u8 + SplitBE(c, 4);
    SliceRight(ds, fs + tail, U8Offset, FrameSize);
    SliceRight(fs, tail, U8Offset - 22, FrameSize - 22);
  }

  /**
   * Field isolation for the double-precision slots: when two reading lists
   * differ only in slot `k`, their frames differ only inside that slot's
   * bytes.
   */
  lemma DoubleIsolation(k: nat, d: seq<real>, d': seq<real>, f: seq<real>, u8: seq<Byte>, c: U32)
    requires |d| == |d'| == |DoubleFields| && |f| == |FloatFields| && |u8| == 4 && k < |DoubleFields|
    requires forall j :: 0 <= j < |DoubleFields| && j != k ==> d[j] == d'[j]
    ensures forall n :: 0 <= n < FrameSize && !(DoubleFields[k].offset <= n < DoubleFields[k].offset + DoubleFields[k].width) ==>
      EncodeFrame(d, f, u8, c)[n] == EncodeFrame(d', f, u8, c)[n]
  {
    LayoutTiles();
    EncodeFromIsolation(d, d', DoubleFields, 0, 0, k);
  }

  /**
   * Field isolation for the single-precision slots: when two reading lists
   * differ only in slot `k`, their frames differ only inside that slot's
   * two bytes.
   */
  lemma FloatIsolation(k: nat, d: seq<real>, f: seq<real>, f': seq<real>, u8: seq<Byte>, c: U32)
    requires |d| == |DoubleFields| && |f| == |f'| == |FloatFields| && |u8| == 4 && k < |FloatFields|
    requires forall j :: 0 <= j < |FloatFields| && j != k ==> f[j] == f'[j]
    ensures forall n :: 0 <= n < FrameSize && !(FloatFields[k].offset <= n < FloatFields[k].offset + FloatFields[k].width) ==>
      EncodeFrame(d, f, u8, c)[n] == EncodeFrame(d, f', u8, c)[n]
  {
    LayoutTiles();
    EncodeFromIsolation(f, f', FloatFields, 0, 22, k);
  }

  /** Changing only D3 changes only bytes 8..11. */
  lemma D3Isolation(d: seq<real>, x: real, f: seq<real>, u8: seq<Byte>, c: U32)
    requires |d| == |DoubleFields| && |f| == |FloatFields| && |u8| == 4
    ensures var frame, frame' := EncodeFrame(d, f, u8, c), EncodeFrame(d[3 := x], f, u8, c);
      frame[..8] == frame'[..8] && frame[12..] == frame'[12..]
  {
    DoubleIsolation(3, d, d[3 := x], f, u8, c);
  }

  // --------------------------------------------------------------- decoding

  /** The reading a field's bytes decode to: their unsigned value over the field's scale. */
  function DecodeField(frame: seq<Byte>, fd: Field): (r: real)
    requires fd.offset + fd.width <= |frame|
    ensures 0.0 <= r
  {
    JoinBE(frame[fd.offset .. fd.offset + fd.width]) as real / fd.scale as real
  }

  /**
   * Decoding is exact on the wire: quantizing a decoded reading again and
   * splitting it at the field's width gives back the field's bytes.
   */
  lemma FieldReencode(frame: seq<Byte>, fd: Field)
    requires fd.offset + fd.width <= |frame|
    ensures QuantizedField(DecodeField(frame, fd), fd) == frame[fd.offset .. fd.offset + fd.width]
  {
    var bs := frame[fd.offset .. fd.offset + fd.width];
    var n := JoinBE(bs);
    ScaleBack(n, fd.scale);
    assert Quantize(DecodeField(frame, fd), fd.scale) == n;
    SplitJoin(bs);
  }

  /** Dividing a non-negative integer by a scale and multiplying it back is exact over the reals. */
  lemma ScaleBack(n: int, s: Scale)
    requires n >= 0
    ensures (n as real / s as real) * s as real == n as real
  {
  }

  /** Every field of the list lies inside a buffer of `n` bytes. */
  predicate FieldsFit(fields: seq<Field>, n: nat)
  {
    forall k :: 0 <= k < |fields| ==> fields[k].offset + fields[k].width <= n
  }

  /** The readings of all the fields, in order. */
  function DecodeFields(frame: seq<Byte>, fields: seq<Field>): (vals: seq<real>)
    requires FieldsFit(fields, |frame|)
    ensures |vals| == |fields|
  {
    seq(|fields|, k requires 0 <= k < |fields| => DecodeField(frame, fields[k]))
  }

  /** Both tables fit in a frame. */
  lemma TablesFit()
    ensures FieldsFit(DoubleFields, FrameSize) && FieldsFit(FloatFields, FrameSize)
  {
    LayoutTiles();
    forall k | 0 <= k < |DoubleFields| ensures DoubleFields[k].offset + DoubleFields[k].width <= FrameSize {
      FieldWithin(DoubleFields, 0, 0, k);
    }
    forall k | 0 <= k < |FloatFields| ensures FloatFields[k].offset + FloatFields[k].width <= FrameSize {
      FieldWithin(FloatFields, 0, 22, k);
    }
  }

  /** What `Radio::decode` hands back to its caller: the D and F readings and the raw bytes. */
  datatype Readings = Readings(doubles: seq<real>, floats: seq<real>, bytes: seq<Byte>)

  /** The readings `Radio::decode` writes into its caller's arrays; the counter is not among them. */
  function DecodeFrame(frame: seq<Byte>): (r: Readings)
    requires |frame| >= FrameSize
    ensures |r.doubles| == |DoubleFields| && |r.floats| == |FloatFields| && |r.bytes| == 4
  {
    TablesFit();
    Readings(DecodeFields(frame, DoubleFields), DecodeFields(frame, FloatFields), frame[U8Offset .. CounterOffset])
  }

  /** The counter value `Radio::decode` computes from bytes 38..41. */
  function DecodeCounter(frame: seq<Byte>): (c: U32)
    requires |frame| >= FrameSize
    ensures SplitBE(c, 4) == frame[CounterOffset .. FrameSize]
  {
    assert Pow256(4) == 0x1_0000_0000;
    SplitJoin(frame[CounterOffset .. FrameSize]);
    JoinBE(frame[CounterOffset .. FrameSize])
  }

  /** The readings depend on the first 38 bytes only: neither the counter bytes nor anything after byte 41 reaches them. */
  lemma DecodeFrameReads(frame: seq<Byte>, frame': seq<Byte>)
    requires |frame| >= FrameSize && |frame'| >= FrameSize
    requires frame[..CounterOffset] == frame'[..CounterOffset]
    ensures DecodeFrame(frame) == DecodeFrame(frame')
  {
    TablesFit();
    forall k | 0 <= k < |DoubleFields| ensures DecodeField(frame, DoubleFields[k]) == DecodeField(frame', DoubleFields[k]) {
      var fd := DoubleFields[k];
      SliceOfPrefix(frame, CounterOffset, fd.offset, fd.offset + fd.width);
      SliceOfPrefix(frame', CounterOffset, fd.offset, fd.offset + fd.width);
    }
    forall k | 0 <= k < |FloatFields| ensures DecodeField(frame, FloatFields[k]) == DecodeField(frame', FloatFields[k]) {
      var fd := FloatFields[k];
      SliceOfPrefix(frame, CounterOffset, fd.offset, fd.offset + fd.width);
      SliceOfPrefix(frame', CounterOffset, fd.offset, fd.offset + fd.width);
    }
    SliceOfPrefix(frame, CounterOffset, U8Offset, CounterOffset);
    SliceOfPrefix(frame', CounterOffset, U8Offset, CounterOffset);
  }

  /** The counter depends on bytes 38..41 only. */
  lemma DecodeCounterReads(frame: seq<Byte>, frame': seq<Byte>)
    requires |frame| >= FrameSize && |frame'| >= FrameSize
    requires frame[CounterOffset .. FrameSize] == frame'[CounterOffset .. FrameSize]
    ensures DecodeCounter(frame) == DecodeCounter(frame')
  {
  }

  // ------------------------------------------------------------ round-trips

  /**
   * Decoding an encoded frame: the raw bytes come back exactly, and every D
   * and F slot comes back as its scaled integer modulo the slot's window,
   * over the slot's scale; a slot whose scaled integer lies in
   * `[0, 256^width)` comes back exactly as that integer over the scale.
   */
  lemma FrameRoundTrip(d: seq<real>, f: seq<real>, u8: seq<Byte>, c: U32)
    requires |d| == |DoubleFields| && |f| == |FloatFields| && |u8| == 4
    ensures var r := DecodeFrame(EncodeFrame(d, f, u8, c));
      r.bytes == u8 &&
      (forall k :: 0 <= k < |DoubleFields| ==>
        var fd := DoubleFields[k];
        r.doubles[k] == (Quantize(d[k], fd.scale) % Pow256(fd.width)) as real / fd.scale as real) &&
      (forall k :: 0 <= k < |FloatFields| ==>
        var fd := FloatFields[k];
        r.floats[k] == (Quantize(f[k], fd.scale) % Pow256(fd.width)) as real / fd.scale as real)
    ensures var r := DecodeFrame(EncodeFrame(d, f, u8, c));
      (forall k :: 0 <= k < |DoubleFields| && 0 <= Quantize(d[k], DoubleFields[k].scale) < Pow256(DoubleFields[k].width) ==>
        r.doubles[k] == Quantize(d[k], DoubleFields[k].scale) as real / DoubleFields[k].scale as real) &&
      (forall k :: 0 <= k < |FloatFields| && 0 <= Quantize(f[k], FloatFields[k].scale) < Pow256(FloatFields[k].width) ==>
        r.floats[k] == Quantize(f[k], FloatFields[k].scale) as real / FloatFields[k].scale as real)
  {
    FrameLayout(d, f, u8, c);
    var r := DecodeFrame(EncodeFrame(d, f, u8, c));
    forall k | 0 <= k < |DoubleFields|
      ensures var fd := DoubleFields[k];
        r.doubles[k] == (Quantize(d[k], fd.scale) % Pow256(fd.width)) as real / fd.scale as real
      ensures 0 <= Quantize(d[k], DoubleFields[k].scale) < Pow256(DoubleFields[k].width) ==>
        r.doubles[k] == Quantize(d[k], DoubleFields[k].scale) as real / DoubleFields[k].scale as real
    {
      var fd := DoubleFields[k];
      JoinSplit(Quantize(d[k], fd.scale), fd.width);
      if 0 <= Quantize(d[k], fd.scale) < Pow256(fd.width) {
        InWindowRoundTrip(Quantize(d[k], fd.scale), fd.width);
      }
    }
    forall k | 0 <= k < |FloatFields|
      ensures var fd := FloatFields[k];
        r.floats[k] == (Quantize(f[k], fd.scale) % Pow256(fd.width)) as real / fd.scale as real
      ensures 0 <= Quantize(f[k], FloatFields[k].scale) < Pow256(FloatFields[k].width) ==>
        r.floats[k] == Quantize(f[k], FloatFields[k].scale) as real / FloatFields[k].scale as real
    {
      var fd := FloatFields[k];
      JoinSplit(Quantize(f[k], fd.scale), fd.width);
      if 0 <= Quantize(f[k], fd.scale) < Pow256(fd.width) {
        InWindowRoundTrip(Quantize(f[k], fd.scale), fd.width);
      }
    }
  }

  /** The counter bytes of an encoded frame decode to the counter. */
  lemma CounterRoundTrip(d: seq<real>, f: seq<real>, u8: seq<Byte>, c: U32)
    requires |d| == |DoubleFields| && |f| == |FloatFields| && |u8| == 4
    ensures DecodeCounter(EncodeFrame(d, f, u8, c)) == c
  {
    FrameLayout(d, f, u8, c);
    InWindowRoundTrip(c, 4);
  }

  /**
   * What `Radio::decode` returns carries no trace of the counter: two frames
   * that differ only in the counter they were encoded with decode to the
   * same readings, so the caller cannot learn the counter.
   */
  lemma CounterNotDelivered(d: seq<real>, f: seq<real>, u8: seq<Byte>, c: U32, c': U32)
    requires |d| == |DoubleFields| && |f| == |FloatFields| && |u8| == 4
    ensures DecodeFrame(EncodeFrame(d, f, u8, c)) == DecodeFrame(EncodeFrame(d, f, u8, c'))
    ensures c != c' ==> EncodeFrame(d, f, u8, c) != EncodeFrame(d, f, u8, c')
  {
    var frame, frame' := EncodeFrame(d, f, u8, c), EncodeFrame(d, f, u8, c');
    assert frame[..CounterOffset] == frame'[..CounterOffset];
    DecodeFrameReads(frame, frame');
    CounterRoundTrip(d, f, u8, c);
    CounterRoundTrip(d, f, u8, c');
  }

  // ---------------------------------------------------------------- methods

  /**
   * `Radio::encode`: quantizes each D and F reading into a scratch group with
   * the slot's encoder, copies the groups, the raw bytes and the counter into
   * bytes 0..41 of `frame`, and touches nothing past byte 41.
   */
  method Encode(dataD: array<real>, dataF: array<real>, dataU8: array<Byte>, dataU32: U32, frame: array<Byte>)
    requires dataD.Length >= |DoubleFields| && dataF.Length >= |FloatFields| && dataU8.Length >= 4
    requires frame.Length >= FrameSize && dataU8 != frame
    modifies frame
    ensures frame[..FrameSize] == EncodeFrame(dataD[..8], dataF[..6], dataU8[..4], dataU32)
    ensures forall i :: FrameSize <= i < frame.Length ==> frame[i] == old(frame[i])
  {
    ghost var d, f, u8 := dataD[..8], dataF[..6], dataU8[..4];
    ghost var expected := EncodeFrame(d, f, u8, dataU32);
    TableEntries();
    DoubleSlot(d, f, u8, dataU32, 0);
    DoubleSlot(d, f, u8, dataU32, 1);
    DoubleSlot(d, f, u8, dataU32, 2);
    DoubleSlot(d, f, u8, dataU32, 3);
    DoubleSlot(d, f, u8, dataU32, 4);
    DoubleSlot(d, f, u8, dataU32, 5);
    DoubleSlot(d, f, u8, dataU32, 6);
    DoubleSlot(d, f, u8, dataU32, 7);
    FloatSlot(d, f, u8, dataU32, 0);
    FloatSlot(d, f, u8, dataU32, 1);
    FloatSlot(d, f, u8, dataU32, 2);
    FloatSlot(d, f, u8, dataU32, 3);
    FloatSlot(d, f, u8, dataU32, 4);
    FloatSlot(d, f, u8, dataU32, 5);
    TailSlots(d, f, u8, dataU32);
    PutDoubles(dataD, frame, expected);
    PutFloats(dataF, frame, expected);
    PutTail(dataU8, dataU32, frame, expected);
    assert frame[..FrameSize] == expected;
  }

  /** The last part of `Radio::encode`: the raw bytes into 34..37 and the counter, most significant first, into 38..41. */
  method PutTail(dataU8: array<Byte>, dataU32: U32, frame: array<Byte>, ghost expected: seq<Byte>)
    requires dataU8.Length >= 4 && frame.Length >= FrameSize && |expected| >= FrameSize && dataU8 != frame
    requires expected[34] == dataU8[0] && expected[35] == dataU8[1] && expected[36] == dataU8[2] && expected[37] == dataU8[3]
    requires expected[38] == ByteAt(dataU32, 3) && expected[39] == ByteAt(dataU32, 2)
    requires expected[40] == ByteAt(dataU32, 1) && expected[41] == ByteAt(dataU32, 0)
    requires forall k {:trigger frame[k]} :: 0 <= k < 34 ==> frame[k] == expected[k]
    modifies frame
    ensures forall k {:trigger frame[k]} :: 0 <= k < FrameSize ==> frame[k] == expected[k]
    ensures forall k :: FrameSize <= k < frame.Length ==> frame[k] == old(frame[k])
  {
    frame[34], frame[35], frame[36], frame[37] := dataU8[0], dataU8[1], dataU8[2], dataU8[3];
    frame[38], frame[39], frame[40], frame[41] :=
      ByteAt(dataU32, 3), ByteAt(dataU32, 2), ByteAt(dataU32, 1), ByteAt(dataU32, 0);
  }

  /**
   * The double-data half of `Radio::encode`: D0..D7 into bytes 0..21, each
   * through its own scratch group; `expected` holds the bytes the layout
   * prescribes for those slots.
   */
  method PutDoubles(dataD: array<real>, frame: array<Byte>, ghost expected: seq<Byte>)
    requires dataD.Length >= |DoubleFields| && frame.Length >= FrameSize && |expected| >= 22
    requires expected[0] == ByteAt(Quantize(dataD[0], Scale2), 1) && expected[1] == ByteAt(Quantize(dataD[0], Scale2), 0)
    requires expected[2] == ByteAt(Quantize(dataD[1], Scale2), 2) && expected[3] == ByteAt(Quantize(dataD[1], Scale2), 1) && expected[4] == ByteAt(Quantize(dataD[1], Scale2), 0)
    requires expected[5] == ByteAt(Quantize(dataD[2], Scale2), 2) && expected[6] == ByteAt(Quantize(dataD[2], Scale2), 1) && expected[7] == ByteAt(Quantize(dataD[2], Scale2), 0)
    requires expected[8] == ByteAt(Quantize(dataD[3], Scale4), 3) && expected[9] == ByteAt(Quantize(dataD[3], Scale4), 2) && expected[10] == ByteAt(Quantize(dataD[3], Scale4), 1) && expected[11] == ByteAt(Quantize(dataD[3], Scale4), 0)
    requires expected[12] == ByteAt(Quantize(dataD[4], Scale4), 3) && expected[13] == ByteAt(Quantize(dataD[4], Scale4), 2) && expected[14] == ByteAt(Quantize(dataD[4], Scale4), 1) && expected[15] == ByteAt(Quantize(dataD[4], Scale4), 0)
    requires expected[16] == ByteAt(Quantize(dataD[5], Scale2), 1) && expected[17] == ByteAt(Quantize(dataD[5], Scale2), 0)
    requires expected[18] == ByteAt(Quantize(dataD[6], Scale2), 1) && expected[19] == ByteAt(Quantize(dataD[6], Scale2), 0)
    requires expected[20] == ByteAt(Quantize(dataD[7], Scale2), 1) && expected[21] == ByteAt(Quantize(dataD[7], Scale2), 0)
    modifies frame
    ensures forall k {:trigger frame[k]} :: 0 <= k < 22 ==> frame[k] == expected[k]
    ensures forall k :: 22 <= k < frame.Length ==> frame[k] == old(frame[k])
  {
    PutDouble2(dataD[0], frame, 0, expected);
    PutDouble3(dataD[1], frame, 2, expected);
    PutDouble3(dataD[2], frame, 5, expected);
    PutDouble4(dataD[3], frame, 8, expected);
    PutDouble4(dataD[4], frame, 12, expected);
    PutDouble2(dataD[5], frame, 16, expected);
    PutDouble2(dataD[6], frame, 18, expected);
    PutDouble2(dataD[7], frame, 20, expected);
  }

  /**
   * The float-data half of `Radio::encode`: F0..F5 into bytes 22..33, each
   * through its own scratch pair, after the double-data half.
   */
  method PutFloats(dataF: array<real>, frame: array<Byte>, ghost expected: seq<Byte>)
    requires dataF.Length >= |FloatFields| && frame.Length >= FrameSize && |expected| >= 34
    requires expected[22] == ByteAt(Quantize(dataF[0], Scale2), 1) && expected[23] == ByteAt(Quantize(dataF[0], Scale2), 0)
    requires expected[24] == ByteAt(Quantize(dataF[1], Scale2), 1) && expected[25] == ByteAt(Quantize(dataF[1], Scale2), 0)
    requires expected[26] == ByteAt(Quantize(dataF[2], Scale2), 1) && expected[27] == ByteAt(Quantize(dataF[2], Scale2), 0)
    requires expected[28] == ByteAt(Quantize(dataF[3], Scale2), 1) && expected[29] == ByteAt(Quantize(dataF[3], Scale2), 0)
    requires expected[30] == ByteAt(Quantize(dataF[4], Scale2), 1) && expected[31] == ByteAt(Quantize(dataF[4], Scale2), 0)
    requires expected[32] == ByteAt(Quantize(dataF[5], Scale2), 1) && expected[33] == ByteAt(Quantize(dataF[5], Scale2), 0)
    requires forall k {:trigger frame[k]} :: 0 <= k < 22 ==> frame[k] == expected[k]
    modifies frame
    ensures forall k {:trigger frame[k]} :: 0 <= k < 34 ==> frame[k] == expected[k]
    ensures forall k :: 34 <= k < frame.Length ==> frame[k] == old(frame[k])
  {
    PutFloat2(dataF[0], frame, 22, expected);
    PutFloat2(dataF[1], frame, 24, expected);
    PutFloat2(dataF[2], frame, 26, expected);
    PutFloat2(dataF[3], frame, 28, expected);
    PutFloat2(dataF[4], frame, 30, expected);
    PutFloat2(dataF[5], frame, 32, expected);
  }

  /** The bytes that field `k` of the D table contributes to an encoded frame, one by one. */
  lemma DoubleSlot(d: seq<real>, f: seq<real>, u8: seq<Byte>, c: U32, k: nat)
    requires |d| == |DoubleFields| && |f| == |FloatFields| && |u8| == 4 && k < |DoubleFields|
    ensures var fd, frame := DoubleFields[k], EncodeFrame(d, f, u8, c);
      var q := Quantize(d[k], fd.scale);
      2 <= fd.width <= 4 &&
      frame[fd.offset] == ByteAt(q, fd.width - 1) && frame[fd.offset + 1] == ByteAt(q, fd.width - 2) &&
      (fd.width >= 3 ==> frame[fd.offset + 2] == ByteAt(q, fd.width - 3)) &&
      (fd.width == 4 ==> frame[fd.offset + 3] == ByteAt(q, 0))
  {
    DoubleLayout(d, f, u8, c);
    var fd, frame := DoubleFields[k], EncodeFrame(d, f, u8, c);
    var g := frame[fd.offset .. fd.offset + fd.width];
    assert g == SplitBE(Quantize(d[k], fd.scale), fd.width);
    TableRanges();
    SplitBEBytes(Quantize(d[k], fd.scale), fd.width);
    assert frame[fd.offset] == g[0] && frame[fd.offset + 1] == g[1];
    if fd.width >= 3 {
      assert frame[fd.offset + 2] == g[2];
    }
    if fd.width == 4 {
      assert frame[fd.offset + 3] == g[3];
    }
  }

  /** The bytes that field `k` of the F table contributes to an encoded frame, one by one. */
  lemma FloatSlot(d: seq<real>, f: seq<real>, u8: seq<Byte>, c: U32, k: nat)
    requires |d| == |DoubleFields| && |f| == |FloatFields| && |u8| == 4 && k < |FloatFields|
    ensures var fd, frame := FloatFields[k], EncodeFrame(d, f, u8, c);
      var q := Quantize(f[k], fd.scale);
      fd.width == 2 && frame[fd.offset] == ByteAt(q, 1) && frame[fd.offset + 1] == ByteAt(q, 0)
  {
    FloatLayout(d, f, u8, c);
    var fd, frame := FloatFields[k], EncodeFrame(d, f, u8, c);
    var g := frame[fd.offset .. fd.offset + fd.width];
    assert g == SplitBE(Quantize(f[k], fd.scale), fd.width);
    TableRanges();
    SplitBEBytes(Quantize(f[k], fd.scale), fd.width);
    assert frame[fd.offset] == g[0] && frame[fd.offset + 1] == g[1];
  }

  /** The raw bytes and the counter bytes of an encoded frame, one by one. */
  lemma TailSlots(d: seq<real>, f: seq<real>, u8: seq<Byte>, c: U32)
    requires |d| == |DoubleFields| && |f| == |FloatFields| && |u8| == 4
    ensures var frame := EncodeFrame(d, f, u8, c);
      frame[34] == u8[0] && frame[35] == u8[1] && frame[36] == u8[2] && frame[37] == u8[3]
    ensures var frame := EncodeFrame(d, f, u8, c);
      frame[38] == ByteAt(c, 3) && frame[39] == ByteAt(c, 2) && frame[40] == ByteAt(c, 1) && frame[41] == ByteAt(c, 0)
  {
    TailLayout(d, f, u8, c);
    var frame := EncodeFrame(d, f, u8, c);
    SlotBytes(frame, Field(U8Offset, 4, 1));
    SlotBytes(frame, Field(CounterOffset, 4, 1));
    SplitBEAt(c, 4, 0);
    SplitBEAt(c, 4, 1);
    SplitBEAt(c, 4, 2);
    SplitBEAt(c, 4, 3);
  }

  /** Slot work of `Radio::encode` for a two-byte D reading: `encode2byteD` into a scratch pair, copied to `at`. */
  method PutDouble2(x: real, frame: array<Byte>, at: nat, ghost expected: seq<Byte>)
    requires at + 2 <= frame.Length && at + 2 <= |expected|
    requires expected[at] == ByteAt(Quantize(x, Scale2), 1) && expected[at + 1] == ByteAt(Quantize(x, Scale2), 0)
    requires forall k {:trigger frame[k]} :: 0 <= k < at ==> frame[k] == expected[k]
    modifies frame
    ensures forall k {:trigger frame[k]} :: 0 <= k < at + 2 ==> frame[k] == expected[k]
    ensures forall k :: at + 2 <= k < frame.Length ==> frame[k] == old(frame[k])
  {
    var numBytes := new Byte[2];
    Encode2ByteD(x, numBytes);
    frame[at], frame[at + 1] := numBytes[0], numBytes[1];
  }

  /** Slot work of `Radio::encode` for a three-byte D reading: `encode3byte` into a scratch triple, copied to `at`. */
  method PutDouble3(x: real, frame: array<Byte>, at: nat, ghost expected: seq<Byte>)
    requires at + 3 <= frame.Length && at + 3 <= |expected|
    requires expected[at] == ByteAt(Quantize(x, Scale2), 2) && expected[at + 1] == ByteAt(Quantize(x, Scale2), 1) && expected[at + 2] == ByteAt(Quantize(x, Scale2), 0)
    requires forall k {:trigger frame[k]} :: 0 <= k < at ==> frame[k] == expected[k]
    modifies frame
    ensures forall k {:trigger frame[k]} :: 0 <= k < at + 3 ==> frame[k] == expected[k]
    ensures forall k :: at + 3 <= k < frame.Length ==> frame[k] == old(frame[k])
  {
    var numBytes := new Byte[3];
    Encode3Byte(x, numBytes);
    frame[at], frame[at + 1], frame[at + 2] := numBytes[0], numBytes[1], numBytes[2];
  }

  /** Slot work of `Radio::encode` for a four-byte D reading: `encode4byteD` into a scratch quad, copied to `at`. */
  method PutDouble4(x: real, frame: array<Byte>, at: nat, ghost expected: seq<Byte>)
    requires at + 4 <= frame.Length && at + 4 <= |expected|
    requires expected[at] == ByteAt(Quantize(x, Scale4), 3) && expected[at + 1] == ByteAt(Quantize(x, Scale4), 2) && expected[at + 2] == ByteAt(Quantize(x, Scale4), 1) && expected[at + 3] == ByteAt(Quantize(x, Scale4), 0)
    requires forall k {:trigger frame[k]} :: 0 <= k < at ==> frame[k] == expected[k]
    modifies frame
    ensures forall k {:trigger frame[k]} :: 0 <= k < at + 4 ==> frame[k] == expected[k]
    ensures forall k :: at + 4 <= k < frame.Length ==> frame[k] == old(frame[k])
  {
    var numBytes := new Byte[4];
    Encode4ByteD(x, numBytes);
    frame[at], frame[at + 1], frame[at + 2], frame[at + 3] := numBytes[0], numBytes[1], numBytes[2], numBytes[3];
  }

  /** Slot work of `Radio::encode` for an F reading: `encode2byte` into a scratch pair, copied to `at`. */
  method PutFloat2(x: real, frame: array<Byte>, at: nat, ghost expected: seq<Byte>)
    requires at + 2 <= frame.Length && at + 2 <= |expected|
    requires expected[at] == ByteAt(Quantize(x, Scale2), 1) && expected[at + 1] == ByteAt(Quantize(x, Scale2), 0)
    requires forall k {:trigger frame[k]} :: 0 <= k < at ==> frame[k] == expected[k]
    modifies frame
    ensures forall k {:trigger frame[k]} :: 0 <= k < at + 2 ==> frame[k] == expected[k]
    ensures forall k :: at + 2 <= k < frame.Length ==> frame[k] == old(frame[k])
  {
    var numBytes := new Byte[2];
    Encode2Byte(x, numBytes);
    frame[at], frame[at + 1] := numBytes[0], numBytes[1];
  }

  /**
   * The D and F readings of a frame, slot by slot, as the decoders compute
   * them from the slot's bytes.
   */
  lemma DecodeSlots(frame: seq<Byte>)
    requires |frame| >= FrameSize
    ensures DecodeFrame(frame).doubles == [
      Decode2ByteD(frame[0], frame[1]), Decode3Byte(frame[2], frame[3], frame[4]),
      Decode3Byte(frame[5], frame[6], frame[7]), Decode4ByteD(frame[8], frame[9], frame[10], frame[11]),
      Decode4ByteD(frame[12], frame[13], frame[14], frame[15]), Decode2ByteD(frame[16], frame[17]),
      Decode2ByteD(frame[18], frame[19]), Decode2ByteD(frame[20], frame[21])]
    ensures DecodeFrame(frame).floats == [
      Decode2Byte(frame[22], frame[23]), Decode2Byte(frame[24], frame[25]), Decode2Byte(frame[26], frame[27]),
      Decode2Byte(frame[28], frame[29]), Decode2Byte(frame[30], frame[31]), Decode2Byte(frame[32], frame[33])]
  {
    var r := DecodeFrame(frame);
    forall k | 0 <= k < |DoubleFields| ensures r.doubles[k] == DecodeField(frame, DoubleFields[k]) {
    }
    forall k | 0 <= k < |FloatFields| ensures r.floats[k] == DecodeField(frame, FloatFields[k]) {
    }
    SlotBytes(frame, DoubleFields[0]);
    SlotBytes(frame, DoubleFields[1]);
    SlotBytes(frame, DoubleFields[2]);
    SlotBytes(frame, DoubleFields[3]);
    SlotBytes(frame, DoubleFields[4]);
    SlotBytes(frame, DoubleFields[5]);
    SlotBytes(frame, DoubleFields[6]);
    SlotBytes(frame, DoubleFields[7]);
    SlotBytes(frame, FloatFields[0]);
    SlotBytes(frame, FloatFields[1]);
    SlotBytes(frame, FloatFields[2]);
    SlotBytes(frame, FloatFields[3]);
    SlotBytes(frame, FloatFields[4]);
    SlotBytes(frame, FloatFields[5]);
  }

  /**
   * `Radio::decode` as written: fills the caller's D, F and raw-byte arrays
   * from bytes 0..37 of `frame`. It also computes the counter from bytes
   * 38..41, but only into its by-value parameter `dataU32`, so the caller
   * never receives it.
   */
  method Decode(frame: array<Byte>, dataD: array<real>, dataF: array<real>, dataU8: array<Byte>, dataU32: U32)
    requires frame.Length >= FrameSize
    requires dataD.Length >= |DoubleFields| && dataF.Length >= |FloatFields| && dataU8.Length >= 4
    requires dataD != dataF && dataU8 != frame
    modifies dataD, dataF, dataU8
    ensures dataD[..8] == DecodeFrame(frame[..]).doubles
    ensures forall i :: 8 <= i < dataD.Length ==> dataD[i] == old(dataD[i])
    ensures dataF[..6] == DecodeFrame(frame[..]).floats
    ensures forall i :: 6 <= i < dataF.Length ==> dataF[i] == old(dataF[i])
    ensures dataU8[..4] == DecodeFrame(frame[..]).bytes
    ensures forall i :: 4 <= i < dataU8.Length ==> dataU8[i] == old(dataU8[i])
  {
    GetDoubles(frame, dataD);
    GetFloats(frame, dataF);
    SlotBytes(frame[..], Field(U8Offset, 4, 1));
    dataU8[0], dataU8[1], dataU8[2], dataU8[3] := frame[34], frame[35], frame[36], frame[37];
    // The counter lands in a local copy of the by-value parameter and is dropped.
    var counter := frame[38] as int * 0x100_0000 + frame[39] as int * 0x1_0000 + frame[40] as int * 0x100 + frame[41] as int;
  }

  /** The double-data part of `Radio::decode`: D0..D7 from bytes 0..21. */
  method GetDoubles(frame: array<Byte>, dataD: array<real>)
    requires frame.Length >= FrameSize && dataD.Length >= |DoubleFields|
    modifies dataD
    ensures dataD[..8] == DecodeFrame(frame[..]).doubles
    ensures forall i :: 8 <= i < dataD.Length ==> dataD[i] == old(dataD[i])
  {
    DecodeSlots(frame[..]);
    dataD[0] := Decode2ByteD(frame[0], frame[1]);
    dataD[1] := Decode3Byte(frame[2], frame[3], frame[4]);
    dataD[2] := Decode3Byte(frame[5], frame[6], frame[7]);
    dataD[3] := Decode4ByteD(frame[8], frame[9], frame[10], frame[11]);
    dataD[4] := Decode4ByteD(frame[12], frame[13], frame[14], frame[15]);
    dataD[5] := Decode2ByteD(frame[16], frame[17]);
    dataD[6] := Decode2ByteD(frame[18], frame[19]);
    dataD[7] := Decode2ByteD(frame[20], frame[21]);
  }

  /** The float-data part of `Radio::decode`: F0..F5 from bytes 22..33. */
  method GetFloats(frame: array<Byte>, dataF: array<real>)
    requires frame.Length >= FrameSize && dataF.Length >= |FloatFields|
    modifies dataF
    ensures dataF[..6] == DecodeFrame(frame[..]).floats
    ensures forall i :: 6 <= i < dataF.Length ==> dataF[i] == old(dataF[i])
  {
    DecodeSlots(frame[..]);
    dataF[0] := Decode2Byte(frame[22], frame[23]);
    dataF[1] := Decode2Byte(frame[24], frame[25]);
    dataF[2] := Decode2Byte(frame[26], frame[27]);
    dataF[3] := Decode2Byte(frame[28], frame[29]);
    dataF[4] := Decode2Byte(frame[30], frame[31]);
    dataF[5] := Decode2Byte(frame[32], frame[33]);
  }

  /**
   * `Radio::decode` with the counter delivered: the same stores, and the
   * counter from bytes 38..41 returned to the caller.
   */
  method DecodeWithCounter(frame: array<Byte>, dataD: array<real>, dataF: array<real>, dataU8: array<Byte>)
    returns (dataU32: U32)
    requires frame.Length >= FrameSize
    requires dataD.Length >= |DoubleFields| && dataF.Length >= |FloatFields| && dataU8.Length >= 4
    requires dataD != dataF && dataU8 != frame
    modifies dataD, dataF, dataU8
    ensures dataD[..8] == DecodeFrame(frame[..]).doubles
    ensures forall i :: 8 <= i < dataD.Length ==> dataD[i] == old(dataD[i])
    ensures dataF[..6] == DecodeFrame(frame[..]).floats
    ensures forall i :: 6 <= i < dataF.Length ==> dataF[i] == old(dataF[i])
    ensures dataU8[..4] == DecodeFrame(frame[..]).bytes
    ensures forall i :: 4 <= i < dataU8.Length ==> dataU8[i] == old(dataU8[i])
    ensures dataU32 == DecodeCounter(frame[..])
  {
    Decode(frame, dataD, dataF, dataU8, 0);
    dataU32 := frame[38] as int * 0x100_0000 + frame[39] as int * 0x1_0000 + frame[40] as int * 0x100 + frame[41] as int;
    assert frame[..][CounterOffset .. FrameSize] == [frame[38], frame[39], frame[40], frame[41]];
    JoinBE4(frame[38], frame[39], frame[40], frame[41]);
  }

  // ---------------------------------------------------------------- helpers

  /** A slice inside the left operand of a concatenation. */
  lemma SliceLeft<T>(x: seq<T>, y: seq<T>, a: nat, b: nat)
    requires a <= b <= |x|
    ensures (x + y)[a .. b] == x[a .. b]
  {
  }

  /** A slice inside the right operand of a concatenation. */
  lemma SliceRight<T>(x: seq<T>, y: seq<T>, a: nat, b: nat)
    requires |x| <= a <= b <= |x| + |y|
    ensures (x + y)[a .. b] == y[a - |x| .. b - |x|]
  {
  }

  /** A slice inside a prefix is the same slice of the whole. */
  lemma SliceOfPrefix<T>(s: seq<T>, n: nat, a: nat, b: nat)
    requires a <= b <= n <= |s|
    ensures s[..n][a .. b] == s[a .. b]
  {
  }

  /** Four bytes joined most significant first, spelled out as shifts and sums. */
  lemma JoinBE4(b0: Byte, b1: Byte, b2: Byte, b3: Byte)
    ensures JoinBE([b0, b1, b2, b3]) == b0 * 0x100_0000 + b1 * 0x1_0000 + b2 * 0x100 + b3
  {
    assert [b0, b1, b2, b3][..3] == [b0, b1, b2];
    assert [b0, b1, b2][..2] == [b0, b1];
    assert [b0, b1][..1] == [b0];
    assert [b0][..0] == [];
    assert JoinBE([b0, b1]) == b0 * 256 + b1;
    assert JoinBE([b0, b1, b2]) == (b0 * 256 + b1) * 256 + b2;
    assert JoinBE([b0, b1, b2, b3]) == ((b0 * 256 + b1) * 256 + b2) * 256 + b3;
  }

  /** The bytes of a field, spelled out one by one as the decoders receive them. */
  lemma SlotBytes(frame: seq<Byte>, fd: Field)
    requires fd.offset + fd.width <= |frame| && 2 <= fd.width <= 4
    ensures var o := fd.offset;
      frame[o .. o + fd.width] ==
        if fd.width == 2 then [frame[o], frame[o + 1]]
        else if fd.width == 3 then [frame[o], frame[o + 1], frame[o + 2]]
        else [frame[o], frame[o + 1], frame[o + 2], frame[o + 3]]
  {
  }
}
