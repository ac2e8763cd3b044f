# Radio telemetry codec: a verified model

This project models the fixed-point telemetry codec in `sw/Radio/radio.cpp`. The
balloon payload uses it to pack one set of sensor readings into a 42-byte radio
frame and to unpack the frame on the ground. The codec has two layers.

- **Scalar quantizer** (module `Quantizer`, built on module `Bytes`). Each
  encoder does the same three steps:
  - multiply the reading by its scale: 100 for 2- and 3-byte fields, 1,000,000
    for 4-byte fields;
  - truncate the product toward zero to an integer `aux`;
  - store the low 2, 3 or 4 bytes of `aux`, most significant first, into the
    caller's array.

  Each decoder joins the bytes big-endian into an accumulator and divides by
  the same scale. No decoder sign-extends the first byte. The model reads
  every accumulator as an unbounded, non-negative integer, so every decoded
  value is non-negative and a negative reading comes back as
  `(aux mod 256^w) / scale`. In C this holds for the 2- and 3-byte decoders
  with an `int` of at least 32 bits. For the 4-byte decoder it needs an
  accumulator wider than 32 bits, or an unsigned one. With a 32-bit signed
  `int`, `aux << 8` overflows when the first byte is `0x80` or more
  (sw/Radio/radio.cpp:121-123); under two's-complement wrap the source would
  return the signed value.
- **Frame assembler** (module `Frame`). `Radio::encode` lays out these slots
  at fixed offsets, with no gap:
  - eight double-precision readings D0..D7, at widths 2, 3, 3, 4, 4, 2, 2, 2
    (bytes 0..21);
  - six single-precision readings F0..F5, two bytes each (bytes 22..33);
  - four raw bytes, copied as they are (bytes 34..37);
  - a 32-bit counter, big-endian (bytes 38..41).

  `Radio::decode` reads back the D, F and raw-byte slots.

The output buffers are modelled as they are in the source. The encoders,
`Radio::encode` and `Radio::decode` are methods that write caller-owned Dafny
`array`s. Their `modifies` clauses name those arrays, and their postconditions
say that nothing past the written bytes changes. The decoders are functions.

Each method is proved against a specification function:
- each `Encode*` method writes what `SplitBE(Quantize(x, scale), w)` describes;
- `Frame.Encode` writes what `EncodeFrame` describes;
- `Frame.Decode` writes what `DecodeFrame` describes.

The lemmas then state the codec's properties about those functions:
- the byte split;
- the round-trips, including the wrap of negative values;
- the fixed layout and how the fields tile the frame;
- field isolation;
- that decoding reads nothing past byte 41;
- the frame round-trip;
- that the counter is lost.

Three facts about the code shape the model:
- The scale step truncates toward zero with the C cast `(int)`
  (sw/Radio/radio.cpp:54). It does not round.
- With an `int` of at least 32 bits, the 2-byte decoders return values in
  `[0, 655.35]` and the 3-byte decoder returns values in `[0, 167772.15]`.
- `Radio::decode` computes the counter but does not deliver it
  (see "## Findings").

## Model

| member | source | states |
|---|---|---|
| Bytes.SplitBE | sw/Radio/radio.cpp:106-117 | the big-endian split of `aux` into `w` bytes has exactly `w` bytes |
| Bytes.JoinBE | sw/Radio/radio.cpp:119-125 | a big-endian join of `n` bytes is a non-negative number below `256^n`, so no decoder ever yields a sign |
| Bytes.ByteAt | sw/Radio/radio.cpp:108-111 | `(uint8_t)(aux >> 8 * n)` is the byte that sits between the low `n` bytes of `aux` and the rest: `aux mod 256^(n+1)` is that byte times `256^n` plus `aux mod 256^n` |
| Bytes.SplitBEAt | sw/Radio/radio.cpp:86-96 | byte `i` of a `w`-byte split is `(uint8_t)(aux >> 8 * (w - 1 - i))`, the value each encoder stores |
| Bytes.SplitBEBytes | sw/Radio/radio.cpp:106-117 | the 2, 3 or 4 stored bytes, one by one, as the shifted and narrowed `aux` |
| Bytes.JoinSplit | sw/Radio/radio.cpp:119-125 | joining the split of `aux` gives `aux mod 256^w`: only the low `8w` bits survive, and negative values wrap |
| Bytes.SplitJoin | sw/Radio/radio.cpp:98-104 | splitting a joined byte group at its own width gives the group back |
| Bytes.InWindowRoundTrip | sw/Radio/radio.cpp:119-125 | every `aux` in `[0, 256^w)` survives split and join unchanged |
| Bytes.SplitBEInjective | sw/Radio/radio.cpp:86-96 | two integers give the same `w` bytes if and only if they agree modulo `256^w` |
| Quantizer.TruncateTowardZero | sw/Radio/radio.cpp:54 | the C cast `(int)` keeps the integer part: never farther from zero than the value, and less than one away |
| Quantizer.Quantize | sw/Radio/radio.cpp:52-117 | `(int) (number * scale)`, the cast at lines 54, 71, 88 and 107, brackets the scaled reading from the side of zero, and has the reading's sign |
| Quantizer.Encode2Byte | sw/Radio/radio.cpp:52-60 | bytes 0..1 become the 2-byte split of the truncated `number * 100`: `aux >> 8` and `aux`, each narrowed; no other byte changes |
| Quantizer.Encode2ByteD | sw/Radio/radio.cpp:69-77 | the same for the double-precision encoder |
| Quantizer.Encode3Byte | sw/Radio/radio.cpp:86-96 | bytes 0..2 become the 3-byte split of the truncated `number * 100`: `aux >> 16`, `aux >> 8` and `aux`, each narrowed; no other byte changes |
| Quantizer.Encode4ByteD | sw/Radio/radio.cpp:106-117 | bytes 0..3 become the 4-byte split of the truncated `number * 1000000`: `aux >> 24`, `>> 16`, `>> 8` and `aux`, each narrowed; no other byte changes |
| Quantizer.Decode2Byte | sw/Radio/radio.cpp:62-67 | the result is the unsigned big-endian value of the two bytes over 100, always in `[0, 655.35]` |
| Quantizer.Decode2ByteD | sw/Radio/radio.cpp:79-84 | the same for the double-precision decoder |
| Quantizer.Decode3Byte | sw/Radio/radio.cpp:98-104 | the unsigned big-endian value of three bytes over 100, always in `[0, 167772.15]` |
| Quantizer.Decode4ByteD | sw/Radio/radio.cpp:119-125 | the unsigned big-endian value of four bytes over 1,000,000, always in `[0, 4294.967295]` |
| Quantizer.RoundTrip2 | sw/Radio/radio.cpp:52-67 | both 2-byte decoders give `(aux mod 2^16) / 100`: exactly `aux / 100` on `[0, 2^16)`, and `(aux + 2^16) / 100 >= 327.68` for negative 16-bit `aux` |
| Quantizer.RoundTrip3 | sw/Radio/radio.cpp:86-104 | width 3 gives `(aux mod 2^24) / 100`: exact on `[0, 2^24)`, and the positive `(aux + 2^24) / 100` for negative 24-bit `aux` |
| Quantizer.RoundTrip4 | sw/Radio/radio.cpp:106-125 | under the unsigned reading of the accumulator, width 4 gives `(aux mod 2^32) / 1000000`: exact on `[0, 2^32)`, and the positive `(aux + 2^32) / 1000000` for negative 32-bit `aux` |
| Quantizer.ReadingRoundTrip2 | sw/Radio/radio.cpp:52-67 | a reading in `[0, 655.36)` comes back truncated to two decimals: at most the reading and less than 0.01 below it |
| Quantizer.ReadingRoundTrip3 | sw/Radio/radio.cpp:86-104 | a reading in `[0, 167772.16)` comes back truncated to two decimals |
| Quantizer.ReadingRoundTrip4 | sw/Radio/radio.cpp:106-125 | a reading in `[0, 2147.483648)` comes back truncated to six decimals |
| Quantizer.Example2Byte | sw/Radio/radio.cpp:52-67 | 123.45 is sent as `[0x30, 0x39]` and read back as 123.45 |
| Quantizer.Example4ByteSignDefect | sw/Radio/radio.cpp:106-125 | -75.01 at width 4 is sent as `[0xFB, 0x87, 0x70, 0x30]`; the model's unsigned reading of those bytes is the positive 4219.957296 (a 32-bit signed `int` under two's-complement wrap would give -75.01 instead) |
| Frame.LayoutTiles | sw/Radio/radio.cpp:164-220 | D0..D7 cover bytes 0..21 and F0..F5 cover 22..33, back to back; the raw bytes follow at 34..37 and the counter at 38..41, ending at 42 |
| Frame.TableEntries | sw/Radio/radio.cpp:147-211 | the table's fourteen entries, each an offset, a width and a scale |
| Frame.TableRanges | sw/Radio/radio.cpp:130-144 | bounds on the table's widths: every D width is 2 to 4, and every F width is 2 |
| Frame.FieldWithin | sw/Radio/radio.cpp:164-211 | each field of a contiguous run lies inside the run |
| Frame.QuantizedField | sw/Radio/radio.cpp:147-161 | a slot's bytes are exactly as many as its width |
| Frame.EncodeFrom | sw/Radio/radio.cpp:164-211 | a run of encoded fields is exactly as long as the fields' total width |
| Frame.EncodeFrame | sw/Radio/radio.cpp:127-221 | the assembled frame is exactly 42 bytes |
| Frame.EncodeFromAt | sw/Radio/radio.cpp:164-211 | field `k` of a contiguous run sits at its own offset within the run's bytes |
| Frame.EncodeFromIsolation | sw/Radio/radio.cpp:164-211 | two runs whose readings differ only at slot `k` agree on every byte outside slot `k` |
| Frame.EncodeFromSame | sw/Radio/radio.cpp:164-211 | runs from readings that agree from slot `i` on are identical |
| Frame.FrameLayout | sw/Radio/radio.cpp:164-220 | every D and F slot holds its reading's quantized bytes at the table's offset and width; bytes 34..37 are the raw bytes, and 38..41 are the counter, most significant first |
| Frame.DoubleLayout | sw/Radio/radio.cpp:164-192 | the D half of the layout: slot `k` holds the quantized bytes of `dataD[k]` |
| Frame.FloatLayout | sw/Radio/radio.cpp:194-210 | the F half of the layout: slot `k` holds the quantized bytes of `dataF[k]` |
| Frame.TailLayout | sw/Radio/radio.cpp:212-220 | bytes 34..37 are the raw bytes, and bytes 38..41 are the 4-byte big-endian counter |
| Frame.DoubleIsolation | sw/Radio/radio.cpp:147-192 | changing only `dataD[k]` changes only the bytes of slot `k` |
| Frame.FloatIsolation | sw/Radio/radio.cpp:156-210 | changing only `dataF[k]` changes only the two bytes of slot `k` |
| Frame.D3Isolation | sw/Radio/radio.cpp:175-178 | changing only `dataD[3]` leaves bytes 0..7 and 12..41 as they were |
| Frame.DecodeFields | sw/Radio/radio.cpp:226-240 | one reading per table slot |
| Frame.DecodeField | sw/Radio/radio.cpp:226-240 | the reading one decoder call returns for a slot is never negative |
| Frame.FieldReencode | sw/Radio/radio.cpp:226-240 | quantizing a decoded slot reading again at the slot's scale and width gives back the slot's bytes, so decoding loses nothing on the wire |
| Frame.TablesFit | sw/Radio/radio.cpp:226-240 | a bound on the table: every slot lies within the 42 bytes |
| Frame.DecodeFrame | sw/Radio/radio.cpp:223-245 | `Radio::decode` yields eight D readings, six F readings and four raw bytes |
| Frame.DecodeFrameReads | sw/Radio/radio.cpp:223-245 | the readings depend on bytes 0..37 only: not on the counter bytes, and not on anything past byte 41 |
| Frame.DecodeCounter | sw/Radio/radio.cpp:247 | the counter joined from bytes 38..41 is a 32-bit value whose 4-byte big-endian split is exactly those bytes |
| Frame.DecodeCounterReads | sw/Radio/radio.cpp:247 | the counter computed by `Radio::decode` depends on bytes 38..41 only |
| Frame.JoinBE4 | sw/Radio/radio.cpp:247 | `(b0 << 24) + (b1 << 16) + (b2 << 8) + b3` is the big-endian join of the four counter bytes |
| Frame.FrameRoundTrip | sw/Radio/radio.cpp:127-245 | decoding an encoded frame returns the raw bytes exactly; each D and F slot comes back as its truncated integer modulo its window over its scale, and exactly as that integer over its scale when the integer is in `[0, 256^width)` |
| Frame.CounterRoundTrip | sw/Radio/radio.cpp:217-220 | the counter bytes of an encoded frame join back to the counter |
| Frame.CounterNotDelivered | sw/Radio/radio.cpp:223-248 | frames encoded with different counters differ, yet `Radio::decode` hands back identical readings for them |
| Frame.Encode | sw/Radio/radio.cpp:127-221 | bytes 0..41 of `frame` become the assembled frame of the inputs, and no byte past 41 changes |
| Frame.PutDoubles | sw/Radio/radio.cpp:147-192 | bytes 0..21 become the prescribed D bytes, and nothing from byte 22 on changes |
| Frame.PutFloats | sw/Radio/radio.cpp:156-210 | bytes 22..33 become the prescribed F bytes after the D bytes, and nothing from byte 34 on changes |
| Frame.PutTail | sw/Radio/radio.cpp:212-220 | bytes 34..41 become the raw bytes and the counter bytes, and nothing past byte 41 changes |
| Frame.PutDouble2 | sw/Radio/radio.cpp:147-165 | a 2-byte D slot: the `encode2byteD` call (lines 147, 152-154) into a scratch pair, then the copy into the frame; only that slot changes |
| Frame.PutDouble3 | sw/Radio/radio.cpp:147-173 | a 3-byte D slot: the `encode3byte` call (lines 148-149) into a scratch triple, then the copy; only that slot changes |
| Frame.PutDouble4 | sw/Radio/radio.cpp:150-183 | a 4-byte D slot: the `encode4byteD` call (lines 150-151) into a scratch quad, then the copy; only that slot changes |
| Frame.PutFloat2 | sw/Radio/radio.cpp:156-210 | an F slot: the `encode2byte` call (lines 156-161) into a scratch pair, then the copy; only that slot changes |
| Frame.DoubleSlot | sw/Radio/radio.cpp:164-192 | the D slot's frame bytes, one by one, are the shifted and narrowed truncated reading |
| Frame.FloatSlot | sw/Radio/radio.cpp:194-210 | the same for an F slot |
| Frame.TailSlots | sw/Radio/radio.cpp:212-220 | frame bytes 34..37 are the raw bytes, and 38..41 are `dataU32 >> 24`, `>> 16`, `>> 8` and `dataU32`, each narrowed |
| Frame.DecodeSlots | sw/Radio/radio.cpp:226-240 | the table-driven readings equal the slot-by-slot calls to the decoders that `Radio::decode` makes |
| Frame.Decode | sw/Radio/radio.cpp:223-248 | `dataD[0..7]`, `dataF[0..5]` and `dataU8[0..3]` become the decoded readings, and no other element changes; the counter reaches no caller-visible state |
| Frame.GetDoubles | sw/Radio/radio.cpp:226-233 | `dataD[0..7]` become the D readings of the frame |
| Frame.GetFloats | sw/Radio/radio.cpp:235-240 | `dataF[0..5]` become the F readings of the frame |
| Frame.DecodeWithCounter | sw/Radio/radio.cpp:223-248 | the same as `Radio::decode`, and it also returns the counter joined from bytes 38..41 |

## Left out

- Transport and initialisation are not modelled: `init`, `sendFrame`, `send_data`, `read_data`, `read_frame`, `send_command`, `read_command` (sw/Radio/radio.cpp:13-43, 250-291, 369-384). They call radio and board libraries that are not part of this model.
- Display is not modelled: `displayFrame` and `displayData` only print to the serial port.
- `sw/RpyCom/rpycom.cpp` is not part of this model. It is serial-port I/O and struct copies.
- Floating point: `float` and `double` are both modelled as exact reals. So the binary rounding of `number * 100`, which can make the truncation land one unit low, is not captured. Neither is the narrowing of a decoded value to `float`.
- Quantizer.Quantize: does not model overflow of the C `int`. The scaled integer is unbounded, while in C a product outside the range of `int` is undefined. On the 8-bit target `int` is 16 bits, so there even the 3- and 4-byte fields overflow.
- Quantizer.Decode2Byte: Decode2Byte, Decode2ByteD and Decode3Byte assume an `int` accumulator of at least 32 bits. On the 16-bit target the model does not capture two effects. In `(aux << 8) + byte2` (sw/Radio/radio.cpp:65, 82), any `byte1 >= 0x80` overflows a signed 16-bit `int`, so the 2-byte decoders return a negative value there. `decode3byte` (sw/Radio/radio.cpp:101-102) shifts `byte1` out of the accumulator entirely, and returns the signed 16-bit value of `byte2` and `byte3` over 100.
- Quantizer.Decode4ByteD: the accumulator is modelled as unsigned. In the source, `aux << 8` past `2^31` overflows a signed 32-bit `int`.
- Frame.Decode: the same holds for the counter expression `frame[38] << 24` at sw/Radio/radio.cpp:247, which the model computes over unbounded integers.
- Frame.Encode: requires `dataU8` and `frame` to be different arrays. Frame.Decode and Frame.DecodeWithCounter require `dataD` and `dataF` to be different arrays, and `dataU8` and `frame` likewise. Both callers in the source pass a local `frame` array (sw/Radio/radio.cpp:252-253, 259-266), so `frame` differs from `dataU8` at every call site. `dataD` and `dataF` are `double` and `float` arrays in C, so they cannot be the same array; the model gives both the element type `real`, and so it must state the difference.
- Frame.Encode: the source runs all fourteen encoders into separate scratch arrays before copying any of them into `frame`. The model runs each slot's encoder into a fresh scratch array and copies it at once. The scratch arrays are local, so the final frame is the same.
- Frame.Encode and Frame.Decode are split into per-half helpers (`PutDoubles`, `PutFloats`, `PutTail`, `GetDoubles`, `GetFloats`). The copies into `frame` and the stores of `Radio::decode` are in the source's order. The encoder calls are not: each one sits just before its own copy, as the line above says.
- A buffer shorter than 42 bytes is excluded by the preconditions. The source does not check lengths; it reads or writes out of bounds.

## Findings

| source | as written | input that shows it | evidently intended | confidence | as-written member | corrected member |
|---|---|---|---|---|---|---|
| sw/Radio/radio.cpp:223-247 | `Radio::decode` assigns the counter to its by-value parameter `uint32_t dataU32`, so the value is lost when the function returns | any readings encoded once with counter 1 and once with counter 2: the frames differ in byte 41, but decoding gives identical results | the caller receives the counter, by reference or as a return value, as `Radio::encode` sends it | not executed; high, the parameter is declared by value | Frame.Decode, Frame.CounterNotDelivered | Frame.DecodeWithCounter, Frame.CounterRoundTrip |
