/**
 G.711 mu-law samples (ITU-T G.711, section 3, Tables 2a and 2b): the bit-length encoder and the
 decoder of the media bridge, and the mask-loop encoder of the feasibility script.

 Bit operations on non-negative operands are written as arithmetic: `x >> k` is `x / Pow2(k)`,
 `x & 0x0F` is `x % 16`, and an `|` of disjoint fields is a sum.
 */
module Mulaw {
  type Byte = x: int | 0 <= x < 256

  const BIAS := 0x84
  const CLIP := 32635

  function Pow2(n: nat): (p: nat)
    ensures p >= 1
  {
    if n == 0 then 1 else 2 * Pow2(n - 1)
  }

  /** Python's `int.bit_length` on non-negative integers. */
  function BitLength(n: nat): nat {
    if n == 0 then 0 else 1 + BitLength(n / 2)
  }

  function Abs(x: int): nat {
    if x < 0 then -x else x
  }

  function Clamp(sample: int): int {
    if sample < -CLIP then -CLIP else if sample > CLIP then CLIP else sample
  }

  /** The biased magnitude the decoder builds from segment `e` and cell `m`. */
  function DecodedMagnitude(e: nat, m: nat): nat {
    (m * 8 + BIAS) * Pow2(e)
  }

  function DecodeSample(value: Byte): (sample: int)
    ensures -32124 <= sample <= 32124
  {
    Midpoint((255 - value) / 16 % 8, (255 - value) % 16);
    var v := 255 - value;
    var magnitude: int := DecodedMagnitude(v / 16 % 8, v % 16);
    if v >= 128 then -(magnitude - BIAS) else magnitude - BIAS
  }

  function ExponentOf(magnitude: nat): nat {
    var raised := BitLength(magnitude) - 8;
    if raised < 0 then 0 else if raised > 7 then 7 else raised
  }

  function EncodeSample(sample: int): Byte {
    var clamped := Clamp(sample);
    var sign := if clamped < 0 then 128 else 0;
    var magnitude := Abs(clamped) + BIAS;
    var exponent := ExponentOf(magnitude);
    var mantissa := magnitude / Pow2(exponent + 3) % 16;
    255 - (sign + exponent * 16 + mantissa)
  }

  // ---------- Quantisation cells: the decision values of the standard ----------

  function Exponent(value: Byte): (e: nat)
    ensures e <= 7
  {
    (255 - value) / 16 % 8
  }

  function CellWidth(value: Byte): nat {
    Pow2(Exponent(value) + 3)
  }

  /** Lower end, on the biased magnitude axis, of cell `m` of segment `e`. */
  function CellLow(e: nat, m: nat): nat {
    (16 + m) * Pow2(e + 3)
  }

  function CellStart(value: Byte): nat {
    CellLow(Exponent(value), (255 - value) % 16)
  }

  /** `sample` lies in the quantisation cell that code word `value` stands for. */
  predicate InCell(value: Byte, sample: int) {
    && (value < 128 <==> sample < 0)
    && CellStart(value) <= Abs(Clamp(sample)) + BIAS < CellStart(value) + CellWidth(value)
  }

  lemma Pow2Values()
    ensures Pow2(0) == 1 && Pow2(1) == 2 && Pow2(2) == 4 && Pow2(3) == 8 && Pow2(4) == 16
    ensures Pow2(5) == 32 && Pow2(6) == 64 && Pow2(7) == 128 && Pow2(8) == 256 && Pow2(9) == 512
    ensures Pow2(10) == 1024 && Pow2(11) == 2048 && Pow2(12) == 4096 && Pow2(13) == 8192
    ensures Pow2(14) == 16384 && Pow2(15) == 32768
  {}

  lemma {:induction false} BitLengthBounds(n: nat)
    requires n > 0
    ensures BitLength(n) >= 1 && Pow2(BitLength(n) - 1) <= n < Pow2(BitLength(n))
  {
    if n > 1 {
      BitLengthBounds(n / 2);
    }
  }

  lemma {:induction false} Pow2Monotone(a: nat, b: nat)
    requires a <= b
    ensures Pow2(a) <= Pow2(b)
  {
    if a < b {
      Pow2Monotone(a, b - 1);
    }
  }

  /** The biased magnitude of every sample has its leading bit inside segment `ExponentOf`. */
  lemma Segment(magnitude: nat)
    requires BIAS <= magnitude <= CLIP + BIAS
    ensures ExponentOf(magnitude) <= 7
    ensures Pow2(ExponentOf(magnitude) + 7) <= magnitude < Pow2(ExponentOf(magnitude) + 8)
  {
    Pow2Values();
    BitLengthBounds(magnitude);
    var bits := BitLength(magnitude);
    if bits < 8 {
      Pow2Monotone(bits, 7);
    }
    if bits > 15 {
      Pow2Monotone(15, bits - 1);
    }
  }

  /** A magnitude in segment `e` has its 16 cells of width 2^(e+3) laid end to end. */
  lemma SegmentCells(magnitude: nat, e: nat)
    requires e <= 7 && Pow2(e + 7) <= magnitude < Pow2(e + 8)
    ensures magnitude / Pow2(e + 3) % 16 == magnitude / Pow2(e + 3) - 16
    ensures var m := magnitude / Pow2(e + 3) % 16;
      (16 + m) * Pow2(e + 3) <= magnitude < (16 + m) * Pow2(e + 3) + Pow2(e + 3)
  {
    Pow2Values();
    if e == 0 {} else if e == 1 {} else if e == 2 {} else if e == 3 {}
    else if e == 4 {} else if e == 5 {} else if e == 6 {} else {}
  }

  lemma Fields(sign: nat, e: nat, m: nat)
    requires (sign == 0 || sign == 128) && e <= 7 && m <= 15
    ensures var v := sign + e * 16 + m;
      v <= 255 && v % 16 == m && v / 16 % 8 == e && (v >= 128 <==> sign == 128)
  {}

  lemma EncodedFields(sample: int)
    ensures var magnitude := Abs(Clamp(sample)) + BIAS; var b := EncodeSample(sample);
      && Exponent(b) == ExponentOf(magnitude)
      && (255 - b) % 16 == magnitude / Pow2(ExponentOf(magnitude) + 3) % 16
      && (b < 128 <==> sample < 0)
  {
    var magnitude := Abs(Clamp(sample)) + BIAS;
    Segment(magnitude);
    var e := ExponentOf(magnitude);
    Fields(if Clamp(sample) < 0 then 128 else 0, e, magnitude / Pow2(e + 3) % 16);
  }

  /** Encoding puts a sample in the cell of the code word. */
  lemma EncodeHitsCell(sample: int)
    ensures InCell(EncodeSample(sample), sample)
  {
    var magnitude := Abs(Clamp(sample)) + BIAS;
    EncodedFields(sample);
    Segment(magnitude);
    SegmentCells(magnitude, ExponentOf(magnitude));
  }

  lemma SixteenCells(e: nat)
    ensures Pow2(e + 7) == 16 * Pow2(e + 3) && Pow2(e + 8) == 32 * Pow2(e + 3)
    ensures Pow2(e + 3) == 2 * Pow2(e + 2) == 8 * Pow2(e)
  {
    assert Pow2(e + 1) == 2 * Pow2(e);
    assert Pow2(e + 5) == 2 * Pow2(e + 4);
    assert Pow2(e + 6) == 2 * Pow2(e + 5);
  }

  lemma CellInSegment(e: nat, m: nat)
    requires e <= 7 && m <= 15
    ensures Pow2(e + 7) <= CellLow(e, m)
    ensures CellLow(e, m) + Pow2(e + 3) <= Pow2(e + 8)
    ensures CellLow(e, m + 1) == CellLow(e, m) + Pow2(e + 3)
  {
    Pow2Values();
    if e == 0 {} else if e == 1 {} else if e == 2 {} else if e == 3 {}
    else if e == 4 {} else if e == 5 {} else if e == 6 {} else {}
  }

  lemma {:induction false} CellsInOrder(e: nat, m: nat, n: nat)
    requires e <= 7 && m < n <= 15
    ensures CellLow(e, m) + Pow2(e + 3) <= CellLow(e, n)
  {
    CellInSegment(e, n - 1);
    if m < n - 1 {
      CellsInOrder(e, m, n - 1);
    }
  }

  /** Cells of one sign are ordered like their inverted code words. */
  lemma CellsOrdered(low: Byte, high: Byte)
    requires (low < 128) == (high < 128)
    requires 255 - low < 255 - high
    ensures CellStart(low) + CellWidth(low) <= CellStart(high)
  {
    FieldsOrdered(255 - low, 255 - high);
    SegmentsOrdered(Exponent(low), (255 - low) % 16, Exponent(high), (255 - high) % 16);
  }

  lemma FieldsOrdered(a: nat, b: nat)
    requires a < b < 256 && (a < 128 <==> b < 128)
    ensures a / 16 % 8 < b / 16 % 8 || (a / 16 % 8 == b / 16 % 8 && a % 16 < b % 16)
  {}

  lemma SegmentsOrdered(e: nat, m: nat, f: nat, n: nat)
    requires e <= 7 && m <= 15 && f <= 7 && n <= 15 && (e < f || (e == f && m < n))
    ensures CellLow(e, m) + Pow2(e + 3) <= CellLow(f, n)
  {
    if e < f {
      CellInSegment(e, m);
      CellInSegment(f, n);
      Pow2Monotone(e + 8, f + 7);
    } else {
      CellsInOrder(e, m, n);
    }
  }

  /** The encoder is the cell lookup and nothing else: a code word is produced for a sample if and only if
      the sample lies in its cell. */
  lemma EncodeIsTheCell(sample: int, value: Byte)
    ensures EncodeSample(sample) == value <==> InCell(value, sample)
  {
    EncodeHitsCell(sample);
    var b := EncodeSample(sample);
    if InCell(value, sample) && b != value {
      if 255 - b < 255 - value {
        CellsOrdered(b, value);
      } else {
        CellsOrdered(value, b);
      }
    }
  }

  /** The decoder's biased magnitude is the midpoint of cell `m` of segment `e`; it is the bare bias only
      for the first cell of the first segment. */
  lemma Midpoint(e: nat, m: nat)
    requires e <= 7 && m <= 15
    ensures DecodedMagnitude(e, m) == CellLow(e, m) + Pow2(e + 2)
    ensures BIAS <= DecodedMagnitude(e, m) <= 32124 + BIAS
    ensures DecodedMagnitude(e, m) == BIAS <==> e == 0 && m == 0
  {
    Pow2Values();
    if e == 0 {} else if e == 1 {} else if e == 2 {} else if e == 3 {}
    else if e == 4 {} else if e == 5 {} else if e == 6 {} else {}
  }

  lemma ZeroWords(value: Byte)
    ensures Exponent(value) == 0 && (255 - value) % 16 == 0 <==> value == 0xFF || value == 0x7F
  {}

  /** A decoded magnitude is the midpoint of its cell. */
  lemma DecodeIsMidpoint(value: Byte)
    ensures Abs(DecodeSample(value)) + BIAS == CellStart(value) + CellWidth(value) / 2
    ensures CellWidth(value) == 2 * Pow2(Exponent(value) + 2)
    ensures Abs(DecodeSample(value)) <= 32124
    ensures DecodeSample(value) != 0 ==> (value < 128 <==> DecodeSample(value) < 0)
    ensures DecodeSample(value) == 0 <==> value == 0xFF || value == 0x7F
  {
    var m, e := (255 - value) % 16, Exponent(value);
    Midpoint(e, m);
    SixteenCells(e);
    ZeroWords(value);
  }

  /** The decoded value is off from the clamped sample by at most half a cell. */
  lemma QuantisationError(sample: int)
    ensures var b := EncodeSample(sample);
      Abs(DecodeSample(b) - Clamp(sample)) <= Pow2(Exponent(b) + 2)
  {
    var b := EncodeSample(sample);
    EncodeHitsCell(sample);
    DecodeIsMidpoint(b);
    if DecodeSample(b) == 0 {
      Pow2Values();
    }
  }

  /** Quantisation never reverses the order of two samples. */
  lemma QuantisationMonotone(s: int, t: int)
    requires s <= t
    ensures DecodeSample(EncodeSample(s)) <= DecodeSample(EncodeSample(t))
  {
    var b, c := EncodeSample(s), EncodeSample(t);
    EncodeHitsCell(s);
    EncodeHitsCell(t);
    DecodeIsMidpoint(b);
    DecodeIsMidpoint(c);
    if (b < 128) == (c < 128) && b != c {
      if 255 - b < 255 - c {
        CellsOrdered(b, c);
      } else {
        CellsOrdered(c, b);
      }
    }
  }

  /** Code words survive decoding and encoding again, except negative zero, which becomes positive zero. */
  function Normalised(value: Byte): Byte {
    if value == 0x7F then 0xFF else value
  }

  lemma CodeWordRoundTrip(value: Byte)
    ensures EncodeSample(DecodeSample(value)) == Normalised(value)
  {
    DecodeIsMidpoint(value);
    Pow2Values();
    DecodeIsMidpoint(Normalised(value));
    EncodeIsTheCell(DecodeSample(value), Normalised(value));
  }

  // ---------- The script's encoder ----------

  lemma BitTest(magnitude: nat, mask: nat)
    requires mask > 0 && magnitude < 2 * mask
    ensures magnitude / mask % 2 == 0 <==> magnitude < mask
  {}

  lemma NotAboveSegment(magnitude: nat, exponent: nat)
    requires BIAS <= magnitude <= CLIP + BIAS
    requires ExponentOf(magnitude) <= exponent <= 7
    requires magnitude < Pow2(exponent + 7)
    ensures ExponentOf(magnitude) < exponent
  {
    Segment(magnitude);
  }

  /** The mask loop of the feasibility script produces the byte of the media bridge's bit-length encoder. */
  method PcmToMulaw(sample: int) returns (value: Byte)
    ensures value == EncodeSample(sample)
  {
    Pow2Values();
    var sign := if sample < 0 then 0x80 else 0;
    var magnitude := (if Abs(sample) < CLIP then Abs(sample) else CLIP) + BIAS;
    ghost var e := ExponentOf(magnitude);
    Segment(magnitude);
    var exponent, mask := 7, 0x4000;
    while exponent > 0 && magnitude / mask % 2 == 0
      invariant e <= exponent <= 7
      invariant mask == Pow2(exponent + 7)
      invariant magnitude < 2 * mask
    {
      BitTest(magnitude, mask);
      NotAboveSegment(magnitude, exponent);
      exponent := exponent - 1;
      mask := mask / 2;
    }
    BitTest(magnitude, mask);
    if exponent > e {
      Pow2Monotone(e + 8, exponent + 7);
    }
    EncodedFields(sample);
    var mantissa := magnitude / Pow2(exponent + 3) % 16;
    value := 255 - (sign + exponent * 16 + mantissa);
  }
}
