/** Doubles as their IEEE 754 binary64 bit patterns, the value of a finite
    pattern as a real, the MIN/MAX macros and the NINT64 rounding used to
    quantise coordinates.

    Header and point fields of C type `double` are kept as 64-bit patterns so
    that packing and unpacking them is exact; arithmetic on them is done on
    their real values, without IEEE rounding. */
module Doubles {
  import opened Bytes

  const SignBit: nat := 0x8000_0000_0000_0000
  const FractionBits: nat := 0x10_0000_0000_0000

  /** 2 to the power k, for any integer k. */
  function Pow2(k: int): (r: real)
    ensures r > 0.0
    decreases if k < 0 then -k else k
  {
    if k == 0 then 1.0 else if k > 0 then 2.0 * Pow2(k - 1) else Pow2(k + 1) / 2.0
  }

  function Exponent(d: U64): nat
  {
    (d / FractionBits) % 0x800
  }

  /** Infinities and NaNs have the all-ones exponent. */
  predicate IsFinite(d: U64)
  {
    Exponent(d) != 0x7FF
  }

  /** The real number a finite bit pattern stands for: sign, biased exponent
      and 52-bit fraction, with subnormals when the exponent is 0. */
  function Value(d: U64): (v: real)
    ensures d < SignBit ==> v >= 0.0
  {
    var e := Exponent(d);
    var m := d % FractionBits;
    var magnitude :=
      if e == 0 then m as real * Pow2(-1074)
      else (FractionBits + m) as real * Pow2(e - 1075);
    if d < SignBit then magnitude else -magnitude
  }

  /** A NaN: the all-ones exponent with a non-zero fraction. */
  predicate IsNaN(d: U64)
  {
    !IsFinite(d) && d % FractionBits != 0
  }

  const PosInf: U64 := 0x7FF0_0000_0000_0000
  const NegInf: U64 := 0xFFF0_0000_0000_0000

  /** C's `<` on two doubles: the order of the values, with -infinity below
      and +infinity above every finite double, and false as soon as one side
      is a NaN. */
  predicate Less(a: U64, b: U64)
  {
    !IsNaN(a) && !IsNaN(b) &&
    if IsFinite(a) && IsFinite(b) then Value(a) < Value(b)
    else (a == NegInf && b != NegInf) || (b == PosInf && a != PosInf)
  }

  /** The MIN macro: `((x) < (y)) ? (x) : (y)`. */
  function Min(x: U64, y: U64): (r: U64)
    ensures IsFinite(x) && IsFinite(y) ==> Value(r) <= Value(x) && Value(r) <= Value(y)
    ensures r == x || r == y
  {
    if Less(x, y) then x else y
  }

  /** The MAX macro: `((x) > (y)) ? (x) : (y)`. */
  function Max(x: U64, y: U64): (r: U64)
    ensures IsFinite(x) && IsFinite(y) ==> Value(r) >= Value(x) && Value(r) >= Value(y)
    ensures r == x || r == y
  {
    if Less(y, x) then x else y
  }

  /** `Less` is a strict order on the doubles that are not NaN, so MIN
      returns an operand no other operand is below, and MAX one no other is
      above, infinities included. */
  lemma MinMaxOrdered(x: U64, y: U64)
    requires !IsNaN(x) && !IsNaN(y)
    ensures !Less(x, Min(x, y)) && !Less(y, Min(x, y))
    ensures !Less(Max(x, y), x) && !Less(Max(x, y), y)
  {
  }

  /** The infinities are ordered: +infinity loses MIN and wins MAX against
      every double that is not a NaN, and -infinity the other way round. */
  lemma InfinitiesInMinMax(x: U64)
    requires !IsNaN(x)
    ensures Min(x, PosInf) == x && Max(x, PosInf) == PosInf
    ensures Min(x, NegInf) == NegInf && Max(x, NegInf) == x
  {
    assert Exponent(PosInf) == 0x7FF && PosInf % FractionBits == 0;
    assert Exponent(NegInf) == 0x7FF && NegInf % FractionBits == 0;
  }

  /** A NaN as the new value wins MIN and MAX, because every comparison with
      it is false. */
  lemma NaNWinsMinMax(x: U64, y: U64)
    requires !IsFinite(y) && y % FractionBits != 0
    ensures Min(x, y) == y && Max(x, y) == y
  {
  }

  /** The bounding-box sentinels written by the create call: -99999999999999.0
      for the maxima and +99999999999999.0 for the minima. */
  const MaxSentinel: U64 := 0xC2D6_BCC4_1E8F_FFC0
  const MinSentinel: U64 := 0x42D6_BCC4_1E8F_FFC0

  lemma SentinelValues()
    ensures IsFinite(MaxSentinel) && IsFinite(MinSentinel)
    ensures Value(MinSentinel) == 99999999999999.0
    ensures Value(MaxSentinel) == -99999999999999.0
  {
    assert Exponent(MinSentinel) == 0x42D;
    assert Exponent(MaxSentinel) == 0x42D;
    assert Pow2(-6) == 1.0 / 64.0 by {
      assert Pow2(-1) == 0.5;
      assert Pow2(-2) == 0.25;
      assert Pow2(-3) == 0.125;
      assert Pow2(-4) == 0.0625;
      assert Pow2(-5) == 0.03125;
    }
    assert 0x42D - 1075 == -6;
    assert MinSentinel % FractionBits == 0x6_BCC4_1E8F_FFC0;
    assert MaxSentinel % FractionBits == 0x6_BCC4_1E8F_FFC0;
  }

  /** A finite coordinate always replaces both sentinels: the first appended point sets all six bounds. */
  lemma SentinelsGiveWay(x: U64)
    requires IsFinite(x) && -99999999999999.0 <= Value(x) <= 99999999999999.0
    ensures Max(MaxSentinel, x) == x && Min(MinSentinel, x) == x
  {
    SentinelValues();
  }

  /** C's conversion of a double to int64_t: truncation toward zero. */
  function Trunc(a: real): (i: int)
    ensures a >= 0.0 ==> i as real <= a < i as real + 1.0
    ensures a < 0.0 ==> i as real - 1.0 < a <= i as real
  {
    if a >= 0.0 then a.Floor else -((-a).Floor)
  }

  /** NINT64: round half away from zero by adding or subtracting one half and
      truncating. */
  function Nint(a: real): (i: int)
    ensures a >= 0.0 ==> a - 0.5 < i as real <= a + 0.5
    ensures a < 0.0 ==> a - 0.5 <= i as real < a + 0.5
  {
    if a < 0.0 then Trunc(a - 0.5) else Trunc(a + 0.5)
  }

  /** The raw coordinate `NINT64((v - offset) / scale)`; a zero scale, which
      the C division turns into an infinity, gives 0 here. */
  function Quantise(v: real, offset: real, scale: real): int
  {
    if scale == 0.0 then 0 else Nint((v - offset) / scale)
  }

  /** The coordinate read back from a raw value: `raw * scale + offset`. */
  function Dequantise(raw: int, offset: real, scale: real): real
  {
    raw as real * scale + offset
  }

  /** Writing a coordinate and reading it back moves it by at most half a
      scale step. */
  lemma QuantiseRoundTrip(v: real, offset: real, scale: real)
    requires scale > 0.0
    ensures v - scale / 2.0 <= Dequantise(Quantise(v, offset, scale), offset, scale) <= v + scale / 2.0
  {
    var q := (v - offset) / scale;
    var raw := Nint(q);
    assert q * scale == v - offset;
    var d := raw as real - q;
    assert -0.5 <= d <= 0.5;
    assert raw as real * scale == q * scale + d * scale;
    MulBounded(d, scale);
    assert Quantise(v, offset, scale) == raw;
    assert Dequantise(raw, offset, scale) == v + d * scale;
  }

  lemma MulBounded(d: real, s: real)
    requires -0.5 <= d <= 0.5 && s > 0.0
    ensures -(s / 2.0) <= d * s <= s / 2.0
  {
    assert (0.5 - d) * s >= 0.0;
    assert (d + 0.5) * s >= 0.0;
  }
}
