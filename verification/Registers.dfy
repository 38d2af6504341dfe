/**
 Register quantisation: a value written to a 16-bit holding register (section 6.6 of the MODBUS Application Protocol
 Specification V1.1b3) and read back, with two-decimal rounding of the engineering value.
 */
module Registers {
  import opened Common
  import opened Numbers

  datatype WriteRegister = WriteRegister(scale: real, offset: real)

  const U16_MAX: nat := 0xFFFF

  function Abs(x: real): real { if x < 0.0 then -x else x }

  /** encode_write_register and encode_modbus_raw: None for a zero scale or a word out of range. */
  function Encode(v: real, r: WriteRegister): Option<nat> {
    if r.scale == 0.0 then None else
      var raw := RoundHalfAway((v - r.offset) / r.scale);
      if 0 <= raw <= U16_MAX then Some(raw) else None
  }

  /** A value has a word exactly if the scale is not zero and its rounded quotient is a 16-bit number, and then that. */
  lemma EncodeIsExact(v: real, r: WriteRegister)
    ensures r.scale == 0.0 ==> Encode(v, r).None?
    ensures r.scale != 0.0 ==>
              var n := RoundHalfAway((v - r.offset) / r.scale);
              (Encode(v, r).Some? <==> 0 <= n <= 65535) && (Encode(v, r).Some? ==> Encode(v, r).value == n)
  {
  }

  /** The exact engineering value of a word. */
  function Exact(raw: nat, r: WriteRegister): real { raw as real * r.scale + r.offset }

  /** decode_write_register */
  function Decode(raw: nat, r: WriteRegister): real { Round2(Exact(raw, r)) }

  // Real products and quotients, with each product named so that the rest is linear.

  lemma PositiveFactor(x: real, d: real)
    requires d > 0.0 && x * d > 0.0
    ensures x > 0.0
  {
  }

  lemma QuotientBelow(e: real, d: real, h: real)
    requires d > 0.0 && e < h * d
    ensures e / d < h
  {
    var q := e / d;
    assert q * d == e;
    assert (h - q) * d == h * d - q * d;
    PositiveFactor(h - q, d);
  }

  lemma NegateBoth(e: real, d: real)
    requires d != 0.0
    ensures e / d == (-e) / (-d)
  {
    var q := e / d;
    assert q * d == e;
    assert q * (-d) == -(q * d);
  }

  lemma SmallQuotient(e: real, d: real)
    requires -0.005 <= e <= 0.005 && Abs(d) > 0.01
    ensures -0.5 < e / d < 0.5
  {
    if d > 0.0 {
      QuotientBelow(e, d, 0.5);
      QuotientBelow(-e, d, 0.5);
      assert (-e) / d == -(e / d);
    } else {
      NegateBoth(e, d);
      QuotientBelow(e, -d, 0.5);
      QuotientBelow(-e, -d, 0.5);
      assert e / (-d) == -((-e) / (-d));
    }
  }

  lemma ScaleBoth(a: real, b: real, d: real)
    requires a <= b && d >= 0.0
    ensures a * d <= b * d
  {
  }

  lemma HalfOf(f: real, m: real, w: real)
    requires -0.5 <= f <= 0.5 && m >= 0.0 && w == f * m
    ensures -0.5 * m <= w <= 0.5 * m
  {
    ScaleBoth(-0.5, f, m);
    ScaleBoth(f, 0.5, m);
  }

  lemma HalfStep(f: real, d: real, p: real)
    requires -0.5 <= f <= 0.5 && p == f * d
    ensures -(Abs(d) / 2.0) <= p <= Abs(d) / 2.0
  {
    if d >= 0.0 { HalfOf(f, d, p); } else { HalfOf(f, -d, -p); }
  }

  /** A quotient rounded by at most one half, scaled back, is off by at most half of |d|. */
  lemma QuotientError(x: real, d: real, n: real, p: real)
    requires d != 0.0 && -0.5 <= n - x / d <= 0.5 && p == n * d
    ensures -(Abs(d) / 2.0) <= p - x <= Abs(d) / 2.0
  {
    var q := x / d;
    assert q * d == x;
    assert (n - q) * d == n * d - q * d;
    HalfStep(n - q, d, p - x);
  }

  /** Within a distance of each other. */
  predicate Near(x: real, v: real, h: real) { -h <= x - v <= h }

  lemma ExactIsNear(v: real, r: WriteRegister, raw: nat, p: real)
    requires Encode(v, r) == Some(raw) && p == raw as real * r.scale
    ensures Near(p + r.offset, v, Abs(r.scale) / 2.0)
  {
    QuotientError(v - r.offset, r.scale, raw as real, p);
  }

  lemma AddRounding(x: real, v: real, h: real)
    requires Near(x, v, h)
    ensures Near(Round2(x), v, h + 0.005)
  {
    Round2Exact(x);
  }

  lemma DecodeOf(raw: nat, r: WriteRegister, p: real)
    requires p == raw as real * r.scale
    ensures Decode(raw, r) == Round2(p + r.offset)
  {
    var x := Exact(raw, r);
    assert x == p + r.offset;
  }

  lemma WordIsNear(v: real, r: WriteRegister, raw: nat, p: real)
    requires Encode(v, r) == Some(raw) && p == raw as real * r.scale
    ensures Near(Round2(p + r.offset), v, Abs(r.scale) / 2.0 + 0.005)
  {
    ExactIsNear(v, r, raw, p);
    AddRounding(p + r.offset, v, Abs(r.scale) / 2.0);
  }

  lemma ReadBackOfWord(v: real, r: WriteRegister, raw: nat)
    requires Encode(v, r) == Some(raw)
    ensures Near(Decode(raw, r), v, Abs(r.scale) / 2.0 + 0.005)
  {
    var p := raw as real * r.scale;
    WordIsNear(v, r, raw, p);
    DecodeOf(raw, r, p);
  }

  /** Reading back an encoded value gives it within half a scale step plus half a hundredth. */
  lemma ReadBackIsClose(v: real, r: WriteRegister)
    requires Encode(v, r).Some?
    ensures Near(Decode(Encode(v, r).value, r), v, Abs(r.scale) / 2.0 + 0.005)
  {
    ReadBackOfWord(v, r, Encode(v, r).value);
  }

  lemma {:induction false} GridMultiple(n: nat, s: real, p: real)
    requires OnGrid(s) && p == n as real * s
    ensures OnGrid(p)
  {
    if n == 0 {
      assert p == 0.0;
      assert OnGrid(0.0);
    } else {
      assert p - s == (n - 1) as real * s;
      GridMultiple(n - 1, s, p - s);
      GridSum(p - s, s);
    }
  }

  lemma ExactOnGrid(raw: nat, r: WriteRegister, p: real, x: real)
    requires OnGrid(r.scale) && OnGrid(r.offset)
    requires p == raw as real * r.scale && x == p + r.offset
    ensures OnGrid(x)
  {
    GridMultiple(raw, r.scale, p);
    GridSum(p, r.offset);
  }

  lemma Distribute(n: real, p: real, e: real, s: real)
    requires s != 0.0 && p == n * s
    ensures (p + e) / s == n + e / s
  {
    var q := e / s;
    assert q * s == e;
    assert (n + q) * s == n * s + q * s;
  }

  /** Two-decimal rounding moves a value by less than half a scale step. */
  lemma RoundingIsNear(x: real, scale: real)
    requires scale != 0.0 && (Abs(scale) > 0.01 || OnGrid(x))
    ensures -0.5 < (Round2(x) - x) / scale < 0.5
  {
    Round2Exact(x);
    if Abs(scale) > 0.01 { SmallQuotient(Round2(x) - x, scale); }
  }

  /** How far two-decimal rounding moves the value of a word, counted in scale steps. */
  function RoundingShift(raw: nat, r: WriteRegister): real
    requires r.scale != 0.0
  {
    (Decode(raw, r) - Exact(raw, r)) / r.scale
  }

  /** A shift that rounding to the nearest word takes back; half a step down is taken back from every word but zero. */
  predicate RoundsBack(raw: nat, shift: real) {
    shift < 0.5 && if raw == 0 then -0.5 < shift else -0.5 <= shift
  }

  lemma RoundBackIsExact(n: nat, q: real)
    ensures RoundHalfAway(n as real + q) == n <==> RoundsBack(n, q)
  {
  }

  lemma ReencodeFrom(raw: nat, r: WriteRegister, p: real, x: real, e: real)
    requires raw <= U16_MAX && r.scale != 0.0
    requires p == raw as real * r.scale && x == p + r.offset && e == Round2(x) - x
    ensures Encode(Round2(x), r) == Some(raw) <==> RoundsBack(raw, e / r.scale)
  {
    Distribute(raw as real, p, e, r.scale);
    RoundBackIsExact(raw, e / r.scale);
  }

  /** The exact condition, word by word: a read-back word encodes to itself iff rounding takes the shift back. */
  lemma ReencodeIsExact(raw: nat, r: WriteRegister)
    requires raw <= U16_MAX && r.scale != 0.0
    ensures Encode(Decode(raw, r), r) == Some(raw) <==> RoundsBack(raw, RoundingShift(raw, r))
  {
    var x, p := Exact(raw, r), raw as real * r.scale;
    ReencodeFrom(raw, r, p, x, Round2(x) - x);
  }

  lemma ShiftIsSmall(raw: nat, r: WriteRegister, p: real, x: real)
    requires r.scale != 0.0 && p == raw as real * r.scale && x == p + r.offset
    requires Abs(r.scale) > 0.01 || (OnGrid(r.scale) && OnGrid(r.offset))
    ensures -0.5 < (Round2(x) - x) / r.scale < 0.5
  {
    if OnGrid(r.scale) && OnGrid(r.offset) { ExactOnGrid(raw, r, p, x); }
    RoundingIsNear(x, r.scale);
  }

  /**
   Encoding a read-back word again returns the same word, for every word of the register, when a scale step is wider
   than a hundredth or the register lies on the hundredths grid.
   */
  lemma ReencodeIsStable(raw: nat, r: WriteRegister)
    requires raw <= U16_MAX && r.scale != 0.0
    requires Abs(r.scale) > 0.01 || (OnGrid(r.scale) && OnGrid(r.offset))
    ensures Encode(Decode(raw, r), r) == Some(raw)
  {
    var x, p := Exact(raw, r), raw as real * r.scale;
    ShiftIsSmall(raw, r, p, x);
    ReencodeFrom(raw, r, p, x, Round2(x) - x);
  }

  /** Encode, decode, encode returns the first word. */
  lemma EncodeDecodeEncode(v: real, r: WriteRegister)
    requires Encode(v, r).Some?
    requires Abs(r.scale) > 0.01 || (OnGrid(r.scale) && OnGrid(r.offset))
    ensures Encode(Decode(Encode(v, r).value, r), r) == Encode(v, r)
  {
    ReencodeIsStable(Encode(v, r).value, r);
  }

  /** At a step of exactly one hundredth an offset off the grid already loses a word to the two roundings. */
  lemma BoundaryStepIsUnstable()
    ensures
      var r := WriteRegister(0.01, 0.005);
      Encode(0.005, r) == Some(0) && Encode(Decode(0, r), r) == Some(1)
  {
    var r := WriteRegister(0.01, 0.005);
    assert (0.005 - r.offset) / r.scale == 0.0;
    assert 0.005 * 100.0 == 0.5;
    assert RoundHalfAway(0.5) == 1;
    assert Decode(0, r) == 0.01;
    assert (0.01 - 0.005) / 0.01 == 0.5;
  }

  /** A finer step off the grid merges neighbouring words. */
  lemma FineStepMergesWords()
    ensures
      var r := WriteRegister(0.004, 0.0);
      Encode(0.004, r) == Some(1) && Encode(Decode(1, r), r) == Some(0)
  {
    var r := WriteRegister(0.004, 0.0);
    assert (0.004 - 0.0) / 0.004 == 1.0;
    assert RoundHalfAway(1.0) == 1;
    assert RoundHalfAway(0.4) == 0;
    assert Decode(1, r) == 0.0;
    assert (0.0 - 0.0) / 0.004 == 0.0;
  }
}
