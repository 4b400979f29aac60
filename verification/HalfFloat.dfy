/** The 16-bit float encodings: conversion from and to binary32, bit pattern to bit pattern.

    Bit patterns are natural numbers: a right shift is a division, a mask is a remainder, and an
    `|` of fields that do not overlap is a sum. Values are exact: every binary32, binary16 and
    bfloat16 value is a whole multiple of 2^-149, and the magnitudes below count those multiples. */
module HalfFloat {
  import opened Arithmetic

  // ---------------------------------------------------------------------------
  // Encodings (section 3.4 of IEEE 754-2019)
  // ---------------------------------------------------------------------------

  /** A format by its number of mantissa codes and the weight 2^(`shift` - 149) of its smallest
      subnormal. */
  datatype Format = Format(codes: nat, shift: nat)

  /** The spacing of values with exponent field `e`. */
  function Spacing(t: Format, e: nat): nat {
    Pow2((if e == 0 then 0 else e - 1) + t.shift)
  }

  /** The magnitude of exponent field `e` and mantissa field `m`. */
  function FieldValue(t: Format, e: nat, m: nat): nat {
    (if e == 0 then m else t.codes + m) * Spacing(t, e)
  }

  /** The magnitude of an unsigned pattern. Infinity, the pattern after the largest finite one, gets
      the value the next exponent would have. */
  function Magnitude(t: Format, c: nat): nat
    requires t.codes > 0
  {
    DivNonNeg(c, t.codes);
    FieldValue(t, c / t.codes, c % t.codes)
  }

  lemma FieldValueStep(t: Format, e: nat, m: nat)
    requires m < t.codes
    ensures (if m + 1 < t.codes then FieldValue(t, e, m + 1) else FieldValue(t, e + 1, 0))
         == FieldValue(t, e, m) + Spacing(t, e)
  {
    var p, lead := Spacing(t, e), if e == 0 then m else t.codes + m;
    assert (lead + 1) * p == lead * p + p;
    if m + 1 == t.codes {
      if e == 0 {
        assert Spacing(t, 1) == p;
      } else {
        assert Spacing(t, e + 1) == 2 * p;
        assert t.codes * (2 * p) == (t.codes + t.codes) * p;
      }
    }
  }

  lemma NextFields(n: nat, c: nat)
    requires n > 0
    ensures if c % n + 1 < n then (c + 1) / n == c / n && (c + 1) % n == c % n + 1
            else (c + 1) / n == c / n + 1 && (c + 1) % n == 0
  {
    var e, m := c / n, c % n;
    assert c == e * n + m;
    if m + 1 < n {
      DivModUnique(e, m + 1, n);
    } else {
      assert (e + 1) * n == e * n + n;
      DivModUnique(e + 1, 0, n);
    }
  }

  lemma MagnitudeStep(t: Format, c: nat)
    requires t.codes > 0
    ensures c / t.codes >= 0 && Magnitude(t, c + 1) == Magnitude(t, c) + Spacing(t, c / t.codes)
  {
    DivNonNeg(c, t.codes);
    NextFields(t.codes, c);
    FieldValueStep(t, c / t.codes, c % t.codes);
  }

  /** Larger patterns have larger magnitudes. */
  lemma {:induction false} MagnitudeGrows(t: Format, c: nat, d: nat)
    requires t.codes > 0 && c < d
    ensures Magnitude(t, c) < Magnitude(t, d)
  {
    MagnitudeStep(t, d - 1);
    if c < d - 1 {
      MagnitudeGrows(t, c, d - 1);
    }
  }

  lemma MagnitudeOrder(t: Format, c: nat, d: nat)
    requires t.codes > 0
    ensures Magnitude(t, c) < Magnitude(t, d) <==> c < d
  {
    if c < d {
      MagnitudeGrows(t, c, d);
    } else if d < c {
      MagnitudeGrows(t, d, c);
    }
  }

  // ---------------------------------------------------------------------------
  // Truncation, field by field
  // ---------------------------------------------------------------------------

  /** Dropping the part of `x` below `d` and the part of `x * p` below `d * p` is the same. */
  lemma ScaledFloor(q: nat, x: nat, d: nat, p: nat)
    requires q * d <= x < (q + 1) * d && p > 0
    ensures q * (d * p) <= x * p < (q + 1) * (d * p)
  {
    MulLe(q * d, x, p);
    MulLe(x + 1, (q + 1) * d, p);
    MulAssociate(q, d, p);
    MulAssociate(q + 1, d, p);
    assert (x + 1) * p == x * p + p;
  }

  lemma QuotientTwice(x: nat, a: nat, b: nat)
    requires a > 0 && b > 0
    ensures x / a >= 0 && x / a / b >= 0
    ensures (x / a / b) * (a * b) <= x < (x / a / b + 1) * (a * b)
  {
    DivNonNeg(x, a);
    var y := x / a;
    DivNonNeg(y, b);
    var z := y / b;
    assert x == a * y + x % a;
    assert y == b * z + y % b;
    MulLe(b * z, y, a);
    MulLe(y + 1, b * z + b, a);
    assert (b * z) * a == z * (a * b);
    assert (b * z + b) * a == (z + 1) * (a * b);
    assert (y + 1) * a == a * y + a;
  }

  // ---------------------------------------------------------------------------
  // binary16
  // ---------------------------------------------------------------------------

  const F32 := Format(0x80_0000, 0)
  const F16 := Format(0x400, 125)
  const INF_32: nat := 0x7F80_0000
  const INF_F16: nat := 0x7C00

  type Bits32 = x: int | 0 <= x < 0x1_0000_0000
  type Bits16 = x: int | 0 <= x < 0x1_0000

  predicate Negative32(f: Bits32) {
    f >= 0x8000_0000
  }

  predicate Negative16(h: Bits16) {
    h >= 0x8000
  }

  /** A pattern without its sign bit. */
  function Unsigned32(f: Bits32): (c: nat)
    ensures c < 0x8000_0000
  {
    if Negative32(f) then f - 0x8000_0000 else f
  }

  function Unsigned16(h: Bits16): (c: nat)
    ensures c < 0x8000
  {
    if Negative16(h) then h - 0x8000 else h
  }

  predicate IsNaN32(f: Bits32) {
    Unsigned32(f) > INF_32
  }

  predicate IsNaNF16(h: Bits16) {
    Unsigned16(h) > INF_F16
  }

  /** The unsigned binary16 pattern for an unbiased exponent and a mantissa field. */
  function F16CodeOf(exponent: int, mantissa: nat): (c: int)
  {
    if exponent >= 16 then
      if exponent == 128 && mantissa != 0 then 0x7E00 else 0x7C00
    else if exponent >= -14 then
      (exponent + 15) * 0x400 + mantissa / 0x2000
    else if exponent >= -24 then
      (mantissa + 0x80_0000) / Pow2(-14 - exponent) / 0x2000
    else
      0
  }

  lemma SubnormalFits(mantissa: nat, shift: nat)
    requires mantissa < 0x80_0000 && shift > 0
    ensures 0 <= (mantissa + 0x80_0000) / Pow2(shift) / 0x2000 < 0x400
  {
    var x, p := mantissa + 0x80_0000, Pow2(shift);
    Pow2Monotone(1, shift);
    MulLe(2, p, 0x80_0000);
    DivNonNeg(x, p);
    DivBelow(x, 0x80_0000, p);
  }

  lemma F16CodeFits(exponent: int, mantissa: nat)
    requires mantissa < 0x80_0000
    ensures 0 <= F16CodeOf(exponent, mantissa) < 0x8000
  {
    if -24 <= exponent < -14 {
      SubnormalFits(mantissa, -14 - exponent);
    }
  }

  /** `Float16::FromFloat`. */
  function F16FromFloat(f: Bits32): (h: Bits16)
    ensures Negative16(h) <==> Negative32(f)
    ensures Unsigned16(h) == F16CodeOf(Unsigned32(f) / 0x80_0000 - 127, f % 0x80_0000)
  {
    F16CodeFits(Unsigned32(f) / 0x80_0000 - 127, f % 0x80_0000);
    (if Negative32(f) then 0x8000 else 0) + F16CodeOf(Unsigned32(f) / 0x80_0000 - 127, f % 0x80_0000)
  }

  /** `h` is the last binary16 pattern whose magnitude does not exceed `x`. */
  predicate LastBelow(x: nat, h: nat) {
    Magnitude(F16, h) <= x < Magnitude(F16, h + 1)
  }

  /** A pattern given by its fields, and the next one. */
  lemma FieldsOf(t: Format, e: nat, m: nat)
    requires m < t.codes
    ensures Magnitude(t, e * t.codes + m) == FieldValue(t, e, m)
    ensures Magnitude(t, e * t.codes + m + 1) == FieldValue(t, e, m) + Spacing(t, e)
  {
    DivModUnique(e, m, t.codes);
    MagnitudeStep(t, e * t.codes + m);
  }

  lemma NormalCode(e: nat, m: nat)
    requires 113 <= e < 143 && m < 0x80_0000
    ensures F16CodeOf(e - 127, m) == (e - 112) * 0x400 + m / 0x2000 < INF_F16
  {
  }

  lemma NormalSpacing(e: nat)
    requires e >= 113
    ensures Spacing(F16, e - 112) == 0x2000 * Pow2(e - 1)
  {
    Pow2Values();
    Pow2Add(13, e - 1);
  }

  /** The significand of a normal result, floored. */
  lemma NormalFloor(m: nat, p: nat)
    requires m < 0x80_0000 && p > 0
    ensures (0x400 + m / 0x2000) * (0x2000 * p) <= (0x80_0000 + m) * p
    ensures (0x80_0000 + m) * p < (0x400 + m / 0x2000) * (0x2000 * p) + 0x2000 * p
  {
    ScaledFloor(0x400 + m / 0x2000, 0x80_0000 + m, 0x2000, p);
    var q, s := 0x400 + m / 0x2000, 0x2000 * p;
    assert (q + 1) * s == q * s + s;
  }

  lemma TruncatesNormal(e: nat, m: nat)
    requires 113 <= e < 143 && m < 0x80_0000
    ensures 0 <= F16CodeOf(e - 127, m) < INF_F16 && LastBelow(FieldValue(F32, e, m), F16CodeOf(e - 127, m))
  {
    NormalCode(e, m);
    NormalSpacing(e);
    FieldsOf(F16, e - 112, m / 0x2000);
    NormalFloor(m, Pow2(e - 1));
  }

  lemma SubnormalSpacing(e: nat)
    requires 1 <= e < 113
    ensures Spacing(F16, 0) == (Pow2(113 - e) * 0x2000) * Pow2(e - 1)
  {
    Pow2Values();
    Pow2Add(113 - e, 13);
    Pow2Add(113 - e + 13, e - 1);
  }

  lemma SubnormalFloor(x: nat, a: nat, p: nat)
    requires a > 0 && p > 0
    ensures x / a / 0x2000 >= 0
    ensures (x / a / 0x2000) * ((a * 0x2000) * p) <= x * p < (x / a / 0x2000) * ((a * 0x2000) * p) + (a * 0x2000) * p
  {
    QuotientTwice(x, a, 0x2000);
    var h: nat, s := x / a / 0x2000, (a * 0x2000) * p;
    ScaledFloor(h, x, a * 0x2000, p);
    assert (h + 1) * s == h * s + s;
  }

  lemma TruncatesSubnormal(e: nat, m: nat)
    requires 103 <= e < 113 && m < 0x80_0000
    ensures 0 <= F16CodeOf(e - 127, m) < 0x400 && LastBelow(FieldValue(F32, e, m), F16CodeOf(e - 127, m))
  {
    SubnormalFits(m, 113 - e);
    SubnormalSpacing(e);
    FieldsOf(F16, 0, F16CodeOf(e - 127, m));
    SubnormalFloor(m + 0x80_0000, Pow2(113 - e), Pow2(e - 1));
  }

  lemma TruncatesTiny(e: nat, m: nat)
    requires e < 103 && m < 0x80_0000
    ensures F16CodeOf(e - 127, m) == 0 && LastBelow(FieldValue(F32, e, m), 0)
  {
    FieldsOf(F16, 0, 0);
    Pow2Values();
    if e == 0 {
      Pow2Monotone(23, 125);
    } else {
      var p := Pow2(e - 1);
      Pow2Add(24, e - 1);
      Pow2Monotone(24 + (e - 1), 125);
      MulLe(0x80_0000 + m + 1, 0x100_0000, p);
      assert (0x80_0000 + m + 1) * p == (0x80_0000 + m) * p + p;
    }
  }

  /** The pattern of 65536.0, whose magnitude is 2^165 units of 2^-149. */
  const OVERFLOW_32: nat := 0x4780_0000

  lemma OverflowValue()
    ensures Magnitude(F32, OVERFLOW_32) == Pow2(165)
  {
    hide Magnitude, Pow2;
    NormalPattern(143, 0);
    SmallestOfBinade(142);
  }

  lemma NormalPattern(e: nat, m: nat)
    requires e > 0 && m < 0x80_0000
    ensures Magnitude(F32, e * 0x80_0000 + m) == (0x80_0000 + m) * Pow2(e - 1)
  {
    DivModUnique(e, m, 0x80_0000);
  }

  lemma SmallestOfBinade(k: nat)
    ensures 0x80_0000 * Pow2(k) == Pow2(k + 23)
  {
    Pow2Values();
    Pow2Add(23, k);
  }

  /** roundTowardZero (section 4.3.2 of IEEE 754-2019): below 65536 the result keeps the sign and
      is the finite binary16 value of greatest magnitude not exceeding the argument's. */
  lemma F16Truncates(f: Bits32)
    requires Magnitude(F32, Unsigned32(f)) < Pow2(165)
    ensures Unsigned16(F16FromFloat(f)) < INF_F16
    ensures Magnitude(F16, Unsigned16(F16FromFloat(f))) <= Magnitude(F32, Unsigned32(f))
    ensures forall g: nat :: Magnitude(F16, g) <= Magnitude(F32, Unsigned32(f)) ==> g <= Unsigned16(F16FromFloat(f))
    ensures Negative16(F16FromFloat(f)) <==> Negative32(f)
  {
    BelowOverflow(Unsigned32(f));
    NarrowUnsigned(f);
    NarrowTruncates(Unsigned32(f));
  }

  lemma BelowOverflow(c: nat)
    ensures Magnitude(F32, c) < Pow2(165) <==> c < OVERFLOW_32
  {
    OverflowValue();
    MagnitudeOrder(F32, c, OVERFLOW_32);
  }

  lemma NarrowTruncates(c: nat)
    requires c < OVERFLOW_32
    ensures 0 <= Narrow(c) < INF_F16 && Magnitude(F16, Narrow(c)) <= Magnitude(F32, c)
    ensures forall g: nat :: Magnitude(F16, g) <= Magnitude(F32, c) ==> g <= Narrow(c)
  {
    LastBelowFinite(c);
    forall g: nat | Magnitude(F16, g) <= Magnitude(F32, c) ensures g <= Narrow(c) {
      MagnitudeOrder(F16, g, Narrow(c) + 1);
    }
  }

  /** The unsigned conversion, below overflow. */
  function Narrow(c: nat): int {
    F16CodeOf(c / 0x80_0000 - 127, c % 0x80_0000)
  }

  lemma NarrowUnsigned(f: Bits32)
    ensures Unsigned16(F16FromFloat(f)) == Narrow(Unsigned32(f))
  {
    assert f % 0x80_0000 == Unsigned32(f) % 0x80_0000;
  }

  lemma LastBelowFinite(c: nat)
    requires c < OVERFLOW_32
    ensures 0 <= Narrow(c) < INF_F16 && LastBelow(Magnitude(F32, c), Narrow(c))
  {
    var e, m := c / 0x80_0000, c % 0x80_0000;
    if e >= 113 {
      TruncatesNormal(e, m);
    } else if e >= 103 {
      TruncatesSubnormal(e, m);
    } else {
      TruncatesTiny(e, m);
    }
  }

  /** From 65536 on the result is an infinity of the same sign; a NaN becomes the quiet NaN. */
  lemma F16Overflows(f: Bits32)
    requires Magnitude(F32, Unsigned32(f)) >= Pow2(165)
    ensures Unsigned16(F16FromFloat(f)) == if IsNaN32(f) then 0x7E00 else INF_F16
    ensures Negative16(F16FromFloat(f)) <==> Negative32(f)
  {
    var c := Unsigned32(f);
    BelowOverflow(c);
    NarrowUnsigned(f);
  }

  /** Signed values, with infinities beyond every finite value. */
  function Signed(negative: bool, magnitude: nat): int {
    if negative then -(magnitude as int) else magnitude
  }

  function Value32(f: Bits32): int {
    Signed(Negative32(f), Magnitude(F32, Unsigned32(f)))
  }

  function ValueF16(h: Bits16): int {
    Signed(Negative16(h), Magnitude(F16, Unsigned16(h)))
  }

  lemma NarrowMonotone(c: nat, d: nat)
    requires c <= d <= INF_32
    ensures 0 <= Narrow(c) <= Narrow(d)
  {
    if d < OVERFLOW_32 {
      LastBelowFinite(c);
      LastBelowFinite(d);
      if Narrow(c) > Narrow(d) {
        MagnitudeOrder(F16, Narrow(d) + 1, Narrow(c));
        MagnitudeOrder(F32, d, c);
      }
    } else if c < OVERFLOW_32 {
      LastBelowFinite(c);
    }
  }

  /** An order-preserving change of magnitudes that keeps zero preserves the order of signed values. */
  lemma SignedMonotone(m: bool, a: nat, a': nat, n: bool, b: nat, b': nat)
    requires Signed(m, a) <= Signed(n, b)
    requires (a <= b ==> a' <= b') && (b <= a ==> b' <= a') && (a == 0 ==> a' == 0) && (b == 0 ==> b' == 0)
    ensures Signed(m, a') <= Signed(n, b')
  {
  }

  lemma NarrowMagnitudes(c: nat, d: nat)
    requires c <= INF_32 && d <= INF_32 && Magnitude(F32, c) <= Magnitude(F32, d)
    ensures 0 <= Narrow(c) && 0 <= Narrow(d) && Magnitude(F16, Narrow(c)) <= Magnitude(F16, Narrow(d))
  {
    MagnitudeOrder(F32, d, c);
    NarrowMonotone(c, d);
    MagnitudeOrder(F16, Narrow(d), Narrow(c));
  }

  /** Conversion is monotone on all non-NaN values, infinities included. */
  lemma F16Monotone(f: Bits32, g: Bits32)
    requires !IsNaN32(f) && !IsNaN32(g) && Value32(f) <= Value32(g)
    ensures ValueF16(F16FromFloat(f)) <= ValueF16(F16FromFloat(g))
  {
    var c, d := Unsigned32(f), Unsigned32(g);
    NarrowUnsigned(f);
    NarrowUnsigned(g);
    if Magnitude(F32, c) <= Magnitude(F32, d) {
      NarrowMagnitudes(c, d);
    }
    if Magnitude(F32, d) <= Magnitude(F32, c) {
      NarrowMagnitudes(d, c);
    }
    ZeroMagnitude(c);
    ZeroMagnitude(d);
    SignedMonotone(Negative32(f), Magnitude(F32, c), Magnitude(F16, Unsigned16(F16FromFloat(f))), Negative32(g),
      Magnitude(F32, d), Magnitude(F16, Unsigned16(F16FromFloat(g))));
  }

  /** Zero has magnitude zero, and only zero. */
  lemma ZeroMagnitude(c: nat)
    ensures Magnitude(F32, c) == 0 <==> c == 0
    ensures Narrow(0) == 0 && Magnitude(F16, 0) == 0
  {
    FieldsOf(F32, 0, 0);
    FieldsOf(F16, 0, 0);
    if c > 0 {
      MagnitudeOrder(F32, 0, c);
    }
  }

  /** `u` is the unsigned binary32 pattern of the unsigned binary16 pattern `c`: the same value, or a
      NaN for a NaN with the payload moved to the top of the mantissa. */
  predicate WidensUnsigned(c: nat, u: nat) {
    if c >= INF_F16 then u == INF_32 + (c - INF_F16) * 0x2000
    else u < INF_32 && Magnitude(F32, u) == Magnitude(F16, c)
  }

  predicate Widens(h: Bits16, f: Bits32) {
    (Negative32(f) <==> Negative16(h)) && WidensUnsigned(Unsigned16(h), Unsigned32(f))
  }

  /** The loop of `Float16::ToFloat` that shifts a subnormal mantissa until its leading bit reaches
      the implicit position. */
  method Normalize(c: nat) returns (exponent: int, mantissa: nat, ghost shifts: nat)
    requires 0 < c < 0x400
    ensures shifts <= 10 && exponent == -14 - shifts
    ensures mantissa == c * Pow2(shifts) && 0x400 <= mantissa < 0x800
  {
    mantissa := c;
    exponent := -14;
    shifts := 0;
    while mantissa / 0x400 % 2 == 0
      invariant exponent == -14 - shifts && 0 < mantissa < 0x800
      invariant mantissa == c * Pow2(shifts)
      invariant shifts <= 10
      invariant shifts < 10 || mantissa >= 0x400
      decreases 0x800 - mantissa
    {
      ShiftOnce(c, shifts);
      mantissa := mantissa * 2;
      exponent := exponent - 1;
      shifts := shifts + 1;
    }
  }

  method WidenSmall(mantissa: nat) returns (u: nat)
    requires 0 < mantissa < 0x400
    ensures u < INF_32 && WidensUnsigned(mantissa, u)
  {
    var e, m, shifts := Normalize(mantissa);
    WidenSubnormal(mantissa, shifts, m);
    var field := m % 0x400;
    assert field == m - 0x400;
    u := (e + 127) * 0x80_0000 + field * 0x2000;
  }

  method WidenFields(exponent: nat, mantissa: nat) returns (u: nat)
    requires exponent < 32 && mantissa < 0x400
    ensures u < 0x8000_0000 && WidensUnsigned(exponent * 0x400 + mantissa, u)
  {
    if exponent == 31 {
      u := INF_32 + mantissa * 0x2000;
    } else if exponent == 0 {
      if mantissa == 0 {
        u := 0;
        WidenZero();
      } else {
        u := WidenSmall(mantissa);
      }
    } else {
      WidenNormal(exponent, mantissa);
      u := (exponent + 127 - 15) * 0x80_0000 + mantissa * 0x2000;
    }
  }

  /** `Float16::ToFloat`. */
  method F16ToFloat(h: Bits16) returns (f: Bits32)
    ensures Widens(h, f)
  {
    var u := WidenFields(Unsigned16(h) / 0x400, Unsigned16(h) % 0x400);
    f := (if Negative16(h) then 0x8000_0000 else 0) + u;
  }

  lemma ShiftOnce(c: nat, shifts: nat)
    ensures c * Pow2(shifts) * 2 == c * Pow2(shifts + 1)
    ensures c > 0 && shifts >= 9 ==> c * Pow2(shifts + 1) >= 0x400
  {
    var p := Pow2(shifts);
    assert c * p * 2 == c * (2 * p);
    if c > 0 && shifts >= 9 {
      assert Pow2(8) == 0x100;
      Pow2Add(8, 2);
      Pow2Monotone(10, shifts + 1);
      MulLe(1, c, Pow2(shifts + 1));
    }
  }

  lemma WidenZero()
    ensures WidensUnsigned(0, 0)
  {
    ZeroMagnitude(0);
  }

  lemma SubnormalValue(c: nat, j: nat)
    requires j <= 10 && 0x400 <= c * Pow2(j) < 0x800 && 0 < c < 0x400
    ensures Magnitude(F32, (113 - j) * 0x80_0000 + (c * Pow2(j) - 0x400) * 0x2000) == Magnitude(F16, c)
  {
    var x := c * Pow2(j);
    FieldsOf(F32, 113 - j, (x - 0x400) * 0x2000);
    FieldsOf(F16, 0, c);
    SubnormalSpacing(113 - j);
    var a, p := Pow2(j), Pow2(112 - j);
    MulAssociate(c, a, 0x2000);
    MulAssociate(c, a * 0x2000, p);
    assert 0x80_0000 + (x - 0x400) * 0x2000 == x * 0x2000;
  }

  /** A normalised subnormal: `m` is `c` shifted `j` places. */
  lemma WidenSubnormal(c: nat, j: nat, m: nat)
    requires j <= 10 && m == c * Pow2(j) && 0x400 <= m < 0x800 && 0 < c < 0x400
    ensures 0 <= (113 - j) * 0x80_0000 + (m - 0x400) * 0x2000 < INF_32
    ensures WidensUnsigned(c, (113 - j) * 0x80_0000 + (m - 0x400) * 0x2000)
  {
    SubnormalValue(c, j);
  }

  lemma WidenNormal(e: nat, m: nat)
    requires 1 <= e <= 30 && m < 0x400
    ensures (e + 112) * 0x80_0000 + m * 0x2000 < INF_32
    ensures WidensUnsigned(e * 0x400 + m, (e + 112) * 0x80_0000 + m * 0x2000)
  {
    FieldsOf(F32, e + 112, m * 0x2000);
    FieldsOf(F16, e, m);
    NormalSpacing(e + 112);
    MulAssociate(0x400 + m, 0x2000, Pow2(e + 111));
  }

  /** Narrowing undoes widening on every pattern but the NaNs, which all become the quiet NaN. */
  lemma F16RoundTrip(h: Bits16, f: Bits32)
    requires Widens(h, f)
    ensures !IsNaNF16(h) ==> F16FromFloat(f) == h
    ensures IsNaNF16(h) ==> Unsigned16(F16FromFloat(f)) == 0x7E00
  {
    NarrowUnsigned(f);
    var c, d := Unsigned32(f), Unsigned16(h);
    if d >= INF_F16 {
      assert c == 255 * 0x80_0000 + (d - INF_F16) * 0x2000;
    } else {
      HalfBelowOverflow(d);
      BelowOverflow(c);
      LastBelowFinite(c);
      MagnitudeOrder(F16, d, Narrow(c) + 1);
      MagnitudeOrder(F16, Narrow(c), d);
      MagnitudeOrder(F16, d, Narrow(c));
    }
  }

  /** Finite binary16 values are below 65536. */
  lemma HalfBelowOverflow(d: nat)
    requires d < INF_F16
    ensures Magnitude(F16, d) < Pow2(165)
  {
    MagnitudeOrder(F16, d, INF_F16);
    FieldsOf(F16, 31, 0);
    Pow2Add(10, 155);
    assert Pow2(8) == 0x100;
    Pow2Add(8, 2);
  }

  /** Widening then narrowing then widening again changes nothing more: the composite is idempotent. */
  lemma F16Idempotent(f: Bits32, h: Bits16, g: Bits32)
    requires !IsNaN32(f) && h == F16FromFloat(f) && Widens(h, g)
    ensures F16FromFloat(g) == h
  {
    BelowOverflow(Unsigned32(f));
    if Magnitude(F32, Unsigned32(f)) < Pow2(165) {
      F16Truncates(f);
    } else {
      F16Overflows(f);
    }
    F16RoundTrip(h, g);
  }

  // ---------------------------------------------------------------------------
  // bfloat16
  // ---------------------------------------------------------------------------

  const BF16 := Format(0x80, 16)
  const INF_BF16: nat := 0x7F80

  /** `BFloat16::FromFloat`. The addition is on 32-bit words, so it wraps. */
  function BF16FromFloat(f: Bits32): Bits16 {
    var roundingBias := 0x7FFF + f / 0x1_0000 % 2;
    (f + roundingBias) % 0x1_0000_0000 / 0x1_0000
  }

  /** `BFloat16::ToFloat`. */
  function BF16ToFloat(h: Bits16): Bits32 {
    h * 0x1_0000
  }

  /** The rounded unsigned pattern: up past the midpoint, and at it when that makes it even. */
  function RoundCode(c: nat): (h: nat) {
    var low := c % 0x1_0000;
    if low > 0x8000 || (low == 0x8000 && c / 0x1_0000 % 2 == 1) then c / 0x1_0000 + 1 else c / 0x1_0000
  }

  lemma BF16Unsigned(f: Bits32)
    requires !IsNaN32(f)
    ensures Negative16(BF16FromFloat(f)) <==> Negative32(f)
    ensures Unsigned16(BF16FromFloat(f)) == RoundCode(Unsigned32(f)) <= INF_BF16
  {
    hide *;
    SplitWord(f);
    BiasFits(f);
    RoundWord(f / 0x1_0000, f % 0x1_0000);
    RoundedHalves(f, f / 0x1_0000, Unsigned32(f) / 0x1_0000, Unsigned32(f) % 0x1_0000);
  }

  /** Only NaNs reach the end of the word. */
  lemma BiasFits(f: Bits32)
    requires !IsNaN32(f)
    ensures f + 0x7FFF + f / 0x1_0000 % 2 < 0x1_0000_0000
    ensures Unsigned32(f) / 0x1_0000 < 0x7F80 || (Unsigned32(f) / 0x1_0000 == 0x7F80 && Unsigned32(f) % 0x1_0000 == 0)
  {
  }

  lemma RoundedHalves(f: Bits32, high: nat, top: nat, low: nat)
    requires high == top + (if Negative32(f) then 0x8000 else 0) && top == Unsigned32(f) / 0x1_0000
    requires low == Unsigned32(f) % 0x1_0000 && (top < 0x7F80 || (top == 0x7F80 && low == 0))
    requires high == f / 0x1_0000 && f + 0x7FFF + high % 2 < 0x1_0000_0000
    requires (f + 0x7FFF + high % 2) / 0x1_0000 == high + if low > 0x8000 || (low == 0x8000 && high % 2 == 1) then 1 else 0
    ensures Negative16(BF16FromFloat(f)) <==> Negative32(f)
    ensures Unsigned16(BF16FromFloat(f)) == RoundCode(Unsigned32(f)) <= INF_BF16
  {
    hide Unsigned32, Negative32;
    assert high % 2 == top % 2;
    var w := f + 0x7FFF + high % 2;
    assert w % 0x1_0000_0000 == w;
    assert BF16FromFloat(f) == w / 0x1_0000;
  }

  /** The upper half of a word holds the sign, the lower half does not. */
  lemma SplitWord(f: Bits32)
    ensures f / 0x1_0000 == Unsigned32(f) / 0x1_0000 + if Negative32(f) then 0x8000 else 0
    ensures f % 0x1_0000 == Unsigned32(f) % 0x1_0000
    ensures f == f / 0x1_0000 * 0x1_0000 + f % 0x1_0000
  {
  }

  /** Adding the bias to a word of halves `high` and `low`, and taking the upper half. */
  lemma RoundWord(high: nat, low: nat)
    requires high < 0x1_0000 && low < 0x1_0000
    ensures (high * 0x1_0000 + low + 0x7FFF + high % 2) / 0x1_0000
         == high + if low > 0x8000 || (low == 0x8000 && high % 2 == 1) then 1 else 0
  {
  }

  lemma WideSpacing(e: nat)
    ensures Spacing(BF16, e) == 0x1_0000 * Spacing(F32, e)
  {
    Pow2Values();
    Pow2Add(16, if e == 0 then 0 else e - 1);
  }

  lemma FieldsOnTheLine(e: nat, m: nat, r: nat)
    requires m < 0x80 && r < 0x1_0000
    ensures FieldValue(F32, e, m * 0x1_0000 + r) == FieldValue(BF16, e, m) + r * Spacing(F32, e)
  {
    WideSpacing(e);
    var u, lead := Spacing(F32, e), if e == 0 then m else 0x80 + m;
    Distribute(lead, 0x1_0000, r, u);
  }

  /** A binary32 pattern lies on the line between the two bfloat16 patterns around it. */
  lemma OnTheLine(c: nat, u: nat)
    requires u == Spacing(F32, c / 0x80_0000)
    ensures Magnitude(F32, c) == Magnitude(BF16, c / 0x1_0000) + c % 0x1_0000 * u
    ensures Magnitude(BF16, c / 0x1_0000 + 1) == Magnitude(BF16, c / 0x1_0000) + 0x1_0000 * u
  {
    var h, r := c / 0x1_0000, c % 0x1_0000;
    assert h / 0x80 == c / 0x80_0000 && c % 0x80_0000 == h % 0x80 * 0x1_0000 + r;
    FieldsOnTheLine(h / 0x80, h % 0x80, r);
    MagnitudeStep(BF16, h);
    WideSpacing(h / 0x80);
  }

  function Distance(x: nat, y: nat): nat {
    if x < y then y - x else x - y
  }

  lemma HalfwayCompare(r: nat, u: nat)
    requires u > 0 && r < 0x1_0000
    ensures 0 <= r * u < 0x1_0000 * u
    ensures r < 0x8000 ==> 2 * (r * u) < 0x1_0000 * u
    ensures r == 0x8000 ==> 2 * (r * u) == 0x1_0000 * u
    ensures r > 0x8000 ==> 2 * (r * u) > 0x1_0000 * u
  {
    if r < 0x8000 {
      MulLe(r + 1, 0x8000, u);
    } else if r > 0x8000 {
      MulLe(0x8001, r, u);
    }
    MulLe(r + 1, 0x1_0000, u);
  }

  /** `y` rounds `x` to the nearest bfloat16 magnitude, preferring an even pattern. */
  predicate NearestEven(x: nat, y: nat, g: nat) {
    && Distance(x, Magnitude(BF16, y)) <= Distance(x, Magnitude(BF16, g))
    && (g != y && Distance(x, Magnitude(BF16, y)) == Distance(x, Magnitude(BF16, g)) ==> y % 2 == 0)
  }

  /** Between neighbours `lo` and `lo + gap`, with every other value outside. */
  lemma NearestOfTwo(lo: nat, gap: nat, d: nat, h: nat, y: nat, vy: nat, g: nat, vg: nat)
    requires d < gap
    requires y == if 2 * d > gap || (2 * d == gap && h % 2 == 1) then h + 1 else h
    requires vy == if y == h then lo else lo + gap
    requires (g < h ==> vg < lo) && (g == h ==> vg == lo) && (g == h + 1 ==> vg == lo + gap) && (g > h + 1 ==> vg > lo + gap)
    ensures Distance(lo + d, vy) <= Distance(lo + d, vg)
    ensures g != y && Distance(lo + d, vy) == Distance(lo + d, vg) ==> y % 2 == 0
  {
  }

  /** roundTiesToEven (section 4.3.1 of IEEE 754-2019), on magnitudes and for every competitor `g`,
      with infinity taken as 2^128. */
  lemma RoundCodeNearest(c: nat, g: nat)
    ensures NearestEven(Magnitude(F32, c), RoundCode(c), g)
  {
    var h, r, u := c / 0x1_0000, c % 0x1_0000, Spacing(F32, c / 0x80_0000);
    OnTheLine(c, u);
    HalfwayCompare(r, u);
    MagnitudeOrder(BF16, g, h);
    MagnitudeOrder(BF16, h + 1, g);
    NearestOfTwo(Magnitude(BF16, h), 0x1_0000 * u, r * u, h, RoundCode(c), Magnitude(BF16, RoundCode(c)), g,
      Magnitude(BF16, g));
  }

  /** The bfloat16 conversion of every non-NaN value keeps the sign and rounds to nearest even. */
  lemma BF16Nearest(f: Bits32, g: nat)
    requires !IsNaN32(f)
    ensures Negative16(BF16FromFloat(f)) <==> Negative32(f)
    ensures Unsigned16(BF16FromFloat(f)) <= INF_BF16
    ensures NearestEven(Magnitude(F32, Unsigned32(f)), Unsigned16(BF16FromFloat(f)), g)
  {
    BF16Unsigned(f);
    RoundCodeNearest(Unsigned32(f), g);
  }

  /** Magnitudes of at least 2^127 (2 - 2^-8), and only those, become infinite, as section 4.3.1
      prescribes. */
  lemma BF16Overflows(f: Bits32)
    requires !IsNaN32(f)
    ensures Unsigned16(BF16FromFloat(f)) == INF_BF16 <==> Magnitude(F32, Unsigned32(f)) >= 511 * Pow2(268)
  {
    BF16Unsigned(f);
    ThresholdPattern();
    MagnitudeOrder(F32, Unsigned32(f), 0x7F7F_8000);
    RoundsToInfinity(Unsigned32(f));
  }

  lemma ThresholdPattern()
    ensures Magnitude(F32, 0x7F7F_8000) == 511 * Pow2(268)
  {
    NormalPattern(254, 0x7F_8000);
    OverflowThreshold(253);
  }

  lemma RoundsToInfinity(c: nat)
    requires c <= INF_32
    ensures RoundCode(c) == INF_BF16 <==> c >= 0x7F7F_8000
  {
  }

  lemma OverflowThreshold(k: nat)
    ensures (0x80_0000 + 0x7F_8000) * Pow2(k) == 511 * Pow2(k + 15)
  {
    Pow2Values();
    Pow2Add(13, 2);
    Pow2Add(15, k);
    MulAssociate(511, 0x8000, Pow2(k));
  }

  function ValueBF16(h: Bits16): int {
    Signed(Negative16(h), Magnitude(BF16, Unsigned16(h)))
  }

  lemma BF16Monotone(f: Bits32, g: Bits32)
    requires !IsNaN32(f) && !IsNaN32(g) && Value32(f) <= Value32(g)
    ensures ValueBF16(BF16FromFloat(f)) <= ValueBF16(BF16FromFloat(g))
  {
    var c, d := Unsigned32(f), Unsigned32(g);
    BF16Unsigned(f);
    BF16Unsigned(g);
    if Magnitude(F32, c) <= Magnitude(F32, d) {
      RoundMagnitudes(c, d);
    }
    if Magnitude(F32, d) <= Magnitude(F32, c) {
      RoundMagnitudes(d, c);
    }
    if Magnitude(F32, c) == 0 {
      RoundZero(c);
    }
    if Magnitude(F32, d) == 0 {
      RoundZero(d);
    }
    SignedMonotone(Negative32(f), Magnitude(F32, c), Magnitude(BF16, RoundCode(c)), Negative32(g), Magnitude(F32, d),
      Magnitude(BF16, RoundCode(d)));
  }

  lemma RoundMagnitudes(c: nat, d: nat)
    requires Magnitude(F32, c) <= Magnitude(F32, d)
    ensures Magnitude(BF16, RoundCode(c)) <= Magnitude(BF16, RoundCode(d))
  {
    MagnitudeOrder(F32, d, c);
    assert RoundCode(c) <= RoundCode(d);
    MagnitudeOrder(BF16, RoundCode(d), RoundCode(c));
  }

  lemma RoundZero(c: nat)
    requires Magnitude(F32, c) == 0
    ensures Magnitude(BF16, RoundCode(c)) == 0
  {
    ZeroMagnitude(c);
    FieldsOf(BF16, 0, 0);
  }

  /** Narrowing undoes widening on all patterns, NaNs included, and widening is exact. */
  lemma BF16RoundTrip(h: Bits16)
    ensures BF16FromFloat(BF16ToFloat(h)) == h
    ensures Negative32(BF16ToFloat(h)) <==> Negative16(h)
    ensures Magnitude(F32, Unsigned32(BF16ToFloat(h))) == Magnitude(BF16, Unsigned16(h))
  {
    WidenedBF16(h);
    AtGridPoint(Unsigned16(h));
  }

  lemma WidenedBF16(h: Bits16)
    ensures BF16FromFloat(h * 0x1_0000) == h
    ensures Unsigned32(h * 0x1_0000) == Unsigned16(h) * 0x1_0000 && (Negative32(h * 0x1_0000) <==> Negative16(h))
  {
    assert h * 0x1_0000 / 0x1_0000 == h;
  }

  lemma AtGridPoint(c: nat)
    ensures Magnitude(F32, c * 0x1_0000) == Magnitude(BF16, c)
  {
    var x := c * 0x1_0000;
    assert x / 0x1_0000 == c && x % 0x1_0000 == 0;
    OnTheLine(x, Spacing(F32, x / 0x80_0000));
  }

  /** The rounding addition has no NaN case. A NaN stays a NaN exactly when its pattern is neither so
      close to infinity that it rounds to it nor so large that the sum leaves the exponent field. */
  lemma BF16NaNExact(f: Bits32)
    requires IsNaN32(f)
    ensures Unsigned16(BF16FromFloat(f)) > INF_BF16 && (Negative16(BF16FromFloat(f)) <==> Negative32(f))
       <==> 0x7F80_8000 < Unsigned32(f) < 0x7FFF_8000
  {
    var c := Unsigned32(f);
    assert f / 0x1_0000 == c / 0x1_0000 + if Negative32(f) then 0x8000 else 0;
  }

  /** Two NaNs on either side of that interval: the first rounds to infinity, the second to minus zero. */
  lemma BF16LosesNaNs()
    ensures IsNaN32(0x7F80_0001) && BF16FromFloat(0x7F80_0001) == INF_BF16
    ensures IsNaN32(0x7FFF_8000) && BF16FromFloat(0x7FFF_8000) == 0x8000
  {
  }

  /** Patterns of IEEE 754: one, the largest finite and the smallest binary16 values, minus two, and the
      same one in bfloat16. */
  lemma StandardPatterns()
    ensures F16FromFloat(0x3F80_0000) == 0x3C00 && F16FromFloat(0x477F_E000) == 0x7BFF
    ensures F16FromFloat(0x3380_0000) == 0x0001 && F16FromFloat(0xC000_0000) == 0xC000
    ensures BF16FromFloat(0x3F80_0000) == 0x3F80 && BF16FromFloat(0xC000_0000) == 0xC000
  {
    assert Pow2(5) == 32;
    Pow2Add(5, 5);
  }
}
