/** Conversions from floating point to integers, bit by bit. A float of either format is the exact
    rational `Numerator / Denominator`; what the range tests on bit patterns say is proved about
    that number, with section 4.3.4 of the WebAssembly Core Specification 1.0 as the measure. */
module FloatToInt {
  import opened Wasm
  import opened MemoryLaws

  datatype Format = F32Format | F64Format
  datatype IntType = S32 | S64 | U32 | U64

  /** 2 to the number of significand bits. */
  function SigUnit(fm: Format): (u: nat)
    ensures u > 0
  {
    if fm.F32Format? then 0x80_0000 else 0x10_0000_0000_0000
  }

  /** The sign bit, `kNegZero`. */
  function SignBit(fm: Format): (s: nat)
    ensures s > 0
  {
    if fm.F32Format? then 0x8000_0000 else 0x8000_0000_0000_0000
  }

  function Bias(fm: Format): nat {
    if fm.F32Format? then 127 else 1023
  }

  function SigBits(fm: Format): nat {
    if fm.F32Format? then 23 else 52
  }

  /** `kInf`. */
  function Infinity(fm: Format): nat {
    if fm.F32Format? then 0x7f80_0000 else 0x7ff0_0000_0000_0000
  }

  /** The pattern of 1.0; with the sign bit, `kNegOne`. */
  function One(fm: Format): nat {
    if fm.F32Format? then 0x3f80_0000 else 0x3ff0_0000_0000_0000
  }

  predicate IsBits(fm: Format, bits: nat) {
    bits < 2 * SignBit(fm)
  }

  predicate Negative(fm: Format, bits: nat) {
    bits >= SignBit(fm)
  }

  /** Everything but the sign. */
  function Magnitude(fm: Format, bits: nat): nat {
    bits % SignBit(fm)
  }

  /** `IsNan`. */
  predicate IsNan(fm: Format, bits: nat) {
    (bits > Infinity(fm) && bits < SignBit(fm)) || bits > SignBit(fm) + Infinity(fm)
  }

  predicate IsFinite(fm: Format, bits: nat) {
    Magnitude(fm, bits) < Infinity(fm)
  }

  /* ---- the exact value ---- */

  /** All values of a format are whole multiples of 1 / Denominator. */
  function Denominator(fm: Format): (d: nat)
    ensures d > 0
  {
    Pow2(Bias(fm) + SigBits(fm) - 1)
  }

  /** The absolute value, times the denominator: subnormal when the exponent field is 0. */
  function Numerator(fm: Format, mag: nat): nat {
    var exponent, fraction := mag / SigUnit(fm), mag % SigUnit(fm);
    if exponent == 0 then fraction else (SigUnit(fm) + fraction) * Pow2(exponent - 1)
  }

  /** The absolute value, rounded down. */
  function Whole(fm: Format, mag: nat): nat {
    Quotient(Numerator(fm, mag), Denominator(fm))
  }

  function Quotient(n: nat, d: nat): nat
    requires d > 0
  {
    n / d
  }

  /** The value rounded towards zero. */
  function Trunc(fm: Format, bits: nat): int {
    if Negative(fm, bits) then 0 - Whole(fm, Magnitude(fm, bits)) else Whole(fm, Magnitude(fm, bits))
  }

  /* ---- the code ---- */

  function MinOf(r: IntType): int {
    match r
    case S32 => -0x8000_0000
    case S64 => -0x8000_0000_0000_0000
    case _ => 0
  }

  function MaxOf(r: IntType): int {
    match r
    case S32 => 0x7fff_ffff
    case S64 => 0x7fff_ffff_ffff_ffff
    case U32 => 0xffff_ffff
    case U64 => 0xffff_ffff_ffff_ffff
  }

  /** `IsConversionInRange<R, T>`, pair by pair. */
  predicate InRange(fm: Format, r: IntType, bits: nat) {
    match (fm, r)
    case (F32Format, S32) => bits < 0x4f00_0000 || (bits >= 0x8000_0000 && bits <= 0xcf00_0000)
    case (F32Format, S64) => bits < 0x5f00_0000 || (bits >= 0x8000_0000 && bits <= 0xdf00_0000)
    case (F32Format, U32) => bits < 0x4f80_0000 || (bits >= 0x8000_0000 && bits < 0xbf80_0000)
    case (F32Format, U64) => bits < 0x5f80_0000 || (bits >= 0x8000_0000 && bits < 0xbf80_0000)
    case (F64Format, S32) =>
      bits <= 0x41df_ffff_ffc0_0000 || (bits >= 0x8000_0000_0000_0000 && bits <= 0xc1e0_0000_0000_0000)
    case (F64Format, S64) =>
      bits < 0x43e0_0000_0000_0000 || (bits >= 0x8000_0000_0000_0000 && bits <= 0xc3e0_0000_0000_0000)
    case (F64Format, U32) =>
      bits <= 0x41ef_ffff_ffe0_0000 || (bits >= 0x8000_0000_0000_0000 && bits < 0xbff0_0000_0000_0000)
    case (F64Format, U64) =>
      bits < 0x43f0_0000_0000_0000 || (bits >= 0x8000_0000_0000_0000 && bits < 0xbff0_0000_0000_0000)
  }

  datatype TruncResult = Ok(n: int) | InvalidConversion | Overflow

  /** `IntTrunc`: the C cast of a value that fits is its truncation. */
  function IntTrunc(fm: Format, r: IntType, bits: nat): TruncResult {
    if IsNan(fm, bits) then InvalidConversion
    else if !InRange(fm, r, bits) then Overflow
    else Ok(Trunc(fm, bits))
  }

  /** `IntTruncSat`. */
  function IntTruncSat(fm: Format, r: IntType, bits: nat): int {
    if IsNan(fm, bits) then 0
    else if !InRange(fm, r, bits) then (if Negative(fm, bits) then MinOf(r) else MaxOf(r))
    else Trunc(fm, bits)
  }

  /** Finite numbers, infinities and NaNs by their exponent and fraction fields, as in sections 3.3 and 3.4 of
      IEEE 754-2008. */
  lemma ClassByFields(fm: Format, bits: nat)
    requires bits < if fm.F32Format? then 0x1_0000_0000 else 0x1_0000_0000_0000_0000
    ensures
      var exponent := if fm.F32Format? then bits / 0x80_0000 % 256 else bits / 0x10_0000_0000_0000 % 2048;
      var fraction := if fm.F32Format? then bits % 0x80_0000 else bits % 0x10_0000_0000_0000;
      var top := if fm.F32Format? then 255 else 2047;
      && IsBits(fm, bits)
      && (IsFinite(fm, bits) <==> exponent != top)
      && (IsNan(fm, bits) <==> exponent == top && fraction != 0)
  {
    if fm.F32Format? { SingleFields(bits); } else { DoubleFields(bits); }
  }

  lemma SingleFields(bits: nat)
    requires bits < 0x1_0000_0000
    ensures IsBits(F32Format, bits)
    ensures IsFinite(F32Format, bits) <==> bits / 0x80_0000 % 256 != 255
    ensures IsNan(F32Format, bits) <==> bits / 0x80_0000 % 256 == 255 && bits % 0x80_0000 != 0
  {
  }

  lemma DoubleFields(bits: nat)
    requires bits < 0x1_0000_0000_0000_0000
    ensures IsBits(F64Format, bits)
    ensures IsFinite(F64Format, bits) <==> bits / 0x10_0000_0000_0000 % 2048 != 2047
    ensures IsNan(F64Format, bits) <==> bits / 0x10_0000_0000_0000 % 2048 == 2047 && bits % 0x10_0000_0000_0000 != 0
  {
  }

  /* ---- patterns are ordered like the numbers they stand for ---- */

  lemma UnitIsPow2(fm: Format)
    ensures SigUnit(fm) == Pow2(SigBits(fm))
  {
    Powers();
  }

  lemma NumeratorBounds(fm: Format, mag: nat)
    ensures
      var e := mag / SigUnit(fm);
      && (e > 0 ==> SigUnit(fm) * Pow2(e - 1) <= Numerator(fm, mag))
      && Numerator(fm, mag) < SigUnit(fm) * Pow2(e)
  {
    var u, e, f := SigUnit(fm), mag / SigUnit(fm), mag % SigUnit(fm);
    if e > 0 {
      NextPow2(e - 1);
      Between(u, f, Pow2(e - 1));
    }
  }

  lemma Between(u: nat, f: nat, p: nat)
    requires f < u && p > 0
    ensures u * p <= (u + f) * p < u * (2 * p)
  {
    assert (u + f) * p == u * p + f * p;
    assert f * p < u * p;
  }

  lemma {:induction false} Pow2Ordered(a: nat, b: nat)
    requires a <= b
    ensures Pow2(a) <= Pow2(b)
  {
    Pow2Splits(a, b - a);
    TimesPositive(Pow2(a), Pow2(b - a));
  }

  lemma ScaleOrdered(u: nat, x: nat, y: nat)
    requires x <= y
    ensures u * x <= u * y
  {
  }

  /** The order of bit patterns is the order of absolute values. */
  lemma NumeratorOrdered(fm: Format, x: nat, y: nat)
    requires x < y
    ensures Numerator(fm, x) < Numerator(fm, y)
  {
    var u, ex, ey := SigUnit(fm), x / SigUnit(fm), y / SigUnit(fm);
    assert ex <= ey;
    NumeratorBounds(fm, x);
    NumeratorBounds(fm, y);
    if ex < ey {
      Pow2Ordered(ex, ey - 1);
      ScaleOrdered(u, Pow2(ex), Pow2(ey - 1));
    } else if ex > 0 {
      assert x % u < y % u;
      SameExponent(u, x % u, y % u, Pow2(ex - 1));
    }
  }

  lemma SameExponent(u: nat, f: nat, g: nat, p: nat)
    requires f < g && p > 0
    ensures (u + f) * p < (u + g) * p
  {
    ScaleStrict(u + f, u + g, p);
  }

  lemma Positive(a: int, b: int)
    requires a > 0 && b > 0
    ensures a * b > 0
  {
  }

  lemma Minus(x: int, y: int, p: int)
    ensures y * p - x * p == (y - x) * p
  {
  }

  lemma Scaled(x: int, y: int, p: nat)
    requires x < y && p > 0
    ensures x * p < y * p
  {
    Minus(x, y, p);
    Positive(y - x, p);
  }

  lemma ScaleStrict(x: int, y: int, p: nat)
    requires p > 0
    ensures x < y <==> x * p < y * p
    ensures x <= y <==> x * p <= y * p
  {
    if x < y {
      Scaled(x, y, p);
    } else if y < x {
      Scaled(y, x, p);
    }
  }

  lemma Compare(fm: Format, x: nat, y: nat)
    ensures x < y <==> Numerator(fm, x) < Numerator(fm, y)
    ensures x <= y <==> Numerator(fm, x) <= Numerator(fm, y)
  {
    if x < y { NumeratorOrdered(fm, x, y); }
    if y < x { NumeratorOrdered(fm, y, x); }
  }

  /** The pattern whose exponent field is `Bias + k` and whose fraction is 0 stands for 2^k, and
      `extra` units above it are `extra` times 2^(k - SigBits) more. */
  lemma Landmark(fm: Format, k: nat, extra: nat)
    requires k >= SigBits(fm) && extra < SigUnit(fm)
    ensures Numerator(fm, (Bias(fm) + k) * SigUnit(fm) + extra) == (Pow2(k) + extra * Pow2(k - SigBits(fm))) * Denominator(fm)
  {
    hide Pow2;
    var u, b, s := SigUnit(fm), Bias(fm), SigBits(fm);
    var mag := (b + k) * u + extra;
    Digits(u, b + k, extra);
    UnitIsPow2(fm);
    Pow2Splits(s, k - s);
    Pow2Splits(k - s, b + s - 1);
    Regroup(u, extra, Pow2(k - s), Denominator(fm));
  }

  lemma Regroup(u: nat, extra: nat, p: nat, d: nat)
    ensures (u + extra) * (p * d) == (u * p + extra * p) * d
  {
    assert (u + extra) * (p * d) == ((u + extra) * p) * d;
    assert (u + extra) * p == u * p + extra * p;
  }

  lemma Digits(u: nat, high: nat, low: nat)
    requires low < u
    ensures (high * u + low) / u == high && (high * u + low) % u == low
  {
    var n := high * u + low;
    var q, r := n / u, n % u;
    assert n == q * u + r;
    if q < high { Scaled(q, high, u); Minus(q, high, u); ScaleStrict(1, high - q, u); }
    if q > high { Scaled(high, q, u); Minus(high, q, u); ScaleStrict(1, q - high, u); }
  }

  /** The same below 2^SigBits, where `extra` units may be worth less than 1. */
  lemma SmallLandmark(fm: Format, k: nat, extra: nat, n: nat)
    requires k < SigBits(fm) && extra < SigUnit(fm)
    requires SigUnit(fm) + extra == n * Pow2(SigBits(fm) - k)
    ensures Numerator(fm, (Bias(fm) + k) * SigUnit(fm) + extra) == n * Denominator(fm)
  {
    hide Pow2;
    var u, b, s := SigUnit(fm), Bias(fm), SigBits(fm);
    var mag := (b + k) * u + extra;
    Digits(u, b + k, extra);
    Pow2Splits(s - k, b + k - 1);
    Associate(n, Pow2(s - k), Pow2(b + k - 1));
  }

  lemma Associate(n: nat, q: nat, p: nat)
    ensures (n * q) * p == n * (q * p)
  {
  }

  lemma Powers()
    ensures Pow2(8) == 0x100 && Pow2(11) == 0x800 && Pow2(20) == 0x10_0000 && Pow2(21) == 0x20_0000 && Pow2(22) == 0x40_0000
    ensures Pow2(31) == 0x8000_0000 && Pow2(32) == 0x1_0000_0000 && Pow2(40) == 0x100_0000_0000
    ensures Pow2(63) == 0x8000_0000_0000_0000 && Pow2(64) == 0x1_0000_0000_0000_0000
    ensures Pow2(23) == 0x80_0000 && Pow2(52) == 0x10_0000_0000_0000
  {
    assert Pow2(4) == 16;
    Pow2Splits(4, 4);
    Pow2Splits(8, 3);
    Pow2Splits(10, 10);
    assert Pow2(10) == 1024 by { Pow2Splits(8, 2); }
    Pow2Splits(11, 10);
    Pow2Splits(11, 11);
    Pow2Splits(11, 20);
    Pow2Splits(11, 21);
    Pow2Splits(20, 20);
    Pow2Splits(32, 31);
    Pow2Splits(32, 32);
    Pow2Splits(22, 1);
    Pow2Splits(32, 20);
  }

  /* ---- the limits of the integer types, as bit patterns ---- */

  /** The pattern of the magnitude from which a positive number no longer fits. */
  function TooHigh(fm: Format, r: IntType): nat {
    match (fm, r)
    case (F32Format, S32) => 0x4f00_0000
    case (F32Format, S64) => 0x5f00_0000
    case (F32Format, U32) => 0x4f80_0000
    case (F32Format, U64) => 0x5f80_0000
    case (F64Format, S32) => 0x41e0_0000_0000_0000
    case (F64Format, S64) => 0x43e0_0000_0000_0000
    case (F64Format, U32) => 0x41f0_0000_0000_0000
    case (F64Format, U64) => 0x43f0_0000_0000_0000
  }

  lemma TooHighSingle(r: IntType)
    ensures Numerator(F32Format, TooHigh(F32Format, r)) == (MaxOf(r) + 1) * Denominator(F32Format)
    ensures r.S32? || r.S64? ==>
      Numerator(F32Format, TooHigh(F32Format, r) + 1) >= (MaxOf(r) + 2) * Denominator(F32Format)
  {
    hide Pow2, Numerator, Denominator;
    var k := match r case S32 => 31 case S64 => 63 case U32 => 32 case U64 => 64;
    Powers();
    Landmark(F32Format, k, 0);
    Landmark(F32Format, k, 1);
    if r.S32? || r.S64? {
      ScaleStrict(MaxOf(r) + 2, Pow2(k) + Pow2(k - 23), Denominator(F32Format));
    }
  }

  lemma TooHighDouble(r: IntType)
    ensures Numerator(F64Format, TooHigh(F64Format, r)) == (MaxOf(r) + 1) * Denominator(F64Format)
    ensures r.S64? ==> Numerator(F64Format, TooHigh(F64Format, r) + 1) >= (MaxOf(r) + 2) * Denominator(F64Format)
  {
    hide Pow2, Numerator, Denominator;
    Powers();
    match r
    case S32 => SmallLandmark(F64Format, 31, 0, 0x8000_0000);
    case U32 => SmallLandmark(F64Format, 32, 0, 0x1_0000_0000);
    case S64 =>
      Landmark(F64Format, 63, 0);
      Landmark(F64Format, 63, 1);
      ScaleStrict(MaxOf(r) + 2, Pow2(63) + Pow2(11), Denominator(F64Format));
    case U64 => Landmark(F64Format, 64, 0);
  }

  lemma OneIsOne(fm: Format)
    ensures Numerator(fm, One(fm)) == Denominator(fm)
  {
    hide Pow2, Numerator, Denominator;
    Powers();
    SmallLandmark(fm, 0, 0, 1);
  }

  /** The largest doubles the code still lets through for 32-bit results. */
  lemma LastDoubles()
    ensures Numerator(F64Format, 0x41df_ffff_ffc0_0000) == 0x7fff_ffff * Denominator(F64Format)
    ensures Numerator(F64Format, 0x41ef_ffff_ffe0_0000) == 0xffff_ffff * Denominator(F64Format)
  {
    hide Pow2, Numerator, Denominator;
    Powers();
    SmallLandmark(F64Format, 30, 0xf_ffff_ffc0_0000, 0x7fff_ffff);
    SmallLandmark(F64Format, 31, 0xf_ffff_ffe0_0000, 0xffff_ffff);
  }

  /* ---- what the range tests decide ---- */

  lemma WholePart(n: nat, d: nat, m: nat)
    requires d > 0
    ensures n / d <= m <==> n < (m + 1) * d
  {
    var q, r := n / d, n % d;
    assert n == q * d + r;
    if q <= m { ScaleStrict(q, m, d); } else { ScaleStrict(m + 1, q, d); }
  }

  /** The number `bits` stands for, times the denominator. */
  function Signed(fm: Format, bits: nat): int {
    var n := Numerator(fm, Magnitude(fm, bits));
    if Negative(fm, bits) then 0 - n else n
  }

  predicate Fits(r: IntType, n: int) {
    MinOf(r) <= n <= MaxOf(r)
  }

  /** 64-bit floats against 32-bit integers: the pairs whose test compares against the last whole
      number instead of the first number that does not fit. */
  predicate Coarse(fm: Format, r: IntType) {
    fm.F64Format? && (r.S32? || r.U32?)
  }

  /** A non-negative pattern truncates to something that fits exactly below `TooHigh`. */
  lemma HighEnd(fm: Format, r: IntType, mag: nat)
    ensures Whole(fm, mag) <= MaxOf(r) <==> mag < TooHigh(fm, r)
    ensures (r.S32? || r.S64?) && !Coarse(fm, r) ==>
      (Whole(fm, mag) <= MaxOf(r) + 1 <==> mag <= TooHigh(fm, r))
  {
    hide Numerator, Denominator;
    var n, d := Numerator(fm, mag), Denominator(fm);
    WholePart(n, d, MaxOf(r));
    WholePart(n, d, MaxOf(r) + 1);
    if fm.F32Format? { TooHighSingle(r); } else { TooHighDouble(r); }
    Compare(fm, mag, TooHigh(fm, r));
    Compare(fm, mag, TooHigh(fm, r) + 1);
    ScaleStrict(MaxOf(r) + 1, MaxOf(r) + 2, d);
  }

  /** A negative pattern truncates to 0 exactly below 1. */
  lemma BelowOne(fm: Format, mag: nat)
    ensures Whole(fm, mag) <= 0 <==> mag < One(fm)
  {
    hide Numerator, Denominator;
    WholePart(Numerator(fm, mag), Denominator(fm), 0);
    OneIsOne(fm);
    Compare(fm, mag, One(fm));
  }

  /** For six of the eight pairs the test accepts exactly the numbers whose truncation fits. */
  lemma RangeTestExact(fm: Format, r: IntType, bits: nat)
    requires IsBits(fm, bits) && !IsNan(fm, bits) && !Coarse(fm, r)
    ensures InRange(fm, r, bits) <==> IsFinite(fm, bits) && Fits(r, Trunc(fm, bits))
  {
    hide Whole, Numerator, Denominator;
    var mag := Magnitude(fm, bits);
    HighEnd(fm, r, mag);
    BelowOne(fm, mag);
    assert Negative(fm, bits) ==> bits == SignBit(fm) + mag;
    assert !Negative(fm, bits) ==> bits == mag;
  }

  /** For the other two it accepts exactly the numbers between the least and the greatest value of
      the type, as numbers: those that lie between the limit and the next whole number are turned
      away although their truncation fits. */
  lemma CoarseTestExact(fm: Format, r: IntType, bits: nat)
    requires IsBits(fm, bits) && !IsNan(fm, bits) && Coarse(fm, r)
    ensures InRange(fm, r, bits) <==>
      && IsFinite(fm, bits) && Signed(fm, bits) <= MaxOf(r) * Denominator(fm)
      && (if r.S32? then MinOf(r) * Denominator(fm) <= Signed(fm, bits) else 0 - Denominator(fm) < Signed(fm, bits))
  {
    hide Numerator, Denominator;
    var mag := Magnitude(fm, bits);
    LastDoubles();
    TooHighDouble(S32);
    OneIsOne(fm);
    Compare(fm, mag, 0x41df_ffff_ffc0_0000);
    Compare(fm, mag, 0x41ef_ffff_ffe0_0000);
    Compare(fm, mag, 0x41e0_0000_0000_0000);
    Compare(fm, mag, One(fm));
    assert Negative(fm, bits) ==> bits == SignBit(fm) + mag;
    assert !Negative(fm, bits) ==> bits == mag;
    assert MinOf(S32) * Denominator(fm) == -(0x8000_0000 * Denominator(fm));
    assert MaxOf(r) * Denominator(fm) >= 0;
  }

  /** All eight tests are safe: what they accept is finite and its truncation fits. */
  lemma RangeTestSound(fm: Format, r: IntType, bits: nat)
    requires IsBits(fm, bits) && !IsNan(fm, bits) && InRange(fm, r, bits)
    ensures IsFinite(fm, bits) && Fits(r, Trunc(fm, bits))
  {
    hide Whole, Numerator, Denominator;
    if Coarse(fm, r) {
      var mag := Magnitude(fm, bits);
      HighEnd(fm, r, mag);
      BelowOne(fm, mag);
      if mag <= 0x41e0_0000_0000_0000 { CoarseNegative(mag); }
      assert Negative(fm, bits) ==> bits == SignBit(fm) + mag;
      assert !Negative(fm, bits) ==> bits == mag;
    } else {
      RangeTestExact(fm, r, bits);
    }
  }

  lemma CoarseNegative(mag: nat)
    requires mag <= 0x41e0_0000_0000_0000
    ensures Whole(F64Format, mag) <= 0x8000_0000
  {
    hide Numerator, Denominator;
    TooHighDouble(S32);
    Compare(F64Format, mag, 0x41e0_0000_0000_0000);
    var d := Denominator(F64Format);
    ScaleStrict(0x8000_0000, 0x8000_0001, d);
    WholePart(Numerator(F64Format, mag), d, 0x8000_0000);
  }

  /** 2147483647.5 truncates to the greatest 32-bit integer, and the test turns it away. */
  lemma CoarseTestMisses()
    ensures IsFinite(F64Format, 0x41df_ffff_ffe0_0000) && !IsNan(F64Format, 0x41df_ffff_ffe0_0000)
    ensures Trunc(F64Format, 0x41df_ffff_ffe0_0000) == MaxOf(S32)
    ensures IntTrunc(F64Format, S32, 0x41df_ffff_ffe0_0000) == Overflow
    ensures IntTruncSat(F64Format, S32, 0x41df_ffff_ffe0_0000) == MaxOf(S32)
  {
    hide Whole, Numerator, Denominator;
    HighEnd(F64Format, S32, 0x41df_ffff_ffe0_0000);
    BeyondLast(S32, 0x41df_ffff_ffe0_0000);
  }

  /* ---- the conversions ---- */

  function Clamp(r: IntType, n: int): int {
    if n < MinOf(r) then MinOf(r) else if n > MaxOf(r) then MaxOf(r) else n
  }

  /** The saturating conversion: NaN gives 0, infinities the limit on their side, and every other
      number its truncation, clamped to the type; for all eight pairs. */
  lemma TruncSatClamps(fm: Format, r: IntType, bits: nat)
    requires IsBits(fm, bits)
    ensures IsNan(fm, bits) ==> IntTruncSat(fm, r, bits) == 0
    ensures IsFinite(fm, bits) ==> IntTruncSat(fm, r, bits) == Clamp(r, Trunc(fm, bits))
    ensures !IsNan(fm, bits) && !IsFinite(fm, bits) ==>
      IntTruncSat(fm, r, bits) == if Negative(fm, bits) then MinOf(r) else MaxOf(r)
  {
    hide Whole, Numerator, Denominator;
    if !IsNan(fm, bits) {
      if InRange(fm, r, bits) {
        RangeTestSound(fm, r, bits);
      } else if !Coarse(fm, r) {
        RangeTestExact(fm, r, bits);
        TruncSign(fm, bits);
      } else {
        CoarseOverflow(r, bits);
        TruncSign(fm, bits);
      }
    }
  }

  lemma TruncSign(fm: Format, bits: nat)
    ensures if Negative(fm, bits) then Trunc(fm, bits) <= 0 else Trunc(fm, bits) >= 0
  {
    hide Whole, Numerator, Denominator;
  }

  /** What the two coarse tests turn away lies at or beyond the limit on its side. */
  lemma CoarseOverflow(r: IntType, bits: nat)
    requires IsBits(F64Format, bits) && (r.S32? || r.U32?)
    requires !InRange(F64Format, r, bits)
    ensures if Negative(F64Format, bits) then Trunc(F64Format, bits) <= MinOf(r) else Trunc(F64Format, bits) >= MaxOf(r)
  {
    hide Whole, Numerator, Denominator;
    var mag := Magnitude(F64Format, bits);
    BeyondLast(r, mag);
    assert Negative(F64Format, bits) ==> bits == SignBit(F64Format) + mag;
    assert !Negative(F64Format, bits) ==> bits == mag;
  }

  lemma BeyondLast(r: IntType, mag: nat)
    requires r.S32? || r.U32?
    ensures mag > (if r.S32? then 0x41df_ffff_ffc0_0000 else 0x41ef_ffff_ffe0_0000) ==> Whole(F64Format, mag) >= MaxOf(r)
    ensures mag > 0x41e0_0000_0000_0000 ==> Whole(F64Format, mag) >= 0x8000_0000
  {
    hide Numerator, Denominator;
    var n, d := Numerator(F64Format, mag), Denominator(F64Format);
    LastDoubles();
    TooHighDouble(S32);
    Compare(F64Format, 0x41df_ffff_ffc0_0000, mag);
    Compare(F64Format, 0x41ef_ffff_ffe0_0000, mag);
    Compare(F64Format, 0x41e0_0000_0000_0000, mag);
    WholePart(n, d, 0x7fff_fffe);
    WholePart(n, d, 0x7fff_ffff);
    WholePart(n, d, 0xffff_fffe);
  }

  /** The trapping conversion gives the truncation of the number whenever it gives anything, traps
      on NaN as an invalid conversion, and otherwise as overflow; except for 64-bit floats to
      32-bit integers it traps only when the truncation does not fit. */
  lemma TruncTraps(fm: Format, r: IntType, bits: nat)
    requires IsBits(fm, bits)
    ensures IntTrunc(fm, r, bits).InvalidConversion? <==> IsNan(fm, bits)
    ensures IntTrunc(fm, r, bits).Ok? ==>
      IsFinite(fm, bits) && IntTrunc(fm, r, bits).n == Trunc(fm, bits) && Fits(r, Trunc(fm, bits))
    ensures IntTrunc(fm, r, bits).Overflow? && !Coarse(fm, r) ==> !IsFinite(fm, bits) || !Fits(r, Trunc(fm, bits))
  {
    hide Whole, Numerator, Denominator;
    if !IsNan(fm, bits) {
      if InRange(fm, r, bits) { RangeTestSound(fm, r, bits); }
      if !Coarse(fm, r) { RangeTestExact(fm, r, bits); }
    }
  }
}
