/** Variable-length integers: the readers and the two writers, against the grammar of integers in
    section 5.2.2 of the WebAssembly Core Specification 1.0. */
module Leb128 {
  import opened Wasm
  import opened LinearMemory
  import MemoryLaws
  import FloatToInt

  /* ---- the grammar ---- */

  /** `bs` is an encoding of `v` by the production for uN. */
  predicate IsUnsigned(n: nat, bs: seq<byte>, v: int)
    decreases |bs|
  {
    && bs != []
    && if bs[0] < 128 then |bs| == 1 && bs[0] < Pow2(n) && v == bs[0]
       else n > 7 && (v - (bs[0] - 128)) % 128 == 0 && IsUnsigned(n - 7, bs[1..], (v - (bs[0] - 128)) / 128)
  }

  /** `bs` is an encoding of `v` by the production for sN. */
  predicate IsSigned(n: nat, bs: seq<byte>, v: int)
    decreases |bs|
  {
    && bs != [] && n > 0
    && if bs[0] < 64 then |bs| == 1 && bs[0] < Pow2(n - 1) && v == bs[0]
       else if bs[0] < 128 then |bs| == 1 && bs[0] >= 128 - Pow2(n - 1) && v + 128 == bs[0]
       else n > 7 && (v - (bs[0] - 128)) % 128 == 0 && IsSigned(n - 7, bs[1..], (v - (bs[0] - 128)) / 128)
  }

  /* ---- the readers ---- */

  /** A length of 0 from the reader is `Bad`; otherwise the out-parameter is `value`. */
  datatype ReadResult = Got(length: nat, value: nat) | Bad

  /** 2^(7 i), the weight of byte `i`. */
  function Weight(i: nat): (w: nat)
    ensures w > 0
  {
    if i == 0 then 1 else 128 * Weight(i - 1)
  }

  const TWO64: nat := 0x1_0000_0000_0000_0000

  /** `BYTE_AT(type, i, 7 * i)`; the shift drops what does not fit in the type. */
  function ByteAt(p: seq<byte>, i: nat, modulus: nat): nat
    requires i < |p| && modulus > 0
  {
    p[i] % 128 * Weight(i) % modulus
  }

  /** `LEB128_k(type)`. The fields joined by `|` occupy disjoint bits, so `|` is `+`. */
  function Leb(p: seq<byte>, k: nat, modulus: nat): nat
    requires k <= |p| && modulus > 0
  {
    if k == 0 then 0 else ByteAt(p, k - 1, modulus) + Leb(p, k - 1, modulus)
  }

  /** `SIGN_EXTEND(type, value, sign_bit)` in a type of `width` bits: shift left by
      `width - 1 - sign_bit`, reinterpret as signed, shift right arithmetically, and store the
      result in the unsigned out-parameter. */
  function SignExtend(width: nat, value: nat, signBit: nat): nat
    requires signBit < width
  {
    var up, modulus := Pow2(width - 1 - signBit), Pow2(width);
    var shifted := value * up % modulus;
    var asSigned := if shifted >= Pow2(width - 1) then shifted - modulus else shifted;
    asSigned / up % modulus
  }

  /** The byte at `i` lies before `end` and is the last of its number. */
  predicate Ends(p: seq<byte>, i: nat) {
    i < |p| && p[i] < 128
  }

  /** `p` holds the bytes from the cursor to `end`. */
  function ReadU32(p: seq<byte>): ReadResult {
    if Ends(p, 0) then Got(1, Leb(p, 1, TWO32))
    else if Ends(p, 1) then Got(2, Leb(p, 2, TWO32))
    else if Ends(p, 2) then Got(3, Leb(p, 3, TWO32))
    else if Ends(p, 3) then Got(4, Leb(p, 4, TWO32))
    else if Ends(p, 4) then (if p[4] / 16 != 0 then Bad else Got(5, Leb(p, 5, TWO32)))
    else Bad
  }

  function ReadS32(p: seq<byte>): ReadResult {
    if Ends(p, 0) then Got(1, SignExtend(32, Leb(p, 1, TWO32), 6))
    else if Ends(p, 1) then Got(2, SignExtend(32, Leb(p, 2, TWO32), 13))
    else if Ends(p, 2) then Got(3, SignExtend(32, Leb(p, 3, TWO32), 20))
    else if Ends(p, 3) then Got(4, SignExtend(32, Leb(p, 4, TWO32), 27))
    else if Ends(p, 4) then
      (var signBitSet, topBits := p[4] / 8 % 2 == 1, p[4] / 16 * 16;
       if (signBitSet && topBits != 0x70) || (!signBitSet && topBits != 0) then Bad
       else Got(5, Leb(p, 5, TWO32)))
    else Bad
  }

  function ReadS64(p: seq<byte>): ReadResult {
    if Ends(p, 0) then Got(1, SignExtend(64, Leb(p, 1, TWO64), 6))
    else if Ends(p, 1) then Got(2, SignExtend(64, Leb(p, 2, TWO64), 13))
    else if Ends(p, 2) then Got(3, SignExtend(64, Leb(p, 3, TWO64), 20))
    else if Ends(p, 3) then Got(4, SignExtend(64, Leb(p, 4, TWO64), 27))
    else if Ends(p, 4) then Got(5, SignExtend(64, Leb(p, 5, TWO64), 34))
    else if Ends(p, 5) then Got(6, SignExtend(64, Leb(p, 6, TWO64), 41))
    else if Ends(p, 6) then Got(7, SignExtend(64, Leb(p, 7, TWO64), 48))
    else if Ends(p, 7) then Got(8, SignExtend(64, Leb(p, 8, TWO64), 55))
    else if Ends(p, 8) then Got(9, SignExtend(64, Leb(p, 9, TWO64), 62))
    else if Ends(p, 9) then
      (var signBitSet, topBits := p[9] % 2 == 1, p[9] / 2 * 2;
       if (signBitSet && topBits != 0x7e) || (!signBitSet && topBits != 0) then Bad
       else Got(10, Leb(p, 10, TWO64)))
    else Bad
  }

  /* ---- the grammar in closed form ---- */

  /** The low seven bits of every byte, the first byte lowest. */
  function Low(bs: seq<byte>): nat {
    if bs == [] then 0 else bs[0] % 128 + 128 * Low(bs[1..])
  }

  /** Every byte but the last carries the continuation bit. */
  predicate Framed(bs: seq<byte>) {
    && bs != [] && bs[|bs| - 1] < 128
    && forall i :: 0 <= i < |bs| - 1 ==> bs[i] >= 128
  }

  lemma TailFramed(bs: seq<byte>)
    requires |bs| > 1
    ensures Framed(bs) <==> bs[0] >= 128 && Framed(bs[1..])
  {
    var t := bs[1..];
    if Framed(bs) {
      assert Framed(t);
    }
    if bs[0] >= 128 && Framed(t) {
      forall i | 0 <= i < |bs| - 1 ensures bs[i] >= 128 {
        if i > 0 { assert bs[i] == t[i - 1]; }
      }
    }
  }

  lemma {:induction false} UnsignedForm(n: nat, bs: seq<byte>, v: int)
    ensures IsUnsigned(n, bs, v) <==>
      && Framed(bs) && (|bs| == 1 || 7 * (|bs| - 1) < n)
      && bs[|bs| - 1] < Pow2(n - 7 * (|bs| - 1)) && v == Low(bs)
    decreases |bs|
  {
    if |bs| == 1 {
      assert Low(bs) == bs[0] % 128 by { assert Low(bs[1..]) == 0; }
      assert bs[1..] == [];
    } else if |bs| > 1 {
      TailFramed(bs);
      if bs[0] >= 128 && n > 7 {
        UnsignedForm(n - 7, bs[1..], (v - (bs[0] - 128)) / 128);
      }
    }
  }

  lemma {:induction false} SignedForm(n: nat, bs: seq<byte>, v: int)
    ensures IsSigned(n, bs, v) <==>
      && Framed(bs) && 7 * (|bs| - 1) < n
      && LastOfSigned(n - 7 * (|bs| - 1), bs[|bs| - 1])
      && v == Low(bs) - (if bs[|bs| - 1] >= 64 then Weight(|bs|) else 0)
    decreases |bs|
  {
    if |bs| == 1 {
      assert bs[1..] == [];
      assert Low(bs) == bs[0] % 128 by { assert Low(bs[1..]) == 0; }
      assert Weight(1) == 128;
    } else if |bs| > 1 {
      TailFramed(bs);
      assert Weight(|bs|) == 128 * Weight(|bs| - 1);
      hide Pow2, Weight, Framed, LastOfSigned;
      if bs[0] >= 128 && n > 7 {
        SignedForm(n - 7, bs[1..], (v - (bs[0] - 128)) / 128);
      }
    }
  }

  /** The last byte of an sN has its unused bits equal to the sign. */
  predicate LastOfSigned(n: nat, b: byte)
    requires n > 0
  {
    if b < 64 then b < Pow2(n - 1) else b >= 128 - Pow2(n - 1)
  }

  lemma {:induction false} LowAppend(bs: seq<byte>, b: byte)
    ensures Low(bs + [b]) == Low(bs) + b % 128 * Weight(|bs|)
    decreases |bs|
  {
    if bs == [] {
      assert (bs + [b])[1..] == [];
    } else {
      assert (bs + [b])[1..] == bs[1..] + [b];
      LowAppend(bs[1..], b);
      assert 128 * (b % 128 * Weight(|bs| - 1)) == b % 128 * (128 * Weight(|bs| - 1));
    }
  }

  lemma {:induction false} LowBound(bs: seq<byte>)
    ensures Low(bs) < Weight(|bs|)
    decreases |bs|
  {
    if bs != [] { LowBound(bs[1..]); }
  }

  lemma {:induction false} WeightGrows(i: nat, j: nat)
    requires i <= j
    ensures Weight(i) <= Weight(j)
  {
    if i < j { WeightGrows(i, j - 1); }
  }

  /** While 7k bits fit in the type nothing is dropped, and the joined fields are the number. */
  lemma {:induction false} LebIsLow(p: seq<byte>, k: nat, modulus: nat)
    requires k <= |p| && Weight(k) <= modulus
    ensures Leb(p, k, modulus) == Low(p[..k]) && Low(p[..k]) < Weight(k)
  {
    if k > 0 {
      hide Low, Weight, ByteAt;
      WeightGrows(k - 1, k);
      LebIsLow(p, k - 1, modulus);
      TopField(p, k, modulus);
    }
  }

  lemma TopField(p: seq<byte>, k: nat, modulus: nat)
    requires 1 <= k <= |p| && Weight(k) <= modulus
    ensures ByteAt(p, k - 1, modulus) + Low(p[..k - 1]) == Low(p[..k]) < Weight(k)
  {
    hide Low, Weight;
    assert p[..k] == p[..k - 1] + [p[k - 1]];
    LowAppend(p[..k - 1], p[k - 1]);
    LowBound(p[..k]);
    SmallMod(p[k - 1] % 128 * Weight(k - 1), modulus);
  }

  lemma SmallMod(x: nat, m: nat)
    requires x < m
    ensures x % m == x
  {
  }

  /* ---- sign extension ---- */

  /** Extending the low `signBit + 1` bits: the number minus the weight above its sign. */
  lemma SignExtendIs(width: nat, value: nat, signBit: nat)
    requires signBit < width && value < Pow2(signBit + 1)
    ensures SignExtend(width, value, signBit) ==
      if value >= Pow2(signBit) then value + Pow2(width) - Pow2(signBit + 1) else value
  {
    var up, s := Pow2(width - 1 - signBit), Pow2(signBit);
    MemoryLaws.Pow2Splits(width - 1 - signBit, signBit);
    MemoryLaws.Pow2Splits(width - 1 - signBit, signBit + 1);
    Shifted(value, up, s);
    hide Pow2;
    assert Pow2(width) == up * (2 * s) && Pow2(width - 1) == up * s;
  }

  /** The arithmetic of the two shifts, `s` being the sign bit's weight. */
  lemma Shifted(value: nat, up: nat, s: nat)
    requires up > 0 && s > 0 && value < 2 * s
    ensures
      var modulus := up * (2 * s);
      && modulus > 0 && value * up % modulus == value * up && (value * up >= up * s <==> value >= s)
      && value * up / up % modulus == value
      && (value >= s ==> (value * up - modulus) / up % modulus == value + modulus - 2 * s)
  {
    var modulus := up * (2 * s);
    FloatToInt.Scaled(value, 2 * s, up);
    FloatToInt.ScaleStrict(s, value, up);
    FloatToInt.ScaleStrict(1, up, 2 * s);
    SmallMod(value * up, modulus);
    FloatToInt.Digits(up, value, 0);
    SmallMod(value, modulus);
    if value >= s {
      FloatToInt.Minus(2 * s, value, up);
      DivideExactly(value - 2 * s, up);
      WrapNegative(value - 2 * s, modulus);
    }
  }

  lemma DivideExactly(q: int, d: nat)
    requires d > 0
    ensures q * d / d == q
  {
    var e, r := q * d / d, q * d % d;
    FloatToInt.Minus(e, q, d);
    if e < q { FloatToInt.ScaleStrict(1, q - e, d); }
    if e > q { FloatToInt.ScaleStrict(q - e, 0, d); }
  }

  lemma WrapNegative(x: int, m: nat)
    requires x < 0 && x + m >= 0
    ensures x % m == x + m
  {
  }

  /* ---- the readers accept exactly the grammar ---- */

  /** The first byte that ends a number decides where the number ends. */
  lemma FirstEnd(p: seq<byte>, k: nat)
    requires 1 <= k <= |p|
    ensures Framed(p[..k]) <==> Ends(p, k - 1) && forall i :: 0 <= i < k - 1 ==> !Ends(p, i)
  {
    var bs := p[..k];
    assert bs[k - 1] == p[k - 1];
    if Framed(bs) {
      forall i | 0 <= i < k - 1 ensures !Ends(p, i) { assert bs[i] >= 128; }
    }
    if Ends(p, k - 1) && forall i :: 0 <= i < k - 1 ==> !Ends(p, i) {
      forall i | 0 <= i < k - 1 ensures bs[i] >= 128 { assert !Ends(p, i); }
    }
  }

  lemma {:induction false} WeightIsPow2(i: nat)
    ensures Weight(i) == Pow2(7 * i)
  {
    if i > 0 {
      WeightIsPow2(i - 1);
      MemoryLaws.Pow2Splits(7, 7 * (i - 1));
      assert Pow2(7) == 128 by { assert Pow2(4) == 16; MemoryLaws.Pow2Splits(3, 4); }
    }
  }

  lemma Sizes()
    ensures Weight(4) == 0x1000_0000 && Weight(9) == 0x8000_0000_0000_0000
    ensures Pow2(32) == TWO32 && Pow2(64) == TWO64
    ensures Pow2(4) == 16 && Pow2(3) == 8 && Pow2(0) == 1
    ensures Weight(5) == 128 * Weight(4) && Weight(10) == 128 * Weight(9)
  {
    hide Weight;
    FloatToInt.Powers();
    WeightIsPow2(4);
    WeightIsPow2(9);
    MemoryLaws.Pow2Splits(8, 20);
    assert 7 * 4 == 28 && 7 * 9 == 63;
    FiveAndTen();
  }

  lemma FiveAndTen()
    ensures Weight(5) == 128 * Weight(4) && Weight(10) == 128 * Weight(9)
  {
  }

  lemma WideEnough(n: nat, b: nat)
    requires n >= 7 && b < 128
    ensures b < Pow2(n) && (n >= 8 ==> b < Pow2(n - 1))
  {
    MemoryLaws.Pow2Splits(7, n - 7);
    WeightIsPow2(1);
    assert Weight(1) == 128;
    FloatToInt.ScaleStrict(1, Pow2(n - 7) + 1, 128);
    if n >= 8 {
      MemoryLaws.Pow2Splits(7, n - 8);
      FloatToInt.ScaleStrict(1, Pow2(n - 8) + 1, 128);
    }
  }

  /** The fields below the last byte, and the last byte's own field. */
  lemma LebTop(p: seq<byte>, k: nat, modulus: nat)
    requires 1 <= k <= |p| && Weight(k - 1) <= modulus
    ensures Leb(p, k, modulus) == Low(p[..k - 1]) + ByteAt(p, k - 1, modulus)
    ensures Low(p[..k]) == Low(p[..k - 1]) + p[k - 1] % 128 * Weight(k - 1)
    ensures Low(p[..k - 1]) < Weight(k - 1)
  {
    LebIsLow(p, k - 1, modulus);
    assert p[..k] == p[..k - 1] + [p[k - 1]];
    LowAppend(p[..k - 1], p[k - 1]);
  }

  /** Where the field of the last byte is cut off by the type: `cut` times its weight is the modulus. */
  lemma FieldCut(b: nat, weight: nat, cut: nat)
    requires weight > 0 && cut > 0
    ensures cut * weight > 0 && b * weight % (cut * weight) == b % cut * weight
  {
    var q, r := b / cut, b % cut;
    FloatToInt.Positive(cut, weight);
    assert b == q * cut + r;
    assert b * weight == (cut * weight) * q + r * weight by {
      assert (q * cut + r) * weight == (q * cut) * weight + r * weight;
      assert (q * cut) * weight == (cut * weight) * q;
    }
    FloatToInt.Scaled(r, cut, weight);
    MemoryLaws.DivisionUnique(b * weight, cut * weight, q, r * weight);
  }

  lemma UnsignedCase(p: seq<byte>, k: nat)
    requires 1 <= k <= |p| && k <= 5 && Ends(p, k - 1) && (k == 5 ==> p[4] < 16)
    ensures Leb(p, k, TWO32) == Low(p[..k])
  {
    hide Leb, Low;
    Sizes();
    hide Weight;
    if k <= 4 {
      WeightGrows(k, 4);
      LebIsLow(p, k, TWO32);
    } else {
      LebTop(p, 5, TWO32);
      assert p[4] % 128 * Weight(4) < TWO32;
      SmallMod(p[4] % 128 * Weight(4), TWO32);
    }
  }

  /** The reader consumes `k` bytes and yields `v` exactly when the first `k` bytes before `end`
      are an encoding of `v`. */
  lemma ReadU32Exact(p: seq<byte>, k: nat, v: nat)
    ensures ReadU32(p) == Got(k, v) <==> 1 <= k <= |p| && IsUnsigned(32, p[..k], v)
  {
    hide IsUnsigned, Framed, Leb, Low, Weight;
    Sizes();
    hide Pow2;
    if 1 <= k <= |p| {
      hide ReadU32;
      FirstEnd(p, k);
      UnsignedForm(32, p[..k], v);
      assert p[..k][k - 1] == p[k - 1];
      if 7 * (k - 1) < 32 && Ends(p, k - 1) {
        if k <= 4 { WideEnough(32 - 7 * (k - 1), p[k - 1]); }
        if k <= 4 || p[4] < 16 { UnsignedCase(p, k); }
      }
      EndsU32(p, k);
    }
  }

  lemma EndsU32(p: seq<byte>, k: nat)
    requires 1 <= k <= |p|
    ensures (exists v :: ReadU32(p) == Got(k, v)) ==>
      k <= 5 && Ends(p, k - 1) && (k == 5 ==> p[4] < 16) && forall i :: 0 <= i < k - 1 ==> !Ends(p, i)
    ensures k <= 5 && Ends(p, k - 1) && (k == 5 ==> p[4] < 16) && (forall i :: 0 <= i < k - 1 ==> !Ends(p, i)) ==>
      ReadU32(p) == Got(k, Leb(p, k, TWO32))
  {
    hide Leb;
  }

  /** The number the first `k` bytes stand for when the last one carries the sign. */
  function SignedLow(p: seq<byte>, k: nat): int
    requires 1 <= k <= |p|
  {
    if p[k - 1] >= 64 then Low(p[..k]) - Weight(k) else Low(p[..k])
  }

  /** Bit 7k - 1 of the joined fields is bit 6 of the last byte. */
  lemma SignPlace(low: nat, b: nat, w: nat)
    requires low < w && b < 128
    ensures low + b * w >= 64 * w <==> b >= 64
    ensures low + b * w < 128 * w
  {
    FloatToInt.ScaleStrict(b + 1, 64, w);
    FloatToInt.ScaleStrict(64, b, w);
    FloatToInt.ScaleStrict(b + 1, 128, w);
  }

  lemma PowersAround(width: nat, k: nat)
    requires 1 <= k && 7 * k < width
    ensures Pow2(7 * k) == 128 * Weight(k - 1) && Pow2(7 * k - 1) == 64 * Weight(k - 1) && Weight(k) == 128 * Weight(k - 1)
    ensures Pow2(7 * k) <= Pow2(width)
  {
    WeightIsPow2(k);
    FloatToInt.Pow2Ordered(7 * k, width);
    assert Pow2(7 * k) == 2 * Pow2(7 * k - 1);
  }

  /** Every reader case below the longest encoding: sign extension from bit 7k - 1. */
  lemma SignedCase(width: nat, p: seq<byte>, k: nat)
    requires 1 <= k <= |p| && 7 * k < width && Ends(p, k - 1)
    ensures SignExtend(width, Leb(p, k, Pow2(width)), 7 * k - 1) == SignedLow(p, k) % Pow2(width)
  {
    hide Leb, SignExtend, Pow2, Weight, Low;
    var m, w, b := Pow2(width), Weight(k - 1), p[k - 1];
    PowersAround(width, k);
    LebIsLow(p, k, m);
    LebTop(p, k, m);
    SignPlace(Low(p[..k - 1]), b, w);
    SignExtendIs(width, Low(p[..k]), 7 * k - 1);
    if b >= 64 {
      WrapNegative(SignedLow(p, k), m);
    } else {
      SmallMod(Low(p[..k]), m);
    }
  }

  /** The last byte that fits a signed type: its unused bits repeat the sign. */
  predicate TopOk(b: byte, signWeight: nat) {
    b < signWeight || 128 - signWeight <= b < 128
  }

  /** What is left of a negative last byte after the cut is 2^N more than the number. */
  lemma CutNegative(low: nat, b: nat, w: nat, cut: nat)
    requires low < w && (cut == 16 || cut == 2) && 128 - cut / 2 <= b < 128
    ensures cut * w > 0 && low + b % cut * w == (low + b * w - 128 * w) % (cut * w)
  {
    assert b % cut == b - (128 - cut);
    var v := low + b * w - 128 * w;
    FloatToInt.Minus(128 - cut, b, w);
    FloatToInt.Minus(128 - cut, 128, w);
    FloatToInt.ScaleStrict(b + 1, 128, w);
    FloatToInt.ScaleStrict(128 - cut, b, w);
    FloatToInt.Positive(cut, w);
    WrapNegative(v, cut * w);
  }

  lemma CutPositive(low: nat, b: nat, w: nat, cut: nat)
    requires low < w && b < cut
    ensures cut * w > 0 && low + b % cut * w == (low + b * w) % (cut * w)
  {
    FloatToInt.Positive(cut, w);
    FloatToInt.ScaleStrict(b + 1, cut, w);
    FloatToInt.Minus(b, b + 1, w);
    SmallMod(low + b * w, cut * w);
    SmallMod(b, cut);
  }

  lemma CutField(low: nat, b: byte, w: nat, cut: nat)
    requires low < w && (cut == 16 || cut == 2) && TopOk(b, cut / 2)
    ensures cut * w > 0
    ensures low + b % 128 * w % (cut * w) == (low + b % 128 * w - (if b >= 64 then 128 * w else 0)) % (cut * w)
  {
    SmallMod(b, 128);
    FieldCut(b, w, cut);
    if b < cut / 2 { CutPositive(low, b, w, cut); } else { CutNegative(low, b, w, cut); }
  }

  /** The longest encoding: the bits beyond the type are dropped, not extended. `cut` is what is
      left of the last byte. */
  lemma SignedTop(p: seq<byte>, k: nat, modulus: nat, cut: nat)
    requires 1 <= k <= |p| && Ends(p, k - 1) && TopOk(p[k - 1], cut / 2)
    requires (cut == 16 || cut == 2) && modulus == cut * Weight(k - 1)
    ensures Leb(p, k, modulus) == SignedLow(p, k) % modulus
  {
    assert Weight(k) == 128 * Weight(k - 1);
    assert Weight(k - 1) <= modulus;
    hide Leb, Low, Weight;
    LebTop(p, k, modulus);
    CutField(Low(p[..k - 1]), p[k - 1], Weight(k - 1), cut);
  }

  /** The first `k` bytes encode a number of type sN whose bit pattern is `bits`. */
  ghost predicate Denotes(n: nat, p: seq<byte>, k: nat, bits: nat) {
    1 <= k <= |p| && exists v :: IsSigned(n, p[..k], v) && bits == v % Pow2(n)
  }

  lemma DenotesForm(n: nat, p: seq<byte>, k: nat, bits: nat)
    requires 1 <= k <= |p|
    ensures Denotes(n, p, k, bits) <==>
      && Framed(p[..k]) && 7 * (k - 1) < n && LastOfSigned(n - 7 * (k - 1), p[k - 1])
      && bits == SignedLow(p, k) % Pow2(n)
  {
    var bs := p[..k];
    assert bs[k - 1] == p[k - 1];
    SignedForm(n, bs, SignedLow(p, k));
    forall v ensures IsSigned(n, bs, v) ==> v == SignedLow(p, k) { SignedForm(n, bs, v); }
  }

  lemma AnyLastByte(n: nat, b: byte)
    requires n >= 8
    ensures LastOfSigned(n, b) <==> true
  {
    WideEnough(n, if b < 128 then b else 127);
  }

  /** The reader consumes `k` bytes and yields the pattern `bits` exactly when the first `k` bytes
      before `end` encode, as s32, a number with that pattern. */
  lemma ReadS32Exact(p: seq<byte>, k: nat, bits: nat)
    ensures ReadS32(p) == Got(k, bits) <==> Denotes(32, p, k, bits)
  {
    if 1 <= k <= |p| {
      DenotesForm(32, p, k, bits);
      FirstEnd(p, k);
      EndsS32(p, k);
      Sizes();
      hide Denotes, Framed, Leb, Low, SignedLow, SignExtend;
      if k <= 4 && Ends(p, k - 1) {
        AnyLastByte(32 - 7 * (k - 1), p[k - 1]);
        SignedCase(32, p, k);
      }
      if k == 5 && Ends(p, 4) {
        assert LastOfSigned(4, p[4]) <==> TopOk(p[4], 8);
        if TopOk(p[4], 8) { SignedTop(p, 5, TWO32, 16); }
      }
    }
  }

  lemma EndsS32(p: seq<byte>, k: nat)
    requires 1 <= k <= |p|
    ensures (exists v :: ReadS32(p) == Got(k, v)) ==>
      k <= 5 && Ends(p, k - 1) && (k == 5 ==> TopOk(p[4], 8)) && forall i :: 0 <= i < k - 1 ==> !Ends(p, i)
    ensures k <= 5 && Ends(p, k - 1) && (k == 5 ==> TopOk(p[4], 8)) && (forall i :: 0 <= i < k - 1 ==> !Ends(p, i)) ==>
      ReadS32(p) == Got(k, if k == 5 then Leb(p, 5, TWO32) else SignExtend(32, Leb(p, k, TWO32), 7 * k - 1))
  {
    hide Leb, SignExtend;
  }

  lemma ReadS64Exact(p: seq<byte>, k: nat, bits: nat)
    ensures ReadS64(p) == Got(k, bits) <==> Denotes(64, p, k, bits)
  {
    if 1 <= k <= |p| {
      DenotesForm(64, p, k, bits);
      FirstEnd(p, k);
      EndsS64(p, k);
      Sizes();
      hide Denotes, Framed, Leb, Low, SignedLow, SignExtend;
      if k <= 9 && Ends(p, k - 1) {
        AnyLastByte(64 - 7 * (k - 1), p[k - 1]);
        SignedCase(64, p, k);
      }
      if k == 10 && Ends(p, 9) {
        assert LastOfSigned(1, p[9]) <==> TopOk(p[9], 1);
        if TopOk(p[9], 1) { SignedTop(p, 10, TWO64, 2); }
      }
    }
  }

  lemma EndsS64(p: seq<byte>, k: nat)
    requires 1 <= k <= |p|
    ensures (exists v :: ReadS64(p) == Got(k, v)) ==>
      k <= 10 && Ends(p, k - 1) && (k == 10 ==> TopOk(p[9], 1)) && forall i :: 0 <= i < k - 1 ==> !Ends(p, i)
    ensures k <= 10 && Ends(p, k - 1) && (k == 10 ==> TopOk(p[9], 1)) && (forall i :: 0 <= i < k - 1 ==> !Ends(p, i)) ==>
      ReadS64(p) == Got(k, if k == 10 then Leb(p, 10, TWO64) else SignExtend(64, Leb(p, k, TWO64), 7 * k - 1))
  {
    hide Leb, SignExtend;
  }

  /* ---- the writers ---- */

  /** An encoding of `value` in `size` bytes, padded with continuation bytes. */
  function Padded(value: nat, size: nat): (bs: seq<byte>)
    requires size > 0
    ensures |bs| == size
  {
    if size == 1 then [value % 128] else [128 + value % 128] + Padded(value / 128, size - 1)
  }

  lemma {:induction false} PaddedEncodes(n: nat, value: nat, size: nat)
    requires size > 0 && value < Weight(size) && value < Pow2(n) && (size == 1 || 7 * (size - 1) < n)
    ensures IsUnsigned(n, Padded(value, size), value)
    decreases size
  {
    var bs := Padded(value, size);
    if size == 1 {
      assert Weight(1) == 128;
    } else {
      assert bs[1..] == Padded(value / 128, size - 1);
      assert Weight(size) == 128 * Weight(size - 1);
      hide Pow2, Weight, IsUnsigned;
      HighPart(n, value);
      PaddedEncodes(n - 7, value / 128, size - 1);
      OneMoreByte(n, bs, value / 128, value % 128);
    }
  }

  lemma OneMoreByte(n: nat, bs: seq<byte>, high: nat, low: nat)
    requires n > 7 && low < 128 && bs != [] && bs[0] == 128 + low && IsUnsigned(n - 7, bs[1..], high)
    ensures IsUnsigned(n, bs, 128 * high + low)
  {
  }

  lemma HighPart(n: nat, value: nat)
    requires n > 7 && value < Pow2(n)
    ensures value / 128 < Pow2(n - 7)
  {
    MemoryLaws.Pow2Splits(7, n - 7);
    WeightIsPow2(1);
    assert Weight(1) == 128;
  }

  /** `U32Leb128Length`: the least length of any encoding of `value` as u32. */
  method U32Leb128Length(value: nat) returns (size: nat)
    requires value < TWO32
    ensures forall bs :: IsUnsigned(32, bs, value) ==> size <= |bs|
    ensures exists bs :: IsUnsigned(32, bs, value) && |bs| == size
  {
    hide IsUnsigned;
    assert Remaining(value, 1) == value / 128 by { assert Weight(1) == 128; }
    hide Weight, Remaining;
    var v := value / 128;
    size := 1;
    while v != 0
      invariant 1 <= size && v == Remaining(value, size)
      invariant size > 1 ==> value >= Weight(size - 1)
      decreases v
    {
      NextQuotient(value, size);
      v := v / 128;
      size := size + 1;
    }
    ShortEnough(value, size);
    forall bs | IsUnsigned(32, bs, value) ensures size <= |bs| {
      NoneShorter(bs, value, size);
    }
  }

  lemma NoneShorter(bs: seq<byte>, value: nat, size: nat)
    requires IsUnsigned(32, bs, value) && (size > 1 ==> value >= Weight(size - 1))
    ensures size <= |bs|
  {
    UnsignedForm(32, bs, value);
    LowBound(bs);
    if |bs| < size { WeightGrows(|bs|, size - 1); }
  }

  /** What is left of the value after `size` bytes. */
  function Remaining(value: nat, size: nat): nat {
    FloatToInt.Quotient(value, Weight(size))
  }

  lemma NextQuotient(value: nat, size: nat)
    ensures Remaining(value, size) / 128 == Remaining(value, size + 1)
    ensures Remaining(value, size) != 0 ==> value >= Weight(size)
  {
    var w := Weight(size);
    assert Weight(size + 1) == 128 * w;
    hide Weight;
    Requotient(value, w);
    FloatToInt.WholePart(value, w, 0);
  }

  lemma Requotient(value: nat, w: nat)
    requires w > 0
    ensures 128 * w > 0 && value / w / 128 == value / (128 * w)
  {
    var q, r := value / w, value % w;
    var q1, r1 := q / 128, q % 128;
    assert value == w * q + r;
    Distribute(w, q1, r1);
    FloatToInt.ScaleStrict(r1 + 1, 128, w);
    QuotientUnique(value, 128 * w, q1, w * r1 + r);
  }

  lemma Distribute(w: nat, q1: nat, r1: nat)
    ensures w * (128 * q1 + r1) == (128 * w) * q1 + w * r1
  {
  }

  lemma QuotientUnique(n: nat, d: nat, q: nat, r: nat)
    requires d > 0 && n == d * q + r && r < d
    ensures n / d == q
  {
    FloatToInt.Digits(d, q, r);
  }

  lemma ShortEnough(value: nat, size: nat)
    requires size > 0 && value < TWO32 && Remaining(value, size) == 0 && (size > 1 ==> value >= Weight(size - 1))
    ensures exists bs :: IsUnsigned(32, bs, value) && |bs| == size
  {
    Sizes();
    FloatToInt.WholePart(value, Weight(size), 0);
    if size > 5 { WeightGrows(5, size - 1); }
    PaddedEncodes(32, value, size);
  }

  /** `WriteFixedU32Leb128Raw`: five bytes at the cursor, or nothing when they do not fit before
      `end`. Reading back what was written gives the value again. */
  method WriteFixedU32Leb128Raw(data: array<byte>, at: nat, end: nat, value: nat) returns (written: nat)
    requires at <= end <= data.Length && value < TWO32
    modifies data
    ensures written == if end - at < 5 then 0 else 5
    ensures data[..at] == old(data[..at]) && data[at + written..] == old(data[at + written..])
    ensures written == 5 ==> ReadU32(data[at..end]) == Got(5, value)
  {
    if end - at < 5 { return 0; }
    data[at] := value % 128 + 128;
    data[at + 1] := value / 0x80 % 128 + 128;
    data[at + 2] := value / 0x4000 % 128 + 128;
    data[at + 3] := value / 0x20_0000 % 128 + 128;
    data[at + 4] := value / 0x1000_0000 % 16;
    FixedIsPadded(data[at..end], value);
    return 5;
  }

  lemma FixedIsPadded(bs: seq<byte>, value: nat)
    requires |bs| >= 5 && value < TWO32
    requires bs[0] == value % 128 + 128 && bs[1] == value / 0x80 % 128 + 128 && bs[2] == value / 0x4000 % 128 + 128
    requires bs[3] == value / 0x20_0000 % 128 + 128 && bs[4] == value / 0x1000_0000 % 16
    ensures ReadU32(bs) == Got(5, value)
  {
    hide IsUnsigned;
    assert bs[..5] == Padded(value, 5) by { PaddedFive(value); }
    Sizes();
    PaddedEncodes(32, value, 5);
    ReadU32Exact(bs, 5, value);
  }

  lemma PaddedFive(value: nat)
    requires value < TWO32
    ensures Padded(value, 5) ==
      [value % 128 + 128, value / 0x80 % 128 + 128, value / 0x4000 % 128 + 128, value / 0x20_0000 % 128 + 128,
       value / 0x1000_0000 % 16]
  {
    var a, b, c, d := value / 128, value / 128 / 128, value / 128 / 128 / 128, value / 128 / 128 / 128 / 128;
    assert b == value / 0x4000 && c == value / 0x20_0000 && d == value / 0x1000_0000;
    assert Padded(d, 1) == [d % 128];
    assert Padded(c, 2) == [128 + c % 128] + Padded(d, 1);
    assert Padded(b, 3) == [128 + b % 128] + Padded(c, 2);
    assert Padded(a, 4) == [128 + a % 128] + Padded(b, 3);
    assert d < 16;
  }
}
