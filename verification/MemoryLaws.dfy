/** What loads, stores and growth do to linear memory, over any sequence of them. */
module MemoryLaws {
  import opened Wasm
  import opened LinearMemory
  import opened Simulation

  lemma {:induction false} Pow2Splits(a: nat, b: nat)
    ensures Pow2(a + b) == Pow2(a) * Pow2(b)
    decreases a
  {
    if a > 0 { Pow2Splits(a - 1, b); }
  }

  lemma Pow2Byte(w: nat)
    ensures Pow2(8 * (w + 1)) == 256 * Pow2(8 * w)
  {
    Pow2Splits(8, 8 * w);
    assert Pow2(8) == 256 by {
      assert Pow2(4) == 16;
      Pow2Splits(4, 4);
    }
  }

  lemma {:induction false} DecodeBound(bs: seq<byte>)
    ensures Decode(bs) < Pow2(8 * |bs|)
    decreases |bs|
  {
    if bs != [] {
      DecodeBound(bs[1..]);
      Pow2Byte(|bs| - 1);
    }
  }

  /** Bytes written and read back are the number wrapped to their width. */
  lemma {:induction false} DecodeEncode(bits: nat, width: nat)
    ensures Decode(Encode(bits, width)) == bits % Pow2(8 * width)
    decreases width
  {
    if width > 0 {
      var p := Pow2(8 * (width - 1));
      Pow2Byte(width - 1);
      DecodeEncode(bits / 256, width - 1);
      var es := Encode(bits, width);
      assert es[1..] == Encode(bits / 256, width - 1) && es[0] == bits % 256;
      WrapSplits(bits, p);
    }
  }

  lemma WrapSplits(bits: nat, p: nat)
    requires p > 0
    ensures bits % (256 * p) == bits % 256 + 256 * (bits / 256 % p)
  {
    var low, high := bits % 256, bits / 256;
    var q, r := high / p, high % p;
    assert bits == 256 * (q * p + r) + low;
    assert bits == (256 * p) * q + (256 * r + low);
    assert 256 * r + low < 256 * p;
    DivisionUnique(bits, 256 * p, q, 256 * r + low);
  }

  lemma DivisionUnique(n: nat, d: nat, q: nat, r: nat)
    requires d > 0 && n == d * q + r && r < d
    ensures n / d == q && n % d == r
  {
    var e := n / d - q;
    assert d * (n / d) + n % d == n;
    assert d * e == r - n % d;
    FarFromZero(d, e);
  }

  lemma FarFromZero(d: nat, e: int)
    ensures e > 0 ==> d * e >= d
    ensures e < 0 ==> d * e + d <= 0
  {
  }

  lemma {:induction false} EncodeDecode(bs: seq<byte>)
    ensures Encode(Decode(bs), |bs|) == bs
    decreases |bs|
  {
    if bs != [] {
      EncodeDecode(bs[1..]);
      assert Decode(bs) % 256 == bs[0] && Decode(bs) / 256 == Decode(bs[1..]);
    }
  }

  lemma Quotients(n: nat, p: nat)
    requires p > 0
    ensures n / 256 / p == n / (256 * p)
  {
    var high, low := n / 256, n % 256;
    var q, r := high / p, high % p;
    assert n == 256 * (q * p + r) + low;
    assert n == (256 * p) * q + (256 * r + low);
    assert 256 * r + low < 256 * p;
    DivisionUnique(n, 256 * p, q, 256 * r + low);
  }

  /** The least significant byte comes first: byte `k` is digit `k` to the base 256. */
  lemma {:induction false} DigitAt(bits: nat, width: nat, k: nat)
    requires k < width
    ensures Encode(bits, width)[k] == bits / Pow2(8 * k) % 256
    decreases k
  {
    if k == 0 {
      assert Pow2(0) == 1;
    } else {
      DigitAt(bits / 256, width - 1, k - 1);
      Pow2Byte(k - 1);
      Quotients(bits, Pow2(8 * (k - 1)));
    }
  }

  /* ---- loads and stores ---- */

  /** An access traps exactly when its last byte lies past the end of memory. */
  lemma AccessTraps(m: Memory, base: nat, offset: nat, access: Access, v: Value)
    ensures LoadFrom(m, base, offset, access).None? <==> base + offset + access.width > |m.bytes|
    ensures StoreTo(m, base, offset, access, v).None? <==> base + offset + access.width > |m.bytes|
  {
  }

  lemma SliceThere(bs: seq<byte>, at: nat, put: seq<byte>)
    requires at + |put| <= |bs|
    ensures (bs[..at] + put + bs[at + |put|..])[at..at + |put|] == put
  {
    var cs := bs[..at] + put + bs[at + |put|..];
    var got := cs[at..at + |put|];
    forall k | 0 <= k < |put| ensures got[k] == put[k] {
      assert cs[at + k] == put[k];
    }
  }

  /** What a load of as many bytes finds after a store: the stored number, wrapped to the width of
      the access and then extended as the load asks. */
  lemma LoadAfterStore(m: Memory, base: nat, offset: nat, store: Access, load: Access, v: Value)
    requires store.width == load.width && StoreTo(m, base, offset, store, v).Some?
    ensures LoadFrom(StoreTo(m, base, offset, store, v).value, base, offset, load) ==
      Some(Extend(v.bits % Pow2(8 * load.width), load))
  {
    hide Encode, Decode, Extend, Pow2;
    var a, w := base + offset, load.width;
    var m2 := StoreTo(m, base, offset, store, v).value;
    assert m2.bytes[a..a + w] == Encode(v.bits, w) by { SliceThere(m.bytes, a, Encode(v.bits, w)); }
    DecodeEncode(v.bits, w);
  }

  lemma SliceElsewhere(bs: seq<byte>, at: nat, put: seq<byte>, a: nat, w: nat)
    requires at + |put| <= |bs| && a + w <= |bs| && (a + w <= at || at + |put| <= a)
    ensures (bs[..at] + put + bs[at + |put|..])[a..a + w] == bs[a..a + w]
  {
    var cs := bs[..at] + put + bs[at + |put|..];
    var got, was := cs[a..a + w], bs[a..a + w];
    forall k | 0 <= k < w ensures got[k] == was[k] {
      assert cs[a + k] == bs[a + k];
    }
  }

  /** A load that does not overlap a store finds what it found before. */
  lemma LoadElsewhere(m: Memory, base: nat, offset: nat, store: Access, v: Value, base2: nat, offset2: nat, load: Access)
    requires StoreTo(m, base, offset, store, v).Some?
    requires base2 + offset2 + load.width <= base + offset || base + offset + store.width <= base2 + offset2
    ensures LoadFrom(StoreTo(m, base, offset, store, v).value, base2, offset2, load) == LoadFrom(m, base2, offset2, load)
  {
    hide Encode, Decode, Extend;
    var a := base2 + offset2;
    var m2 := StoreTo(m, base, offset, store, v).value;
    if a + load.width <= |m.bytes| {
      SliceElsewhere(m.bytes, base + offset, Encode(v.bits, store.width), a, load.width);
    }
  }

  /** The number as two's complement of the given width. */
  function AsSigned(n: nat, bits: nat): int {
    if n >= Pow2(bits) / 2 then n - Pow2(bits) else n
  }

  /** Extension keeps the value of the bytes: signed accesses keep it as a signed number, the others
      as it is; and the result fits its stack type. */
  lemma ExtendKeepsValue(raw: nat, access: Access)
    requires 8 * access.width <= (if access.ty == I32 || access.ty == F32 then 32 else 64) && raw < Pow2(8 * access.width)
    ensures
      var v, size := Extend(raw, access), if access.ty == I32 || access.ty == F32 then 32 else 64;
      && v.ty == access.ty && v.bits < Pow2(size)
      && (if access.signed then AsSigned(v.bits, size) == AsSigned(raw, 8 * access.width) else v.bits == raw)
  {
    hide Pow2;
    var k, b := 8 * access.width, BitsOf(access.ty);
    Halves(k);
    Halves(b);
    if k < b { Doubles(k, b); }
  }

  lemma Doubles(k: nat, b: nat)
    requires k < b
    ensures 2 * Pow2(k) <= Pow2(b)
  {
    hide Pow2;
    Pow2Splits(k + 1, b - k - 1);
    TimesPositive(Pow2(k + 1), Pow2(b - k - 1));
    NextPow2(k);
  }

  lemma NextPow2(k: nat)
    ensures Pow2(k + 1) == 2 * Pow2(k)
  {
  }

  lemma Halves(k: nat)
    requires k > 0
    ensures Pow2(k) / 2 * 2 == Pow2(k)
  {
  }

  lemma TimesPositive(x: nat, y: nat)
    requires y >= 1
    ensures x <= x * y
  {
  }

  /* ---- growth ---- */

  /** Memory seen as an unbounded array of bytes that starts out zero. */
  function ByteAt(m: Memory, k: nat): byte {
    if k < |m.bytes| then m.bytes[k] else 0
  }

  /** Growth is invisible to the bytes: the old ones stay and the new ones are zero. */
  lemma GrowInvisible(m: Memory, delta: nat, k: nat)
    requires Grow(m, delta).Grown?
    ensures ByteAt(Grow(m, delta).m, k) == ByteAt(m, k)
    ensures |m.bytes| <= |Grow(m, delta).m.bytes|
  {
  }

  /** A store changes the bytes it covers, to the little-endian digits of the number, and no other. */
  lemma StoreEffect(m: Memory, base: nat, offset: nat, access: Access, v: Value, k: nat)
    requires StoreTo(m, base, offset, access, v).Some?
    ensures var a, m2 := base + offset, StoreTo(m, base, offset, access, v).value;
      && |m2.bytes| == |m.bytes| && m2.pages == m.pages && m2.max == m.max
      && ByteAt(m2, k) == if a <= k < a + access.width then v.bits / Pow2(8 * (k - a)) % 256 else ByteAt(m, k)
  {
    hide Encode, Pow2;
    var a := base + offset;
    if a <= k < a + access.width { DigitAt(v.bits, access.width, k - a); }
  }

  /** The page count does not exceed the maximum, if there is one. */
  predicate WithinMax(m: Memory) {
    m.max.Some? ==> m.pages <= m.max.value
  }

  /** With a memory of whole pages within its maximum and a 32-bit count, growth is what section 4.2.8
      of the WebAssembly Core Specification 1.0 asks, within what 32 bits can address; and it goes
      wrong exactly when the 32-bit page count wraps. */
  lemma GrowExact(m: Memory, delta: nat)
    requires MemoryOk(m) && WithinMax(m) && delta < 0x1_0000_0000
    ensures Grow(m, delta).Wrapped? <==> m.pages + delta >= 0x1_0000_0000
    ensures Grow(m, delta).Grown? <==>
      m.pages + delta < 65536 && match m.max { case None => true case Some(n) => m.pages + delta <= n }
    ensures Grow(m, delta).Grown? ==>
      var g := Grow(m, delta).m;
      MemoryOk(g) && g.pages == m.pages + delta && |g.bytes| == 65536 * g.pages && WithinMax(g) && g.max == m.max
  {
    GrowAgrees(m, delta);
    if m.pages + delta >= TWO32 {
      assert (m.pages + delta) % TWO32 == m.pages + delta - TWO32;
    } else {
      assert (m.pages + delta) % TWO32 == m.pages + delta;
    }
  }

  datatype MemOp = StoreOp(base: nat, offset: nat, access: Access, v: Value) | GrowOp(delta: nat)

  /** One operation; a trap or a refused growth leaves memory alone. `None` when a page count wraps. */
  function Apply(m: Memory, op: MemOp): Option<Memory> {
    match op
    case StoreOp(base, offset, access, v) => Some(var r := StoreTo(m, base, offset, access, v); if r.Some? then r.value else m)
    case GrowOp(delta) =>
      match Grow(m, delta % TWO32)
      case Grown(g) => Some(g)
      case Refused => Some(m)
      case Wrapped => None
  }

  /** A growth of a run adds its pages when they fit, leaves memory alone when they do not, and ends the
      run exactly when the 32-bit sum wraps. */
  lemma GrowStep(m: Memory, delta: nat)
    requires MemoryOk(m) && WithinMax(m) && delta < 0x1_0000_0000
    ensures Apply(m, GrowOp(delta)).None? <==> m.pages + delta >= 0x1_0000_0000
    ensures m.pages + delta < 0x1_0000_0000 ==>
      var fits := m.pages + delta < 65536 && match m.max { case None => true case Some(n) => m.pages + delta <= n };
      var e := Apply(m, GrowOp(delta)).value;
      if fits then e.pages == m.pages + delta && m.bytes <= e.bytes else e == m
  {
    GrowExact(m, delta);
    assert delta % 0x1_0000_0000 == delta;
  }

  function ApplyAll(m: Memory, ops: seq<MemOp>): Option<Memory>
    decreases |ops|
  {
    if ops == [] then Some(m)
    else
      match Apply(m, ops[0])
      case None => None
      case Some(m1) => ApplyAll(m1, ops[1..])
  }

  /** Over any run of stores and non-wrapping growths memory stays a whole number of pages, below
      2^32 bytes and within its maximum, never shrinks, and keeps every byte that no store covered. */
  lemma {:induction false} RunKeepsMemory(m: Memory, ops: seq<MemOp>, k: nat)
    requires MemoryOk(m) && WithinMax(m) && ApplyAll(m, ops).Some?
    ensures
      var e := ApplyAll(m, ops).value;
      && MemoryOk(e) && |e.bytes| == 65536 * e.pages < 0x1_0000_0000 && WithinMax(e) && e.max == m.max && m.pages <= e.pages
      && (!Covered(ops, k) ==> ByteAt(e, k) == ByteAt(m, k))
    decreases |ops|
  {
    if ops == [] {
    } else {
      var op := ops[0];
      var m1 := Apply(m, op).value;
      if op.GrowOp? {
        GrowExact(m, op.delta % TWO32);
        if Grow(m, op.delta % TWO32).Grown? { GrowInvisible(m, op.delta % TWO32, k); }
      } else {
        if StoreTo(m, op.base, op.offset, op.access, op.v).Some? { StoreEffect(m, op.base, op.offset, op.access, op.v, k); }
      }
      hide Apply, Encode, Grow, StoreTo;
      RunKeepsMemory(m1, ops[1..], k);
    }
  }

  /** Some store of the run writes byte `k`. */
  predicate Covered(ops: seq<MemOp>, k: nat)
    decreases |ops|
  {
    ops != [] &&
    ((ops[0].StoreOp? && ops[0].base + ops[0].offset <= k < ops[0].base + ops[0].offset + ops[0].access.width) || Covered(ops[1..], k))
  }
}
