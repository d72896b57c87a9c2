/** Linear memory: checked accesses, little-endian encoding and growth. */
module LinearMemory {
  import opened Wasm

  const PAGE_SIZE: nat := 0x1_0000
  const MAX_PAGES: nat := 0x1_0000
  const TWO32: nat := 0x1_0000_0000

  type byte = n: nat | n < 256

  /** `RuntimeMemory`: `limits.initial` is the current page count. */
  datatype Memory = Memory(bytes: seq<byte>, pages: nat, max: Option<nat>)

  /** The least significant byte comes first. */
  function Encode(bits: nat, width: nat): (r: seq<byte>)
    ensures |r| == width
  {
    if width == 0 then [] else [bits % 256] + Encode(bits / 256, width - 1)
  }

  function Decode(bs: seq<byte>): nat {
    if bs == [] then 0 else bs[0] + 256 * Decode(bs[1..])
  }

  /** The number of bits of a stack type. */
  function BitsOf(ty: ValType): nat {
    if ty.I32? || ty.F32? then 32 else 64
  }

  /** Zero- or sign-extension of a `width`-byte number to a stack value of type `ty`. */
  function Extend(raw: nat, access: Access): Value {
    if access.signed && raw >= Pow2(8 * access.width) / 2 && Pow2(8 * access.width) <= Pow2(BitsOf(access.ty)) then
      Value(access.ty, raw + Pow2(BitsOf(access.ty)) - Pow2(8 * access.width))
    else Value(access.ty, raw)
  }

  /** `GetAccessAddress`: the effective address, computed in 64 bits. */
  function Address(m: Memory, base: nat, offset: nat, width: nat): Option<nat> {
    if base + offset + width > |m.bytes| then None else Some(base + offset)
  }

  /** `None` is the out-of-bounds trap. */
  function LoadFrom(m: Memory, base: nat, offset: nat, access: Access): Option<Value> {
    match Address(m, base, offset, access.width)
    case None => None
    case Some(a) => Some(Extend(Decode(m.bytes[a..a + access.width]), access))
  }

  function StoreTo(m: Memory, base: nat, offset: nat, access: Access, v: Value): Option<Memory> {
    match Address(m, base, offset, access.width)
    case None => None
    case Some(a) => Some(m.(bytes := m.bytes[..a] + Encode(v.bits, access.width) + m.bytes[a + access.width..]))
  }

  datatype GrowResult = Grown(m: Memory) | Refused | Wrapped

  function MaxPages(m: Memory): nat {
    match m.max
    case Some(n) => n
    case None => MAX_PAGES
  }

  function Zeros(n: nat): (r: seq<byte>)
    ensures |r| == n
  {
    seq(n, _ => 0)
  }

  /** `Runtime::growMemory`. The new page count is a 32-bit sum; when it wraps and both limits
      still allow it, the reallocation copies more bytes than it allocated and nothing is
      defined any more (`Wrapped`). */
  function Grow(m: Memory, delta: nat): GrowResult {
    var n := (m.pages + delta) % TWO32;
    if n > MaxPages(m) || n * PAGE_SIZE > TWO32 - 1 then Refused
    else if n * PAGE_SIZE < |m.bytes| then Wrapped
    else Grown(m.(bytes := m.bytes + Zeros(n * PAGE_SIZE - |m.bytes|), pages := n))
  }
}
