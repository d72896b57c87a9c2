/** The vocabulary shared by the reader, the checker and the machine: types, values,
    decoded instructions and the structured form of a function body. */
module Wasm {
  /** `kInvalidIndex`: the mark of a branch target that is not known yet. */
  const INVALID_INDEX: nat := 0xFFFF_FFFF

  datatype Option<+T> = None | Some(value: T)

  /** `Any` never appears in a signature; `Void` never appears on a type stack. */
  datatype Type = I32 | I64 | F32 | F64 | Void | Any

  predicate IsValType(t: Type) {
    t.I32? || t.I64? || t.F32? || t.F64?
  }

  type ValType = t: Type | IsValType(t) witness I32

  datatype Signature = Signature(params: seq<ValType>, results: seq<ValType>)

  /** A stack cell. The original is an untagged 64-bit union; `ty` records which member was
      written last, and no step of the machine ever branches on it. */
  datatype Value = Value(ty: ValType, bits: nat)

  /** What `Pop<uint32_t>` reads from the union. */
  function AsU32(v: Value): nat {
    v.bits % 0x1_0000_0000
  }

  function U32(n: nat): Value {
    Value(I32, n % 0x1_0000_0000)
  }

  function TypesOf(vs: seq<Value>): (ts: seq<ValType>)
    ensures |ts| == |vs|
  {
    seq(|vs|, i requires 0 <= i < |vs| => vs[i].ty)
  }

  /** A unary, binary, comparison or conversion opcode: a row of the opcode table. */
  datatype NumericOp = NumericOp(code: nat, params: seq<ValType>, result: ValType)

  /** The bytes a load or store touches. */
  type Width = n: nat | n == 1 || n == 2 || n == 4 || n == 8 witness 1

  /** The memory access of a load or store opcode: bytes touched, stack type, sign extension. */
  datatype Access = Access(width: Width, ty: ValType, signed: bool)

  /** An instruction as the binary reader hands it to the module reader's callbacks. */
  datatype Instr =
    | Unreachable
    | Nop
    | Block(results: seq<ValType>)
    | Loop(results: seq<ValType>)
    | If(results: seq<ValType>)
    | Else
    | End
    | Br(depth: nat)
    | BrIf(depth: nat)
    | BrTable(depths: seq<nat>, default: nat)
    | Return
    | Call(func: nat)
    | CallIndirect(sig: nat)
    | Drop
    | Select
    | GetLocal(local: nat)
    | SetLocal(local: nat)
    | TeeLocal(local: nat)
    | GetGlobal(global: nat)
    | SetGlobal(global: nat)
    | Load(access: Access, align: nat, offset: nat)
    | Store(access: Access, align: nat, offset: nat)
    | CurrentMemory
    | GrowMemory
    | Const(v: Value)
    | Numeric(op: NumericOp)

  predicate IsPlain(i: Instr) {
    !i.Block? && !i.Loop? && !i.If? && !i.Else? && !i.End?
  }

  type PlainInstr = i: Instr | IsPlain(i) witness Nop

  /** The structured form of a body: what a well-bracketed instruction stream denotes. */
  datatype Ins =
    | Plain(i: PlainInstr)
    | BlockIns(sig: seq<ValType>, body: Body)
    | LoopIns(sig: seq<ValType>, body: Body)
    | IfIns(sig: seq<ValType>, thn: Body)
    | IfElseIns(sig: seq<ValType>, thn: Body, els: Body)

  datatype Body = Nil | Cons(head: Ins, tail: Body)

  function FlattenIns(ins: Ins): seq<Instr> {
    match ins
    case Plain(i) => [i]
    case BlockIns(sig, b) => [Block(sig)] + Flatten(b) + [End]
    case LoopIns(sig, b) => [Loop(sig)] + Flatten(b) + [End]
    case IfIns(sig, b) => [If(sig)] + Flatten(b) + [End]
    case IfElseIns(sig, b1, b2) => [If(sig)] + Flatten(b1) + [Else] + Flatten(b2) + [End]
  }

  function Flatten(b: Body): seq<Instr> {
    match b
    case Nil => []
    case Cons(h, t) => FlattenIns(h) + Flatten(t)
  }

  datatype GlobalType = GlobalType(ty: ValType, mut: bool)
  datatype FuncType = FuncType(sig: Signature, imported: bool)

  /** What the module and the current function offer to the body being read. */
  datatype Context = Context(
    locals: seq<ValType>,
    results: seq<ValType>,
    globals: seq<GlobalType>,
    funcs: seq<FuncType>,
    types: seq<Signature>,
    hasMemory: bool,
    hasTable: bool)

  function Pow2(n: nat): (p: nat)
    ensures p > 0
  {
    if n == 0 then 1 else 2 * Pow2(n - 1)
  }

  /** `CheckAlign`: the alignment may not exceed the access width. */
  predicate AlignOk(log2: nat, width: nat) {
    log2 < 32 && Pow2(log2) <= width
  }
}
