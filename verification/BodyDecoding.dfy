/** Reading function bodies from bytes: the decoder against a grammar of instructions, and together
    with the module reader's callbacks the way from the bytes of a body to its flat code. The grammar
    is that of section 5.4 of the WebAssembly Core Specification 1.0 widened to what the code takes:
    a block type is any s32 encoding, a reserved field any u32 encoding of zero. `Conformance` holds
    the strict grammar and says exactly where the two part. */
module BodyDecoding {
  import opened Wasm
  import opened LinearMemory
  import opened Leb128
  import FloatToInt

  /** What the opcode table says of an opcode that is not handled by name. */
  datatype Row = NumericRow(op: NumericOp) | LoadRow(access: Access) | StoreRow(access: Access)

  /** The opcode table, by prefix byte (0 for none) and code. */
  type Table = (nat, nat) -> Option<Row>

  predicate IsPrefixByte(b: byte) {
    b == 0xfc || b == 0xfe
  }

  datatype Kind = NoKind | IndexKind | PairKind | TypeKind | TargetsKind | S32Kind | S64Kind | F32Kind | F64Kind

  /** The immediates of an instruction. */
  datatype Imm =
    | NoImm
    | Number(n: nat)
    | Two(first: nat, second: nat)
    | Results(types: seq<ValType>)
    | Targets(depths: seq<nat>, default: nat)

  /** Which immediates follow an opcode; `None` for an unexpected opcode. */
  function KindOf(t: Table, prefix: nat, code: nat): Option<Kind> {
    if prefix == 0 && code in {0x00, 0x01, 0x05, 0x0b, 0x0f, 0x1a, 0x1b} then Some(NoKind)
    else if prefix == 0 && 0x02 <= code <= 0x04 then Some(TypeKind)
    else if prefix == 0 && code in {0x0c, 0x0d, 0x10, 0x20, 0x21, 0x22, 0x23, 0x24, 0x3f, 0x40} then Some(IndexKind)
    else if prefix == 0 && code == 0x0e then Some(TargetsKind)
    else if prefix == 0 && code == 0x11 then Some(PairKind)
    else if prefix == 0 && code == 0x41 then Some(S32Kind)
    else if prefix == 0 && code == 0x42 then Some(S64Kind)
    else if prefix == 0 && code == 0x43 then Some(F32Kind)
    else if prefix == 0 && code == 0x44 then Some(F64Kind)
    else
      match t(prefix, code)
      case Some(NumericRow(_)) => Some(NoKind)
      case Some(_) => Some(PairKind)
      case None => None
  }

  /** The instruction, once its immediates are read; `None` when a reserved field is not 0. */
  function Build(t: Table, prefix: nat, code: nat, imm: Imm): Option<Instr> {
    if prefix != 0 then FromRow(t, prefix, code, imm)
    else
      match imm
      case NoImm =>
        if code == 0x00 then Some(Unreachable)
        else if code == 0x01 then Some(Nop)
        else if code == 0x05 then Some(Else)
        else if code == 0x0b then Some(End)
        else if code == 0x0f then Some(Return)
        else if code == 0x1a then Some(Drop)
        else if code == 0x1b then Some(Select)
        else FromRow(t, prefix, code, imm)
      case Number(n) =>
        if code == 0x0c then Some(Br(n))
        else if code == 0x0d then Some(BrIf(n))
        else if code == 0x10 then Some(Call(n))
        else if code == 0x20 then Some(GetLocal(n))
        else if code == 0x21 then Some(SetLocal(n))
        else if code == 0x22 then Some(TeeLocal(n))
        else if code == 0x23 then Some(GetGlobal(n))
        else if code == 0x24 then Some(SetGlobal(n))
        else if code == 0x3f then (if n == 0 then Some(CurrentMemory) else None)
        else if code == 0x40 then (if n == 0 then Some(GrowMemory) else None)
        else if code == 0x41 then Some(Const(Value(I32, n)))
        else if code == 0x42 then Some(Const(Value(I64, n)))
        else if code == 0x43 then Some(Const(Value(F32, n)))
        else if code == 0x44 then Some(Const(Value(F64, n)))
        else None
      case Two(first, second) =>
        if code == 0x11 then (if second == 0 then Some(CallIndirect(first)) else None)
        else FromRow(t, prefix, code, imm)
      case Results(types) =>
        if code == 0x02 then Some(Block(types))
        else if code == 0x03 then Some(Loop(types))
        else if code == 0x04 then Some(If(types))
        else None
      case Targets(depths, default) => if code == 0x0e then Some(BrTable(depths, default)) else None
  }

  function FromRow(t: Table, prefix: nat, code: nat, imm: Imm): Option<Instr> {
    match (t(prefix, code), imm)
    case (Some(NumericRow(op)), NoImm) => Some(Numeric(op))
    case (Some(LoadRow(access)), Two(align, offset)) => Some(Load(access, align, offset))
    case (Some(StoreRow(access)), Two(align, offset)) => Some(Store(access, align, offset))
    case _ => None
  }

  /** A block type: nothing or one value type. */
  function BlockResults(v: int): Option<seq<ValType>> {
    if v == -64 then Some([])
    else if v == -1 then Some([I32])
    else if v == -2 then Some([I64])
    else if v == -3 then Some([F32])
    else if v == -4 then Some([F64])
    else None
  }

  /* ---- the grammar ---- */

  predicate IsVector(bs: seq<byte>, ns: seq<nat>)
    decreases |ns|
  {
    if ns == [] then bs == []
    else exists k :: 0 <= k <= |bs| && IsUnsigned(32, bs[..k], ns[0]) && IsVector(bs[k..], ns[1..])
  }

  /** `bs` encodes the immediates `imm` of the given kind. */
  ghost predicate IsImm(kind: Kind, bs: seq<byte>, imm: Imm) {
    match kind
    case NoKind => bs == [] && imm == NoImm
    case IndexKind => imm.Number? && IsUnsigned(32, bs, imm.n)
    case PairKind => imm.Two? && IsVector(bs, [imm.first, imm.second])
    case TypeKind => imm.Results? && exists v :: IsSigned(32, bs, v) && BlockResults(v) == Some(imm.types)
    case TargetsKind => imm.Targets? && IsVector(bs, [|imm.depths|] + imm.depths + [imm.default])
    case S32Kind => imm.Number? && exists v :: IsSigned(32, bs, v) && imm.n == v % Pow2(32)
    case S64Kind => imm.Number? && exists v :: IsSigned(64, bs, v) && imm.n == v % Pow2(64)
    case F32Kind => |bs| == 4 && imm == Number(Decode(bs))
    case F64Kind => |bs| == 8 && imm == Number(Decode(bs))
  }

  /** `bs` encodes the opcode alone. */
  predicate IsOpcode(bs: seq<byte>, prefix: nat, code: nat) {
    && bs != []
    && if bs[0] == 0xfc || bs[0] == 0xfe then prefix == bs[0] && IsUnsigned(32, bs[1..], code)
       else |bs| == 1 && prefix == 0 && code == bs[0]
  }

  /** An opcode byte and an unsigned number of 32 bits. */
  predicate WithIndex(bs: seq<byte>, code: byte, n: nat) {
    bs != [] && bs[0] == code && IsUnsigned(32, bs[1..], n)
  }

  /** Two unsigned numbers of 32 bits. */
  predicate TwoIndices(bs: seq<byte>, a: nat, b: nat) {
    exists k :: 0 <= k <= |bs| && IsUnsigned(32, bs[..k], a) && IsUnsigned(32, bs[k..], b)
  }

  /** A block type: -64 for no result, or the negative number of a value type, as a signed number of 32 bits. */
  predicate BlockType(bs: seq<byte>, ts: seq<ValType>) {
    || (ts == [] && IsSigned(32, bs, -64))
    || (ts == [I32] && IsSigned(32, bs, -1))
    || (ts == [I64] && IsSigned(32, bs, -2))
    || (ts == [F32] && IsSigned(32, bs, -3))
    || (ts == [F64] && IsSigned(32, bs, -4))
  }

  predicate WithType(bs: seq<byte>, code: byte, ts: seq<ValType>) {
    bs != [] && bs[0] == code && BlockType(bs[1..], ts)
  }

  /** A constant: an integer as a signed number, a float by its bytes, least significant first. */
  ghost predicate IsConst(bs: seq<byte>, v: Value) {
    bs != [] &&
    match v.ty
    case I32 => bs[0] == 0x41 && exists n :: IsSigned(32, bs[1..], n) && v.bits == n % 0x1_0000_0000
    case I64 => bs[0] == 0x42 && exists n :: IsSigned(64, bs[1..], n) && v.bits == n % 0x1_0000_0000_0000_0000
    case F32 => bs[0] == 0x43 && |bs| == 5 && v.bits == Decode(bs[1..])
    case F64 => bs[0] == 0x44 && |bs| == 9 && v.bits == Decode(bs[1..])
  }

  /** The opcodes that have a meaning of their own; the table gives the others theirs. */
  predicate Named(prefix: nat, code: nat) {
    prefix == 0 &&
    (code <= 0x05 || 0x0b <= code <= 0x11 || 0x1a <= code <= 0x1b || 0x20 <= code <= 0x24 || 0x3f <= code <= 0x44)
  }

  /** The first `h` bytes are an opcode to which the table gives the meaning `row`. */
  ghost predicate TableOpcode(t: Table, bs: seq<byte>, h: nat, row: Row) {
    h <= |bs| && exists prefix: nat, code: nat :: IsOpcode(bs[..h], prefix, code) && !Named(prefix, code) && t(prefix, code) == Some(row)
  }

  /** An alignment and an offset behind an opcode of the table. */
  ghost predicate IsAccess(t: Table, bs: seq<byte>, row: Row, align: nat, offset: nat) {
    exists h: nat :: TableOpcode(t, bs, h, row) && TwoIndices(bs[h..], align, offset)
  }

  /** `bs` encodes the instruction `i`. */
  ghost predicate IsInstr(t: Table, bs: seq<byte>, i: Instr) {
    match i
    case Unreachable => bs == [0x00]
    case Nop => bs == [0x01]
    case Block(ts) => WithType(bs, 0x02, ts)
    case Loop(ts) => WithType(bs, 0x03, ts)
    case If(ts) => WithType(bs, 0x04, ts)
    case Else => bs == [0x05]
    case End => bs == [0x0b]
    case Br(d) => WithIndex(bs, 0x0c, d)
    case BrIf(d) => WithIndex(bs, 0x0d, d)
    case BrTable(ds, d) => bs != [] && bs[0] == 0x0e && IsVector(bs[1..], [|ds|] + ds + [d])
    case Return => bs == [0x0f]
    case Call(f) => WithIndex(bs, 0x10, f)
    case CallIndirect(x) => bs != [] && bs[0] == 0x11 && TwoIndices(bs[1..], x, 0)
    case Drop => bs == [0x1a]
    case Select => bs == [0x1b]
    case GetLocal(x) => WithIndex(bs, 0x20, x)
    case SetLocal(x) => WithIndex(bs, 0x21, x)
    case TeeLocal(x) => WithIndex(bs, 0x22, x)
    case GetGlobal(x) => WithIndex(bs, 0x23, x)
    case SetGlobal(x) => WithIndex(bs, 0x24, x)
    case Load(a, align, offset) => IsAccess(t, bs, LoadRow(a), align, offset)
    case Store(a, align, offset) => IsAccess(t, bs, StoreRow(a), align, offset)
    case CurrentMemory => WithIndex(bs, 0x3f, 0)
    case GrowMemory => WithIndex(bs, 0x40, 0)
    case Const(v) => IsConst(bs, v)
    case Numeric(op) => TableOpcode(t, bs, |bs|, NumericRow(op))
  }

  /* ---- the same as the code cuts it: opcode, immediates, instruction ---- */

  /** `bs` is an opcode and immediates of its kind, from which the code builds `i`. */
  ghost predicate IsSplit(t: Table, bs: seq<byte>, i: Instr) {
    exists h: nat, prefix: nat, code: nat, imm :: Splits(t, bs, i, h, prefix, code, imm)
  }

  ghost predicate Splits(t: Table, bs: seq<byte>, i: Instr, h: nat, prefix: nat, code: nat, imm: Imm) {
    && h <= |bs| && IsOpcode(bs[..h], prefix, code)
    && KindOf(t, prefix, code).Some? && IsImm(KindOf(t, prefix, code).value, bs[h..], imm)
    && Build(t, prefix, code, imm) == Some(i)
  }

  /** `bs` encodes the instructions `code`, closed by the `end` of the body. */
  ghost predicate IsBody(t: Table, bs: seq<byte>, code: seq<Instr>)
    decreases |code|
  {
    if code == [] then bs == [0x0b]
    else exists n :: 0 <= n < |bs| && IsInstr(t, bs[..n], code[0]) && IsBody(t, bs[n..], code[1..])
  }

  /* ---- the decoder as functions ---- */

  /** `n` indices in a row. */
  function ReadVector(p: seq<byte>, n: nat): Option<(seq<nat>, nat)> {
    if n == 0 then Some(([], 0))
    else
      match ReadU32(p)
      case Bad => None
      case Got(k, v) =>
        if k > |p| then None
        else
          match ReadVector(p[k..], n - 1)
          case None => None
          case Some(rest) => Some(([v] + rest.0, k + rest.1))
  }

  function AsInt32(bits: nat): int {
    if bits >= 0x8000_0000 then bits - TWO32 else bits
  }

  function ReadImm(kind: Kind, p: seq<byte>): Option<(Imm, nat)> {
    match kind
    case NoKind => Some((NoImm, 0))
    case IndexKind => (match ReadU32(p) case Got(k, v) => Some((Number(v), k)) case Bad => None)
    case PairKind =>
      (match ReadVector(p, 2)
       case Some(r) => if |r.0| == 2 then Some((Two(r.0[0], r.0[1]), r.1)) else None
       case None => None)
    case TypeKind =>
      (match ReadS32(p)
       case Got(k, bits) => (match BlockResults(AsInt32(bits)) case Some(ts) => Some((Results(ts), k)) case None => None)
       case Bad => None)
    case TargetsKind =>
      (match ReadU32(p)
       case Got(k, n) =>
         if k > |p| then None
         else
           (match ReadVector(p[k..], n + 1)
            case Some(r) => if |r.0| == n + 1 then Some((Targets(r.0[..n], r.0[n]), k + r.1)) else None
            case None => None)
       case Bad => None)
    case S32Kind => (match ReadS32(p) case Got(k, bits) => Some((Number(bits), k)) case Bad => None)
    case S64Kind => (match ReadS64(p) case Got(k, bits) => Some((Number(bits), k)) case Bad => None)
    case F32Kind => if |p| < 4 then None else Some((Number(Decode(p[..4])), 4))
    case F64Kind => if |p| < 8 then None else Some((Number(Decode(p[..8])), 8))
  }

  /** `ReadOpcode`: prefix, code and length. */
  function ReadOpcode(p: seq<byte>): Option<(nat, nat, nat)> {
    if p == [] then None
    else if IsPrefixByte(p[0]) then (match ReadU32(p[1..]) case Got(k, code) => Some((p[0], code, 1 + k)) case Bad => None)
    else Some((0, p[0], 1))
  }

  function ReadInstr(t: Table, p: seq<byte>): Option<(Instr, nat)> {
    match ReadOpcode(p)
    case None => None
    case Some((prefix, code, h)) =>
      if h > |p| || KindOf(t, prefix, code).None? then None
      else
        match ReadImm(KindOf(t, prefix, code).value, p[h..])
        case None => None
        case Some((imm, k)) => (match Build(t, prefix, code, imm) case Some(i) => Some((i, h + k)) case None => None)
  }

  /* ---- what the code builds is what the grammar says ---- */

  lemma PairIsVector(bs: seq<byte>, a: nat, b: nat)
    ensures TwoIndices(bs, a, b) <==> IsVector(bs, [a, b])
  {
    hide IsUnsigned;
    var ns := [a, b];
    assert ns[1..] == [b] && [b][1..] == [];
    if IsVector(bs, ns) {
      var k :| 0 <= k <= |bs| && IsUnsigned(32, bs[..k], ns[0]) && IsVector(bs[k..], ns[1..]);
      var j :| 0 <= j <= |bs[k..]| && IsUnsigned(32, bs[k..][..j], b) && IsVector(bs[k..][j..], [b][1..]);
      assert bs[k..][..j] == bs[k..];
    }
    if TwoIndices(bs, a, b) {
      var k :| 0 <= k <= |bs| && IsUnsigned(32, bs[..k], a) && IsUnsigned(32, bs[k..], b);
      assert bs[k..][..|bs| - k] == bs[k..] && bs[k..][|bs| - k..] == [];
      assert IsVector([], []);
      assert IsVector(bs[k..], [b]);
    }
  }

  lemma TypeIsBlockType(bs: seq<byte>, ts: seq<ValType>)
    ensures BlockType(bs, ts) <==> IsImm(TypeKind, bs, Results(ts))
  {
    hide IsSigned;
    assert BlockResults(-64) == Some([]) && BlockResults(-1) == Some([I32]) && BlockResults(-2) == Some([I64]);
    assert BlockResults(-3) == Some([F32]) && BlockResults(-4) == Some([F64]);
  }

  /** An opcode byte with a meaning of its own. */
  lemma ByNameSplits(t: Table, bs: seq<byte>, i: Instr, code: byte, imm: Imm)
    requires bs != [] && bs[0] == code && !IsPrefixByte(code) && KindOf(t, 0, code).Some?
    requires IsImm(KindOf(t, 0, code).value, bs[1..], imm) && Build(t, 0, code, imm) == Some(i)
    ensures IsSplit(t, bs, i)
  {
    hide KindOf, Build, IsImm;
    assert bs[..1] == [code];
    assert Splits(t, bs, i, 1, 0, code, imm);
  }

  lemma PlainIsSplit(t: Table, bs: seq<byte>, i: Instr)
    requires i.Unreachable? || i.Nop? || i.Else? || i.End? || i.Return? || i.Drop? || i.Select?
    requires IsInstr(t, bs, i)
    ensures IsSplit(t, bs, i)
  {
    hide IsSplit, FromRow;
    ByNameSplits(t, bs, i, bs[0], NoImm);
  }

  lemma IndexIsSplit(t: Table, bs: seq<byte>, i: Instr, n: nat)
    requires bs != [] && WithIndex(bs, bs[0], n) && Build(t, 0, bs[0], Number(n)) == Some(i)
    requires (0x0c <= bs[0] <= 0x0d || bs[0] == 0x10 || 0x20 <= bs[0] <= 0x24 || 0x3f <= bs[0] <= 0x40)
    ensures IsSplit(t, bs, i)
  {
    hide IsSplit, Build, IsUnsigned;
    ByNameSplits(t, bs, i, bs[0], Number(n));
  }

  lemma IndexedIsSplit(t: Table, bs: seq<byte>, i: Instr)
    requires i.Br? || i.BrIf? || i.Call? || i.GetLocal? || i.SetLocal? || i.TeeLocal? || i.GetGlobal? || i.SetGlobal? ||
      i.CurrentMemory? || i.GrowMemory?
    requires IsInstr(t, bs, i)
    ensures IsSplit(t, bs, i)
  {
    hide IsSplit, FromRow, IsUnsigned;
    var n :=
      if i.Br? || i.BrIf? then i.depth
      else if i.Call? then i.func
      else if i.GetLocal? || i.SetLocal? || i.TeeLocal? then i.local
      else if i.GetGlobal? || i.SetGlobal? then i.global
      else 0;
    IndexIsSplit(t, bs, i, n);
  }

  lemma TypedIsSplit(t: Table, bs: seq<byte>, i: Instr)
    requires i.Block? || i.Loop? || i.If?
    requires IsInstr(t, bs, i)
    ensures IsSplit(t, bs, i)
  {
    hide IsSplit, FromRow, IsSigned, BlockType, BlockResults;
    TypeIsBlockType(bs[1..], i.results);
    hide IsImm;
    ByNameSplits(t, bs, i, bs[0], Results(i.results));
  }

  lemma TargetsIsSplit(t: Table, bs: seq<byte>, i: Instr)
    requires i.BrTable? || i.CallIndirect?
    requires IsInstr(t, bs, i)
    ensures IsSplit(t, bs, i)
  {
    hide IsSplit, FromRow, IsUnsigned, IsVector, TwoIndices;
    if i.BrTable? {
      ByNameSplits(t, bs, i, 0x0e, Targets(i.depths, i.default));
    } else {
      PairIsVector(bs[1..], i.sig, 0);
      ByNameSplits(t, bs, i, 0x11, Two(i.sig, 0));
    }
  }

  lemma ConstIsImm(bs: seq<byte>, v: Value)
    requires IsConst(bs, v)
    ensures bs != [] && 0x41 <= bs[0] <= 0x44
    ensures
      var kind := if bs[0] == 0x41 then S32Kind else if bs[0] == 0x42 then S64Kind else if bs[0] == 0x43 then F32Kind else F64Kind;
      IsImm(kind, bs[1..], Number(v.bits))
    ensures v.ty == if bs[0] == 0x41 then I32 else if bs[0] == 0x42 then I64 else if bs[0] == 0x43 then F32 else F64
  {
    hide IsSigned, Decode, Pow2;
    FloatToInt.Powers();
  }

  lemma ConstIsSplit(t: Table, bs: seq<byte>, i: Instr)
    requires i.Const? && IsInstr(t, bs, i)
    ensures IsSplit(t, bs, i)
  {
    hide IsSplit, FromRow, IsImm, IsConst;
    ConstIsImm(bs, i.v);
    assert Value(i.v.ty, i.v.bits) == i.v;
    ByNameSplits(t, bs, i, bs[0], Number(i.v.bits));
  }

  lemma TableIsSplit(t: Table, bs: seq<byte>, i: Instr)
    requires i.Load? || i.Store? || i.Numeric?
    requires IsInstr(t, bs, i)
    ensures IsSplit(t, bs, i)
  {
    hide IsUnsigned, IsOpcode, TwoIndices, IsVector;
    if i.Numeric? {
      var prefix: nat, code: nat :| IsOpcode(bs[..|bs|], prefix, code) && !Named(prefix, code) && t(prefix, code) == Some(NumericRow(i.op));
      assert bs[|bs|..] == [];
      assert Splits(t, bs, i, |bs|, prefix, code, NoImm);
    } else {
      var row := if i.Load? then LoadRow(i.access) else StoreRow(i.access);
      var h: nat :| TableOpcode(t, bs, h, row) && TwoIndices(bs[h..], i.align, i.offset);
      var prefix: nat, code: nat :| IsOpcode(bs[..h], prefix, code) && !Named(prefix, code) && t(prefix, code) == Some(row);
      PairIsVector(bs[h..], i.align, i.offset);
      assert Splits(t, bs, i, h, prefix, code, Two(i.align, i.offset));
    }
  }

  lemma NamedHead(t: Table, bs: seq<byte>, i: Instr, h: nat, prefix: nat, code: nat, imm: Imm)
    requires Splits(t, bs, i, h, prefix, code, imm) && Named(prefix, code)
    ensures bs != [] && bs[0] == code && h == 1 && prefix == 0
    ensures KindOf(t, 0, code).Some? && IsImm(KindOf(t, 0, code).value, bs[1..], imm) && Build(t, 0, code, imm) == Some(i)
  {
    hide KindOf, Build, IsImm;
    assert bs[..h] != [] && bs[..h][0] == bs[0];
  }

  lemma ImmIsConst(bs: seq<byte>, kind: Kind, n: nat)
    requires bs != [] && IsImm(kind, bs[1..], Number(n))
    requires 0x41 <= bs[0] <= 0x44
    requires kind == if bs[0] == 0x41 then S32Kind else if bs[0] == 0x42 then S64Kind else if bs[0] == 0x43 then F32Kind else F64Kind
    ensures IsConst(bs, Value(if bs[0] == 0x41 then I32 else if bs[0] == 0x42 then I64 else if bs[0] == 0x43 then F32 else F64, n))
  {
    hide IsSigned, Decode, Pow2;
    FloatToInt.Powers();
  }

  /** A split whose opcode has a meaning of its own. */
  lemma NamedSplit(t: Table, bs: seq<byte>, i: Instr, h: nat, prefix: nat, code: nat, imm: Imm)
    requires Splits(t, bs, i, h, prefix, code, imm) && Named(prefix, code)
    ensures IsInstr(t, bs, i)
  {
    hide IsUnsigned, IsSigned, IsVector, Decode, BlockType, BlockResults, FromRow, TwoIndices, Splits, IsConst;
    NamedHead(t, bs, i, h, prefix, code, imm);
    match imm
    case NoImm => assert bs == [bs[0]] + bs[1..];
    case Number(n) =>
      if code >= 0x41 {
        ImmIsConst(bs, KindOf(t, 0, code).value, n);
      }
    case Two(first, second) => PairIsVector(bs[1..], first, second);
    case Results(types) => TypeIsBlockType(bs[1..], types);
    case Targets(_, _) =>
  }

  lemma TableSplit(t: Table, bs: seq<byte>, i: Instr, h: nat, prefix: nat, code: nat, imm: Imm)
    requires Splits(t, bs, i, h, prefix, code, imm) && !Named(prefix, code)
    ensures IsInstr(t, bs, i)
  {
    hide IsUnsigned, IsSigned, IsVector, Decode, BlockType, BlockResults, IsOpcode, TwoIndices;
    assert Build(t, prefix, code, imm) == FromRow(t, prefix, code, imm);
    if imm.Two? {
      PairIsVector(bs[h..], imm.first, imm.second);
      assert TableOpcode(t, bs, h, t(prefix, code).value);
    } else {
      assert bs[h..] == [] && bs[..h] == bs && bs[..|bs|] == bs;
      assert TableOpcode(t, bs, |bs|, t(prefix, code).value);
    }
  }

  /** Opcode by opcode the code builds exactly the instructions of the grammar. */
  lemma InstrIsSplit(t: Table, bs: seq<byte>, i: Instr)
    ensures IsInstr(t, bs, i) <==> IsSplit(t, bs, i)
  {
    hide IsInstr, Splits;
    if IsInstr(t, bs, i) {
      if i.Unreachable? || i.Nop? || i.Else? || i.End? || i.Return? || i.Drop? || i.Select? { PlainIsSplit(t, bs, i); }
      else if i.Block? || i.Loop? || i.If? { TypedIsSplit(t, bs, i); }
      else if i.BrTable? || i.CallIndirect? { TargetsIsSplit(t, bs, i); }
      else if i.Const? { ConstIsSplit(t, bs, i); }
      else if i.Load? || i.Store? || i.Numeric? { TableIsSplit(t, bs, i); }
      else { IndexedIsSplit(t, bs, i); }
    }
    if IsSplit(t, bs, i) {
      var h: nat, prefix: nat, code: nat, imm :| Splits(t, bs, i, h, prefix, code, imm);
      if Named(prefix, code) { NamedSplit(t, bs, i, h, prefix, code, imm); } else { TableSplit(t, bs, i, h, prefix, code, imm); }
    }
  }

  /* ---- the decoder reads exactly the grammar ---- */

  lemma {:induction false} SignedRange(n: nat, bs: seq<byte>, v: int)
    requires IsSigned(n, bs, v)
    ensures n > 0 && v < Pow2(n - 1) && v + Pow2(n - 1) >= 0
    decreases |bs|
  {
    if bs[0] >= 128 {
      SignedRange(n - 7, bs[1..], (v - (bs[0] - 128)) / 128);
      SevenMore(n - 8);
    }
  }

  lemma SevenMore(n: nat)
    ensures Pow2(n + 7) == 128 * Pow2(n)
  {
    MemoryLaws.Pow2Splits(7, n);
    WeightIsPow2(1);
    assert Weight(1) == 128;
  }

  import MemoryLaws

  lemma CutTwice(p: seq<byte>, j: nat, k: nat)
    requires j <= k <= |p|
    ensures p[..k][..j] == p[..j] && p[..k][j..] == p[j..][..k - j]
  {
  }

  /** A u32 at the front of a longer text. */
  lemma FrontU32(p: seq<byte>, j: nat, v: nat)
    requires j <= |p| && IsUnsigned(32, p[..j], v)
    ensures ReadU32(p) == Got(j, v)
  {
    ReadU32Exact(p, j, v);
    UnsignedNotEmpty(32, p[..j], v);
  }

  lemma UnsignedNotEmpty(n: nat, bs: seq<byte>, v: int)
    requires IsUnsigned(n, bs, v)
    ensures bs != []
  {
  }

  lemma ReadFront(p: seq<byte>)
    ensures ReadU32(p).Got? ==> 1 <= ReadU32(p).length <= |p| && IsUnsigned(32, p[..ReadU32(p).length], ReadU32(p).value)
  {
    if ReadU32(p).Got? { ReadU32Exact(p, ReadU32(p).length, ReadU32(p).value); }
  }

  lemma {:induction false} VectorRead(p: seq<byte>, n: nat)
    requires ReadVector(p, n).Some?
    ensures var r := ReadVector(p, n).value; |r.0| == n && r.1 <= |p| && IsVector(p[..r.1], r.0)
    decreases n
  {
    if n > 0 {
      hide IsUnsigned, ReadU32;
      ReadFront(p);
      var k := ReadU32(p).length;
      VectorRead(p[k..], n - 1);
      var r := ReadVector(p, n).value;
      CutTwice(p, k, r.1);
      assert r.0[1..] == ReadVector(p[k..], n - 1).value.0;
    }
  }

  lemma {:induction false} VectorIsRead(p: seq<byte>, ns: seq<nat>, k: nat)
    requires k <= |p| && IsVector(p[..k], ns)
    ensures ReadVector(p, |ns|) == Some((ns, k))
    decreases |ns|
  {
    if ns != [] {
      hide IsUnsigned, ReadU32;
      var bs := p[..k];
      var j :| 0 <= j <= |bs| && IsUnsigned(32, bs[..j], ns[0]) && IsVector(bs[j..], ns[1..]);
      CutTwice(p, j, k);
      FrontU32(p, j, ns[0]);
      VectorIsRead(p[j..], ns[1..], k - j);
      hide IsVector, ReadU32, ReadVector;
      VectorStep(p, ns, k, j);
    }
  }

  lemma VectorStep(p: seq<byte>, ns: seq<nat>, k: nat, j: nat)
    requires ns != [] && j <= k <= |p| && ReadU32(p) == Got(j, ns[0]) && ReadVector(p[j..], |ns| - 1) == Some((ns[1..], k - j))
    ensures ReadVector(p, |ns|) == Some((ns, k))
  {
    hide ReadU32, ReadVector;
    VectorUnfolds(p, |ns|);
    assert [ns[0]] + ns[1..] == ns;
  }

  lemma VectorUnfolds(p: seq<byte>, n: nat)
    requires n > 0 && ReadU32(p).Got? && ReadU32(p).length <= |p|
    ensures
      var k, v := ReadU32(p).length, ReadU32(p).value;
      ReadVector(p, n) == match ReadVector(p[k..], n - 1) case None => None case Some(rest) => Some(([v] + rest.0, k + rest.1))
  {
    hide ReadU32;
  }

  /* ---- immediates ---- */

  lemma TypeExact(p: seq<byte>, k: nat, ts: seq<ValType>)
    ensures ReadImm(TypeKind, p) == Some((Results(ts), k)) <==> k <= |p| && IsImm(TypeKind, p[..k], Results(ts))
  {
    hide ReadS32, IsSigned, BlockResults;
    if k <= |p| {
      forall v | IsSigned(32, p[..k], v) ensures ReadS32(p).Got? && ReadS32(p).length == k && AsInt32(ReadS32(p).value) == v {
        SignedNotEmpty(32, p[..k], v);
        ReadS32Exact(p, k, v % Pow2(32));
        InRange32(p[..k], v);
      }
    }
    if ReadS32(p).Got? {
      var n, bits := ReadS32(p).length, ReadS32(p).value;
      ReadS32Exact(p, n, bits);
      var v :| IsSigned(32, p[..n], v) && bits == v % Pow2(32);
      InRange32(p[..n], v);
    }
  }

  lemma SignedNotEmpty(n: nat, bs: seq<byte>, v: int)
    requires IsSigned(n, bs, v)
    ensures bs != []
  {
  }

  lemma InRange32(bs: seq<byte>, v: int)
    requires IsSigned(32, bs, v)
    ensures Pow2(32) == TWO32 && v % Pow2(32) >= 0 && AsInt32(v % Pow2(32)) == v
  {
    SignedRange(32, bs, v);
    FloatToInt.Powers();
    hide IsSigned;
    WrapPattern(v);
  }

  lemma WrapPattern(v: int)
    requires v < 0x8000_0000 && v + 0x8000_0000 >= 0
    ensures AsInt32(v % TWO32) == v
  {
  }

  lemma ConstExact(kind: Kind, p: seq<byte>, k: nat, n: nat)
    requires kind.S32Kind? || kind.S64Kind? || kind.F32Kind? || kind.F64Kind?
    ensures ReadImm(kind, p) == Some((Number(n), k)) <==> k <= |p| && IsImm(kind, p[..k], Number(n))
  {
    hide ReadS32, ReadS64, IsSigned, Decode, Pow2;
    match kind
    case S32Kind =>
      ReadS32Exact(p, k, n);
      if k == 0 { NoSigned(32); }
    case S64Kind =>
      ReadS64Exact(p, k, n);
      if k == 0 { NoSigned(64); }
    case _ =>
  }

  lemma NoSigned(n: nat)
    ensures forall v :: !IsSigned(n, [], v)
  {
  }

  lemma PairExact(p: seq<byte>, k: nat, a: nat, b: nat)
    ensures ReadImm(PairKind, p) == Some((Two(a, b), k)) <==> k <= |p| && IsImm(PairKind, p[..k], Two(a, b))
  {
    hide IsVector, ReadVector;
    if ReadVector(p, 2).Some? { VectorRead(p, 2); }
    if k <= |p| && IsVector(p[..k], [a, b]) { VectorIsRead(p, [a, b], k); }
    if ReadVector(p, 2).Some? && |ReadVector(p, 2).value.0| == 2 {
      var r := ReadVector(p, 2).value.0;
      assert r == [r[0], r[1]];
    }
  }

  lemma TargetsExact(p: seq<byte>, k: nat, ds: seq<nat>, d: nat)
    ensures ReadImm(TargetsKind, p) == Some((Targets(ds, d), k)) <==> k <= |p| && IsImm(TargetsKind, p[..k], Targets(ds, d))
  {
    if k <= |p| && IsImm(TargetsKind, p[..k], Targets(ds, d)) { TargetsAreRead(p, k, ds, d); }
    if ReadImm(TargetsKind, p) == Some((Targets(ds, d), k)) { TargetsRead(p, k, ds, d); }
  }

  lemma TargetsParts(p: seq<byte>, k: nat, ds: seq<nat>, d: nat)
    requires ReadImm(TargetsKind, p) == Some((Targets(ds, d), k))
    ensures ReadU32(p).Got? && ReadU32(p).length <= k && ReadU32(p).length <= |p| && ReadU32(p).value == |ds|
    ensures ReadVector(p[ReadU32(p).length..], |ds| + 1) == Some((ds + [d], k - ReadU32(p).length))
  {
    hide ReadU32, ReadVector;
    var r := ReadVector(p[ReadU32(p).length..], ReadU32(p).value + 1).value.0;
    assert r == r[..|r| - 1] + [r[|r| - 1]];
  }

  lemma TargetsRead(p: seq<byte>, k: nat, ds: seq<nat>, d: nat)
    requires ReadImm(TargetsKind, p) == Some((Targets(ds, d), k))
    ensures k <= |p| && IsImm(TargetsKind, p[..k], Targets(ds, d))
  {
    hide ReadU32, IsUnsigned, ReadVector, ReadImm;
    TargetsParts(p, k, ds, d);
    ReadFront(p);
    var j := ReadU32(p).length;
    VectorRead(p[j..], |ds| + 1);
    CutTwice(p, j, k);
    VectorCons(p[..k], j, |ds|, ds + [d]);
    assert [|ds|] + (ds + [d]) == [|ds|] + ds + [d];
  }

  lemma VectorCons(bs: seq<byte>, j: nat, n: nat, ns: seq<nat>)
    requires j <= |bs| && IsUnsigned(32, bs[..j], n) && IsVector(bs[j..], ns)
    ensures IsVector(bs, [n] + ns)
  {
    hide IsUnsigned;
    assert ([n] + ns)[1..] == ns;
  }

  lemma TargetsAreRead(p: seq<byte>, k: nat, ds: seq<nat>, d: nat)
    requires k <= |p| && IsImm(TargetsKind, p[..k], Targets(ds, d))
    ensures ReadImm(TargetsKind, p) == Some((Targets(ds, d), k))
  {
    hide ReadU32, IsUnsigned, ReadVector;
    var all, bs := [|ds|] + ds + [d], p[..k];
    var j :| 0 <= j <= |bs| && IsUnsigned(32, bs[..j], all[0]) && IsVector(bs[j..], all[1..]);
    hide IsVector;
    CutTwice(p, j, k);
    FrontU32(p, j, |ds|);
    assert all[1..] == ds + [d];
    VectorIsRead(p[j..], ds + [d], k - j);
    assert (ds + [d])[..|ds|] == ds;
  }

  lemma IndexExact(p: seq<byte>, k: nat, n: nat)
    ensures ReadImm(IndexKind, p) == Some((Number(n), k)) <==> k <= |p| && IsImm(IndexKind, p[..k], Number(n))
  {
    hide ReadU32, IsUnsigned;
    ReadU32Exact(p, k, n);
    if k == 0 { NoUnsigned(32, n); }
  }

  lemma NoUnsigned(n: nat, v: int)
    ensures !IsUnsigned(n, [], v)
  {
  }

  /** Immediates of every kind: the decoder takes `k` bytes and yields `imm` exactly when the first
      `k` bytes encode `imm`. */
  lemma ImmExact(kind: Kind, p: seq<byte>, k: nat, imm: Imm)
    ensures ReadImm(kind, p) == Some((imm, k)) <==> k <= |p| && IsImm(kind, p[..k], imm)
  {
    match kind
    case NoKind =>
    case IndexKind => ShapeOf(kind, p); if imm.Number? { IndexExact(p, k, imm.n); }
    case PairKind => ShapeOf(kind, p); if imm.Two? { PairExact(p, k, imm.first, imm.second); }
    case TypeKind => ShapeOf(kind, p); if imm.Results? { TypeExact(p, k, imm.types); }
    case TargetsKind => ShapeOf(kind, p); if imm.Targets? { TargetsExact(p, k, imm.depths, imm.default); }
    case _ => ShapeOf(kind, p); if imm.Number? { ConstExact(kind, p, k, imm.n); }
  }

  lemma ShapeOf(kind: Kind, p: seq<byte>)
    ensures ReadImm(kind, p).Some? ==>
      match kind
      case NoKind => ReadImm(kind, p).value.0.NoImm?
      case PairKind => ReadImm(kind, p).value.0.Two?
      case TypeKind => ReadImm(kind, p).value.0.Results?
      case TargetsKind => ReadImm(kind, p).value.0.Targets?
      case _ => ReadImm(kind, p).value.0.Number?
  {
    hide ReadU32, ReadS32, ReadS64, ReadVector, BlockResults, Decode;
  }

  /* ---- instructions ---- */

  lemma OpcodeExact(p: seq<byte>, h: nat, prefix: nat, code: nat)
    ensures ReadOpcode(p) == Some((prefix, code, h)) <==> h <= |p| && IsOpcode(p[..h], prefix, code)
  {
    hide ReadU32, IsUnsigned;
    if p != [] && IsPrefixByte(p[0]) && h > 0 {
      ReadU32Exact(p[1..], h - 1, code);
      NoUnsigned(32, code);
      if h == 1 { assert p[..h][1..] == []; }
      if h <= |p| { assert p[..h][1..] == p[1..][..h - 1]; }
    }
  }

  /** The decoder takes `n` bytes and yields `i` exactly when the first `n` bytes encode `i`. */
  lemma InstrExact(t: Table, p: seq<byte>, n: nat, i: Instr)
    ensures ReadInstr(t, p) == Some((i, n)) <==> n <= |p| && IsInstr(t, p[..n], i)
  {
    if n <= |p| && IsInstr(t, p[..n], i) { InstrIsRead(t, p, n, i); }
    if ReadInstr(t, p) == Some((i, n)) { InstrRead(t, p, n, i); }
  }

  lemma InstrIsRead(t: Table, p: seq<byte>, n: nat, i: Instr)
    requires n <= |p| && IsInstr(t, p[..n], i)
    ensures ReadInstr(t, p) == Some((i, n))
  {
    hide KindOf, Build, IsImm, ReadImm, IsOpcode, ReadOpcode, IsInstr;
    InstrIsSplit(t, p[..n], i);
    var h: nat, prefix: nat, code: nat, imm :| Splits(t, p[..n], i, h, prefix, code, imm);
    CutTwice(p, h, n);
    OpcodeExact(p, h, prefix, code);
    ImmExact(KindOf(t, prefix, code).value, p[h..], n - h, imm);
  }

  lemma InstrRead(t: Table, p: seq<byte>, n: nat, i: Instr)
    requires ReadInstr(t, p) == Some((i, n))
    ensures n <= |p| && IsInstr(t, p[..n], i)
  {
    hide KindOf, Build, IsImm, ReadImm, IsOpcode, ReadOpcode, IsInstr;
    var (prefix, code, h) := ReadOpcode(p).value;
    OpcodeExact(p, h, prefix, code);
    var kind := KindOf(t, prefix, code).value;
    var (imm, k) := ReadImm(kind, p[h..]).value;
    ImmExact(kind, p[h..], k, imm);
    CutTwice(p, h, n);
    assert Splits(t, p[..n], i, h, prefix, code, imm);
    InstrIsSplit(t, p[..n], i);
  }

  lemma InstrTakesBytes(t: Table, p: seq<byte>)
    ensures ReadInstr(t, p).Some? ==> 0 < ReadInstr(t, p).value.1 <= |p|
  {
    if ReadInstr(t, p).Some? {
      InstrRead(t, p, ReadInstr(t, p).value.1, ReadInstr(t, p).value.0);
      hide KindOf, Build, ReadImm;
    }
  }

  /* ---- bodies ---- */

  lemma EndRead(t: Table, p: seq<byte>)
    requires p != []
    ensures p[0] == 0x0b ==> ReadInstr(t, p) == Some((End, 1))
  {
  }

  lemma OnlyEndIsEnd(t: Table, p: seq<byte>)
    requires ReadInstr(t, p).Some? && ReadInstr(t, p).value.0 == End
    ensures p != [] && p[0] == 0x0b && ReadInstr(t, p).value.1 == 1
  {
    hide ReadU32, ReadS32, ReadS64, ReadVector, Decode;
    var (prefix, code, h) := ReadOpcode(p).value;
    var (imm, k) := ReadImm(KindOf(t, prefix, code).value, p[h..]).value;
    OnlyEndBuilds(t, prefix, code, imm);
  }

  lemma OnlyEndBuilds(t: Table, prefix: nat, code: nat, imm: Imm)
    requires Build(t, prefix, code, imm) == Some(End)
    ensures prefix == 0 && code == 0x0b && imm == NoImm && KindOf(t, prefix, code) == Some(NoKind)
  {
  }

  lemma OnlyEnd(t: Table, p: seq<byte>, len: nat)
    requires 0 < len <= |p|
    ensures p[..len] == [0x0b] <==> ReadInstr(t, p) == Some((End, len))
  {
    hide ReadInstr;
    if p[0] == 0x0b { EndRead(t, p); }
    if ReadInstr(t, p).Some? && ReadInstr(t, p).value.0 == End { OnlyEndIsEnd(t, p); }
    assert p[..len][0] == p[0];
    assert len == 1 ==> p[..len] == [p[0]];
  }

  lemma BodyRest(t: Table, p: seq<byte>, len: nat, code: seq<Instr>, i: Instr, n: nat)
    requires n < len <= |p| && ReadInstr(t, p) == Some((i, n)) && code != [] && code[0] == i
    requires IsBody(t, p[n..][..len - n], code[1..])
    ensures IsBody(t, p[..len], code)
  {
    hide ReadInstr, IsInstr;
    InstrExact(t, p, n, i);
    CutTwice(p, n, len);
  }

  lemma EmptyBody(t: Table, bs: seq<byte>)
    ensures IsBody(t, bs, []) <==> bs == [0x0b]
  {
  }

  /** One round of the loop: the instruction ahead is the first of the body, whatever lies beyond the
      body's end. */
  lemma BodyStep(t: Table, p: seq<byte>, len: nat, code: seq<Instr>)
    requires 0 < len <= |p|
    ensures IsBody(t, p[..len], code) <==>
      match ReadInstr(t, p)
      case None => false
      case Some((i, n)) =>
        if n > len then false
        else if n == len then i == End && code == []
        else code != [] && code[0] == i && IsBody(t, p[n..][..len - n], code[1..])
  {
    hide ReadInstr, IsBody;
    if code == [] {
      OnlyEnd(t, p, len);
      EmptyBody(t, p[..len]);
    } else {
      if IsBody(t, p[..len], code) { BodyFirst(t, p, len, code); }
      if ReadInstr(t, p).Some? {
        var (i, n) := ReadInstr(t, p).value;
        if n < len && code[0] == i && IsBody(t, p[n..][..len - n], code[1..]) { BodyRest(t, p, len, code, i, n); }
      }
    }
  }

  lemma BodyFirst(t: Table, p: seq<byte>, len: nat, code: seq<Instr>)
    requires len <= |p| && code != [] && IsBody(t, p[..len], code)
    ensures ReadInstr(t, p).Some?
    ensures
      var (i, n) := ReadInstr(t, p).value;
      i == code[0] && n < len && IsBody(t, p[n..][..len - n], code[1..])
  {
    hide ReadInstr, IsInstr;
    var n: nat :| n < len && IsInstr(t, p[..len][..n], code[0]) && IsBody(t, p[..len][n..], code[1..]);
    CutTwice(p, n, len);
    InstrExact(t, p, n, code[0]);
  }

  /** The binary grammar is unambiguous: bytes encode at most one body. */
  lemma {:induction false} BodyUnique(t: Table, bs: seq<byte>, c1: seq<Instr>, c2: seq<Instr>)
    requires IsBody(t, bs, c1) && IsBody(t, bs, c2)
    ensures c1 == c2
    decreases |c1|
  {
    hide ReadInstr, IsBody;
    NoEmptyBody(t, bs, c1);
    assert bs[..|bs|] == bs;
    BodyStep(t, bs, |bs|, c1);
    BodyStep(t, bs, |bs|, c2);
    if c1 != [] {
      var n := ReadInstr(t, bs).value.1;
      BodyUnique(t, bs[n..][..|bs| - n], c1[1..], c2[1..]);
      assert c1 == [c1[0]] + c1[1..] && c2 == [c2[0]] + c2[1..];
    }
  }

  lemma NoEmptyBody(t: Table, bs: seq<byte>, code: seq<Instr>)
    requires IsBody(t, bs, code)
    ensures bs != []
  {
  }
}
