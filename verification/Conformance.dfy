/** Where the decoder of function bodies is more liberal than section 5.4 of the WebAssembly Core
    Specification 1.0: block types and the reserved fields of `memory.size`, `memory.grow` and
    `call_indirect` are single bytes there, and are read as s32 and u32 here. The strict grammar, and
    exactly when an accepted body conforms to it. */
module Conformance {
  import opened Wasm
  import opened LinearMemory
  import opened Leb128
  import opened BodyDecoding
  import Reading
  import Acceptance
  import FloatToInt
  import ValidationAlgorithm

  /* ---- the strict grammar ---- */

  /** A block type: `0x40` or the byte of a value type. */
  function BlockTypeOf(b: byte): Option<seq<ValType>> {
    if b == 0x40 then Some([])
    else if b == 0x7f then Some([I32])
    else if b == 0x7e then Some([I64])
    else if b == 0x7d then Some([F32])
    else if b == 0x7c then Some([F64])
    else None
  }

  /** `memory.size` and `memory.grow`: a zero byte; `call_indirect`: a type index, then a zero byte. */
  predicate HasReserved(prefix: nat, code: nat) {
    prefix == 0 && (code == 0x3f || code == 0x40)
  }

  ghost predicate StrictImm(prefix: nat, code: nat, kind: Kind, bs: seq<byte>, imm: Imm) {
    if kind.TypeKind? then |bs| == 1 && imm.Results? && BlockTypeOf(bs[0]) == Some(imm.types)
    else if HasReserved(prefix, code) then bs == [0x00] && imm == Number(0)
    else if prefix == 0 && code == 0x11 then
      imm.Two? && imm.second == 0 && |bs| > 0 && IsUnsigned(32, bs[..|bs| - 1], imm.first) && bs[|bs| - 1] == 0x00
    else IsImm(kind, bs, imm)
  }

  ghost predicate StrictSplits(t: Table, bs: seq<byte>, i: Instr, h: nat, prefix: nat, code: nat, imm: Imm) {
    && h <= |bs| && IsOpcode(bs[..h], prefix, code)
    && KindOf(t, prefix, code).Some? && StrictImm(prefix, code, KindOf(t, prefix, code).value, bs[h..], imm)
    && Build(t, prefix, code, imm) == Some(i)
  }

  ghost predicate IsStrictSplit(t: Table, bs: seq<byte>, i: Instr) {
    exists h: nat, prefix: nat, code: nat, imm :: StrictSplits(t, bs, i, h, prefix, code, imm)
  }

  predicate WithTypeByte(bs: seq<byte>, code: byte, ts: seq<ValType>) {
    |bs| == 2 && bs[0] == code && BlockTypeOf(bs[1]) == Some(ts)
  }

  /** The grammar of section 5.4: that of the code, but for six instructions. */
  ghost predicate StrictInstr(t: Table, bs: seq<byte>, i: Instr) {
    match i
    case Block(ts) => WithTypeByte(bs, 0x02, ts)
    case Loop(ts) => WithTypeByte(bs, 0x03, ts)
    case If(ts) => WithTypeByte(bs, 0x04, ts)
    case CallIndirect(x) => |bs| >= 2 && bs[0] == 0x11 && IsUnsigned(32, bs[1..|bs| - 1], x) && bs[|bs| - 1] == 0x00
    case CurrentMemory => bs == [0x3f, 0x00]
    case GrowMemory => bs == [0x40, 0x00]
    case _ => IsInstr(t, bs, i)
  }

  /** `bs` encodes the instructions `code` by the strict grammar, token by token, closed by the body's `end`. */
  ghost predicate StrictBody(t: Table, bs: seq<byte>, code: seq<Instr>)
    decreases |code|
  {
    if code == [] then bs == [0x0b]
    else exists n :: 0 <= n < |bs| && StrictInstr(t, bs[..n], code[0]) && StrictBody(t, bs[n..], code[1..])
  }

  /* ---- the lengths of the fields in question ---- */

  /** How many bytes the block type or the reserved field of an instruction takes: `k` bytes of
      immediates in all, starting at the front of `p`. 1 for instructions that have neither. */
  function FieldLength(prefix: nat, code: nat, kind: Kind, p: seq<byte>, k: nat): int {
    if kind.TypeKind? || HasReserved(prefix, code) then k
    else if prefix == 0 && code == 0x11 then (match ReadU32(p) case Got(j, _) => k - j case Bad => 1)
    else 1
  }

  /** The instruction at the front of `p` has its block type or reserved field in one byte. */
  predicate ShortField(t: Table, p: seq<byte>) {
    match ReadOpcode(p)
    case None => true
    case Some((prefix, code, h)) =>
      if h > |p| || KindOf(t, prefix, code).None? then true
      else
        match ReadImm(KindOf(t, prefix, code).value, p[h..])
        case None => true
        case Some((_, k)) => FieldLength(prefix, code, KindOf(t, prefix, code).value, p[h..], k) == 1
  }

  /** So have all instructions of `bs`, read one after the other. */
  predicate ShortFields(t: Table, bs: seq<byte>)
    decreases |bs|
  {
    ShortField(t, bs) &&
    match ReadInstr(t, bs)
    case None => true
    case Some((_, n)) => 0 < n < |bs| ==> ShortFields(t, bs[n..])
  }

  /* ---- immediates ---- */

  lemma OneByteSigned(b: byte, v: int)
    ensures IsSigned(32, [b], v) <==> b < 128 && v == if b < 64 then b else b - 128
  {
    FloatToInt.Powers();
    WideEnough(32, if b < 128 then b else 0);
  }

  /** A block type that is accepted is a strict one exactly when it takes one byte. */
  lemma TypeConforms(bs: seq<byte>, imm: Imm)
    ensures (|bs| == 1 && imm.Results? && BlockTypeOf(bs[0]) == Some(imm.types)) <==> IsImm(TypeKind, bs, imm) && |bs| == 1
  {
    if |bs| == 1 {
      assert bs == [bs[0]];
      hide IsSigned;
      var b: int := bs[0];
      var v: int := if b < 64 then b else b - 128;
      forall w ensures IsSigned(32, bs, w) <==> bs[0] < 128 && w == v { OneByteSigned(bs[0], w); }
      assert BlockResults(v) == if bs[0] < 128 then BlockTypeOf(bs[0]) else BlockResults(v);
    }
  }

  lemma OneByteZero(bs: seq<byte>)
    ensures bs == [0x00] <==> IsUnsigned(32, bs, 0) && |bs| == 1
  {
    FloatToInt.Powers();
  }

  lemma PairSplits(bs: seq<byte>, a: nat, b: nat, j: nat)
    requires j <= |bs|
    requires IsUnsigned(32, bs[..j], a) && IsUnsigned(32, bs[j..], b)
    ensures IsVector(bs, [a, b]) && ReadU32(bs) == Got(j, a)
  {
    FrontU32(bs, j, a);
    hide IsUnsigned;
    assert bs[j..][..|bs| - j] == bs[j..] && bs[j..][|bs| - j..] == [];
    assert [a, b][1..] == [b] && [b][1..] == [];
    assert IsVector([], []);
    assert IsVector(bs[j..], [b]);
  }

  lemma PairParts(bs: seq<byte>, a: nat, b: nat) returns (j: nat)
    requires IsVector(bs, [a, b])
    ensures j <= |bs| && IsUnsigned(32, bs[..j], a) && IsUnsigned(32, bs[j..], b) && ReadU32(bs) == Got(j, a)
  {
    hide IsUnsigned;
    var ns := [a, b];
    j :| 0 <= j <= |bs| && IsUnsigned(32, bs[..j], ns[0]) && IsVector(bs[j..], ns[1..]);
    FrontU32(bs, j, a);
    assert ns[1..] == [b] && [b][1..] == [];
    var k :| 0 <= k <= |bs[j..]| && IsUnsigned(32, bs[j..][..k], b) && IsVector(bs[j..][k..], [b][1..]);
    assert bs[j..][..k] == bs[j..];
  }

  /** `call_indirect`: the reserved field is one byte exactly when it is the zero byte of the grammar. */
  lemma IndirectConforms(bs: seq<byte>, a: nat, b: nat)
    ensures
      (b == 0 && |bs| > 0 && IsUnsigned(32, bs[..|bs| - 1], a) && bs[|bs| - 1] == 0x00) <==>
      (IsImm(PairKind, bs, Two(a, b)) && b == 0 && ReadU32(bs).Got? && |bs| - ReadU32(bs).length == 1)
  {
    hide IsUnsigned, ReadU32;
    if b == 0 && |bs| > 0 && IsUnsigned(32, bs[..|bs| - 1], a) && bs[|bs| - 1] == 0x00 {
      OneByteZero(bs[|bs| - 1..]);
      PairSplits(bs, a, 0, |bs| - 1);
    }
    if IsImm(PairKind, bs, Two(a, b)) && b == 0 {
      var j := PairParts(bs, a, b);
      OneByteZero(bs[j..]);
      if |bs| - j == 1 { assert bs[j..][0] == bs[|bs| - 1]; }
    }
  }

  /* ---- instructions ---- */

  /** Accepted immediates are strict ones exactly when the field in question takes one byte. */
  lemma ImmConforms(t: Table, prefix: nat, code: nat, bs: seq<byte>, imm: Imm)
    requires KindOf(t, prefix, code).Some? && Build(t, prefix, code, imm).Some?
    ensures
      var kind := KindOf(t, prefix, code).value;
      StrictImm(prefix, code, kind, bs, imm) <==>
        IsImm(kind, bs, imm) && FieldLength(prefix, code, kind, bs, |bs|) == 1
  {
    hide IsUnsigned, IsSigned, ReadU32, IsVector, Decode;
    var kind := KindOf(t, prefix, code).value;
    if kind.TypeKind? {
      TypeConforms(bs, imm);
    } else if HasReserved(prefix, code) {
      OneByteZero(bs);
      ReservedIsZero(t, prefix, code, imm, bs);
    } else if prefix == 0 && code == 0x11 {
      if imm.Two? {
        IndirectConforms(bs, imm.first, imm.second);
        if IsImm(kind, bs, imm) { var j := PairParts(bs, imm.first, imm.second); }
      }
    }
  }

  lemma ReservedIsZero(t: Table, prefix: nat, code: nat, imm: Imm, bs: seq<byte>)
    requires HasReserved(prefix, code) && KindOf(t, prefix, code).Some? && Build(t, prefix, code, imm).Some?
    ensures KindOf(t, prefix, code) == Some(IndexKind)
    ensures IsImm(IndexKind, bs, imm) ==> imm == Number(0)
  {
    hide IsUnsigned, FromRow, BlockResults;
  }

  /** The way an instruction is encoded is determined by the bytes. */
  lemma SplitsAreRead(t: Table, bs: seq<byte>, h: nat, prefix: nat, code: nat, imm: Imm)
    requires h <= |bs| && IsOpcode(bs[..h], prefix, code) && KindOf(t, prefix, code).Some?
    requires IsImm(KindOf(t, prefix, code).value, bs[h..], imm)
    ensures ReadOpcode(bs) == Some((prefix, code, h))
    ensures ReadImm(KindOf(t, prefix, code).value, bs[h..]) == Some((imm, |bs| - h))
  {
    hide KindOf, IsImm, ReadImm, IsOpcode, ReadOpcode;
    OpcodeExact(bs, h, prefix, code);
    assert bs[h..][..|bs| - h] == bs[h..];
    ImmExact(KindOf(t, prefix, code).value, bs[h..], |bs| - h, imm);
  }

  /** An accepted instruction is a strict one exactly when its block type or reserved field takes one byte. */
  lemma InstrConforms(t: Table, bs: seq<byte>, i: Instr)
    ensures StrictInstr(t, bs, i) <==> IsInstr(t, bs, i) && ShortField(t, bs)
  {
    hide StrictInstr, IsInstr, IsStrictSplit, IsSplit, ShortField;
    StrictIsSplit(t, bs, i);
    InstrIsSplit(t, bs, i);
    SplitConforms(t, bs, i);
  }

  /** The six instructions as the code cuts them. */
  lemma StrictIsSplit(t: Table, bs: seq<byte>, i: Instr)
    ensures StrictInstr(t, bs, i) <==> IsStrictSplit(t, bs, i)
  {
    hide IsInstr, Splits, StrictSplits;
    InstrIsSplit(t, bs, i);
    if i.Block? || i.Loop? || i.If? || i.CallIndirect? || i.CurrentMemory? || i.GrowMemory? {
      if StrictInstr(t, bs, i) { SixSplit(t, bs, i); }
      if IsStrictSplit(t, bs, i) {
        var h: nat, prefix: nat, code: nat, imm :| StrictSplits(t, bs, i, h, prefix, code, imm);
        SixStrict(t, bs, i, h, prefix, code, imm);
      }
    } else {
      if IsInstr(t, bs, i) {
        var h: nat, prefix: nat, code: nat, imm :| Splits(t, bs, i, h, prefix, code, imm);
        SameSplit(t, bs, i, h, prefix, code, imm);
      }
      if IsStrictSplit(t, bs, i) {
        var h: nat, prefix: nat, code: nat, imm :| StrictSplits(t, bs, i, h, prefix, code, imm);
        SameSplit(t, bs, i, h, prefix, code, imm);
      }
    }
  }

  /** Every other instruction has the same immediates in both grammars. */
  lemma SameSplit(t: Table, bs: seq<byte>, i: Instr, h: nat, prefix: nat, code: nat, imm: Imm)
    requires !i.Block? && !i.Loop? && !i.If? && !i.CallIndirect? && !i.CurrentMemory? && !i.GrowMemory?
    ensures Splits(t, bs, i, h, prefix, code, imm) <==> StrictSplits(t, bs, i, h, prefix, code, imm)
  {
    hide IsOpcode, IsUnsigned, IsSigned, IsVector, Decode, BlockTypeOf, BlockResults;
    if Splits(t, bs, i, h, prefix, code, imm) || StrictSplits(t, bs, i, h, prefix, code, imm) { assert !(prefix == 0 && (0x02 <= code <= 0x04 || code == 0x11 || code == 0x3f || code == 0x40)); }
  }

  lemma SixSplit(t: Table, bs: seq<byte>, i: Instr)
    requires i.Block? || i.Loop? || i.If? || i.CallIndirect? || i.CurrentMemory? || i.GrowMemory?
    requires StrictInstr(t, bs, i)
    ensures IsStrictSplit(t, bs, i)
  {
    hide IsUnsigned, BlockTypeOf;
    var imm :=
      if i.Block? || i.Loop? || i.If? then Results(i.results)
      else if i.CallIndirect? then Two(i.sig, 0)
      else Number(0);
    assert bs[..1] == [bs[0]];
    assert i.CallIndirect? ==> bs[1..][..|bs[1..]| - 1] == bs[1..|bs| - 1];
    assert StrictSplits(t, bs, i, 1, 0, bs[0], imm);
  }

  lemma SixStrict(t: Table, bs: seq<byte>, i: Instr, h: nat, prefix: nat, code: nat, imm: Imm)
    requires i.Block? || i.Loop? || i.If? || i.CallIndirect? || i.CurrentMemory? || i.GrowMemory?
    requires StrictSplits(t, bs, i, h, prefix, code, imm)
    ensures StrictInstr(t, bs, i)
  {
    hide IsUnsigned, IsSigned, BlockTypeOf, IsVector;
    assert prefix == 0 && (0x02 <= code <= 0x04 || code == 0x11 || code == 0x3f || code == 0x40);
    assert h == 1 && bs[..1][0] == bs[0] == code;
    assert |bs| >= 2 && bs[1..][|bs[1..]| - 1] == bs[|bs| - 1];
    if i.CallIndirect? { assert bs[1..][..|bs[1..]| - 1] == bs[1..|bs| - 1]; }
  }

  lemma SplitConforms(t: Table, bs: seq<byte>, i: Instr)
    ensures IsStrictSplit(t, bs, i) <==> IsSplit(t, bs, i) && ShortField(t, bs)
  {
    hide KindOf, Build, IsImm, ReadImm, IsOpcode, ReadOpcode, StrictImm, FieldLength;
    if IsStrictSplit(t, bs, i) {
      var h: nat, prefix: nat, code: nat, imm :| StrictSplits(t, bs, i, h, prefix, code, imm);
      ImmConforms(t, prefix, code, bs[h..], imm);
      SplitsAreRead(t, bs, h, prefix, code, imm);
      assert Splits(t, bs, i, h, prefix, code, imm);
    }
    if IsSplit(t, bs, i) && ShortField(t, bs) {
      var h: nat, prefix: nat, code: nat, imm :| Splits(t, bs, i, h, prefix, code, imm);
      ImmConforms(t, prefix, code, bs[h..], imm);
      SplitsAreRead(t, bs, h, prefix, code, imm);
      assert StrictSplits(t, bs, i, h, prefix, code, imm);
    }
  }

  /* ---- bodies ---- */

  /** The field of the instruction at the front does not depend on what follows it. */
  lemma FrontField(t: Table, p: seq<byte>, n: nat, i: Instr)
    requires n <= |p| && IsInstr(t, p[..n], i)
    ensures ShortField(t, p) <==> ShortField(t, p[..n])
  {
    hide KindOf, Build, IsImm, ReadImm, IsOpcode, ReadOpcode, ReadU32, IsInstr;
    InstrIsSplit(t, p[..n], i);
    var h: nat, prefix: nat, code: nat, imm :| Splits(t, p[..n], i, h, prefix, code, imm);
    SplitsAreRead(t, p[..n], h, prefix, code, imm);
    CutTwice(p, h, n);
    OpcodeExact(p, h, prefix, code);
    var kind := KindOf(t, prefix, code).value;
    ImmExact(kind, p[h..], n - h, imm);
    if prefix == 0 && code == 0x11 {
      PairOfIndirect(t, imm, p[h..][..n - h]);
      var j := PairParts(p[h..][..n - h], imm.first, imm.second);
      assert p[h..][..n - h][..j] == p[h..][..j];
      FrontU32(p[h..], j, imm.first);
    }
  }

  lemma PairOfIndirect(t: Table, imm: Imm, bs: seq<byte>)
    requires KindOf(t, 0, 0x11).Some? && IsImm(KindOf(t, 0, 0x11).value, bs, imm)
    ensures imm.Two? && IsVector(bs, [imm.first, imm.second])
  {
  }

  lemma {:induction false} StrictIsBody(t: Table, bs: seq<byte>, code: seq<Instr>)
    requires StrictBody(t, bs, code)
    ensures IsBody(t, bs, code) && ShortFields(t, bs)
    decreases |code|
  {
    hide StrictInstr, IsInstr, ShortField, ReadInstr;
    if code == [] {
      EndIsShort(t, bs);
    } else {
      var n: nat :| n < |bs| && StrictInstr(t, bs[..n], code[0]) && StrictBody(t, bs[n..], code[1..]);
      InstrConforms(t, bs[..n], code[0]);
      FrontField(t, bs, n, code[0]);
      InstrExact(t, bs, n, code[0]);
      StrictIsBody(t, bs[n..], code[1..]);
    }
  }

  lemma EndIsShort(t: Table, bs: seq<byte>)
    requires bs == [0x0b]
    ensures ShortField(t, bs) && ReadInstr(t, bs) == Some((End, 1))
  {
    EndRead(t, bs);
  }

  lemma {:induction false} ShortIsStrict(t: Table, bs: seq<byte>, code: seq<Instr>)
    requires IsBody(t, bs, code) && ShortFields(t, bs)
    ensures StrictBody(t, bs, code)
    decreases |code|
  {
    hide StrictInstr, IsInstr, ShortField, ReadInstr;
    if code != [] {
      var n: nat :| n < |bs| && IsInstr(t, bs[..n], code[0]) && IsBody(t, bs[n..], code[1..]);
      InstrExact(t, bs, n, code[0]);
      InstrTakesBytes(t, bs);
      FrontField(t, bs, n, code[0]);
      InstrConforms(t, bs[..n], code[0]);
      ShortIsStrict(t, bs[n..], code[1..]);
    }
  }

  /** Bytes encode a body by the strict grammar exactly when the decoder takes them for that body and every block
      type and every reserved field takes one byte. */
  lemma BodyConforms(t: Table, bs: seq<byte>, code: seq<Instr>)
    ensures StrictBody(t, bs, code) <==> IsBody(t, bs, code) && ShortFields(t, bs)
  {
    if StrictBody(t, bs, code) { StrictIsBody(t, bs, code); }
    if IsBody(t, bs, code) && ShortFields(t, bs) { ShortIsStrict(t, bs, code); }
  }

  /** Every body that conforms to the strict grammar and to the validation algorithm is
      accepted; and what is accepted conforms exactly when every block type and reserved field takes
      one byte. */
  lemma AcceptedConforms(t: Table, ctx: Context, bs: seq<byte>)
    requires |ctx.results| <= 1 && |bs| < INVALID_INDEX
    ensures
      (exists code :: StrictBody(t, bs, code) && ValidationAlgorithm.ValidBody(ctx, code)) <==>
      (exists code :: IsBody(t, bs, code) && Reading.CompileBody(ctx, code).Some?) && ShortFields(t, bs)
  {
    hide StrictBody, IsBody, ShortFields, ValidationAlgorithm.ValidBody, Reading.CompileBody;
    Acceptance.BytesAccepted(t, ctx, bs);
    forall code ensures StrictBody(t, bs, code) <==> IsBody(t, bs, code) && ShortFields(t, bs) { BodyConforms(t, bs, code); }
  }

  /* ---- inputs that are accepted and do not conform ---- */

  lemma AcceptedOnly(t: Table, bs: seq<byte>, i: Instr, code: nat, imm: Imm)
    requires |bs| >= 1 && Splits(t, bs, i, 1, 0, code, imm)
    requires FieldLength(0, code, KindOf(t, 0, code).value, bs[1..], |bs| - 1) != 1
    ensures IsInstr(t, bs, i) && forall j :: !StrictInstr(t, bs, j)
  {
    hide KindOf, Build, IsImm, ReadImm, IsOpcode, ReadOpcode, FieldLength, StrictInstr, IsInstr;
    InstrIsSplit(t, bs, i);
    SplitsAreRead(t, bs, 1, 0, code, imm);
    forall j ensures !StrictInstr(t, bs, j) { InstrConforms(t, bs, j); }
  }

  lemma ZeroInTwo()
    ensures IsUnsigned(32, [0x80, 0x00], 0)
  {
    FloatToInt.Powers();
    assert [0x80, 0x00][1..] == [0x00];
    WideEnough(25, 0);
  }

  /** `block` with its empty block type as a two-byte s32. */
  lemma PaddedBlockType(t: Table)
    ensures IsInstr(t, [0x02, 0xc0, 0x7f], Block([])) && forall j :: !StrictInstr(t, [0x02, 0xc0, 0x7f], j)
  {
    hide IsSigned, IsUnsigned, KindOf, Build;
    var bs: seq<byte> := [0x02, 0xc0, 0x7f];
    assert bs[..1] == [0x02] && bs[1..] == [0xc0, 0x7f];
    TwoByteEmpty();
    KindsAndInstrs(t, 0);
    assert IsImm(TypeKind, bs[1..], Results([])) by { assert BlockResults(-64) == Some([]); }
    AcceptedOnly(t, bs, Block([]), 0x02, Results([]));
  }

  lemma TwoByteEmpty()
    ensures IsSigned(32, [0xc0, 0x7f], -64)
  {
    FloatToInt.Powers();
    assert [0xc0, 0x7f][1..] == [0x7f];
    OneByteTail();
  }

  lemma OneByteTail()
    ensures IsSigned(25, [0x7f], -1)
  {
    WideEnough(25, 0x7f);
  }

  lemma KindsAndInstrs(t: Table, sig: nat)
    ensures KindOf(t, 0, 0x02) == Some(TypeKind) && Build(t, 0, 0x02, Results([])) == Some(Block([]))
    ensures KindOf(t, 0, 0x3f) == Some(IndexKind) && Build(t, 0, 0x3f, Number(0)) == Some(CurrentMemory)
    ensures KindOf(t, 0, 0x40) == Some(IndexKind) && Build(t, 0, 0x40, Number(0)) == Some(GrowMemory)
    ensures KindOf(t, 0, 0x11) == Some(PairKind) && Build(t, 0, 0x11, Two(sig, 0)) == Some(CallIndirect(sig))
  {
  }

  /** `memory.size` and `memory.grow` with the reserved byte as a two-byte zero. */
  lemma PaddedMemoryField(t: Table)
    ensures IsInstr(t, [0x3f, 0x80, 0x00], CurrentMemory) && forall j :: !StrictInstr(t, [0x3f, 0x80, 0x00], j)
    ensures IsInstr(t, [0x40, 0x80, 0x00], GrowMemory) && forall j :: !StrictInstr(t, [0x40, 0x80, 0x00], j)
  {
    hide IsUnsigned, KindOf, Build;
    ZeroInTwo();
    KindsAndInstrs(t, 0);
    var size: seq<byte>, grow: seq<byte> := [0x3f, 0x80, 0x00], [0x40, 0x80, 0x00];
    assert size[..1] == [0x3f] && grow[..1] == [0x40] && size[1..] == [0x80, 0x00] == grow[1..];
    AcceptedOnly(t, size, CurrentMemory, 0x3f, Number(0));
    AcceptedOnly(t, grow, GrowMemory, 0x40, Number(0));
  }

  lemma OneByteIndex(b: byte)
    requires b < 128
    ensures IsUnsigned(32, [b], b)
  {
    WideEnough(32, b);
  }

  /** `call_indirect` with the reserved byte behind its type index as a two-byte zero. */
  lemma PaddedTableField(t: Table, sig: byte)
    requires sig < 128
    ensures IsInstr(t, [0x11, sig, 0x80, 0x00], CallIndirect(sig)) && forall j :: !StrictInstr(t, [0x11, sig, 0x80, 0x00], j)
  {
    hide IsUnsigned, KindOf, Build, ReadU32, IsVector;
    ZeroInTwo();
    OneByteIndex(sig);
    KindsAndInstrs(t, sig);
    var bs: seq<byte> := [0x11, sig, 0x80, 0x00];
    assert bs[..1] == [0x11] && bs[1..][..1] == [sig] && bs[1..][1..] == [0x80, 0x00];
    PairSplits(bs[1..], sig, 0, 1);
    AcceptedOnly(t, bs, CallIndirect(sig), 0x11, Two(sig, 0));
  }
}
