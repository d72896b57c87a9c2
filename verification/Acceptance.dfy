/** Which bytes are accepted as the body of a function, and what they compile to: the decoder, the
    checker and the one-pass compiler together. */
module Acceptance {
  import opened Wasm
  import opened LinearMemory
  import opened Checking
  import opened Reading
  import opened Layout
  import opened Execution
  import opened ValidationAlgorithm
  import BodyDecoding
  import Leb128

  /* ---- what decoded instructions have in common ---- */

  lemma {:induction false} VectorTakesBytes(bs: seq<byte>, ns: seq<nat>)
    requires BodyDecoding.IsVector(bs, ns)
    ensures |ns| <= |bs|
    decreases |ns|
  {
    if ns != [] {
      hide Leb128.IsUnsigned;
      var k :| 0 <= k <= |bs| && Leb128.IsUnsigned(32, bs[..k], ns[0]) && BodyDecoding.IsVector(bs[k..], ns[1..]);
      BodyDecoding.UnsignedNotEmpty(32, bs[..k], ns[0]);
      VectorTakesBytes(bs[k..], ns[1..]);
    }
  }

  /** Block types have at most one result, and no instruction has more records than bytes. */
  lemma DecodedInstr(t: BodyDecoding.Table, bs: seq<byte>, i: Instr)
    requires BodyDecoding.IsInstr(t, bs, i)
    ensures SmallBlockType(i) && RecordsOf(i) <= |bs|
  {
    hide BodyDecoding.IsOpcode, BodyDecoding.KindOf, BodyDecoding.IsImm, BodyDecoding.IsInstr;
    BodyDecoding.InstrIsSplit(t, bs, i);
    var h: nat, prefix: nat, code: nat, imm :| BodyDecoding.Splits(t, bs, i, h, prefix, code, imm);
    DecodedHead(bs[..h], prefix, code);
    DecodedImm(BodyDecoding.KindOf(t, prefix, code).value, bs[h..], imm);
    Built(t, prefix, code, imm, i);
  }

  lemma DecodedHead(bs: seq<byte>, prefix: nat, code: nat)
    requires BodyDecoding.IsOpcode(bs, prefix, code)
    ensures |bs| >= 1
  {
  }

  lemma DecodedImm(kind: BodyDecoding.Kind, bs: seq<byte>, imm: BodyDecoding.Imm)
    requires BodyDecoding.IsImm(kind, bs, imm)
    ensures imm.Results? ==> |imm.types| <= 1
    ensures imm.Targets? ==> |imm.depths| + 2 <= |bs|
  {
    hide Leb128.IsUnsigned, Leb128.IsSigned, Decode;
    if kind.TargetsKind? {
      VectorTakesBytes(bs, [|imm.depths|] + imm.depths + [imm.default]);
    }
  }

  lemma Built(t: BodyDecoding.Table, prefix: nat, code: nat, imm: BodyDecoding.Imm, i: Instr)
    requires BodyDecoding.Build(t, prefix, code, imm) == Some(i)
    requires imm.Results? ==> |imm.types| <= 1
    ensures SmallBlockType(i)
    ensures if imm.Targets? then RecordsOf(i) == |imm.depths| + 2 else RecordsOf(i) <= 1
  {
  }

  lemma {:induction false} DecodedBody(t: BodyDecoding.Table, bs: seq<byte>, code: seq<Instr>)
    requires BodyDecoding.IsBody(t, bs, code)
    ensures SmallBlockTypes(code) && Records(code) <= |bs|
    decreases |code|
  {
    hide BodyDecoding.IsInstr, RecordsOf, SmallBlockType;
    if code != [] {
      var n :| 0 <= n < |bs| && BodyDecoding.IsInstr(t, bs[..n], code[0]) && BodyDecoding.IsBody(t, bs[n..], code[1..]);
      DecodedInstr(t, bs[..n], code[0]);
      DecodedBody(t, bs[n..], code[1..]);
      AllSmall(code);
    }
  }

  lemma AllSmall(code: seq<Instr>)
    requires code != [] && SmallBlockType(code[0]) && SmallBlockTypes(code[1..])
    ensures SmallBlockTypes(code)
  {
    hide SmallBlockType;
    assert forall k :: 1 <= k < |code| ==> code[k] == code[1..][k - 1];
  }

  /* ---- acceptance ---- */

  /** The bytes of a body are accepted exactly when they encode, by the binary grammar, a body that the
      validation algorithm accepts; and then they compile to the layout of its structured form. */
  lemma BytesAccepted(t: BodyDecoding.Table, ctx: Context, bs: seq<byte>)
    requires |ctx.results| <= 1 && |bs| < INVALID_INDEX
    ensures
      (exists code :: BodyDecoding.IsBody(t, bs, code) && CompileBody(ctx, code).Some?) <==>
      (exists code :: BodyDecoding.IsBody(t, bs, code) && ValidBody(ctx, code))
    ensures forall code :: BodyDecoding.IsBody(t, bs, code) && ValidBody(ctx, code) ==> exists b :: Denotes(ctx, code, b)
  {
    hide BodyDecoding.IsBody, CompileBody, ValidBody, Accepts, Denotes;
    forall code | BodyDecoding.IsBody(t, bs, code)
      ensures CompileBody(ctx, code).Some? <==> ValidBody(ctx, code)
      ensures ValidBody(ctx, code) ==> exists b :: Denotes(ctx, code, b)
    {
      DecodedBody(t, bs, code);
      CompiledIsLaidOut(ctx, code);
      CheckerIsTheAlgorithm(ctx, code);
    }
  }
}
