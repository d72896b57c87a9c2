/** The one-pass compiler: the module reader's callbacks turn a decoded body into flat opcode
    records, with a label table and targets that are patched when the body ends. */
module Reading {
  import opened Wasm
  import opened Checking

  datatype JumpOp = OpBr | OpBrIf | OpBrTable | OpIf | OpElse

  /** `OpcodeRec`. A jump holds a label id in `v1` and a position in `v2`; the first record of a
      `br_table` holds the number of targets instead and is followed by one record a target. */
  datatype Rec =
    | Jump(op: JumpOp, v1: nat, v2: nat)
    | EndRec(stack: nat, results: nat)
    | ReturnRec(results: nat)
    | CallRec(func: nat, imported: bool)
    | Op(i: Instr)

  /** `Func::Label`. */
  datatype LabelRec = LabelRec(results: nat, stack: nat, offset: nat, origin: nat)

  datatype Reader = Reader(checker: Checker, opcodes: seq<Rec>, labels: seq<LabelRec>, labelStack: seq<nat>)

  function Begin(ctx: Context): Reader {
    Reader(BeginFunction(ctx), [], [LabelRec(|ctx.results|, 0, INVALID_INDEX, INVALID_INDEX)], [0])
  }

  function PushLabelRec(r: Reader, results: nat, offset: nat, origin: nat): Reader {
    r.(labels := r.labels + [LabelRec(results, |r.checker.types|, offset, origin)],
       labelStack := r.labelStack + [|r.labels|])
  }

  function Back(s: seq<nat>): nat {
    if |s| == 0 then 0 else s[|s| - 1]
  }

  function AtDepth(s: seq<nat>, depth: nat): nat {
    if depth < |s| then s[|s| - 1 - depth] else 0
  }

  /** `PopLabel`: a label whose position is still unknown gets the current one. */
  function PopLabelRec(r: Reader): Reader {
    var id := Back(r.labelStack);
    var labels :=
      if id < |r.labels| && r.labels[id].offset == INVALID_INDEX then
        r.labels[id := r.labels[id].(offset := |r.opcodes|)]
      else r.labels;
    r.(labels := labels, labelStack := if |r.labelStack| == 0 then [] else r.labelStack[..|r.labelStack| - 1])
  }

  function Emit(r: Reader, recs: seq<Rec>): Reader {
    r.(opcodes := r.opcodes + recs)
  }

  function SetTarget(rec: Rec, position: nat): Rec {
    if rec.Jump? then rec.(v2 := position) else rec
  }

  /** The records of an instruction that is not a bracket. */
  function PlainRecs(ctx: Context, i: Instr, labelStack: seq<nat>): seq<Rec> {
    match i
    case Nop => []
    case Br(d) => [Jump(OpBr, AtDepth(labelStack, d), INVALID_INDEX)]
    case BrIf(d) => [Jump(OpBrIf, AtDepth(labelStack, d), INVALID_INDEX)]
    case BrTable(ds, d) =>
      [Jump(OpBrTable, |ds|, 0)]
      + seq(|ds|, k requires 0 <= k < |ds| => Jump(OpBrTable, AtDepth(labelStack, ds[k]), INVALID_INDEX))
      + [Jump(OpBrTable, AtDepth(labelStack, d), INVALID_INDEX)]
    case Return => [ReturnRec(|ctx.results|)]
    case Call(f) => [CallRec(f, f < |ctx.funcs| && ctx.funcs[f].imported)]
    case _ => [Op(i)]
  }

  /** One callback: check first, then emit. */
  function Read(ctx: Context, r: Reader, i: Instr): Option<Reader> {
    match Check(ctx, r.checker, i)
    case None => None
    case Some(c) =>
      var s := r.(checker := c);
      if i.Block? then Some(PushLabelRec(s, |i.results|, INVALID_INDEX, INVALID_INDEX))
      else if i.Loop? then Some(PushLabelRec(s, |i.results|, |s.opcodes|, INVALID_INDEX))
      else if i.If? then
        var t := PushLabelRec(s, |i.results|, INVALID_INDEX, |s.opcodes|);
        Some(Emit(t, [Jump(OpIf, Back(t.labelStack), INVALID_INDEX)]))
      else if i.Else? then
        var t := Emit(s, [Jump(OpElse, Back(s.labelStack), INVALID_INDEX)]);
        var id := Back(s.labelStack);
        if id < |t.labels| && t.labels[id].origin < |t.opcodes| then
          var origin := t.labels[id].origin;
          Some(t.(opcodes := t.opcodes[origin := SetTarget(t.opcodes[origin], |t.opcodes|)]))
        else None
      else if i.End? then
        var id := Back(s.labelStack);
        if id < |s.labels| then Some(Emit(PopLabelRec(s), [EndRec(s.labels[id].stack, s.labels[id].results)]))
        else None
      else Some(Emit(s, PlainRecs(ctx, i, s.labelStack)))
  }

  function ReadAll(ctx: Context, r: Reader, code: seq<Instr>): Option<Reader>
    decreases |code|
  {
    if code == [] then Some(r)
    else
      match Read(ctx, r, code[0])
      case None => None
      case Some(s) => ReadAll(ctx, s, code[1..])
  }

  /** What `EndFunctionBody` does to one record. */
  function Patch(labels: seq<LabelRec>, rec: Rec): Rec {
    if rec.Jump? && rec.v2 == INVALID_INDEX && rec.v1 < |labels| then rec.(v2 := labels[rec.v1].offset) else rec
  }

  function PatchAll(labels: seq<LabelRec>, code: seq<Rec>): (r: seq<Rec>)
    ensures |r| == |code|
  {
    seq(|code|, k requires 0 <= k < |code| => Patch(labels, code[k]))
  }

  function Finish(r: Reader): Option<seq<Rec>> {
    if EndFunction(r.checker).None? then None
    else Some(PatchAll(PopLabelRec(r).labels, r.opcodes))
  }

  /** The whole of a function body, from `BeginFunctionBody` to `EndFunctionBody`. */
  function CompileBody(ctx: Context, code: seq<Instr>): Option<seq<Rec>> {
    match ReadAll(ctx, Begin(ctx), code)
    case None => None
    case Some(r) => Finish(r)
  }
}
