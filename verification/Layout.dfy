/** The flat code of a structured body, written down directly: every size is known in advance,
    so every branch target is too. No label table, no patching. */
module Layout {
  import opened Wasm
  import opened Checking
  import opened CheckerInvariants
  import opened Structure
  import opened Reading

  /** An open label as branches see it: its number and where a branch to it goes. */
  datatype Target = Target(id: nat, offset: nat)

  function PlainSize(i: Instr): nat {
    if i.Nop? then 0 else if i.BrTable? then |i.depths| + 2 else 1
  }

  function SizeIns(ins: Ins): nat {
    match ins
    case Plain(i) => PlainSize(i)
    case BlockIns(_, b) => Size(b) + 1
    case LoopIns(_, b) => Size(b) + 1
    case IfIns(_, b) => 1 + Size(b) + 1
    case IfElseIns(_, b1, b2) => 1 + Size(b1) + 1 + Size(b2) + 1
  }

  /** The number of records a body compiles to. */
  function Size(b: Body): nat {
    match b
    case Nil => 0
    case Cons(h, t) => SizeIns(h) + Size(t)
  }

  function LabelsIns(ins: Ins): nat {
    match ins
    case Plain(_) => 0
    case BlockIns(_, b) => 1 + Labels(b)
    case LoopIns(_, b) => 1 + Labels(b)
    case IfIns(_, b) => 1 + Labels(b)
    case IfElseIns(_, b1, b2) => 1 + Labels(b1) + Labels(b2)
  }

  /** The number of labels a body opens. */
  function Labels(b: Body): nat {
    match b
    case Nil => 0
    case Cons(h, t) => LabelsIns(h) + Labels(t)
  }

  function TargetAt(env: seq<Target>, depth: nat): Target {
    if depth < |env| then env[|env| - 1 - depth] else Target(0, 0)
  }

  function JumpTo(op: JumpOp, env: seq<Target>, depth: nat): Rec {
    Jump(op, TargetAt(env, depth).id, TargetAt(env, depth).offset)
  }

  function LayPlain(ctx: Context, i: Instr, env: seq<Target>): (r: seq<Rec>)
    ensures |r| == PlainSize(i)
  {
    match i
    case Nop => []
    case Br(d) => [JumpTo(OpBr, env, d)]
    case BrIf(d) => [JumpTo(OpBrIf, env, d)]
    case BrTable(ds, d) =>
      [Jump(OpBrTable, |ds|, 0)]
      + seq(|ds|, k requires 0 <= k < |ds| => JumpTo(OpBrTable, env, ds[k]))
      + [JumpTo(OpBrTable, env, d)]
    case Return => [ReturnRec(|ctx.results|)]
    case Call(f) => [CallRec(f, f < |ctx.funcs| && ctx.funcs[f].imported)]
    case _ => [Op(i)]
  }

  /** A bracket ends by resetting the stack to its own height. */
  function Closing(arm: seq<Rec>, height: nat, results: nat): (r: seq<Rec>)
    ensures |r| == |arm| + 1
  {
    arm + [EndRec(height, results)]
  }

  function OneArm(arm: seq<Rec>, pc: nat, id: nat, height: nat, results: nat): (r: seq<Rec>)
    ensures |r| == |arm| + 2
  {
    [Jump(OpIf, id, pc + 1 + |arm|)] + Closing(arm, height, results)
  }

  function TwoArms(thn: seq<Rec>, els: seq<Rec>, pc: nat, id: nat, height: nat, results: nat): (r: seq<Rec>)
    ensures |r| == |thn| + |els| + 3
  {
    var mid := pc + 1 + |thn|;
    [Jump(OpIf, id, mid + 1)] + thn + [Jump(OpElse, id, mid + 1 + |els|)] + Closing(els, height, results)
  }

  /** `pc` is where the instruction starts, `next` the number of the next label to
      open, `env` the targets of the open ones (innermost last). */
  function LayIns(ctx: Context, ins: Ins, c: Checker, pc: nat, next: nat, env: seq<Target>): (r: seq<Rec>)
    requires CheckIns(ctx, ins, c).Some?
    ensures |r| == SizeIns(ins)
    decreases ins
  {
    match ins
    case Plain(i) => LayPlain(ctx, i, env)
    case BlockIns(sig, b) =>
      Closing(LayBody(ctx, b, PushLabel(c, BlockLabel, sig), pc, next + 1, env + [Target(next, pc + Size(b))]), |c.types|, |sig|)
    case LoopIns(sig, b) =>
      Closing(LayBody(ctx, b, PushLabel(c, LoopLabel, sig), pc, next + 1, env + [Target(next, pc)]), |c.types|, |sig|)
    case IfIns(sig, b) =>
      var c1 := Check(ctx, c, If(sig)).value;
      var inner := env + [Target(next, pc + 1 + Size(b))];
      OneArm(LayBody(ctx, b, c1, pc + 1, next + 1, inner), pc, next, |c1.types|, |sig|)
    case IfElseIns(sig, b1, b2) =>
      var c1 := Check(ctx, c, If(sig)).value;
      var c2 := Then(ctx, CheckBody(ctx, b1, c1), Else).value;
      var mid := pc + 1 + Size(b1);
      var inner := env + [Target(next, mid + 1 + Size(b2))];
      TwoArms(LayBody(ctx, b1, c1, pc + 1, next + 1, inner),
        LayBody(ctx, b2, c2, mid + 1, next + 1 + Labels(b1), inner), pc, next, |c1.types|, |sig|)
  }

  function LayBody(ctx: Context, b: Body, c: Checker, pc: nat, next: nat, env: seq<Target>): (r: seq<Rec>)
    requires CheckBody(ctx, b, c).Some?
    ensures |r| == Size(b)
    decreases b
  {
    match b
    case Nil => []
    case Cons(h, t) =>
      LayIns(ctx, h, c, pc, next, env)
      + LayBody(ctx, t, CheckIns(ctx, h, c).value, pc + SizeIns(h), next + LabelsIns(h), env)
  }

  /** The whole function: its own label is number 0 and leads to the end of the code. */
  function LayFunction(ctx: Context, b: Body): (r: seq<Rec>)
    requires CheckBody(ctx, b, BeginFunction(ctx)).Some?
    ensures |r| == Size(b)
  {
    LayBody(ctx, b, BeginFunction(ctx), 0, 1, [Target(0, Size(b))])
  }
}
