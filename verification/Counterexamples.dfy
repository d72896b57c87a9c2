/** Why the theorems about whole executions stop where a run strays: for each way of straying an
    accepted module whose run strays and parts from the structured semantics. */
module Counterexamples {
  import opened Wasm
  import opened LinearMemory
  import opened Checking
  import opened CheckerInvariants
  import opened Structure
  import opened Heights
  import opened Reading
  import opened Layout
  import opened Machine
  import opened Semantics
  import opened Preservation
  import opened Execution

  const NO_STORE := Shared([], Memory([], 0, None))

  function NoNumeric(op: NumericOp, args: seq<Value>): NumericResult {
    NumOk(0)
  }

  function NoHost(id: nat, args: seq<Value>, st: Shared): HostResult {
    HostOk([], st)
  }

  function ProgramOf(funcs: seq<Func>): Program {
    Program(funcs, [], [], 1024, 256, NoNumeric, NoHost)
  }

  function ContextOf(sig: Signature, locals: seq<ValType>, funcs: seq<FuncType>): Context {
    Context(locals, sig.results, [], funcs, [], false, false)
  }

  /* ---- a loop re-entered above its own height ---- */

  const LEAK_SIG := Signature([I32], [I32])
  const LEAK_CTX := ContextOf(LEAK_SIG, [I32], [FuncType(LEAK_SIG, false)])

  /** The loop leaves a copy of the local behind each time around, and the empty block's `end` then
      cuts the stack at the block's static height. */
  const LEAK_LOOP: Body := Cons(Plain(GetLocal(0)), Cons(Plain(GetLocal(0)), Cons(Plain(Const(Value(I32, 0))), LEAK_TAIL)))
  const LEAK_TAIL: Body := Cons(Plain(SetLocal(0)), Cons(Plain(BrIf(0)), Cons(BlockIns([], Nil), Nil)))
  const LEAK_BODY: Body := Cons(LoopIns([I32], LEAK_LOOP), Nil)

  const LEAK_CODE: seq<Rec> := [Op(GetLocal(0)), Op(GetLocal(0)), Op(Const(Value(I32, 0))), Op(SetLocal(0)),
    Jump(OpBrIf, 1, 0), EndRec(1, 0), EndRec(0, 1)]

  function LeakModule(): Module {
    Module(ProgramOf([WasmFunc(LEAK_SIG, [I32], LEAK_CODE)]), [LEAK_CTX], [LEAK_BODY], 0)
  }

  function LeakState(n: nat): Checker {
    Checker(seq(n, _ => I32), [Label(FuncLabel, [I32], 0, false), Label(LoopLabel, [I32], 0, false)])
  }

  /** One plain instruction in front of a body already known. */
  lemma Prepend(ctx: Context, i: PlainInstr, t: Body, c: Checker, c1: Checker, c2: Checker)
    requires Check(ctx, c, i) == Some(c1) && CheckBody(ctx, t, c1) == Some(c2)
    ensures CheckIns(ctx, Plain(i), c) == Some(c1) && CheckBody(ctx, Cons(Plain(i), t), c) == Some(c2)
  {
    hide Check;
  }

  lemma PrependLay(ctx: Context, i: PlainInstr, t: Body, c: Checker, c1: Checker, pc: nat, next: nat, env: seq<Target>, rest: seq<Rec>)
    requires CheckIns(ctx, Plain(i), c) == Some(c1) && CheckBody(ctx, t, c1).Some? && CheckBody(ctx, Cons(Plain(i), t), c).Some?
    requires LayBody(ctx, t, c1, pc + PlainSize(i), next, env) == rest
    ensures LayBody(ctx, Cons(Plain(i), t), c, pc, next, env) == LayPlain(ctx, i, env) + rest
  {
    hide CheckIns, CheckBody, LayPlain;
  }

  lemma PrependClean(ctx: Context, i: PlainInstr, t: Body, c: Checker, c1: Checker)
    requires CheckIns(ctx, Plain(i), c) == Some(c1) && CheckBody(ctx, t, c1).Some? && CheckBody(ctx, Cons(Plain(i), t), c).Some?
    ensures CleanBody(ctx, Cons(Plain(i), t), c) == ((AllLive(c) ==> CleanPlain(c, i)) && CleanBody(ctx, t, c1))
  {
    hide CheckIns, CheckBody, AllLive, CleanPlain;
  }

  lemma LeakStep(k: nat, i: PlainInstr, t: Body, c: Checker, c1: Checker)
    requires k < 5 && PlainSize(i) == 1 && LayPlain(LEAK_CTX, i, [Target(0, 7), Target(1, 0)]) == [LEAK_CODE[k]]
    requires Check(LEAK_CTX, c, i) == Some(c1) && CheckBody(LEAK_CTX, t, c1) == Some(LeakState(1))
    requires LayBody(LEAK_CTX, t, c1, k + 1, 2, [Target(0, 7), Target(1, 0)]) == LEAK_CODE[k + 1..6]
    requires (AllLive(c) && !CleanPlain(c, i)) || !CleanBody(LEAK_CTX, t, c1)
    ensures CheckBody(LEAK_CTX, Cons(Plain(i), t), c) == Some(LeakState(1))
    ensures LayBody(LEAK_CTX, Cons(Plain(i), t), c, k, 2, [Target(0, 7), Target(1, 0)]) == LEAK_CODE[k..6]
    ensures !CleanBody(LEAK_CTX, Cons(Plain(i), t), c)
  {
    hide CheckBody, LayBody, CleanBody, Check, AllLive, CleanPlain, LayPlain, CheckIns, LeakState;
    Prepend(LEAK_CTX, i, t, c, c1, LeakState(1));
    PrependLay(LEAK_CTX, i, t, c, c1, k, 2, [Target(0, 7), Target(1, 0)], LEAK_CODE[k + 1..6]);
    PrependClean(LEAK_CTX, i, t, c, c1);
    assert [LEAK_CODE[k]] + LEAK_CODE[k + 1..6] == LEAK_CODE[k..6];
  }

  lemma LeakPushes(n: nat, i: Instr)
    requires i == GetLocal(0) || i == Const(Value(I32, 0))
    ensures Check(LEAK_CTX, LeakState(n), i) == Some(LeakState(n + 1))
  {
    assert LeakState(n).types + [I32] == LeakState(n + 1).types;
  }

  lemma LeakPops(n: nat, i: Instr)
    requires n >= 1 && (i == SetLocal(0) || i == BrIf(0))
    ensures Check(LEAK_CTX, LeakState(n), i) == Some(LeakState(n - 1))
  {
    var s := LeakState(n);
    assert PeekIs(s, 0, I32);
    assert SignatureOk(s, [I32]);
    assert s.types[..n - 1] + [] == s.types[..n - 1] == LeakState(n - 1).types;
    assert PopTypes(s, [I32]) == Some(LeakState(n - 1));
  }

  lemma LeakTailChecks()
    ensures CheckBody(LEAK_CTX, LEAK_TAIL, LeakState(3)) == Some(LeakState(1))
    ensures LayBody(LEAK_CTX, LEAK_TAIL, LeakState(3), 3, 2, [Target(0, 7), Target(1, 0)]) == LEAK_CODE[3..6]
    ensures !CleanBody(LEAK_CTX, LEAK_TAIL, LeakState(3))
  {
    var b5 := Cons(BlockIns([], Nil), Nil);
    LeakBlock([Target(0, 7), Target(1, 0)]);
    assert LEAK_CODE[5..6] == [EndRec(1, 0)];
    hide CheckBody, LayBody, CleanBody, Check, AllLive, LeakState, CleanPlain;
    LeakPops(2, BrIf(0));
    LeakIsUnclean();
    LeakStep(4, BrIf(0), b5, LeakState(2), LeakState(1));
    LeakPops(3, SetLocal(0));
    LeakStep(3, SetLocal(0), Cons(Plain(BrIf(0)), b5), LeakState(3), LeakState(2));
  }

  lemma LeakChecks()
    ensures CheckBody(LEAK_CTX, LEAK_LOOP, LeakState(0)) == Some(LeakState(1))
    ensures LayBody(LEAK_CTX, LEAK_LOOP, LeakState(0), 0, 2, [Target(0, 7), Target(1, 0)]) == LEAK_CODE[..6]
    ensures !CleanBody(LEAK_CTX, LEAK_LOOP, LeakState(0))
  {
    hide CheckBody, LayBody, CleanBody, Check, AllLive, LeakState, CleanPlain;
    LeakTailChecks();
    var b2 := Cons(Plain(Const(Value(I32, 0))), LEAK_TAIL);
    LeakPushes(2, Const(Value(I32, 0)));
    LeakStep(2, Const(Value(I32, 0)), LEAK_TAIL, LeakState(2), LeakState(3));
    LeakPushes(1, GetLocal(0));
    LeakStep(1, GetLocal(0), b2, LeakState(1), LeakState(2));
    LeakPushes(0, GetLocal(0));
    LeakStep(0, GetLocal(0), Cons(Plain(GetLocal(0)), b2), LeakState(0), LeakState(1));
  }

  lemma LeakIsUnclean()
    ensures !CleanPlain(LeakState(2), BrIf(0)) && AllLive(LeakState(2))
  {
    assert LabelAt(LeakState(2), 0).kind.LoopLabel?;
  }

  lemma LeakBlock(env: seq<Target>)
    ensures CheckBody(LEAK_CTX, Cons(BlockIns([], Nil), Nil), LeakState(1)) == Some(LeakState(1))
    ensures LayBody(LEAK_CTX, Cons(BlockIns([], Nil), Nil), LeakState(1), 5, 2, env) == [EndRec(1, 0)]
  {
    EmptyBlock(LEAK_CTX, LeakState(1));
    assert CheckBody(LEAK_CTX, Nil, LeakState(1)) == Some(LeakState(1));
    assert LayIns(LEAK_CTX, BlockIns([], Nil), LeakState(1), 5, 2, env) == [EndRec(1, 0)];
  }

  lemma EmptyBlock(ctx: Context, c: Checker)
    requires Valid(c)
    ensures CheckIns(ctx, BlockIns([], Nil), c) == Some(c)
  {
    hide AnyOnlyAtDeadLimit, LimitsOrdered;
    var d := PushLabel(c, BlockLabel, []);
    assert CheckBody(ctx, Nil, d) == Some(d);
    assert d.types[..|d.types|] + [] == c.types && d.labels[..|c.labels|] == c.labels;
    assert PopTypes(d, []) == Some(d.(types := d.types[..|d.types|]));
  }

  lemma LeakCompiles()
    ensures Compiled(LeakModule(), 0)
    ensures CheckBody(LEAK_CTX, LEAK_BODY, BeginFunction(LEAK_CTX)).Some?
    ensures !CleanBody(LEAK_CTX, LEAK_BODY, BeginFunction(LEAK_CTX))
  {
    hide CleanBody, LayBody, CheckBody, Size, CheckIns, LayIns, CleanIns;
    LeakChecks();
    var c := BeginFunction(LEAK_CTX);
    assert PushLabel(c, LoopLabel, [I32]) == LeakState(0);
    LeakFunction(c);
    assert ContextOk(LeakModule(), 0);
  }

  lemma LeakFunction(c: Checker)
    requires c == BeginFunction(LEAK_CTX) && PushLabel(c, LoopLabel, [I32]) == LeakState(0)
    requires CheckBody(LEAK_CTX, LEAK_LOOP, LeakState(0)) == Some(LeakState(1))
    requires LayBody(LEAK_CTX, LEAK_LOOP, LeakState(0), 0, 2, [Target(0, 7), Target(1, 0)]) == LEAK_CODE[..6]
    requires !CleanBody(LEAK_CTX, LEAK_LOOP, LeakState(0))
    ensures CheckBody(LEAK_CTX, LEAK_BODY, c) == Some(Ints(1)) && EndFunction(Ints(1)).Some?
    ensures LayFunction(LEAK_CTX, LEAK_BODY) == LEAK_CODE
    ensures !CleanBody(LEAK_CTX, LEAK_BODY, c)
  {
    hide CheckBody, CheckIns, LayBody, LayIns, CleanBody, CleanIns, LeakState, Ints;
    LeakEnd();
    IntsEnd();
    LoopChecks(c);
    LoopLays(c);
    LoopUnclean(c);
  }

  lemma LoopChecks(c: Checker)
    requires c == BeginFunction(LEAK_CTX) && PushLabel(c, LoopLabel, [I32]) == LeakState(0)
    requires CheckBody(LEAK_CTX, LEAK_LOOP, LeakState(0)) == Some(LeakState(1)) && Check(LEAK_CTX, LeakState(1), End) == Some(Ints(1))
    ensures CheckIns(LEAK_CTX, LoopIns([I32], LEAK_LOOP), c) == Some(Ints(1)) && CheckBody(LEAK_CTX, LEAK_BODY, c) == Some(Ints(1))
  {
    hide Check, LeakState, Ints;
    assert CheckIns(LEAK_CTX, LoopIns([I32], LEAK_LOOP), c) == Some(Ints(1)) by { hide CheckBody; }
    assert CheckBody(LEAK_CTX, Nil, Ints(1)) == Some(Ints(1));
    hide CheckIns;
  }

  lemma LoopLays(c: Checker)
    requires c == BeginFunction(LEAK_CTX) && PushLabel(c, LoopLabel, [I32]) == LeakState(0)
    requires CheckBody(LEAK_CTX, LEAK_LOOP, LeakState(0)).Some?
    requires CheckIns(LEAK_CTX, LoopIns([I32], LEAK_LOOP), c) == Some(Ints(1)) && CheckBody(LEAK_CTX, LEAK_BODY, c) == Some(Ints(1))
    requires LayBody(LEAK_CTX, LEAK_LOOP, LeakState(0), 0, 2, [Target(0, 7), Target(1, 0)]) == LEAK_CODE[..6]
    ensures LayFunction(LEAK_CTX, LEAK_BODY) == LEAK_CODE
  {
    hide CheckBody, CheckIns, LeakState, Ints, LayBody, LayIns;
    LeakSize();
    var ins := LoopIns([I32], LEAK_LOOP);
    assert Size(LEAK_BODY) == 7 by { assert Size(Nil) == 0; }
    assert [Target(0, 7)] + [Target(1, 0)] == [Target(0, 7), Target(1, 0)];
    assert LayIns(LEAK_CTX, ins, c, 0, 1, [Target(0, 7)]) == LEAK_CODE[..6] + [EndRec(0, 1)] by { LoopLaysIns(c); }
    EmptyBody(LEAK_CTX, Ints(1));
    OnlyIns(LEAK_CTX, ins, c, Ints(1), [Target(0, 7)]);
    assert LEAK_CODE[..6] + [EndRec(0, 1)] == LEAK_CODE;
  }

  lemma LoopLaysIns(c: Checker)
    requires PushLabel(c, LoopLabel, [I32]) == LeakState(0) && |c.types| == 0
    requires CheckBody(LEAK_CTX, LEAK_LOOP, LeakState(0)).Some? && CheckIns(LEAK_CTX, LoopIns([I32], LEAK_LOOP), c).Some?
    requires LayBody(LEAK_CTX, LEAK_LOOP, LeakState(0), 0, 2, [Target(0, 7), Target(1, 0)]) == LEAK_CODE[..6]
    ensures LayIns(LEAK_CTX, LoopIns([I32], LEAK_LOOP), c, 0, 1, [Target(0, 7)]) == LEAK_CODE[..6] + [EndRec(0, 1)]
  {
    hide CheckBody, CheckIns, LeakState, LayBody;
    assert [Target(0, 7)] + [Target(1, 0)] == [Target(0, 7), Target(1, 0)];
  }

  lemma OnlyIns(ctx: Context, ins: Ins, c: Checker, d: Checker, env: seq<Target>)
    requires CheckIns(ctx, ins, c) == Some(d) && CheckBody(ctx, Nil, d).Some? && CheckBody(ctx, Cons(ins, Nil), c).Some?
    ensures LayBody(ctx, Cons(ins, Nil), c, 0, 1, env) == LayIns(ctx, ins, c, 0, 1, env)
  {
    hide CheckIns, CheckBody, LayIns;
    assert LayBody(ctx, Nil, d, 0 + SizeIns(ins), 1 + LabelsIns(ins), env) == [];
  }

  lemma EmptyBody(ctx: Context, c: Checker)
    ensures CheckBody(ctx, Nil, c) == Some(c)
  {
  }

  lemma LoopUnclean(c: Checker)
    requires PushLabel(c, LoopLabel, [I32]) == LeakState(0) && CheckBody(LEAK_CTX, LEAK_LOOP, LeakState(0)).Some?
    requires CheckIns(LEAK_CTX, LoopIns([I32], LEAK_LOOP), c).Some? && CheckBody(LEAK_CTX, LEAK_BODY, c).Some?
    requires !CleanBody(LEAK_CTX, LEAK_LOOP, LeakState(0))
    ensures !CleanBody(LEAK_CTX, LEAK_BODY, c)
  {
    hide CheckBody, CheckIns, LeakState;
    assert !CleanIns(LEAK_CTX, LoopIns([I32], LEAK_LOOP), c) by { hide CleanBody; }
    hide CleanIns;
  }

  lemma LeakEnd()
    ensures Check(LEAK_CTX, LeakState(1), End) == Some(Ints(1))
  {
    var s := LeakState(1);
    assert PeekIs(s, 0, I32);
    assert SignatureOk(s, [I32]);
    assert s.types[..0] == [] && PopTypes(s, [I32]) == Some(s.(types := []));
    hide PopTypes, SignatureOk;
    assert s.labels[..1] == Ints(1).labels;
    assert [] + [I32] == Ints(1).types;
  }

  lemma LeakSize()
    ensures Size(LEAK_LOOP) == 6
  {
    assert Size(LEAK_TAIL.tail.tail) == 1;
    assert Size(LEAK_TAIL) == 3;
  }

  /* the structured semantics: the second time around the local is 0 and the loop ends with it */

  lemma ExecNext(p: Program, bodies: seq<Body>, arities: seq<nat>, results: nat, i: PlainInstr, t: Body, s: Activation, s1: Activation, fuel: nat)
    requires ExecPlain(p, bodies, arities, results, i, s, fuel) == Normal(s1)
    ensures ExecBody(p, bodies, arities, results, Cons(Plain(i), t), s, fuel) == ExecBody(p, bodies, arities, results, t, s1, fuel)
  {
    hide ExecPlain;
    assert ExecIns(p, bodies, arities, results, Plain(i), s, fuel) == Normal(s1);
  }

  lemma ExecBranches(p: Program, bodies: seq<Body>, arities: seq<nat>, results: nat, i: PlainInstr, t: Body, s: Activation, d: nat, s1: Activation, fuel: nat)
    requires ExecPlain(p, bodies, arities, results, i, s, fuel) == Branch(d, s1)
    ensures ExecBody(p, bodies, arities, results, Cons(Plain(i), t), s, fuel) == Branch(d, s1)
  {
    hide ExecPlain;
    assert ExecIns(p, bodies, arities, results, Plain(i), s, fuel) == Branch(d, s1);
  }

  function LeakProgram(): Program {
    LeakModule().p
  }

  lemma ExecOps(v: Value, vs: seq<Value>, fuel: nat)
    ensures
      var p, bodies, s, z := LeakProgram(), [LEAK_BODY], Activation([v], vs, NO_STORE), Value(I32, 0);
      && ExecPlain(p, bodies, [1, 0], 1, GetLocal(0), s, fuel) == Normal(s.(vs := vs + [v]))
      && ExecPlain(p, bodies, [1, 0], 1, Const(z), s, fuel) == Normal(s.(vs := vs + [z]))
      && ExecPlain(p, bodies, [1, 0], 1, SetLocal(0), s.(vs := vs + [z]), fuel) == Normal(Activation([z], vs, NO_STORE))
  {
    assert Front(vs + [Value(I32, 0)], 1) == vs;
    assert [v][0 := Value(I32, 0)] == [Value(I32, 0)];
  }

  lemma ExecTest(v: Value, fuel: nat)
    ensures
      var p, bodies, z := LeakProgram(), [LEAK_BODY], Value(I32, 0);
      ExecPlain(p, bodies, [1, 0], 1, BrIf(0), Activation([z], [v, v], NO_STORE), fuel) ==
        if AsU32(v) != 0 then Branch(0, Activation([z], [], NO_STORE)) else Normal(Activation([z], [v], NO_STORE))
  {
    assert Front([v, v], 1) == [v] && Last([v], 0) == [];
  }

  lemma LeakIteration(x: nat, fuel: nat)
    requires x < 2
    ensures
      var o := ExecBody(LeakProgram(), [LEAK_BODY], [1, 0], 1, LEAK_LOOP, Activation([U32(x)], [], NO_STORE), fuel);
      o == if x == 0 then Normal(Activation([U32(0)], [U32(0)], NO_STORE)) else Branch(0, Activation([U32(0)], [], NO_STORE))
  {
    hide ExecBody, ExecPlain, LeakModule;
    var p, bodies, v, z := LeakProgram(), [LEAK_BODY], U32(x), Value(I32, 0);
    var b5 := Cons(BlockIns([], Nil), Nil);
    var b4 := Cons(Plain(BrIf(0)), b5);
    var b3 := Cons(Plain(SetLocal(0)), b4);
    var b2 := Cons(Plain(Const(z)), b3);
    var b1 := Cons(Plain(GetLocal(0)), b2);
    var s0 := Activation([v], [], NO_STORE);
    ExecOps(v, [], fuel);
    ExecOps(v, [v], fuel);
    ExecOps(v, [v, v], fuel);
    ExecTest(v, fuel);
    assert [] + [v] == [v] && [v] + [v] == [v, v];
    ExecNext(p, bodies, [1, 0], 1, GetLocal(0), b1, s0, s0.(vs := [v]), fuel);
    ExecNext(p, bodies, [1, 0], 1, GetLocal(0), b2, s0.(vs := [v]), s0.(vs := [v, v]), fuel);
    ExecNext(p, bodies, [1, 0], 1, Const(z), b3, s0.(vs := [v, v]), s0.(vs := [v, v] + [z]), fuel);
    ExecNext(p, bodies, [1, 0], 1, SetLocal(0), b4, s0.(vs := [v, v] + [z]), Activation([z], [v, v], NO_STORE), fuel);
    if x == 0 {
      LeakEmptyBlock(p, bodies, Activation([z], [v], NO_STORE), fuel);
      ExecNext(p, bodies, [1, 0], 1, BrIf(0), b5, Activation([z], [v, v], NO_STORE), Activation([z], [v], NO_STORE), fuel);
    } else {
      ExecBranches(p, bodies, [1, 0], 1, BrIf(0), b5, Activation([z], [v, v], NO_STORE), 0, Activation([z], [], NO_STORE), fuel);
    }
  }

  lemma LeakEmptyBlock(p: Program, bodies: seq<Body>, s: Activation, fuel: nat)
    ensures ExecBody(p, bodies, [1, 0], 1, Cons(BlockIns([], Nil), Nil), s, fuel) == Normal(s)
  {
    assert ExecBody(p, bodies, [1, 0] + [0], 1, Nil, s.(vs := []), fuel) == Normal(s.(vs := []));
    assert s.vs + [] == s.vs;
    assert ExecIns(p, bodies, [1, 0], 1, BlockIns([], Nil), s, fuel) == Normal(s);
  }

  lemma LeakMeaning()
    ensures ExecFunc(LeakProgram(), [LEAK_BODY], 0, [U32(1)], NO_STORE, 1) == Returned(Activation([U32(0)], [U32(0)], NO_STORE))
  {
    var p, bodies := LeakProgram(), [LEAK_BODY];
    var s := Activation([U32(1)], [], NO_STORE);
    LeakIteration(1, 1);
    LeakIteration(0, 0);
    assert [1] + [0] == [1, 0];
    var loop := LoopIns([I32], LEAK_LOOP);
    assert [] + [U32(0)] == [U32(0)];
    assert ExecIns(p, bodies, [1], 1, loop, Activation([U32(0)], [], NO_STORE), 0) == Normal(Activation([U32(0)], [U32(0)], NO_STORE)) by {
      hide ExecBody;
    }
    assert ExecIns(p, bodies, [1], 1, loop, s, 1) == Normal(Activation([U32(0)], [U32(0)], NO_STORE)) by { hide ExecBody; }
    assert ExecBody(p, bodies, [1], 1, Nil, Activation([U32(0)], [U32(0)], NO_STORE), 1) == Normal(Activation([U32(0)], [U32(0)], NO_STORE));
    assert ExecBody(p, bodies, [1], 1, LEAK_BODY, s, 1) == Normal(Activation([U32(0)], [U32(0)], NO_STORE)) by { hide ExecIns; }
    hide ExecBody;
    assert [U32(1)] + ZeroLocals([I32][1..]) == [U32(1)];
  }

  /* the machine: the copy left behind takes the place of the new value */

  lemma Turn(p: Program, c: Config, d: Config, n: nat)
    requires n > 0 && |c.frames| > 0 && Step(p, c) == Running(d)
    ensures Run(p, c, 0, n) == Run(p, d, 0, n - 1)
  {
    hide Step;
  }

  function LeakAt(pc: nat, stack: seq<Value>): Config {
    Config(stack, [Frame(0, 0, pc)], NO_STORE)
  }

  lemma StepOps(v: Value, ops: seq<Value>)
    requires |ops| <= 4
    ensures
      var p, z, stack := LeakProgram(), Value(I32, 0), [v] + ops;
      && Step(p, LeakAt(0, stack)) == Running(LeakAt(1, stack + [v]))
      && Step(p, LeakAt(1, stack)) == Running(LeakAt(2, stack + [v]))
      && Step(p, LeakAt(2, stack)) == Running(LeakAt(3, stack + [z]))
      && Step(p, LeakAt(3, stack + [z])) == Running(LeakAt(4, [z] + ops))
  {
    var z, stack := Value(I32, 0), [v] + ops;
    assert Front(stack + [z], 1)[0 := z] == [z] + ops;
  }

  lemma StepTest(stack: seq<Value>, v: Value)
    requires |stack| <= 4
    ensures Step(LeakProgram(), LeakAt(4, stack + [v])) == Running(LeakAt(if AsU32(v) != 0 then 0 else 5, stack))
  {
    hide AsU32;
    assert Front(stack + [v], 1) == stack && Last(stack + [v], 1) == [v];
  }

  lemma LeakTurns(v: Value, ops: seq<Value>, n: nat)
    requires |ops| <= 1 && n >= 5
    ensures
      Run(LeakProgram(), LeakAt(0, [v] + ops), 0, n) ==
        Run(LeakProgram(), LeakAt(if AsU32(v) != 0 then 0 else 5, [Value(I32, 0)] + ops + [v]), 0, n - 5)
  {
    hide Run, Step, AsU32, LeakModule;
    var p, z := LeakProgram(), Value(I32, 0);
    StepOps(v, ops);
    StepOps(v, ops + [v]);
    StepOps(v, ops + [v, v]);
    StepTest([z] + ops + [v], v);
    var st0 := [v] + ops;
    assert st0 + [v] == [v] + (ops + [v]) && st0 + [v] + [v] == [v] + (ops + [v, v]);
    assert [z] + (ops + [v, v]) == [z] + ops + [v] + [v];
    Turn(p, LeakAt(0, st0), LeakAt(1, st0 + [v]), n);
    Turn(p, LeakAt(1, st0 + [v]), LeakAt(2, st0 + [v] + [v]), n - 1);
    Turn(p, LeakAt(2, st0 + [v] + [v]), LeakAt(3, st0 + [v] + [v] + [z]), n - 2);
    Turn(p, LeakAt(3, st0 + [v] + [v] + [z]), LeakAt(4, [z] + ops + [v] + [v]), n - 3);
    Turn(p, LeakAt(4, [z] + ops + [v] + [v]), LeakAt(if AsU32(v) != 0 then 0 else 5, [z] + ops + [v]), n - 4);
  }

  lemma LeakRun()
    ensures Run(LeakProgram(), LeakAt(0, [U32(1)]), 0, 13) == Running(Config([U32(1)], [], NO_STORE))
  {
    hide Run, LeakModule;
    var one, z := U32(1), Value(I32, 0);
    LeakTurns(one, [], 13);
    assert [one] + [] == [one] && [z] + [] + [one] == [z] + [one];
    LeakTurns(z, [one], 8);
    assert [z] + [one] + [z] == [z, one, z];
    LeakEnds(one, z);
  }

  lemma LeakEnds(one: Value, z: Value)
    ensures Run(LeakProgram(), LeakAt(5, [z, one, z]), 0, 3) == Running(Config([one], [], NO_STORE))
  {
    var p := LeakProgram();
    assert [z, one, z][..2] + Last([z, one, z], 0) == [z, one];
    assert Step(p, LeakAt(5, [z, one, z])) == Running(LeakAt(6, [z, one]));
    assert [z, one][..1] + Last([z, one], 1) == [z, one];
    assert Step(p, LeakAt(6, [z, one])) == Running(LeakAt(7, [z, one]));
    assert [z, one][..0] + Last([z, one], 1) == [one];
    assert Front([Frame(0, 0, 7)], 1) == [];
    assert Step(p, LeakAt(7, [z, one])) == Running(Config([one], [], NO_STORE));
    hide Step;
    Turn(p, LeakAt(5, [z, one, z]), LeakAt(6, [z, one]), 3);
    Turn(p, LeakAt(6, [z, one]), LeakAt(7, [z, one]), 2);
    Turn(p, LeakAt(7, [z, one]), Config([one], [], NO_STORE), 1);
  }

  /** A branch that brings operands back to its loop matters: an accepted and compiled body for which the machine
      returns 1 where the structured semantics returns 0. */
  lemma LoopLeak()
    ensures Compiled(LeakModule(), 0) && PlainCallees(LeakProgram())
    ensures !CleanBody(LEAK_CTX, LEAK_BODY, BeginFunction(LEAK_CTX))
    ensures ExecFunc(LeakProgram(), [LEAK_BODY], 0, [U32(1)], NO_STORE, 1) == Returned(Activation([U32(0)], [U32(0)], NO_STORE))
    ensures Run(LeakProgram(), LeakAt(0, [U32(1)]), 0, 13) == Running(Config([U32(1)], [], NO_STORE))
    ensures U32(0) != U32(1)
  {
    hide ExecFunc, Run, CleanBody, CheckBody, LayFunction;
    LeakCompiles();
    LeakMeaning();
    LeakRun();
  }

  lemma LeakCall()
    ensures CallOk(LeakModule(), Config([], [], NO_STORE), 0, [U32(1)])
    ensures HostEnter(LeakProgram(), Config([], [], NO_STORE), 0, [U32(1)]) == Running(LeakAt(0, [U32(1)]))
  {
    hide Compiled;
    LeakCompiled();
    assert |LeakModule().p.funcs| == 1 && FuncOk(LeakModule(), 0);
    assert [] + [U32(1)] + ZeroLocals([I32][1..]) == [U32(1)];
    assert [] + [Frame(0, 0, 0)] == [Frame(0, 0, 0)];
  }

  lemma LeakCompiled()
    ensures Compiled(LeakModule(), 0)
  {
    hide Compiled, ExecFunc, Run, CleanBody;
    LoopLeak();
  }

  lemma LeakParts()
    ensures
      var o := ExecFunc(LeakModule().p, LeakModule().bodies, 0, [U32(1)], NO_STORE, 1);
      var e := Run(LeakModule().p, LeakAt(0, [U32(1)]), 0, 13);
      !o.OutOfFuel? && e.Running? && |e.c.frames| == 0 && !EndsAs(Config([], [], NO_STORE), o, e)
  {
    hide ExecFunc, Run, LeakAt;
    LeakMeaning();
    LeakRun();
    assert [] + [U32(0)] == [U32(0)];
  }

  /** And it strays before it returns. */
  lemma LeakStrays()
    ensures StraysWithin(LeakModule(), LeakAt(0, [U32(1)]), 0, 13)
  {
    hide CallOk, HostEnter, ExecFunc, Run, StraysWithin, Tidy, LeakModule, LeakAt, EndsAs;
    LeakParts();
    LeakCall();
    DifferenceIsStraying(LeakModule(), Config([], [], NO_STORE), 0, [U32(1)], 1, 13);
  }

  /* ---- a callee with a local of its own ---- */

  const VALUE_SIG := Signature([], [I32])
  const VALUE_FUNCS := [FuncType(VALUE_SIG, false), FuncType(VALUE_SIG, false)]
  const CALLER_CTX := ContextOf(VALUE_SIG, [], VALUE_FUNCS)
  const CALLEE_CTX := ContextOf(VALUE_SIG, [I32], VALUE_FUNCS)
  const NINE := Value(I32, 9)

  /** Pushes 9, calls the other function and drops what it returned. */
  const CALLER_BODY: Body := Cons(Plain(Const(NINE)), Cons(Plain(Call(1)), Cons(Plain(Drop), Nil)))
  const CALLER_CODE: seq<Rec> := [Op(Const(NINE)), CallRec(1, false), Op(Drop)]

  /** Returns its one declared local. */
  const CALLEE_BODY: Body := Cons(Plain(GetLocal(0)), Nil)

  function LocalModule(): Module {
    Module(ProgramOf([WasmFunc(VALUE_SIG, [], CALLER_CODE), WasmFunc(VALUE_SIG, [I32], [Op(GetLocal(0))])]),
      [CALLER_CTX, CALLEE_CTX], [CALLER_BODY, CALLEE_BODY], 0)
  }

  function LocalProgram(): Program {
    LocalModule().p
  }

  function Ints(n: nat): Checker {
    Checker(seq(n, _ => I32), [Label(FuncLabel, [I32], 0, false)])
  }

  lemma IntsEnd()
    ensures EndFunction(Ints(1)).Some?
  {
    assert PeekIs(Ints(1), 0, I32);
    assert SignatureOk(Ints(1), [I32]);
  }

  lemma IntPushed(ctx: Context, n: nat, i: Instr)
    requires (i == GetLocal(0) && ctx == CALLEE_CTX) || (ctx == CALLER_CTX && (i == Const(NINE) || i == Call(1)))
    ensures Check(ctx, Ints(n), i) == Some(Ints(n + 1))
  {
    var s := Ints(n);
    assert s.types + [I32] == Ints(n + 1).types;
    if i.Call? {
      assert s.types[..n] == s.types;
      assert PopTypes(s, []) == Some(s);
    }
  }

  lemma IntDropped(n: nat)
    requires n >= 1
    ensures Check(CALLER_CTX, Ints(n), Drop) == Some(Ints(n - 1))
  {
    assert Ints(n).types[..n - 1] == Ints(n - 1).types;
  }

  lemma CalleeCompiles()
    ensures Compiled(LocalModule(), 1)
  {
    hide Check;
    IntsEnd();
    IntPushed(CALLEE_CTX, 0, GetLocal(0));
    assert CheckBody(CALLEE_CTX, Nil, Ints(1)) == Some(Ints(1));
    Prepend(CALLEE_CTX, GetLocal(0), Nil, Ints(0), Ints(1), Ints(1));
    assert BeginFunction(CALLEE_CTX) == Ints(0);
    hide CheckBody, CheckIns;
    PrependLay(CALLEE_CTX, GetLocal(0), Nil, Ints(0), Ints(1), 0, 1, [Target(0, 1)], []);
    assert [Op(GetLocal(0))] + [] == [Op(GetLocal(0))];
    assert Size(CALLEE_BODY) == 1 by { assert Size(Nil) == 0; }
    hide LayBody;
    assert LayFunction(CALLEE_CTX, CALLEE_BODY) == [Op(GetLocal(0))];
    assert ContextOk(LocalModule(), 1);
  }

  lemma CallerCompiles()
    ensures Compiled(LocalModule(), 0)
  {
    hide Check, CheckBody, LayBody, Ints;
    IntsEnd();
    CallerChecks();
    CallerLays();
    assert BeginFunction(CALLER_CTX) == Ints(0) by { NoInts(); }
    assert ContextOk(LocalModule(), 0);
  }

  lemma NoInts()
    ensures BeginFunction(CALLER_CTX) == Ints(0)
  {
  }

  lemma CallerChecks()
    ensures
      var b2 := Cons(Plain(Drop), Nil);
      var b1 := Cons(Plain(Call(1)), b2);
      && CheckIns(CALLER_CTX, Plain(Drop), Ints(2)) == Some(Ints(1)) && CheckBody(CALLER_CTX, b2, Ints(2)) == Some(Ints(1))
      && CheckIns(CALLER_CTX, Plain(Call(1)), Ints(1)) == Some(Ints(2)) && CheckBody(CALLER_CTX, b1, Ints(1)) == Some(Ints(1))
      && CheckIns(CALLER_CTX, Plain(Const(NINE)), Ints(0)) == Some(Ints(1))
      && CheckBody(CALLER_CTX, CALLER_BODY, Ints(0)) == Some(Ints(1))
  {
    hide Check, CheckBody, CheckIns, Ints;
    var b2 := Cons(Plain(Drop), Nil);
    var b1 := Cons(Plain(Call(1)), b2);
    IntPushed(CALLER_CTX, 0, Const(NINE));
    IntPushed(CALLER_CTX, 1, Call(1));
    IntDropped(2);
    EmptyBody(CALLER_CTX, Ints(1));
    Prepend(CALLER_CTX, Drop, Nil, Ints(2), Ints(1), Ints(1));
    Prepend(CALLER_CTX, Call(1), b2, Ints(1), Ints(2), Ints(1));
    Prepend(CALLER_CTX, Const(NINE), b1, Ints(0), Ints(1), Ints(1));
  }

  lemma CallerLays()
    requires CheckBody(CALLER_CTX, CALLER_BODY, Ints(0)).Some?
    ensures BeginFunction(CALLER_CTX) == Ints(0) && LayFunction(CALLER_CTX, CALLER_BODY) == CALLER_CODE
  {
    var b2 := Cons(Plain(Drop), Nil);
    var b1 := Cons(Plain(Call(1)), b2);
    var env := [Target(0, 3)];
    NoInts();
    assert Size(CALLER_BODY) == 3 by { assert Size(b2) == 1 && Size(b1) == 2; }
    hide Check, CheckBody, CheckIns, Ints, Size;
    CallerChecks();
    EmptyBody(CALLER_CTX, Ints(1));
    assert LayBody(CALLER_CTX, Nil, Ints(1), 3, 1, env) == [];
    hide LayBody;
    PrependLay(CALLER_CTX, Drop, Nil, Ints(2), Ints(1), 2, 1, env, []);
    PrependLay(CALLER_CTX, Call(1), b2, Ints(1), Ints(2), 1, 1, env, [Op(Drop)] + []);
    PrependLay(CALLER_CTX, Const(NINE), b1, Ints(0), Ints(1), 0, 1, env, [CallRec(1, false)] + ([Op(Drop)] + []));
    assert [Op(Const(NINE))] + ([CallRec(1, false)] + ([Op(Drop)] + [])) == CALLER_CODE;
  }

  lemma CalleeBodyMeaning(p: Program, bodies: seq<Body>, s: Activation)
    requires p == LocalProgram() && s == Activation([Value(I32, 0)], [], NO_STORE)
    ensures ExecBody(p, bodies, [1], 1, CALLEE_BODY, s, 0) == Normal(s.(vs := [Value(I32, 0)]))
  {
    var t := s.(vs := [Value(I32, 0)]);
    assert [] + [Value(I32, 0)] == [Value(I32, 0)];
    assert ExecBody(p, bodies, [1], 1, Nil, t, 0) == Normal(t);
    ExecNext(p, bodies, [1], 1, GetLocal(0), Nil, s, t, 0);
  }

  lemma CalleeMeaning(p: Program, bodies: seq<Body>)
    requires p == LocalProgram() && bodies == LocalModule().bodies
    ensures ExecFunc(p, bodies, 1, [], NO_STORE, 0) == Returned(Activation([Value(I32, 0)], [Value(I32, 0)], NO_STORE))
  {
    hide ExecBody;
    CalleeBodyMeaning(p, bodies, Activation([Value(I32, 0)], [], NO_STORE));
    assert [I32][0..] == [I32] && [] + ZeroLocals([I32]) == [Value(I32, 0)];
  }

  lemma CallMeaning(p: Program, bodies: seq<Body>, t: Activation)
    requires p == LocalProgram() && bodies == LocalModule().bodies && t.store == NO_STORE && t.vs == [NINE]
    ensures ExecCall(p, bodies, 1, t, 1) == Normal(t.(vs := [NINE, Value(I32, 0)]))
  {
    hide ExecFunc;
    CalleeMeaning(p, bodies);
    assert Last([NINE], 0) == [] && Front([NINE], 0) + [Value(I32, 0)] == [NINE, Value(I32, 0)];
  }

  lemma LocalMeaning()
    ensures ExecFunc(LocalProgram(), LocalModule().bodies, 0, [], NO_STORE, 1) == Returned(Activation([], [NINE], NO_STORE))
  {
    hide ExecBody, ExecFunc, ExecCall, LocalModule;
    var p, bodies, zero := LocalProgram(), LocalModule().bodies, Value(I32, 0);
    var b2 := Cons(Plain(Drop), Nil);
    var b1 := Cons(Plain(Call(1)), b2);
    var t := Activation([], [], NO_STORE);
    CallMeaning(p, bodies, t.(vs := [NINE]));
    assert Front([NINE, zero], 1) == [NINE] && [] + [NINE] == [NINE];
    ExecNext(p, bodies, [1], 1, Const(NINE), b1, t, t.(vs := [NINE]), 1);
    ExecNext(p, bodies, [1], 1, Call(1), b2, t.(vs := [NINE]), t.(vs := [NINE, zero]), 1);
    ExecNext(p, bodies, [1], 1, Drop, Nil, t.(vs := [NINE, zero]), t.(vs := [NINE]), 1);
    CallerReturns(p, bodies);
  }

  lemma CallerReturns(p: Program, bodies: seq<Body>)
    requires p == LocalProgram() && bodies == LocalModule().bodies
    requires ExecBody(p, bodies, [1], 1, CALLER_BODY, Activation([], [], NO_STORE), 1) ==
      ExecBody(p, bodies, [1], 1, Nil, Activation([], [NINE], NO_STORE), 1)
    ensures ExecFunc(p, bodies, 0, [], NO_STORE, 1) == Returned(Activation([], [NINE], NO_STORE))
  {
    assert ExecBody(p, bodies, [1], 1, Nil, Activation([], [NINE], NO_STORE), 1) == Normal(Activation([], [NINE], NO_STORE));
    hide ExecBody;
    assert [] + ZeroLocals([][0..]) == [];
  }

  /** The callee's locals start one cell too low, on the caller's 9: it returns that cell, which is
      then dropped, and the caller's own return reads below its frame. */
  lemma LocalRun(n: nat)
    requires n >= 6
    ensures Run(LocalProgram(), Config([], [Frame(0, 0, 0)], NO_STORE), 0, n).Stuck?
  {
    hide Step, Run, LocalModule;
    var p := LocalProgram();
    var c0, c1 := Config([], [Frame(0, 0, 0)], NO_STORE), Config([NINE], [Frame(0, 0, 1)], NO_STORE);
    var c2 := Config([NINE], [Frame(0, 0, 2), Frame(1, 0, 0)], NO_STORE);
    var c3 := Config([NINE, NINE], [Frame(0, 0, 2), Frame(1, 0, 1)], NO_STORE);
    var c4, c5 := Config([NINE], [Frame(0, 0, 2)], NO_STORE), Config([], [Frame(0, 0, 3)], NO_STORE);
    FirstStep(p);
    SecondStep(p);
    ThirdStep(p);
    FourthStep(p);
    FifthStep(p);
    SixthStep(p);
    SixTurns(p, c0, c1, c2, c3, c4, c5, n);
  }

  lemma SixTurns(p: Program, c0: Config, c1: Config, c2: Config, c3: Config, c4: Config, c5: Config, n: nat)
    requires |c0.frames| > 0 && |c1.frames| > 0 && |c2.frames| > 0 && |c3.frames| > 0 && |c4.frames| > 0 && |c5.frames| > 0
    requires Step(p, c0) == Running(c1) && Step(p, c1) == Running(c2) && Step(p, c2) == Running(c3)
    requires Step(p, c3) == Running(c4) && Step(p, c4) == Running(c5) && Step(p, c5).Stuck? && n >= 6
    ensures Run(p, c0, 0, n).Stuck?
  {
    hide Step, Run;
    Turn(p, c0, c1, n);
    Turn(p, c1, c2, n - 1);
    Turn(p, c2, c3, n - 2);
    Turn(p, c3, c4, n - 3);
    Turn(p, c4, c5, n - 4);
    StuckRuns(p, c5, n - 5);
  }

  lemma StuckRuns(p: Program, c: Config, n: nat)
    requires n > 0 && |c.frames| > 0 && Step(p, c).Stuck?
    ensures Run(p, c, 0, n).Stuck?
  {
    hide Step;
  }

  lemma FirstStep(p: Program)
    requires p == LocalProgram()
    ensures Step(p, Config([], [Frame(0, 0, 0)], NO_STORE)) == Running(Config([NINE], [Frame(0, 0, 1)], NO_STORE))
  {
    assert [] + [NINE] == [NINE];
  }

  lemma SecondStep(p: Program)
    requires p == LocalProgram()
    ensures Step(p, Config([NINE], [Frame(0, 0, 1)], NO_STORE)) == Running(Config([NINE], [Frame(0, 0, 2), Frame(1, 0, 0)], NO_STORE))
  {
    assert [Frame(0, 0, 2)] + [Frame(1, 0, 0)] == [Frame(0, 0, 2), Frame(1, 0, 0)];
  }

  lemma ThirdStep(p: Program)
    requires p == LocalProgram()
    ensures Step(p, Config([NINE], [Frame(0, 0, 2), Frame(1, 0, 0)], NO_STORE)) == Running(Config([NINE, NINE], [Frame(0, 0, 2), Frame(1, 0, 1)], NO_STORE))
  {
    assert [NINE] + [NINE] == [NINE, NINE];
  }

  lemma FourthStep(p: Program)
    requires p == LocalProgram()
    ensures Step(p, Config([NINE, NINE], [Frame(0, 0, 2), Frame(1, 0, 1)], NO_STORE)) == Running(Config([NINE], [Frame(0, 0, 2)], NO_STORE))
  {
    assert [NINE, NINE][..0] + Last([NINE, NINE], 1) == [NINE];
    assert Front([Frame(0, 0, 2), Frame(1, 0, 1)], 1) == [Frame(0, 0, 2)];
  }

  lemma FifthStep(p: Program)
    requires p == LocalProgram()
    ensures Step(p, Config([NINE], [Frame(0, 0, 2)], NO_STORE)) == Running(Config([], [Frame(0, 0, 3)], NO_STORE))
  {
    assert Front([NINE], 1) == [];
  }

  lemma SixthStep(p: Program)
    requires p == LocalProgram()
    ensures Step(p, Config([], [Frame(0, 0, 3)], NO_STORE)).Stuck?
  {
  }

  /** A callee with a local of its own matters: an accepted and compiled module, without loops, that
      returns 9 by the structured semantics and leaves the machine undefined. */
  lemma CalleeLocals(n: nat)
    requires n >= 6
    ensures Compiled(LocalModule(), 0) && Compiled(LocalModule(), 1) && !PlainCallee(LocalProgram(), 1)
    ensures ExecFunc(LocalProgram(), LocalModule().bodies, 0, [], NO_STORE, 1) == Returned(Activation([], [NINE], NO_STORE))
    ensures Run(LocalProgram(), Config([], [Frame(0, 0, 0)], NO_STORE), 0, n).Stuck?
  {
    hide ExecFunc, Run, CheckBody, LayFunction;
    CallerCompiles();
    CalleeCompiles();
    LocalMeaning();
    LocalRun(n);
  }

  lemma LocalCall()
    ensures CallOk(LocalModule(), Config([], [], NO_STORE), 0, [])
    ensures HostEnter(LocalProgram(), Config([], [], NO_STORE), 0, []) == Running(Config([], [Frame(0, 0, 0)], NO_STORE))
  {
    hide CheckBody, LayFunction;
    CallerCompiles();
    CalleeCompiles();
    assert [] + [] + ZeroLocals([][0..]) == [];
    assert [] + [Frame(0, 0, 0)] == [Frame(0, 0, 0)];
  }

  /** And it strays before it is stuck. */
  lemma CalleeStrays()
    ensures StraysWithin(LocalModule(), Config([], [Frame(0, 0, 0)], NO_STORE), 0, 6)
  {
    hide CallOk, HostEnter, Run, StraysWithin, LocalModule, Tidy;
    LocalCall();
    LocalRun(6);
    NeverStuck(LocalModule(), Config([], [], NO_STORE), 0, [], 6);
  }
}
