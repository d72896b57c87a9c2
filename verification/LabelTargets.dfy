/** Where branches go: every target of a compiled body is the first opcode of its loop, the `end`
    of its construct, the opcode after an `else`, or the end of the code. */
module LabelTargets {
  import opened Wasm
  import opened Checking
  import opened CheckerInvariants
  import opened Structure
  import opened Reading
  import opened Layout
  import opened OnePass
  import opened Execution

  /** The position before instruction `k` is one that branches may go to. */
  predicate Landing(code: seq<Instr>, k: nat)
    requires k <= |code|
  {
    k == |code| || code[k].Loop? || code[k].End? || (k > 0 && code[k - 1].Else?)
  }

  predicate LandsAt(code: seq<Instr>, q: nat, k: nat) {
    k <= |code| && Records(code[..k]) == q && Landing(code, k)
  }

  ghost predicate Lands(code: seq<Instr>, q: nat) {
    exists k: nat :: LandsAt(code, q, k)
  }

  predicate TableAt(code: seq<Instr>, q: nat, k: nat) {
    k < |code| && code[k].BrTable? && Records(code[..k]) == q
  }

  /** The first record of a `br_table` holds a count, not a target. */
  ghost predicate TableHead(code: seq<Instr>, q: nat) {
    exists k: nat :: TableAt(code, q, k)
  }

  ghost predicate Resolved(code: seq<Instr>, q: nat, rec: Rec) {
    rec.Jump? ==> (TableHead(code, q) && rec.v2 == 0) || Lands(code, rec.v2)
  }

  ghost predicate AllResolved(code: seq<Instr>, pc: nat, lay: seq<Rec>) {
    forall q :: 0 <= q < |lay| ==> Resolved(code, pc + q, lay[q])
  }

  lemma ResolvedConcat(code: seq<Instr>, pc: nat, xs: seq<Rec>, ys: seq<Rec>)
    requires AllResolved(code, pc, xs) && AllResolved(code, pc + |xs|, ys)
    ensures AllResolved(code, pc, xs + ys)
  {
    forall q | 0 <= q < |xs + ys| ensures Resolved(code, pc + q, (xs + ys)[q]) {
      if q >= |xs| { assert Resolved(code, pc + |xs| + (q - |xs|), ys[q - |xs|]); }
    }
  }

  /** The stream `part` stands in `code` after `i` instructions, which take `pc` records. */
  predicate Stands(code: seq<Instr>, i: nat, part: seq<Instr>, pc: nat) {
    i + |part| <= |code| && code[i..i + |part|] == part && Records(code[..i]) == pc
  }

  lemma SliceSplit(code: seq<Instr>, i: nat, xs: seq<Instr>, ys: seq<Instr>)
    requires i + |xs| + |ys| <= |code| && code[i..i + |xs| + |ys|] == xs + ys
    ensures code[i..i + |xs|] == xs && code[i + |xs|..i + |xs| + |ys|] == ys
    ensures code[..i + |xs|] == code[..i] + xs
  {
    var both := code[i..i + |xs| + |ys|];
    assert both[..|xs|] == xs && both[|xs|..] == ys;
    assert code[i..i + |xs|] == both[..|xs|];
    assert code[i + |xs|..i + |xs| + |ys|] == both[|xs|..];
  }

  lemma StandsSplit(code: seq<Instr>, i: nat, xs: seq<Instr>, ys: seq<Instr>, pc: nat)
    requires Stands(code, i, xs + ys, pc)
    ensures Stands(code, i, xs, pc) && Stands(code, i + |xs|, ys, pc + Records(xs))
  {
    hide Records, Stands;
    StandsParts(code, i, xs, ys, pc);
    SliceSplit(code, i, xs, ys);
    RecordsAfter(code, i, xs, pc);
    StandsWith(code, i, xs, pc);
    StandsWith(code, i + |xs|, ys, pc + Records(xs));
  }

  lemma StandsParts(code: seq<Instr>, i: nat, xs: seq<Instr>, ys: seq<Instr>, pc: nat)
    requires Stands(code, i, xs + ys, pc)
    ensures i + |xs| + |ys| <= |code| && code[i..i + |xs| + |ys|] == xs + ys && Records(code[..i]) == pc
  {
    hide Records;
  }

  lemma StandsWith(code: seq<Instr>, i: nat, part: seq<Instr>, pc: nat)
    requires i + |part| <= |code| && code[i..i + |part|] == part && Records(code[..i]) == pc
    ensures Stands(code, i, part, pc)
  {
    hide Records;
  }

  lemma RecordsAfter(code: seq<Instr>, i: nat, xs: seq<Instr>, pc: nat)
    requires i + |xs| <= |code| && code[..i + |xs|] == code[..i] + xs && Records(code[..i]) == pc
    ensures Records(code[..i + |xs|]) == pc + Records(xs)
  {
    hide Records;
    RecordsConcat(code[..i], xs);
  }

  lemma LandsHere(code: seq<Instr>, i: nat, part: seq<Instr>, pc: nat)
    requires Stands(code, i, part, pc) && Landing(code, i)
    ensures Lands(code, pc)
  {
    assert LandsAt(code, pc, i);
  }

  ghost predicate EnvLands(code: seq<Instr>, env: seq<Target>) {
    forall j :: 0 <= j < |env| ==> Lands(code, env[j].offset)
  }

  lemma PlainTargets(ctx: Context, code: seq<Instr>, i: nat, ins: PlainInstr, c: Checker, pc: nat, env: seq<Target>)
    requires Stands(code, i, [ins], pc) && Valid(c) && Check(ctx, c, ins).Some?
    requires |env| == |c.labels| && EnvLands(code, env)
    ensures AllResolved(code, pc, LayPlain(ctx, ins, env))
  {
    hide Lands, Check;
    PlainDepths(ctx, c, ins);
    if ins.BrTable? {
      assert code[i] == code[i..i + 1][0] == ins;
      assert TableAt(code, pc, i);
    }
  }

  lemma {:induction false} BodyTargets(ctx: Context, code: seq<Instr>, i: nat, b: Body, c: Checker, pc: nat, next: nat, env: seq<Target>)
    requires Valid(c) && CheckBody(ctx, b, c).Some? && Stands(code, i, Flatten(b), pc)
    requires |env| == |c.labels| && EnvLands(code, env)
    ensures AllResolved(code, pc, LayBody(ctx, b, c, pc, next, env))
    decreases b, 0
  {
    hide Check, Valid, Stands, EnvLands, Resolved, LayIns, CheckIns, FlattenIns, Records, SizeIns, LabelsIns;
    match b
    case Nil =>
    case Cons(h, t) =>
      var c1 := CheckIns(ctx, h, c).value;
      InsKeeps(ctx, h, c);
      StandsSplit(code, i, FlattenIns(h), Flatten(t), pc);
      SizeInsIsRecords(h);
      InsTargets(ctx, code, i, h, c, pc, next, env);
      BodyTargets(ctx, code, i + |FlattenIns(h)|, t, c1, pc + SizeIns(h), next + LabelsIns(h), env);
      ResolvedConcat(code, pc, LayIns(ctx, h, c, pc, next, env), LayBody(ctx, t, c1, pc + SizeIns(h), next + LabelsIns(h), env));
  }

  /** A bracket whose body follows `open`; `head` is the record `open` itself compiles to, if any. */
  lemma {:induction false} ArmTargets(ctx: Context, code: seq<Instr>, i: nat, open: Instr, b: Body, close: Instr, c: Checker,
      pc: nat, next: nat, env: seq<Target>, t: Target)
    requires Valid(c) && |c.labels| > 0 && CheckBody(ctx, b, c).Some? && |env| + 1 == |c.labels| && EnvLands(code, env)
    requires Stands(code, i, [open] + Flatten(b) + [close], pc)
    requires Lands(code, t.offset)
    ensures AllResolved(code, pc + RecordsOf(open), LayBody(ctx, b, c, pc + RecordsOf(open), next, env + [t]))
    decreases b, 1
  {
    hide Check, Valid, Stands, Resolved, Records, CheckBody, LayBody, Flatten, Lands;
    StandsSplit(code, i, [open] + Flatten(b), [close], pc);
    StandsSplit(code, i, [open], Flatten(b), pc);
    RecordsOne(open);
    BodyTargets(ctx, code, i + 1, b, c, pc + RecordsOf(open), next, env + [t]);
  }

  /** The bracket's own `end` may be branched to. */
  lemma {:induction false} EndLands(code: seq<Instr>, i: nat, open: Instr, b: Body, pc: nat)
    requires Stands(code, i, [open] + Flatten(b) + [End], pc)
    ensures Lands(code, pc + RecordsOf(open) + Size(b))
  {
    hide Records, Flatten, Lands, Size;
    var inner := [open] + Flatten(b);
    StandsSplit(code, i, inner, [End], pc);
    RecordsConcat([open], Flatten(b));
    RecordsOne(open);
    SizeIsRecords(b);
    assert code[i + |inner|] == code[i + |inner|..i + |inner| + 1][0] == End;
    LandsHere(code, i + |inner|, [End], pc + Records(inner));
  }

  lemma LoopLands(code: seq<Instr>, i: nat, sig: seq<ValType>, b: Body, pc: nat)
    requires Stands(code, i, [Loop(sig)] + Flatten(b) + [End], pc)
    ensures Lands(code, pc)
  {
    hide Records, Flatten;
    assert code[i] == code[i..i + |[Loop(sig)] + Flatten(b) + [End]|][0] == Loop(sig);
    LandsHere(code, i, [Loop(sig)] + Flatten(b) + [End], pc);
  }

  lemma OneRecord(code: seq<Instr>, q: nat, rec: Rec)
    requires Resolved(code, q, rec)
    ensures AllResolved(code, q, [rec])
  {
    assert q + 0 == q;
  }

  lemma ClosingResolved(code: seq<Instr>, pc: nat, arm: seq<Rec>, h: nat, r: nat)
    requires AllResolved(code, pc, arm)
    ensures AllResolved(code, pc, Closing(arm, h, r))
  {
    hide Lands, TableHead;
  }

  lemma {:induction false} InsTargets(ctx: Context, code: seq<Instr>, i: nat, ins: Ins, c: Checker, pc: nat, next: nat, env: seq<Target>)
    requires Valid(c) && CheckIns(ctx, ins, c).Some? && Stands(code, i, FlattenIns(ins), pc)
    requires |env| == |c.labels| && EnvLands(code, env)
    ensures AllResolved(code, pc, LayIns(ctx, ins, c, pc, next, env))
    decreases ins
  {
    hide Check, AnyOnlyAtDeadLimit, LimitsOrdered, Stands, Resolved, Records, CheckBody, LayBody, Flatten, EnvLands, Lands, Size;
    match ins
    case Plain(p) => PlainTargets(ctx, code, i, p, c, pc, env);
    case BlockIns(sig, b) =>
      PushLabelKeeps(c, BlockLabel, sig);
      EndLands(code, i, Block(sig), b, pc);
      ArmTargets(ctx, code, i, Block(sig), b, End, PushLabel(c, BlockLabel, sig), pc, next + 1, env, Target(next, pc + Size(b)));
      ClosingResolved(code, pc, LayBody(ctx, b, PushLabel(c, BlockLabel, sig), pc, next + 1, env + [Target(next, pc + Size(b))]),
        |c.types|, |sig|);
    case LoopIns(sig, b) =>
      PushLabelKeeps(c, LoopLabel, sig);
      LoopLands(code, i, sig, b, pc);
      ArmTargets(ctx, code, i, Loop(sig), b, End, PushLabel(c, LoopLabel, sig), pc, next + 1, env, Target(next, pc));
      ClosingResolved(code, pc, LayBody(ctx, b, PushLabel(c, LoopLabel, sig), pc, next + 1, env + [Target(next, pc)]),
        |c.types|, |sig|);
    case IfIns(sig, b) => IfTargets(ctx, code, i, sig, b, c, pc, next, env);
    case IfElseIns(sig, b1, b2) => IfElseTargets(ctx, code, i, sig, b1, b2, c, pc, next, env);
  }

  lemma {:induction false} IfTargets(ctx: Context, code: seq<Instr>, i: nat, sig: seq<ValType>, b: Body, c: Checker, pc: nat,
      next: nat, env: seq<Target>)
    requires Valid(c) && CheckIns(ctx, IfIns(sig, b), c).Some? && Stands(code, i, FlattenIns(IfIns(sig, b)), pc)
    requires |env| == |c.labels| && EnvLands(code, env)
    ensures AllResolved(code, pc, LayIns(ctx, IfIns(sig, b), c, pc, next, env))
    decreases b, 2
  {
    hide Check, Valid, Stands, Records, CheckBody, LayBody, Flatten, EnvLands, Lands, Size, SameLabel;
    IfStarts(ctx, c, sig);
    SameDepth(c, IfBase(c));
    var c1 := Check(ctx, c, If(sig)).value;
    var t := Target(next, pc + 1 + Size(b));
    EndLands(code, i, If(sig), b, pc);
    ArmTargets(ctx, code, i, If(sig), b, End, c1, pc, next + 1, env, t);
    var arm := LayBody(ctx, b, c1, pc + 1, next + 1, env + [t]);
    ClosingResolved(code, pc + 1, arm, |c1.types|, |sig|);
    OneRecord(code, pc, Jump(OpIf, next, t.offset));
    ResolvedConcat(code, pc, [Jump(OpIf, next, t.offset)], Closing(arm, |c1.types|, |sig|));
  }

  lemma SameDepth(c: Checker, d: Checker)
    requires SameLabel(c, d)
    ensures |c.labels| == |d.labels| > 0
  {
  }

  lemma {:induction false} IfElseTargets(ctx: Context, code: seq<Instr>, i: nat, sig: seq<ValType>, b1: Body, b2: Body, c: Checker,
      pc: nat, next: nat, env: seq<Target>)
    requires Valid(c) && CheckIns(ctx, IfElseIns(sig, b1, b2), c).Some?
    requires Stands(code, i, FlattenIns(IfElseIns(sig, b1, b2)), pc)
    requires |env| == |c.labels| && EnvLands(code, env)
    ensures AllResolved(code, pc, LayIns(ctx, IfElseIns(sig, b1, b2), c, pc, next, env))
    decreases IfElseIns(sig, b1, b2), 0
  {
    hide Check, Valid, Stands, Records, CheckBody, LayBody, Flatten, EnvLands, Lands, Size, SameLabel, PopTypes;
    IfStarts(ctx, c, sig);
    var c0 := IfBase(c);
    SameDepth(c, c0);
    var c1, c2 := PushLabel(c0, IfLabel, sig), PushLabel(c0, ElseLabel, sig);
    BodyKeeps(ctx, b1, c1);
    ElseRestarts(ctx, b1, c0, sig);
    var thn, els := [If(sig)] + Flatten(b1) + [Else], [Else] + Flatten(b2) + [End];
    var mid := pc + 1 + Size(b1);
    var t := Target(next, mid + 1 + Size(b2));
    IfElseStands(code, i, sig, b1, b2, pc);
    EndLands(code, i + 1 + |Flatten(b1)|, Else, b2, mid);
    ArmTargets(ctx, code, i, If(sig), b1, Else, c1, pc, next + 1, env, t);
    ArmTargets(ctx, code, i + 1 + |Flatten(b1)|, Else, b2, End, c2, mid, next + 1 + Labels(b1), env, t);
    var arm1, arm2 := LayBody(ctx, b1, c1, pc + 1, next + 1, env + [t]), LayBody(ctx, b2, c2, mid + 1, next + 1 + Labels(b1), env + [t]);
    TwoArmsResolved(code, pc, arm1, arm2, next, |c1.types|, |sig|);
  }

  lemma {:induction false} IfElseStands(code: seq<Instr>, i: nat, sig: seq<ValType>, b1: Body, b2: Body, pc: nat)
    requires Stands(code, i, FlattenIns(IfElseIns(sig, b1, b2)), pc)
    ensures Stands(code, i, [If(sig)] + Flatten(b1) + [Else], pc)
    ensures Stands(code, i + 1 + |Flatten(b1)|, [Else] + Flatten(b2) + [End], pc + 1 + Size(b1))
    ensures Lands(code, pc + 2 + Size(b1))
  {
    hide Stands, Records, Flatten, Lands, Size;
    var x, rest := [If(sig)] + Flatten(b1), [Else] + Flatten(b2) + [End];
    assert FlattenIns(IfElseIns(sig, b1, b2)) == x + rest == (x + [Else]) + (Flatten(b2) + [End]);
    StandsSplit(code, i, x, rest, pc);
    StandsSplit(code, i, x + [Else], Flatten(b2) + [End], pc);
    RecordsConcat([If(sig)], Flatten(b1));
    RecordsOne(If(sig));
    SizeIsRecords(b1);
    RecordsConcat(x, [Else]);
    RecordsOne(Else);
    AfterElse(code, i, x, pc);
    LandsHere(code, i + |x| + 1, Flatten(b2) + [End], pc + Records(x + [Else]));
  }

  lemma AfterElse(code: seq<Instr>, i: nat, x: seq<Instr>, pc: nat)
    requires Stands(code, i, x + [Else], pc)
    ensures i + |x| + 1 <= |code| && Landing(code, i + |x| + 1)
  {
    assert code[i + |x|] == code[i..i + |x + [Else]|][|x|] == Else;
  }

  lemma TwoArmsResolved(code: seq<Instr>, pc: nat, arm1: seq<Rec>, arm2: seq<Rec>, id: nat, h: nat, r: nat)
    requires AllResolved(code, pc + 1, arm1) && AllResolved(code, pc + 2 + |arm1|, arm2)
    requires Lands(code, pc + 2 + |arm1|) && Lands(code, pc + 2 + |arm1| + |arm2|)
    ensures AllResolved(code, pc, TwoArms(arm1, arm2, pc, id, h, r))
  {
    hide Lands, TableHead, AllResolved;
    var one, two := [Jump(OpIf, id, pc + 2 + |arm1|)], [Jump(OpElse, id, pc + 2 + |arm1| + |arm2|)];
    OneRecord(code, pc, one[0]);
    ResolvedConcat(code, pc, one, arm1);
    OneRecord(code, pc + 1 + |arm1|, two[0]);
    ResolvedConcat(code, pc, one + arm1, two);
    ClosingResolved(code, pc + 2 + |arm1|, arm2, h, r);
    ResolvedConcat(code, pc, one + arm1 + two, Closing(arm2, h, r));
    assert TwoArms(arm1, arm2, pc, id, h, r) == one + arm1 + two + Closing(arm2, h, r);
  }

  lemma {:induction false} RecordsMonotone(code: seq<Instr>, k: nat)
    requires k <= |code|
    ensures Records(code[..k]) <= Records(code)
  {
    assert code == code[..k] + code[k..];
    RecordsConcat(code[..k], code[k..]);
  }

  /** Label resolution: after `EndFunctionBody` no branch record of an accepted body keeps the mark
      of an unknown position; every target is the first opcode of a loop, the `end` of a construct,
      the opcode after an `else`, or the end of the code. */
  lemma LabelsResolved(ctx: Context, code: seq<Instr>, q: nat)
    requires Records(code) < INVALID_INDEX && Accepts(ctx, code)
    ensures CompileBody(ctx, code).Some? && |CompileBody(ctx, code).value| == Records(code)
    ensures
      var flat := CompileBody(ctx, code).value;
      q < |flat| && flat[q].Jump? ==>
        flat[q].v2 != INVALID_INDEX && ((TableHead(code, q) && flat[q].v2 == 0) || (flat[q].v2 <= |flat| && Lands(code, flat[q].v2)))
  {
    hide CompileBody, LayBody, CheckBody, Records, Accepts;
    CompiledIsLaidOut(ctx, code);
    var b :| Denotes(ctx, code, b);
    SizeIsRecords(b);
    var c, env := BeginFunction(ctx), [Target(0, Size(b))];
    BeginFunctionValid(ctx);
    assert code[..|code|] == code && code[..0] == [] && code[0..|code|] == code;
    assert LandsAt(code, Records(code), |code|);
    NoRecords();
    BodyTargets(ctx, code, 0, b, c, 0, 1, env);
    var flat := CompileBody(ctx, code).value;
    if q < |flat| && flat[q].Jump? {
      assert Resolved(code, 0 + q, LayBody(ctx, b, c, 0, 1, env)[q]);
      if Lands(code, flat[q].v2) {
        var k: nat :| LandsAt(code, flat[q].v2, k);
        RecordsMonotone(code, k);
      }
    }
  }

  lemma NoRecords()
    ensures Records([]) == 0
  {
  }
}
