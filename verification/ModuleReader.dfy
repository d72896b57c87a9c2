/** The module reader as the object it is: an opcode vector, a label table and a label stack,
    extended and patched in place while the type checker runs beside it. */
module ModuleReaderObject {
  import opened Wasm
  import opened Checking
  import opened CheckerInvariants
  import opened Structure
  import opened Reading
  import opened TypeCheckerObject

  ghost predicate NoVoid(c: Checker) {
    forall k :: 0 <= k < |c.types| ==> c.types[k] != Void
  }

  lemma DropNoVoid(c: Checker, n: nat)
    requires NoVoid(c) && |c.labels| > 0 && DropTypes(c, n).Some?
    ensures NoVoid(DropTypes(c, n).value)
  {
  }

  lemma ApplyNoVoid(c: Checker, params: seq<Type>, results: seq<ValType>)
    requires NoVoid(c) && |c.labels| > 0
    ensures PopTypes(c, params).Some? ==> NoVoid(PopTypes(c, params).value)
    ensures Apply(c, params, results).Some? ==> NoVoid(Apply(c, params, results).value)
  {
    hide SignatureOk, DropTypes;
    if PopTypes(c, params).Some? { DropNoVoid(c, |params|); }
  }

  lemma ResetNoVoid(c: Checker)
    requires NoVoid(c) && |c.labels| > 0
    ensures NoVoid(SetUnreachable(c))
  {
  }

  lemma SelectNoVoid(c: Checker)
    requires NoVoid(c) && |c.labels| > 0 && OnSelect(c).Some?
    ensures NoVoid(OnSelect(c).value)
  {
    DropNoVoid(c, 3);
    hide DropTypes;
  }

  lemma ArrowNoVoid(ctx: Context, c: Checker, i: Instr)
    requires NoVoid(c) && HasArrow(i) && Check(ctx, c, i).Some?
    ensures NoVoid(Check(ctx, c, i).value)
  {
    hide Apply, PopTypes;
    var a := Arrow(ctx, i).value;
    hide Arrow;
    if OnlyPushes(i) {
    } else if i.CallIndirect? {
      ApplyNoVoid(c, [I32], []);
      PopTypesLabels(c, [I32]);
      ApplyNoVoid(PopTypes(c, [I32]).value, ctx.types[i.sig].params, a.results);
    } else {
      ApplyNoVoid(c, a.params, a.results);
    }
  }

  lemma PopTypesLabels(c: Checker, ts: seq<Type>)
    requires |c.labels| > 0
    ensures PopTypes(c, ts).Some? ==> PopTypes(c, ts).value.labels == c.labels
  {
  }

  /** The type stack never holds `Void`. */
  lemma NoVoidStays(ctx: Context, c: Checker, i: Instr)
    requires NoVoid(c) && Check(ctx, c, i).Some?
    ensures NoVoid(Check(ctx, c, i).value)
  {
    hide PopTypes, SetUnreachable, OnSelect, DropTypes, Arrow, Apply;
    if HasArrow(i) { ArrowNoVoid(ctx, c, i); }
    else if i.Block? || i.Loop? { }
    else {
      ApplyNoVoid(c, [I32], []);
      PopTypesLabels(c, [I32]);
      if i.Select? { SelectNoVoid(c); }
      else if i.Drop? { DropNoVoid(c, 1); }
      else if i.Unreachable? || i.Br? { ResetNoVoid(c); }
      else if i.Return? {
        ApplyNoVoid(c, c.labels[0].sig, []);
        PopTypesLabels(c, c.labels[0].sig);
        ResetNoVoid(PopTypes(c, c.labels[0].sig).value);
      }
      else if i.BrTable? { ResetNoVoid(PopTypes(c, [I32]).value); }
      else if i.BrIf? { BrIfNoVoid(c, i.depth); }
      else if i.If? { }
      else {
        ApplyNoVoid(c, Top(c).sig, []);
        PopTypesLabels(c, Top(c).sig);
      }
    }
  }

  lemma BrIfNoVoid(c: Checker, d: nat)
    requires NoVoid(c) && |c.labels| > 0 && OnBrIf(c, d).Some?
    ensures NoVoid(OnBrIf(c, d).value)
  {
    hide PopTypes, Apply;
    ApplyNoVoid(c, [I32], []);
    PopTypesLabels(c, [I32]);
    var c1 := PopTypes(c, [I32]).value;
    if !LabelAt(c1, d).kind.LoopLabel? { ApplyNoVoid(c1, LabelAt(c1, d).sig, LabelAt(c1, d).sig); }
  }

  /** The records of the first `n` targets of a `br_table`. */
  ghost function Entries(labelStack: seq<nat>, depths: seq<nat>): seq<Rec> {
    seq(|depths|, k requires 0 <= k < |depths| => Jump(OpBrTable, AtDepth(labelStack, depths[k]), INVALID_INDEX))
  }

  lemma OneMoreEntry(labelStack: seq<nat>, depths: seq<nat>, i: nat)
    requires i < |depths|
    ensures Entries(labelStack, depths[..i + 1]) ==
      Entries(labelStack, depths[..i]) + [Jump(OpBrTable, AtDepth(labelStack, depths[i]), INVALID_INDEX)]
  {
  }

  lemma OneMoreTarget(c: Checker, all: seq<nat>, i: nat, sig: Type)
    requires |c.labels| > 0 && i < |all|
    ensures OnBrTableTargets(c, all[i..], sig) ==
      match OnBrTableTarget(c, all[i], sig) {
        case None => None
        case Some(s) => OnBrTableTargets(c, all[i + 1..], s)
      }
  {
    hide OnBrTableTarget;
    assert all[i..][0] == all[i] && all[i..][1..] == all[i + 1..];
  }

  lemma OneMoreRead(c: Checker, n: nat, all: seq<nat>, i: nat, sig: Type)
    requires |c.labels| > 0 && i < |all|
    ensures ReadsInRange(c, n, all[i..], sig) <==>
      all[i] < n && match OnBrTableTarget(c, all[i], sig) { case None => true case Some(s) => ReadsInRange(c, n, all[i + 1..], s) }
    ensures ReadsInRange(c, n, [], sig)
  {
    hide OnBrTableTarget;
    assert all[i..][0] == all[i] && all[i..][1..] == all[i + 1..];
  }

  lemma NoEntries(labelStack: seq<nat>, depths: seq<nat>)
    requires depths == []
    ensures Entries(labelStack, depths) == []
  {
  }

  lemma NoTargets(c: Checker, sig: Type)
    requires |c.labels| > 0
    ensures OnBrTableTargets(c, [], sig) == Some(sig)
  {
  }

  /* ---- reads of the label stack ahead of the check ---- */

  /** `OnBrTableExpr` reads the label of each target before the checker has looked at its depth: whether
      every read it makes stays within the `n` open labels. */
  predicate ReadsInRange(c: Checker, n: nat, all: seq<nat>, sig: Type)
    requires |c.labels| > 0
    decreases |all|
  {
    all == [] ||
    (all[0] < n &&
      match OnBrTableTarget(c, all[0], sig)
      case None => true
      case Some(s) => ReadsInRange(c, n, all[1..], s))
  }

  predicate TableReadsInRange(r: Reader, depths: seq<nat>, default: nat) {
    |r.checker.labels| > 0 && PopTypes(r.checker, [I32]).Some? && |PopTypes(r.checker, [I32]).value.labels| > 0 ==>
      ReadsInRange(PopTypes(r.checker, [I32]).value, |r.labelStack|, depths + [default], Any)
  }

  /** The reads stay in range exactly when every target that all targets before it let the checker come to
      has a depth below the number of open labels. */
  lemma {:induction false} ReadsInRangeExact(c: Checker, n: nat, all: seq<nat>, sig: Type)
    requires |c.labels| > 0
    ensures ReadsInRange(c, n, all, sig) <==>
      forall k :: 0 <= k < |all| && OnBrTableTargets(c, all[..k], sig).Some? ==> all[k] < n
    decreases |all|
  {
    hide OnBrTableTarget;
    if all != [] {
      assert all[..0] == [];
      var first := OnBrTableTarget(c, all[0], sig);
      forall k | 1 <= k < |all|
        ensures OnBrTableTargets(c, all[..k], sig) ==
          match first case None => None case Some(s) => OnBrTableTargets(c, all[1..][..k - 1], s)
      {
        assert all[..k][0] == all[0] && all[..k][1..] == all[1..][..k - 1];
      }
      if first.Some? {
        ReadsInRangeExact(c, n, all[1..], first.value);
        assert forall k :: 1 <= k < |all| ==> all[k] == all[1..][k - 1];
        forall k | 0 <= k < |all[1..]| ensures all[1..][k] == all[k + 1] && all[1..][..k] == all[1..][..(k + 1) - 1] { }
      }
    }
  }

  /** A table that is accepted has been read within the open labels. */
  lemma {:induction false} AcceptedReadsInRange(c: Checker, all: seq<nat>, sig: Type)
    requires |c.labels| > 0 && OnBrTableTargets(c, all, sig).Some?
    ensures ReadsInRange(c, |c.labels|, all, sig)
    decreases |all|
  {
    if all != [] { AcceptedReadsInRange(c, all[1..], OnBrTableTarget(c, all[0], sig).value); }
  }

  /** A table whose default lies one beyond the only open label is refused, after a read out of range. */
  lemma ReadBeyond(ctx: Context)
    requires ctx.results == []
    ensures
      var r := Begin(ctx).(checker := PushTypes(Begin(ctx).checker, [I32]));
      && Agreeing(r) && !TableReadsInRange(r, [], 1) && Read(ctx, r, BrTable([], 1)).None?
  {
    var r := Begin(ctx).(checker := PushTypes(Begin(ctx).checker, [I32]));
    OneSelector(r.checker);
    var c1 := PopTypes(r.checker, [I32]).value;
    assert |r.labelStack| == 1;
    hide PopTypes, Read, Entries;
    assert [] + [1] == [1] && [1][1..] == [];
    assert OnBrTableTarget(c1, 1, Any).None?;
    BrTableRead(ctx, r, [], 1);
  }

  lemma OneSelector(c: Checker)
    requires |c.labels| == 1 && c.types == [I32] && c.labels[0].limit == 0
    ensures PopTypes(c, [I32]).Some? && PopTypes(c, [I32]).value.labels == c.labels
  {
    OneType(c, I32);
  }

  /** As many labels open in the reader as in the checker. */
  predicate Agreeing(r: Reader) {
    |r.labelStack| == |r.checker.labels|
  }

  lemma BrTableRead(ctx: Context, r: Reader, depths: seq<nat>, default: nat)
    ensures
      var spec := Read(ctx, r, BrTable(depths, default));
      if |r.checker.labels| == 0 || PopTypes(r.checker, [I32]).None? || |PopTypes(r.checker, [I32]).value.labels| == 0 then spec.None?
      else
        var c1 := PopTypes(r.checker, [I32]).value;
        if OnBrTableTargets(c1, depths + [default], Any).None? then spec.None?
        else spec == Some(Emit(r.(checker := SetUnreachable(c1)),
          [Jump(OpBrTable, |depths|, 0)] + Entries(r.labelStack, depths)
          + [Jump(OpBrTable, AtDepth(r.labelStack, default), INVALID_INDEX)]))
  {
    hide PopTypes, SetUnreachable, OnBrTableTargets, Entries, AtDepth, PlainRecs, Check;
    TableCheck(ctx, r.checker, depths, default);
    if |r.checker.labels| > 0 { PopTypesLabels(r.checker, [I32]); }
    BrTableRecs(ctx, r.labelStack, depths, default);
  }

  lemma TableCheck(ctx: Context, c: Checker, depths: seq<nat>, default: nat)
    ensures Check(ctx, c, BrTable(depths, default)) == if |c.labels| == 0 then None else OnBrTable(c, depths, default)
  {
    hide OnBrTable;
  }

  lemma BrTableRecs(ctx: Context, labelStack: seq<nat>, depths: seq<nat>, default: nat)
    ensures PlainRecs(ctx, BrTable(depths, default), labelStack) ==
      [Jump(OpBrTable, |depths|, 0)] + Entries(labelStack, depths) + [Jump(OpBrTable, AtDepth(labelStack, default), INVALID_INDEX)]
  {
    hide AtDepth;
  }

  lemma ArrowRead(ctx: Context, r: Reader, i: Instr)
    requires HasArrow(i) && !OnlyPushes(i) && !i.Call? && !i.CallIndirect?
    ensures
      var spec, a := Read(ctx, r, i), Arrow(ctx, i);
      if a.None? || |r.checker.labels| == 0 then spec.None?
      else
        var c := Apply(r.checker, a.value.params, a.value.results);
        if c.None? then spec.None? else spec == Some(Emit(r.(checker := c.value), [Op(i)]))
  {
    hide Arrow, Apply;
  }

  class ModuleReader {
    const ctx: Context
    const checker: TypeChecker
    var opcodes: seq<Rec>
    var labels: seq<LabelRec>
    var labelStack: seq<nat>

    constructor (ctx: Context)
      ensures this.ctx == ctx && opcodes == [] && labels == [] && labelStack == []
      ensures fresh(checker)
    {
      this.ctx := ctx;
      this.checker := new TypeChecker();
      opcodes, labels, labelStack := [], [], [];
    }

    ghost function State(): Reader
      reads this, checker
    {
      Reader(checker.State(), opcodes, labels, labelStack)
    }

    ghost predicate Tracks(ok: bool, spec: Option<Reader>)
      reads this, checker
    {
      ok == spec.Some? && (ok ==> State() == spec.value)
    }

    method EmitOpcode(rec: Rec)
      modifies this`opcodes
      ensures State() == Emit(old(State()), [rec])
    {
      opcodes := opcodes + [rec];
    }

    method PushLabel(results: nat, stack: nat, position: nat, origin: nat)
      modifies this`labels, this`labelStack
      ensures labels == old(labels) + [LabelRec(results, stack, position, origin)]
      ensures labelStack == old(labelStack) + [|old(labels)|]
    {
      labels := labels + [LabelRec(results, stack, position, origin)];
      labelStack := labelStack + [|labels| - 1];
    }

    method PopLabel(position: nat)
      requires position == |opcodes|
      modifies this`labels, this`labelStack
      ensures State() == PopLabelRec(old(State()))
    {
      var id := Back(labelStack);
      if id < |labels| && labels[id].offset == INVALID_INDEX {
        labels := labels[id := labels[id].(offset := position)];
      }
      if |labelStack| > 0 { labelStack := labelStack[..|labelStack| - 1]; }
    }

    method BeginFunctionBody()
      modifies this, checker
      ensures State() == Begin(ctx)
    {
      opcodes, labels, labelStack := [], [], [];
      checker.BeginFunction(ctx.results);
      PushLabel(|ctx.results|, 0, INVALID_INDEX, INVALID_INDEX);
    }

    /** Branches whose target was not known when they were emitted get it now. */
    method EndFunctionBody() returns (ok: bool, code: seq<Rec>)
      modifies this, checker
      ensures ok == Finish(old(State())).Some? && (ok ==> code == Finish(old(State())).value && opcodes == [] && labels == [])
    {
      code := [];
      ok := checker.EndFunction();
      if !ok { return; }
      PopLabel(|opcodes|);
      code := opcodes;
      for k := 0 to |code|
        invariant |code| == |opcodes|
        invariant forall j :: 0 <= j < k ==> code[j] == Patch(labels, opcodes[j])
        invariant forall j :: k <= j < |code| ==> code[j] == opcodes[j]
      {
        if code[k].Jump? && code[k].v2 == INVALID_INDEX && code[k].v1 < |labels| {
          code := code[k := code[k].(v2 := labels[code[k].v1].offset)];
        }
      }
      assert code == PatchAll(labels, opcodes);
      opcodes, labels := [], [];
    }

    /* ---- brackets ---- */

    method OnBlockExpr(sig: seq<ValType>) returns (ok: bool)
      modifies this, checker
      ensures Tracks(ok, Read(ctx, old(State()), Block(sig)))
    {
      checker.OnBlock(sig);
      PushLabel(|sig|, |checker.typeStack|, INVALID_INDEX, INVALID_INDEX);
      return true;
    }

    method OnLoopExpr(sig: seq<ValType>) returns (ok: bool)
      modifies this, checker
      ensures Tracks(ok, Read(ctx, old(State()), Loop(sig)))
    {
      checker.OnLoop(sig);
      PushLabel(|sig|, |checker.typeStack|, |opcodes|, INVALID_INDEX);
      return true;
    }

    method OnIfExpr(sig: seq<ValType>) returns (ok: bool)
      modifies this, checker
      ensures Tracks(ok, Read(ctx, old(State()), If(sig)))
    {
      if |checker.labelStack| == 0 { return false; }
      ok := checker.OnIf(sig);
      if !ok { return; }
      PushLabel(|sig|, |checker.typeStack|, INVALID_INDEX, |opcodes|);
      EmitOpcode(Jump(OpIf, Back(labelStack), INVALID_INDEX));
    }

    /** The `if` that this `else` belongs to is patched to the record after the `else`. */
    method OnElseExpr() returns (ok: bool)
      modifies this, checker
      ensures Tracks(ok, Read(ctx, old(State()), Else))
    {
      if |checker.labelStack| == 0 { return false; }
      ok := checker.OnElse();
      if !ok { return; }
      EmitOpcode(Jump(OpElse, Back(labelStack), INVALID_INDEX));
      var id := Back(labelStack);
      if id >= |labels| || labels[id].origin >= |opcodes| { return false; }
      var origin := labels[id].origin;
      opcodes := opcodes[origin := SetTarget(opcodes[origin], |opcodes|)];
    }

    method OnEndExpr() returns (ok: bool)
      modifies this, checker
      ensures Tracks(ok, Read(ctx, old(State()), End))
    {
      if |checker.labelStack| == 0 { return false; }
      ok := checker.OnEnd();
      if !ok { return; }
      var id := Back(labelStack);
      if id >= |labels| { return false; }
      var back := labels[id];
      PopLabel(|opcodes|);
      EmitOpcode(EndRec(back.stack, back.results));
    }

    /* ---- branches ---- */

    method OnBrExpr(depth: nat) returns (ok: bool)
      modifies this, checker
      ensures Tracks(ok, Read(ctx, old(State()), Br(depth)))
    {
      if |checker.labelStack| == 0 { return false; }
      ok := checker.OnBr(depth);
      if !ok { return; }
      EmitOpcode(Jump(OpBr, AtDepth(labelStack, depth), INVALID_INDEX));
    }

    method OnBrIfExpr(depth: nat) returns (ok: bool)
      modifies this, checker
      ensures Tracks(ok, Read(ctx, old(State()), BrIf(depth)))
    {
      if |checker.labelStack| == 0 { return false; }
      ok := checker.OnBrIf(depth);
      if !ok { return; }
      EmitOpcode(Jump(OpBrIf, AtDepth(labelStack, depth), INVALID_INDEX));
    }

    /** Records and checks one target after the other; the label of a target is read before its depth is
        checked, and `inRange` tells whether all these reads stayed within the label stack. */
    method OnBrTableExpr(depths: seq<nat>, default: nat) returns (ok: bool, ghost inRange: bool)
      modifies this, checker
      ensures Tracks(ok, Read(ctx, old(State()), BrTable(depths, default)))
      ensures inRange <==> TableReadsInRange(old(State()), depths, default)
    {
      hide Read, OnBrTableTarget, Entries, OnBrTableTargets, PopTypes, Checking.SetUnreachable, AtDepth;
      inRange := true;
      BrTableRead(ctx, State(), depths, default);
      if |checker.labelStack| == 0 {
        ok := false;
        return;
      }
      PopTypesLabels(checker.State(), [I32]);
      ok := checker.BeginBrTable();
      if !ok { return; }
      ghost var c1, all := checker.State(), depths + [default];
      var head := Jump(OpBrTable, |depths|, 0);
      EmitOpcode(head);
      assert Entries(labelStack, depths[..0]) == [] by { NoEntries(labelStack, depths[..0]); }
      for i := 0 to |depths|
        invariant checker.State() == c1 && |checker.labelStack| > 0
        invariant labels == old(labels) && labelStack == old(labelStack)
        invariant opcodes == old(opcodes) + ([head] + Entries(labelStack, depths[..i]))
        invariant OnBrTableTargets(c1, all, Any) == OnBrTableTargets(c1, all[i..], checker.brTableSig)
        invariant ReadsInRange(c1, |labelStack|, all, Any) <==> inRange && ReadsInRange(c1, |labelStack|, all[i..], checker.brTableSig)
      {
        inRange := inRange && depths[i] < |labelStack|;
        OneMoreRead(c1, |labelStack|, all, i, checker.brTableSig);
        EmitOpcode(Jump(OpBrTable, AtDepth(labelStack, depths[i]), INVALID_INDEX));
        OneMoreEntry(labelStack, depths, i);
        OneMoreTarget(c1, all, i, checker.brTableSig);
        ok := checker.OnBrTableTarget(depths[i]);
        if !ok { return; }
      }
      assert depths[..|depths|] == depths;
      inRange := inRange && default < |labelStack|;
      OneMoreRead(c1, |labelStack|, all, |depths|, checker.brTableSig);
      EmitOpcode(Jump(OpBrTable, AtDepth(labelStack, default), INVALID_INDEX));
      OneMoreTarget(c1, all, |depths|, checker.brTableSig);
      ok := checker.OnBrTableTarget(default);
      if !ok { return; }
      assert all[|depths| + 1..] == [];
      NoTargets(c1, checker.brTableSig);
      ok := checker.EndBrTable();
    }

    method OnReturnExpr() returns (ok: bool)
      modifies this, checker
      ensures Tracks(ok, Read(ctx, old(State()), Return))
    {
      if |checker.labelStack| == 0 { return false; }
      ok := checker.OnReturn();
      if !ok { return; }
      EmitOpcode(ReturnRec(|ctx.results|));
    }

    method OnUnreachableExpr() returns (ok: bool)
      modifies this, checker
      ensures Tracks(ok, Read(ctx, old(State()), Unreachable))
    {
      if |checker.labelStack| == 0 { return false; }
      ok := checker.OnUnreachable();
      EmitOpcode(Op(Unreachable));
    }

    /* ---- calls, parametric opcodes and the rest ---- */

    method OnCallExpr(func: nat) returns (ok: bool)
      modifies this, checker
      ensures Tracks(ok, Read(ctx, old(State()), Call(func)))
    {
      if func >= |ctx.funcs| || |checker.labelStack| == 0 { return false; }
      ok := checker.PopAndCheckCall(ctx.funcs[func].sig.params, ctx.funcs[func].sig.results);
      if !ok { return; }
      EmitOpcode(CallRec(func, ctx.funcs[func].imported));
    }

    method OnCallIndirectExpr(sig: nat) returns (ok: bool)
      modifies this, checker
      ensures Tracks(ok, Read(ctx, old(State()), CallIndirect(sig)))
    {
      if !ctx.hasTable || sig >= |ctx.types| || |checker.labelStack| == 0 { return false; }
      ok := checker.OnCallIndirect(ctx.types[sig].params, ctx.types[sig].results);
      if !ok { return; }
      EmitOpcode(Op(CallIndirect(sig)));
    }

    method OnDropExpr() returns (ok: bool)
      modifies this, checker
      ensures Tracks(ok, Read(ctx, old(State()), Drop))
    {
      if |checker.labelStack| == 0 { return false; }
      ok := checker.OnDrop();
      if !ok { return; }
      EmitOpcode(Op(Drop));
    }

    method OnSelectExpr() returns (ok: bool)
      requires NoVoid(checker.State())
      modifies this, checker
      ensures Tracks(ok, Read(ctx, old(State()), Select))
    {
      if |checker.labelStack| == 0 { return false; }
      ok := checker.OnSelect();
      if !ok { return; }
      EmitOpcode(Op(Select));
    }

    /** Opcodes that only push: constants, locals, globals, the memory size. */
    method OnPushExpr(i: Instr) returns (ok: bool)
      requires OnlyPushes(i) && !i.Nop?
      modifies this, checker
      ensures Tracks(ok, Read(ctx, old(State()), i))
    {
      var arrow := Arrow(ctx, i);
      if arrow.None? { return false; }
      checker.PushTypes(arrow.value.results);
      EmitOpcode(Op(i));
      return true;
    }

    /** Opcodes that pop and push fixed types: locals and globals written, memory accesses, growth
        and the numeric opcodes. */
    method OnArrowExpr(i: Instr) returns (ok: bool)
      requires HasArrow(i) && !OnlyPushes(i) && !i.Call? && !i.CallIndirect?
      modifies this, checker
      ensures Tracks(ok, Read(ctx, old(State()), i))
    {
      hide Read, Checking.Apply;
      ArrowRead(ctx, State(), i);
      var arrow := Arrow(ctx, i);
      hide Arrow;
      if arrow.None? || |checker.labelStack| == 0 { return false; }
      var params, results := arrow.value.params, arrow.value.results;
      if 1 <= |params| <= 2 && |results| <= 1 {
        ok := checker.CheckOpcode(params, results);
      } else {
        ok := checker.PopAndCheckCall(params, results);
      }
      if !ok { return; }
      EmitOpcode(Op(i));
    }

    method OnNop() returns (ok: bool)
      modifies this, checker
      ensures Tracks(ok, Read(ctx, old(State()), Nop))
    {
      assert opcodes + [] == opcodes && checker.typeStack + [] == checker.typeStack;
      return true;
    }

    method OnInstr(i: Instr) returns (ok: bool)
      requires NoVoid(checker.State())
      modifies this, checker
      ensures Tracks(ok, Read(ctx, old(State()), i))
    {
      hide Read;
      if i.Nop? { ok := OnNop(); }
      else if i.Unreachable? { ok := OnUnreachableExpr(); }
      else if i.Block? { ok := OnBlockExpr(i.results); }
      else if i.Loop? { ok := OnLoopExpr(i.results); }
      else if i.If? { ok := OnIfExpr(i.results); }
      else if i.Else? { ok := OnElseExpr(); }
      else if i.End? { ok := OnEndExpr(); }
      else if i.Br? { ok := OnBrExpr(i.depth); }
      else if i.BrIf? { ok := OnBrIfExpr(i.depth); }
      else if i.BrTable? {
        ghost var inRange;
        ok, inRange := OnBrTableExpr(i.depths, i.default);
      }
      else if i.Return? { ok := OnReturnExpr(); }
      else if i.Call? { ok := OnCallExpr(i.func); }
      else if i.CallIndirect? { ok := OnCallIndirectExpr(i.sig); }
      else if i.Drop? { ok := OnDropExpr(); }
      else if i.Select? { ok := OnSelectExpr(); }
      else if OnlyPushes(i) { ok := OnPushExpr(i); }
      else { ok := OnArrowExpr(i); }
    }

    /** One function body: the decoder's loop, stopping at the first error. */
    method ReadFunctionBody(code: seq<Instr>) returns (ok: bool, flat: seq<Rec>)
      modifies this, checker
      ensures ok == CompileBody(ctx, code).Some? && (ok ==> flat == CompileBody(ctx, code).value)
    {
      hide Read;
      flat := [];
      BeginFunctionBody();
      for k := 0 to |code|
        invariant NoVoid(checker.State())
        invariant ReadAll(ctx, Begin(ctx), code) == ReadAll(ctx, State(), code[k..])
      {
        ghost var before := State();
        assert code[k..][0] == code[k] && code[k..][1..] == code[k + 1..];
        ok := OnInstr(code[k]);
        if !ok { return; }
        ReadKeepsNoVoid(ctx, before, code[k]);
      }
      ok, flat := EndFunctionBody();
    }
  }

  lemma ReadKeepsNoVoid(ctx: Context, r: Reader, i: Instr)
    requires NoVoid(r.checker) && Read(ctx, r, i).Some?
    ensures NoVoid(Read(ctx, r, i).value.checker)
  {
    hide NoVoid;
    NoVoidStays(ctx, r.checker, i);
    hide Check;
  }
}
