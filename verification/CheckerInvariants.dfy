/** What every step of the checker keeps, whatever the instruction. */
module CheckerInvariants {
  import opened Wasm
  import opened Checking

  /** End of the region of the type stack that label `j` owns. */
  function RegionEnd(c: Checker, j: nat): nat
    requires j < |c.labels|
  {
    if j + 1 < |c.labels| then c.labels[j + 1].limit else |c.types|
  }

  predicate LimitsOrdered(c: Checker) {
    forall i, j :: 0 <= i <= j < |c.labels| ==> c.labels[i].limit <= c.labels[j].limit
  }

  /** `Any` sits only at the limit of the unreachable label that owns the cell. */
  predicate AnyOnlyAtDeadLimit(c: Checker) {
    forall j, k :: 0 <= j < |c.labels| && c.labels[j].limit <= k < RegionEnd(c, j) && k < |c.types| && c.types[k] == Any ==>
      k == c.labels[j].limit && c.labels[j].unreachable
  }

  predicate Valid(c: Checker) {
    && |c.labels| > 0
    && LimitsOrdered(c)
    && Top(c).limit <= |c.types|
    && c.labels[0].limit == 0
    && (forall j :: 0 <= j < |c.labels| ==> (c.labels[j].kind.FuncLabel? <==> j == 0))
    && (forall k :: 0 <= k < |c.types| ==> c.types[k] != Void)
    && AnyOnlyAtDeadLimit(c)
  }

  /** Inside one label: same enclosing labels, nothing below the limit touched, and a label
      that is dead stays dead. */
  predicate SameLabel(c: Checker, d: Checker) {
    && |c.labels| > 0 && |d.labels| == |c.labels|
    && d.labels[..|c.labels| - 1] == c.labels[..|c.labels| - 1]
    && Top(d).(unreachable := false) == Top(c).(unreachable := false)
    && (Top(c).unreachable ==> Top(d).unreachable)
    && Top(c).limit <= |c.types| && Top(c).limit <= |d.types|
    && d.types[..Top(c).limit] == c.types[..Top(c).limit]
  }

  lemma SameLabelTransitive(a: Checker, b: Checker, c: Checker)
    requires SameLabel(a, b) && SameLabel(b, c)
    ensures SameLabel(a, c)
  {
  }

  lemma TruncateKeeps(c: Checker, n: nat)
    requires Valid(c) && Top(c).limit <= n <= |c.types|
    ensures Valid(c.(types := c.types[..n])) && SameLabel(c, c.(types := c.types[..n]))
  {
    var d := c.(types := c.types[..n]);
    forall j, k | 0 <= j < |d.labels| && d.labels[j].limit <= k < RegionEnd(d, j) && k < |d.types| && d.types[k] == Any
      ensures k == d.labels[j].limit && d.labels[j].unreachable
    {
      assert k < RegionEnd(c, j) && c.types[k] == Any;
    }
    assert d.types[..Top(c).limit] == c.types[..Top(c).limit];
  }

  lemma DropKeeps(c: Checker, n: nat)
    requires Valid(c) && DropTypes(c, n).Some?
    ensures Valid(DropTypes(c, n).value) && SameLabel(c, DropTypes(c, n).value)
    ensures DropTypes(c, n).value.labels == c.labels
  {
    hide AnyOnlyAtDeadLimit, LimitsOrdered, SameLabel;
    if Top(c).limit + n <= |c.types| {
      TruncateKeeps(c, |c.types| - n);
    } else {
      TruncateKeeps(c, Top(c).limit);
    }
  }

  lemma PushKeeps(c: Checker, ts: seq<ValType>)
    requires Valid(c)
    ensures Valid(PushTypes(c, ts)) && SameLabel(c, PushTypes(c, ts))
  {
    var d := PushTypes(c, ts);
    assert d.types[..Top(c).limit] == c.types[..Top(c).limit];
    forall j, k | 0 <= j < |d.labels| && d.labels[j].limit <= k < RegionEnd(d, j) && k < |d.types| && d.types[k] == Any
      ensures k == d.labels[j].limit && d.labels[j].unreachable
    {
      assert c.types[k] == Any && k < RegionEnd(c, j);
    }
  }

  lemma PopKeeps(c: Checker, sig: seq<Type>)
    requires Valid(c) && PopTypes(c, sig).Some?
    ensures Valid(PopTypes(c, sig).value) && SameLabel(c, PopTypes(c, sig).value)
    ensures PopTypes(c, sig).value.labels == c.labels
  {
    DropKeeps(c, |sig|);
  }

  lemma ApplyKeeps(c: Checker, params: seq<Type>, results: seq<ValType>)
    requires Valid(c) && Apply(c, params, results).Some?
    ensures Valid(Apply(c, params, results).value) && SameLabel(c, Apply(c, params, results).value)
    ensures Apply(c, params, results).value.labels == c.labels
  {
    PopKeeps(c, params);
    PushKeeps(PopTypes(c, params).value, results);
  }

  lemma SetUnreachableKeeps(c: Checker)
    requires Valid(c)
    ensures Valid(SetUnreachable(c)) && SameLabel(c, SetUnreachable(c))
  {
    TruncateKeeps(c, Top(c).limit);
  }

  lemma PushLabelKeeps(c: Checker, kind: LabelKind, sig: seq<ValType>)
    requires Valid(c) && !kind.FuncLabel?
    ensures Valid(PushLabel(c, kind, sig))
  {
    var d := PushLabel(c, kind, sig);
    forall j, k | 0 <= j < |d.labels| && d.labels[j].limit <= k < RegionEnd(d, j) && k < |d.types| && d.types[k] == Any
      ensures k == d.labels[j].limit && d.labels[j].unreachable
    {
      assert j < |c.labels|;
      assert k < RegionEnd(c, j);
    }
  }

  lemma PushAnyKeeps(c: Checker)
    requires Valid(c) && Top(c).unreachable && |c.types| == Top(c).limit
    ensures Valid(PushTypes(c, [Any])) && SameLabel(c, PushTypes(c, [Any]))
  {
    var d := PushTypes(c, [Any]);
    forall j, k | 0 <= j < |d.labels| && d.labels[j].limit <= k < RegionEnd(d, j) && k < |d.types| && d.types[k] == Any
      ensures k == d.labels[j].limit && d.labels[j].unreachable
    {
      if k < |c.types| {
        assert k < RegionEnd(c, j) && c.types[k] == Any;
      } else {
        assert c.labels[j].limit <= Top(c).limit;
      }
    }
    assert d.types[..Top(c).limit] == c.types[..Top(c).limit];
  }

  /** `select` pushes `Any` only when it read from an empty unreachable region or re-pushed the
      one `Any` at the limit: it lands on the limit again. */
  lemma SelectKeeps(c: Checker)
    requires Valid(c) && OnSelect(c).Some?
    ensures Valid(OnSelect(c).value) && SameLabel(c, OnSelect(c).value)
    ensures OnSelect(c).value.labels == c.labels
  {
    var t := PeekType(c, 1).value;
    var c1 := DropTypes(c, 3).value;
    DropKeeps(c, 3);
    if t != Any {
      assert t != Void;
      PushKeeps(c1, [t]);
      SameLabelTransitive(c, c1, PushTypes(c1, [t]));
    } else {
      AnyPeekedIsLast(c);
      PushAnyKeeps(c1);
      SameLabelTransitive(c, c1, PushTypes(c1, [t]));
    }
  }

  lemma AnyPeekedIsLast(c: Checker)
    requires Valid(c) && PeekType(c, 1) == Some(Any) && DropTypes(c, 3).Some?
    ensures Top(c).unreachable && |DropTypes(c, 3).value.types| == Top(c).limit
  {
    if Top(c).limit + 1 < |c.types| {
      var k := |c.types| - 2;
      assert c.types[k] == Any && Top(c).limit <= k < RegionEnd(c, |c.labels| - 1);
      assert k == Top(c).limit;
    }
  }

  lemma OnEndKeeps(c: Checker)
    requires Valid(c) && CloseLabel(c).Some? && |c.labels| > 1
    ensures Valid(CloseLabel(c).value)
    ensures CloseLabel(c).value.types == c.types[..Top(c).limit] + Top(c).sig
    ensures CloseLabel(c).value.labels == c.labels[..|c.labels| - 1]
  {
    var d := CloseLabel(c).value;
    PopKeeps(c, Top(c).sig);
    var e := Checker(c.types[..Top(c).limit], c.labels[..|c.labels| - 1]);
    forall j, k | 0 <= j < |e.labels| && e.labels[j].limit <= k < RegionEnd(e, j) && k < |e.types| && e.types[k] == Any
      ensures k == e.labels[j].limit && e.labels[j].unreachable
    {
      assert k < RegionEnd(c, j);
      assert c.types[k] == Any;
    }
    assert c.labels[|c.labels| - 2].limit <= Top(c).limit;
    assert Valid(e);
    PushKeeps(e, Top(c).sig);
    assert d == PushTypes(e, Top(c).sig);
  }

  lemma OnElseKeeps(c: Checker)
    requires Valid(c) && OnElse(c).Some?
    ensures Valid(OnElse(c).value)
    ensures OnElse(c).value.types == c.types[..Top(c).limit]
    ensures OnElse(c).value.labels == c.labels[|c.labels| - 1 := Top(c).(kind := ElseLabel, unreachable := false)]
  {
    PopKeeps(c, Top(c).sig);
  }

  lemma BrIfKeeps(c: Checker, d: nat)
    requires Valid(c) && OnBrIf(c, d).Some?
    ensures Valid(OnBrIf(c, d).value) && SameLabel(c, OnBrIf(c, d).value)
    ensures OnBrIf(c, d).value.labels == c.labels
  {
    PopKeeps(c, [I32]);
    var c1 := PopTypes(c, [I32]).value;
    if !LabelAt(c1, d).kind.LoopLabel? {
      ApplyKeeps(c1, LabelAt(c1, d).sig, LabelAt(c1, d).sig);
    }
  }

  lemma ArrowKeeps(ctx: Context, c: Checker, i: Instr)
    requires Valid(c) && HasArrow(i) && Check(ctx, c, i).Some?
    ensures Valid(Check(ctx, c, i).value) && SameLabel(c, Check(ctx, c, i).value)
    ensures Check(ctx, c, i).value.labels == c.labels
  {
    var a := Arrow(ctx, i).value;
    if OnlyPushes(i) {
      PushKeeps(c, a.results);
    } else if i.CallIndirect? {
      PopKeeps(c, [I32]);
      ApplyKeeps(PopTypes(c, [I32]).value, ctx.types[i.sig].params, a.results);
    } else {
      ApplyKeeps(c, a.params, a.results);
    }
  }

  /** Every instruction that opens or closes no label stays inside the current one. */
  lemma PlainKeeps(ctx: Context, c: Checker, i: Instr)
    requires Valid(c) && IsPlain(i) && Check(ctx, c, i).Some?
    ensures Valid(Check(ctx, c, i).value) && SameLabel(c, Check(ctx, c, i).value)
  {
    if HasArrow(i) {
      ArrowKeeps(ctx, c, i);
    } else if i.Br? || i.Unreachable? {
      SetUnreachableKeeps(c);
    } else if i.BrIf? {
      BrIfKeeps(c, i.depth);
    } else if i.BrTable? {
      PopKeeps(c, [I32]);
      SetUnreachableKeeps(PopTypes(c, [I32]).value);
    } else if i.Return? {
      PopKeeps(c, c.labels[0].sig);
      SetUnreachableKeeps(PopTypes(c, c.labels[0].sig).value);
    } else if i.Drop? {
      DropKeeps(c, 1);
    } else {
      SelectKeeps(c);
    }
  }

  /** The state invariant holds after every accepted instruction that leaves a label open. */
  lemma CheckKeepsValid(ctx: Context, c: Checker, i: Instr)
    requires Valid(c) && Check(ctx, c, i).Some? && |Check(ctx, c, i).value.labels| > 0
    ensures Valid(Check(ctx, c, i).value)
  {
    if IsPlain(i) {
      PlainKeeps(ctx, c, i);
    } else if i.Block? {
      PushLabelKeeps(c, BlockLabel, i.results);
    } else if i.Loop? {
      PushLabelKeeps(c, LoopLabel, i.results);
    } else if i.If? {
      PopKeeps(c, [I32]);
      PushLabelKeeps(PopTypes(c, [I32]).value, IfLabel, i.results);
    } else if i.Else? {
      OnElseKeeps(c);
    } else {
      OnEndKeeps(c);
    }
  }

  /** Once the function's own label is gone no label of that kind ever comes back, so the
      body is rejected when it ends. */
  predicate NoFuncLabel(c: Checker) {
    forall j :: 0 <= j < |c.labels| ==> !c.labels[j].kind.FuncLabel?
  }

  lemma NoFuncLabelStays(ctx: Context, c: Checker, i: Instr)
    requires NoFuncLabel(c) && Check(ctx, c, i).Some?
    ensures NoFuncLabel(Check(ctx, c, i).value)
  {
    if IsPlain(i) {
      PlainLabels(ctx, c, i);
    } else {
      hide PopTypes, SignatureOk;
    }
  }

  /** Apart from the mark of the current label, plain instructions leave the labels alone. */
  lemma PlainLabels(ctx: Context, c: Checker, i: Instr)
    requires IsPlain(i) && Check(ctx, c, i).Some?
    ensures
      var d := Check(ctx, c, i).value;
      |d.labels| == |c.labels| && forall j :: 0 <= j < |c.labels| ==> d.labels[j].kind == c.labels[j].kind
  {
    hide Check;
    if i.Br? || i.BrTable? || i.Return? || i.Unreachable? { EndingLabels(ctx, c, i); } else { KeptLabels(ctx, c, i); }
  }

  lemma EndingLabels(ctx: Context, c: Checker, i: Instr)
    requires i.Br? || i.BrTable? || i.Return? || i.Unreachable?
    requires Check(ctx, c, i).Some?
    ensures
      var d := Check(ctx, c, i).value;
      |d.labels| == |c.labels| && forall j :: 0 <= j < |c.labels| ==> d.labels[j].kind == c.labels[j].kind
  {
    hide SignatureOk, PeekType, OnBrTableTargets;
  }

  lemma KeptLabels(ctx: Context, c: Checker, i: Instr)
    requires IsPlain(i) && !i.Br? && !i.BrTable? && !i.Return? && !i.Unreachable? && Check(ctx, c, i).Some?
    ensures Check(ctx, c, i).value.labels == c.labels
  {
    hide SignatureOk, PeekType, OnBrTableTargets, Arrow;
  }

  lemma {:induction false} NoFuncLabelNeverAccepted(ctx: Context, c: Checker, code: seq<Instr>)
    requires NoFuncLabel(c) && CheckAll(ctx, c, code).Some?
    ensures EndFunction(CheckAll(ctx, c, code).value).None?
    decreases |code|
  {
    hide Check;
    if code != [] {
      NoFuncLabelStays(ctx, c, code[0]);
      NoFuncLabelNeverAccepted(ctx, Check(ctx, c, code[0]).value, code[1..]);
    }
  }

  lemma BeginFunctionValid(ctx: Context)
    ensures Valid(BeginFunction(ctx))
  {
  }

  /** Every state an accepted body passes through is valid: limits are ordered and bounded by
      the stack size, the function label is the only one of its kind and at the bottom, and
      `Any` occurs only at the limit of an unreachable label. */
  lemma {:induction false} AcceptedPrefixIsValid(ctx: Context, code: seq<Instr>, n: nat)
    requires Accepts(ctx, code) && n <= |code|
    ensures CheckAll(ctx, BeginFunction(ctx), code[..n]).Some?
    ensures Valid(CheckAll(ctx, BeginFunction(ctx), code[..n]).value)
  {
    BeginFunctionValid(ctx);
    ValidFrom(ctx, BeginFunction(ctx), code, n);
  }

  lemma {:induction false} ValidFrom(ctx: Context, c: Checker, code: seq<Instr>, n: nat)
    requires Valid(c) && n <= |code|
    requires CheckAll(ctx, c, code).Some? && EndFunction(CheckAll(ctx, c, code).value).Some?
    ensures CheckAll(ctx, c, code[..n]).Some? && Valid(CheckAll(ctx, c, code[..n]).value)
    decreases n
  {
    hide Check, Valid;
    if n > 0 {
      var c1 := Check(ctx, c, code[0]).value;
      if |c1.labels| == 0 {
        NoFuncLabelNeverAccepted(ctx, c1, code[1..]);
        assert false;
      }
      CheckKeepsValid(ctx, c, code[0]);
      ValidFrom(ctx, c1, code[1..], n - 1);
      assert code[..n][0] == code[0] && code[..n][1..] == code[1..][..n - 1];
    }
  }
}
