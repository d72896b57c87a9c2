/** The type checker as the object it is: two stacks and the type of the last `br_table` target,
    updated in place by one method a callback. Each method is proved against the state machine. */
module TypeCheckerObject {
  import opened Wasm
  import opened Checking

  lemma OneType(c: Checker, t: Type)
    requires |c.labels| > 0
    ensures SignatureOk(c, [t]) == PeekIs(c, 0, t)
  {
    if SignatureOk(c, [t]) { assert PeekIs(c, |[t]| - 0 - 1, [t][0]); }
  }

  lemma TwoTypes(c: Checker, t1: Type, t2: Type)
    requires |c.labels| > 0
    ensures SignatureOk(c, [t1, t2]) == (PeekIs(c, 1, t1) && PeekIs(c, 0, t2))
  {
    var sig := [t1, t2];
    if SignatureOk(c, sig) { assert PeekIs(c, |sig| - 0 - 1, sig[0]) && PeekIs(c, |sig| - 1 - 1, sig[1]); }
  }

  class TypeChecker {
    var typeStack: seq<Type>
    var labelStack: seq<Label>
    var brTableSig: Type

    constructor ()
      ensures typeStack == [] && labelStack == [] && brTableSig == Void
    {
      typeStack, labelStack, brTableSig := [], [], Void;
    }

    ghost function State(): (c: Checker)
      reads this
      ensures c.types == typeStack && c.labels == labelStack
    {
      Checker(typeStack, labelStack)
    }

    /** An operation failed exactly when the state machine's did; otherwise they agree. On failure
        reading stops, so the state no longer matters. */
    ghost predicate Matches(ok: bool, spec: Option<Checker>)
      reads this
    {
      ok == spec.Some? && (ok ==> State() == spec.value)
    }

    method GetLabel(depth: nat) returns (found: Option<Label>)
      ensures found == if depth < |labelStack| then Some(LabelAt(State(), depth)) else None
    {
      if depth >= |labelStack| { return None; }
      return Some(labelStack[|labelStack| - depth - 1]);
    }

    method ResetTypeStackToLabel(lab: Label)
      modifies this`typeStack
      ensures typeStack == if lab.limit <= |old(typeStack)| then old(typeStack)[..lab.limit] else old(typeStack)
    {
      if lab.limit <= |typeStack| { typeStack := typeStack[..lab.limit]; }
    }

    method SetUnreachable() returns (ok: bool)
      modifies this`typeStack, this`labelStack
      ensures Matches(ok, if |old(labelStack)| == 0 then None else Some(Checking.SetUnreachable(old(State()))))
    {
      var top := GetLabel(0);
      if top.None? { return false; }
      labelStack := labelStack[|labelStack| - 1 := top.value.(unreachable := true)];
      ResetTypeStackToLabel(top.value);
      return true;
    }

    method PushLabel(kind: LabelKind, sig: seq<ValType>)
      modifies this`labelStack
      ensures State() == Checking.PushLabel(old(State()), kind, sig)
    {
      labelStack := labelStack + [Label(kind, sig, |typeStack|, false)];
    }

    method PopLabel()
      requires |labelStack| > 0
      modifies this`labelStack
      ensures labelStack == old(labelStack)[..|old(labelStack)| - 1]
    {
      labelStack := labelStack[..|labelStack| - 1];
    }

    method PeekType(depth: nat) returns (ok: bool, t: Type)
      ensures ok == (|labelStack| > 0 && Checking.PeekType(State(), depth).Some?)
      ensures ok ==> Checking.PeekType(State(), depth) == Some(t)
      ensures !ok ==> t == Any
    {
      var top := GetLabel(0);
      if top.None? { return false, Any; }
      if top.value.limit + depth >= |typeStack| {
        return top.value.unreachable, Any;
      }
      return true, typeStack[|typeStack| - depth - 1];
    }

    method PeekAndCheckType(depth: nat, expected: Type) returns (ok: bool)
      ensures ok == (|labelStack| > 0 && PeekIs(State(), depth, expected))
    {
      var peeked, actual := PeekType(depth);
      return peeked && Compatible(actual, expected);
    }

    method DropTypes(count: nat) returns (ok: bool)
      modifies this`typeStack
      ensures Matches(ok, if |labelStack| == 0 then None else Checking.DropTypes(old(State()), count))
    {
      var top := GetLabel(0);
      if top.None? { return false; }
      if top.value.limit + count > |typeStack| {
        if top.value.unreachable {
          ResetTypeStackToLabel(top.value);
          return true;
        }
        return false;
      }
      typeStack := typeStack[..|typeStack| - count];
      return true;
    }

    method PushType(t: Type)
      modifies this`typeStack
      ensures typeStack == if t == Void then old(typeStack) else old(typeStack) + [t]
    {
      if t != Void { typeStack := typeStack + [t]; }
    }

    method PushTypes(types: seq<Type>)
      requires forall k :: 0 <= k < |types| ==> types[k] != Void
      modifies this`typeStack
      ensures State() == Checking.PushTypes(old(State()), types)
    {
      for i := 0 to |types|
        invariant typeStack == old(typeStack) + types[..i]
      {
        PushType(types[i]);
      }
    }

    method CheckTypeStackEnd() returns (ok: bool)
      ensures ok == (|labelStack| > 0 && |typeStack| == Top(State()).limit)
    {
      var top := GetLabel(0);
      if top.None? { return false; }
      return |typeStack| == top.value.limit;
    }

    method CheckSignature(sig: seq<Type>) returns (ok: bool)
      requires |labelStack| > 0
      ensures ok == SignatureOk(State(), sig)
    {
      ok := true;
      for i := 0 to |sig|
        invariant ok == forall j :: 0 <= j < i ==> PeekIs(State(), |sig| - j - 1, sig[j])
      {
        var one := PeekAndCheckType(|sig| - i - 1, sig[i]);
        ok := ok && one;
      }
    }

    method PopAndCheckSignature(sig: seq<Type>) returns (ok: bool)
      requires |labelStack| > 0
      modifies this`typeStack
      ensures Matches(ok, PopTypes(old(State()), sig))
    {
      var matched := CheckSignature(sig);
      var dropped := DropTypes(|sig|);
      return matched && dropped;
    }

    method PopAndCheckCall(params: seq<Type>, results: seq<ValType>) returns (ok: bool)
      requires |labelStack| > 0
      modifies this`typeStack
      ensures Matches(ok, Apply(old(State()), params, results))
    {
      ok := PopAndCheckSignature(params);
      PushTypes(results);
    }

    method PopAndCheck1Type(expected: Type) returns (ok: bool)
      requires |labelStack| > 0
      modifies this`typeStack
      ensures Matches(ok, PopTypes(old(State()), [expected]))
    {
      var matched := PeekAndCheckType(0, expected);
      OneType(State(), expected);
      var dropped := DropTypes(1);
      return matched && dropped;
    }

    method PopAndCheck2Types(expected1: Type, expected2: Type) returns (ok: bool)
      requires |labelStack| > 0
      modifies this`typeStack
      ensures Matches(ok, PopTypes(old(State()), [expected1, expected2]))
    {
      var second := PeekAndCheckType(0, expected2);
      var first := PeekAndCheckType(1, expected1);
      TwoTypes(State(), expected1, expected2);
      var dropped := DropTypes(2);
      return first && second && dropped;
    }

    /** A unary, binary, comparison, conversion, load, store or grow opcode. */
    method CheckOpcode(params: seq<ValType>, results: seq<ValType>) returns (ok: bool)
      requires |labelStack| > 0 && 1 <= |params| <= 2 && |results| <= 1
      modifies this`typeStack
      ensures Matches(ok, Apply(old(State()), params, results))
    {
      if |params| == 1 {
        ok := PopAndCheck1Type(params[0]);
        assert [params[0]] == params;
      } else {
        ok := PopAndCheck2Types(params[0], params[1]);
        assert [params[0], params[1]] == params;
      }
      PushTypes(results);
    }

    method BeginFunction(results: seq<ValType>)
      modifies this
      ensures State() == Checker([], [Label(FuncLabel, results, 0, false)])
    {
      typeStack, labelStack := [], [];
      PushLabel(FuncLabel, results);
    }

    method OnBlock(sig: seq<ValType>)
      modifies this`labelStack
      ensures State() == Checking.PushLabel(old(State()), BlockLabel, sig)
    {
      PushLabel(BlockLabel, sig);
    }

    method OnLoop(sig: seq<ValType>)
      modifies this`labelStack
      ensures State() == Checking.PushLabel(old(State()), LoopLabel, sig)
    {
      PushLabel(LoopLabel, sig);
    }

    method OnIf(sig: seq<ValType>) returns (ok: bool)
      requires |labelStack| > 0
      modifies this`typeStack, this`labelStack
      ensures Matches(ok, Checking.OnIf(old(State()), sig))
    {
      ok := PopAndCheck1Type(I32);
      PushLabel(IfLabel, sig);
    }

    method OnBr(depth: nat) returns (ok: bool)
      requires |labelStack| > 0
      modifies this`typeStack, this`labelStack
      ensures Matches(ok, Checking.OnBr(old(State()), depth))
    {
      var lab := GetLabel(depth);
      if lab.None? { return false; }
      ok := true;
      if lab.value.kind != LoopLabel { ok := CheckSignature(lab.value.sig); }
      var reset := SetUnreachable();
      return ok && reset;
    }

    method OnBrIf(depth: nat) returns (ok: bool)
      requires |labelStack| > 0
      modifies this`typeStack
      ensures Matches(ok, Checking.OnBrIf(old(State()), depth))
    {
      ok := PopAndCheck1Type(I32);
      var lab := GetLabel(depth);
      if lab.None? { return false; }
      if lab.value.kind != LoopLabel {
        var popped := PopAndCheckSignature(lab.value.sig);
        ok := ok && popped;
        PushTypes(lab.value.sig);
      }
    }

    method BeginBrTable() returns (ok: bool)
      requires |labelStack| > 0
      modifies this`typeStack, this`brTableSig
      ensures brTableSig == Any && Matches(ok, PopTypes(old(State()), [I32]))
    {
      brTableSig := Any;
      ok := PopAndCheck1Type(I32);
    }

    method OnBrTableTarget(depth: nat) returns (ok: bool)
      requires |labelStack| > 0
      modifies this`brTableSig
      ensures ok == Checking.OnBrTableTarget(State(), depth, old(brTableSig)).Some?
      ensures ok ==> Checking.OnBrTableTarget(State(), depth, old(brTableSig)) == Some(brTableSig)
    {
      var lab := GetLabel(depth);
      if lab.None? { return false; }
      ok := true;
      var sig := Void;
      if lab.value.kind != LoopLabel {
        if |lab.value.sig| != 0 { sig := lab.value.sig[0]; }
        ok := CheckSignature(lab.value.sig);
      }
      if !Compatible(brTableSig, sig) { ok := false; }
      brTableSig := sig;
    }

    method EndBrTable() returns (ok: bool)
      requires |labelStack| > 0
      modifies this`typeStack, this`labelStack
      ensures ok && State() == Checking.SetUnreachable(old(State()))
    {
      ok := SetUnreachable();
    }

    method OnCallIndirect(params: seq<ValType>, results: seq<ValType>) returns (ok: bool)
      requires |labelStack| > 0
      modifies this`typeStack
      ensures
        var popped := PopTypes(old(State()), [I32]);
        Matches(ok, if popped.None? then None else Apply(popped.value, params, results))
    {
      ok := PopAndCheck1Type(I32);
      var called := PopAndCheckCall(params, results);
      ok := ok && called;
    }

    method OnDrop() returns (ok: bool)
      requires |labelStack| > 0
      modifies this`typeStack
      ensures Matches(ok, Checking.DropTypes(old(State()), 1))
    {
      ok := DropTypes(1);
    }

    method OnSelect() returns (ok: bool)
      requires |labelStack| > 0 && Void !in typeStack
      modifies this`typeStack
      ensures Matches(ok, Checking.OnSelect(old(State())))
    {
      var cond := PeekAndCheckType(0, I32);
      var peeked, t := PeekType(1);
      var other := PeekAndCheckType(2, t);
      var dropped := DropTypes(3);
      PushType(t);
      return cond && peeked && other && dropped;
    }

    method OnReturn() returns (ok: bool)
      requires |labelStack| > 0
      modifies this`typeStack, this`labelStack
      ensures Matches(ok, Checking.OnReturn(old(State())))
    {
      var lab := GetLabel(|labelStack| - 1);
      ok := PopAndCheckSignature(lab.value.sig);
      var reset := SetUnreachable();
      ok := ok && reset;
    }

    method OnUnreachable() returns (ok: bool)
      requires |labelStack| > 0
      modifies this`typeStack, this`labelStack
      ensures ok && State() == Checking.SetUnreachable(old(State()))
    {
      ok := SetUnreachable();
    }

    method OnElse() returns (ok: bool)
      requires |labelStack| > 0
      modifies this`typeStack, this`labelStack
      ensures Matches(ok, Checking.OnElse(old(State())))
    {
      var top := GetLabel(0);
      ok := top.value.kind == IfLabel;
      var popped := PopAndCheckSignature(top.value.sig);
      var ended := CheckTypeStackEnd();
      ResetTypeStackToLabel(top.value);
      labelStack := labelStack[|labelStack| - 1 := top.value.(kind := ElseLabel, unreachable := false)];
      ok := ok && popped && ended;
      assert ok ==> typeStack == typeStack[..|typeStack|];
    }

    /** The end of the topmost label, whatever its kind. */
    method CloseLabel() returns (ok: bool)
      requires |labelStack| > 0
      modifies this`typeStack, this`labelStack
      ensures Matches(ok, Checking.CloseLabel(old(State())))
    {
      var top := GetLabel(0);
      var popped := PopAndCheckSignature(top.value.sig);
      var ended := CheckTypeStackEnd();
      ResetTypeStackToLabel(top.value);
      PushTypes(top.value.sig);
      PopLabel();
      return popped && ended;
    }

    method OnEnd() returns (ok: bool)
      requires |labelStack| > 0
      modifies this`typeStack, this`labelStack
      ensures Matches(ok, Checking.OnEnd(old(State())))
    {
      var top := GetLabel(0);
      ok := !(top.value.kind == IfLabel && |top.value.sig| != 0);
      var closed := CloseLabel();
      ok := ok && closed;
    }

    method EndFunction() returns (ok: bool)
      modifies this`typeStack, this`labelStack
      ensures Matches(ok, Checking.EndFunction(old(State())))
    {
      var top := GetLabel(0);
      if top.None? { return false; }
      ok := top.value.kind == FuncLabel;
      var closed := CloseLabel();
      ok := ok && closed;
    }
  }
}
