/** The thread as the object it is: a fixed value stack and a fixed call stack with their tops,
    changed in place by the dispatch loop. Each method is proved against the machine on values. */
module ThreadObject {
  import opened Wasm
  import opened Reading
  import opened LinearMemory
  import opened Machine
  import opened Semantics
  import opened Execution
  import opened RunSafety

  /** How a turn ended; `Lost` is everything the machine leaves undefined. */
  datatype Status = Continue | Trap(trap: Machine.Trap) | Lost

  /** A host function writes as many results as it declares. */
  ghost predicate HostLengths(p: Program) {
    forall f, args: seq<Value>, st: Shared :: 0 <= f < |p.funcs| && p.funcs[f].HostFunc? ==> HostLength(p, f, args, st)
  }

  predicate HostLength(p: Program, f: nat, args: seq<Value>, st: Shared)
    requires f < |p.funcs| && p.funcs[f].HostFunc?
  {
    var r := p.host(p.funcs[f].id, args, st);
    r.HostOk? ==> |r.results| == |p.funcs[f].sig.results|
  }

  /** `memmove` towards the bottom of the stack. */
  method MoveDown(a: array<Value>, at: nat, from: nat, n: nat)
    requires at <= from && from + n <= a.Length
    modifies a
    ensures a[..at + n] == old(a[..at]) + old(a[from..from + n])
  {
    ghost var was := a[..];
    ghost var moved := was[..at] + was[from..from + n];
    for i := 0 to n
      invariant forall k :: 0 <= k < at + i ==> a[k] == moved[k]
      invariant forall k :: from + i <= k < a.Length ==> a[k] == was[k]
    {
      assert moved[at + i] == was[from + i];
      a[at + i] := a[from + i];
    }
  }

  class Thread {
    const p: Program
    const valueStack: array<Value>
    const callStack: array<Frame>
    var valueStackTop: nat
    var callStackTop: nat
    var store: Shared

    constructor (p: Program, store: Shared)
      requires HostLengths(p)
      ensures Valid() && fresh(valueStack) && fresh(callStack)
      ensures this.p == p && State() == Config([], [], store)
    {
      this.p := p;
      this.valueStack := new Value[p.valueStackSize](_ => Value(I32, 0));
      this.callStack := new Frame[p.callStackSize](_ => Frame(0, 0, 0));
      valueStackTop, callStackTop := 0, 0;
      this.store := store;
    }

    ghost predicate Valid()
      reads this
    {
      && valueStackTop <= valueStack.Length == p.valueStackSize
      && callStackTop <= callStack.Length == p.callStackSize
      && HostLengths(p)
    }

    /** The machine's configuration: what lies below the two tops. */
    function State(): (c: Config)
      requires Valid()
      reads this, valueStack, callStack
    {
      Config(valueStack[..valueStackTop], callStack[..callStackTop], store)
    }

    /** The thread went where the machine goes. */
    ghost predicate Follows(r: Status, spec: State)
      requires Valid()
      reads this, valueStack, callStack
    {
      match spec
      case Running(d) => r == Continue && State() == d
      case Trapped(t, d) => r == Trap(t) && State() == d
      case Stuck => r == Lost
    }

    method Push(v: Value) returns (r: Status)
      requires Valid()
      modifies this`valueStackTop, valueStack
      ensures Valid()
      ensures
        if |old(State()).stack| >= p.valueStackSize then r == Trap(ValueStackExhausted) && State() == old(State())
        else r == Continue && State() == old(State()).(stack := old(State()).stack + [v])
    {
      if valueStackTop >= valueStack.Length { return Trap(ValueStackExhausted); }
      valueStack[valueStackTop] := v;
      valueStackTop := valueStackTop + 1;
      return Continue;
    }

    method Pop() returns (v: Value)
      requires Valid() && valueStackTop > 0
      modifies this`valueStackTop
      ensures Valid() && v == Last(old(State()).stack, 1)[0]
      ensures State() == old(State()).(stack := Front(old(State()).stack, 1))
    {
      valueStackTop := valueStackTop - 1;
      v := valueStack[valueStackTop];
    }

    method SetPosition(pos: nat)
      requires Valid() && callStackTop > 0
      modifies callStack
      ensures State() == SetPos(old(State()), pos)
    {
      callStack[callStackTop - 1] := callStack[callStackTop - 1].(pos := pos);
    }

    method Advance()
      requires Valid() && callStackTop > 0
      modifies callStack
      ensures State() == Next(old(State()))
    {
      SetPosition(callStack[callStackTop - 1].pos + 1);
    }

    /** `Push`, then the next opcode unless it trapped. */
    method PushAndAdvance(v: Value) returns (r: Status)
      requires Valid() && callStackTop > 0
      modifies this`valueStackTop, valueStack, callStack
      ensures Valid() && Follows(r, PushNext(p, old(State()), v))
    {
      r := Push(v);
      if r.Continue? { Advance(); }
    }

    /** The top `results` cells slide down to `at`, lowest first. */
    method StoreResult(at: nat, results: nat)
      requires Valid() && at + results <= valueStackTop
      modifies this`valueStackTop, valueStack
      ensures Valid() && Machine.StoreResult(old(State()), at, results) == Some(State())
    {
      ghost var was := State().stack;
      MoveDown(valueStack, at, valueStackTop - results, results);
      assert was == old(valueStack[..])[..valueStackTop];
      valueStackTop := at + results;
      assert valueStack[..valueStackTop] == was[..at] + Last(was, results);
    }

    method PopCall(results: nat) returns (r: Status)
      requires Valid() && callStackTop > 0
      modifies this`valueStackTop, this`callStackTop, valueStack
      ensures Valid() && Follows(r, Machine.PopCall(old(State()), results))
    {
      var locals := callStack[callStackTop - 1].locals;
      if locals + results > valueStackTop { return Lost; }
      StoreResult(locals, results);
      callStackTop := callStackTop - 1;
      return Continue;
    }

    method PushCall(f: nat) returns (r: Status)
      requires Valid() && f < |p.funcs| && p.funcs[f].WasmFunc?
      modifies this`callStackTop, callStack
      ensures Valid() && Follows(r, Machine.PushCall(p, old(State()), f))
    {
      if callStackTop >= callStack.Length { return Trap(CallStackExhausted); }
      if valueStackTop < |p.funcs[f].locals| { return Lost; }
      callStack[callStackTop] := Frame(f, valueStackTop - |p.funcs[f].locals|, 0);
      callStackTop := callStackTop + 1;
      return Continue;
    }

    /** A host function runs at once on the cells it was given. */
    method CallHost(f: nat) returns (r: Status)
      requires Valid() && callStackTop > 0 && f < |p.funcs| && p.funcs[f].HostFunc?
      modifies this`valueStackTop, this`store, valueStack, callStack
      ensures Valid() && Follows(r, Machine.CallHost(p, old(State()), f))
    {
      var sig := p.funcs[f].sig;
      if callStackTop >= callStack.Length { return Trap(CallStackExhausted); }
      if valueStackTop < |sig.params| { return Lost; }
      var base := valueStackTop - |sig.params|;
      var newTop := base + |sig.results|;
      if newTop >= valueStack.Length { return Trap(ValueStackExhausted); }
      ghost var was := State();
      assert valueStack[base..valueStackTop] == Last(was.stack, |sig.params|);
      assert HostLength(p, f, valueStack[base..valueStackTop], store);
      var answer := p.host(p.funcs[f].id, valueStack[base..valueStackTop], store);
      store := answer.store;
      if answer.HostFail? { return Trap(HostTrapped); }
      for i := 0 to |answer.results|
        invariant valueStackTop == old(valueStackTop) && callStackTop == old(callStackTop) && store == answer.store
        invariant callStack[..] == old(callStack[..])
        invariant forall k :: 0 <= k < base ==> valueStack[k] == was.stack[k]
        invariant forall k :: 0 <= k < i ==> valueStack[base + k] == answer.results[k]
      {
        valueStack[base + i] := answer.results[i];
      }
      valueStackTop := newTop;
      assert valueStack[..valueStackTop] == Front(was.stack, |sig.params|) + answer.results;
      assert callStack[..callStackTop] == old(callStack[..])[..callStackTop];
      Advance();
      return Continue;
    }

    method Invoke(f: nat) returns (r: Status)
      requires Valid() && callStackTop > 0
      modifies this, valueStack, callStack
      ensures Valid() && Follows(r, Machine.Invoke(p, old(State()), f))
    {
      if f >= |p.funcs| { return Lost; }
      if p.funcs[f].HostFunc? { r := CallHost(f); return; }
      if callStackTop >= callStack.Length { return Trap(CallStackExhausted); }
      Advance();
      r := PushCall(f);
    }

    /* ---- opcodes ---- */

    method DoSelect() returns (r: Status)
      requires Valid() && callStackTop > 0
      modifies this`valueStackTop, valueStack, callStack
      ensures Valid() && Follows(r, StepSelect(p, old(State())))
    {
      hide PushNext, AsU32;
      if valueStackTop < 3 { return Lost; }
      ghost var was := State().stack;
      var cond := Pop();
      var second := Pop();
      var first := Pop();
      assert Front(Front(Front(was, 1), 1), 1) == Front(was, 3);
      r := PushAndAdvance(if AsU32(cond) != 0 then first else second);
    }

    method DoGetLocal(x: nat) returns (r: Status)
      requires Valid() && callStackTop > 0
      modifies this`valueStackTop, valueStack, callStack
      ensures Valid() && Follows(r, StepOp(p, old(State()), GetLocal(x)))
    {
      hide PushNext;
      var cell := callStack[callStackTop - 1].locals + x;
      if cell >= valueStackTop { return Lost; }
      r := PushAndAdvance(valueStack[cell]);
    }

    method DoSetLocal(x: nat) returns (r: Status)
      requires Valid() && callStackTop > 0
      modifies this`valueStackTop, valueStack, callStack
      ensures Valid() && Follows(r, StepOp(p, old(State()), SetLocal(x)))
    {
      var cell := callStack[callStackTop - 1].locals + x;
      if valueStackTop == 0 || cell >= valueStackTop - 1 { return Lost; }
      var v := Pop();
      valueStack[cell] := v;
      Advance();
      return Continue;
    }

    method DoTeeLocal(x: nat) returns (r: Status)
      requires Valid() && callStackTop > 0
      modifies valueStack, callStack
      ensures Valid() && Follows(r, StepOp(p, old(State()), TeeLocal(x)))
    {
      var cell := callStack[callStackTop - 1].locals + x;
      if valueStackTop == 0 || cell >= valueStackTop { return Lost; }
      valueStack[cell] := valueStack[valueStackTop - 1];
      Advance();
      return Continue;
    }

    method DoGetGlobal(x: nat) returns (r: Status)
      requires Valid() && callStackTop > 0
      modifies this`valueStackTop, valueStack, callStack
      ensures Valid() && Follows(r, StepOp(p, old(State()), GetGlobal(x)))
    {
      hide PushNext;
      if x >= |store.globals| { return Lost; }
      r := PushAndAdvance(store.globals[x]);
    }

    method DoSetGlobal(x: nat) returns (r: Status)
      requires Valid() && callStackTop > 0
      modifies this`valueStackTop, this`store, callStack
      ensures Valid() && Follows(r, StepOp(p, old(State()), SetGlobal(x)))
    {
      if valueStackTop == 0 || x >= |store.globals| { return Lost; }
      ghost var was := State();
      var v := Pop();
      assert v == was.stack[|was.stack| - 1];
      store := store.(globals := store.globals[x := v]);
      Advance();
      return Continue;
    }

    method DoDrop() returns (r: Status)
      requires Valid() && callStackTop > 0
      modifies this`valueStackTop, callStack
      ensures Valid() && Follows(r, StepOp(p, old(State()), Drop))
    {
      if valueStackTop == 0 { return Lost; }
      var _ := Pop();
      Advance();
      return Continue;
    }

    method DoLoad(access: Access, offset: nat) returns (r: Status)
      requires Valid() && callStackTop > 0
      modifies this`valueStackTop, valueStack, callStack
      ensures Valid() && Follows(r, StepLoad(p, old(State()), access, offset))
    {
      hide PushNext, LoadFrom, AsU32;
      if valueStackTop == 0 { return Lost; }
      var base := Pop();
      var loaded := LoadFrom(store.mem, AsU32(base), offset, access);
      if loaded.None? { return Trap(MemoryAccessOutOfBounds); }
      r := PushAndAdvance(loaded.value);
    }

    method DoStore(access: Access, offset: nat) returns (r: Status)
      requires Valid() && callStackTop > 0
      modifies this`valueStackTop, this`store, callStack
      ensures Valid() && Follows(r, StepStore(old(State()), access, offset))
    {
      hide StoreTo, AsU32;
      if valueStackTop < 2 { return Lost; }
      ghost var was := State().stack;
      var v := Pop();
      var base := Pop();
      assert Front(Front(was, 1), 1) == Front(was, 2);
      var stored := StoreTo(store.mem, AsU32(base), offset, access, v);
      if stored.None? { return Trap(MemoryAccessOutOfBounds); }
      store := store.(mem := stored.value);
      Advance();
      return Continue;
    }

    method DoGrow() returns (r: Status)
      requires Valid() && callStackTop > 0
      modifies this`valueStackTop, this`store, valueStack, callStack
      ensures Valid() && Follows(r, StepGrow(p, old(State())))
    {
      hide PushNext, Grow, AsU32;
      if valueStackTop == 0 { return Lost; }
      ghost var was := State();
      var delta := Pop();
      var grown := Grow(store.mem, AsU32(delta));
      if grown.Wrapped? { return Trap(PageCountWrapped); }
      if grown.Refused? {
        r := PushAndAdvance(Value(I32, TWO32 - 1));
      } else {
        var pages := store.mem.pages;
        store := store.(mem := grown.m);
        assert State() == was.(stack := Front(was.stack, 1)).(store := was.store.(mem := grown.m));
        r := PushAndAdvance(U32(pages));
      }
    }

    method DoNumeric(op: NumericOp) returns (r: Status)
      requires Valid() && callStackTop > 0
      modifies this`valueStackTop, valueStack, callStack
      ensures Valid() && Follows(r, StepNumeric(p, old(State()), op))
    {
      hide PushNext;
      var n := |op.params|;
      if valueStackTop < n { return Lost; }
      ghost var was := State().stack;
      var args := valueStack[valueStackTop - n..valueStackTop];
      assert args == Last(was, n);
      var result := p.numeric(op, args);
      valueStackTop := valueStackTop - n;
      assert valueStack[..valueStackTop] == Front(was, n);
      if result.NumTrap? { return Trap(result.trap); }
      r := PushAndAdvance(Value(op.result, result.bits));
    }

    method DoIndirect(sig: nat) returns (r: Status)
      requires Valid() && callStackTop > 0
      modifies this, valueStack, callStack
      ensures Valid() && Follows(r, StepIndirect(p, old(State()), sig))
    {
      hide Machine.Invoke, AsU32;
      if valueStackTop == 0 || sig >= |p.types| { return Lost; }
      var index := Pop();
      var entry := AsU32(index);
      if entry >= |p.table| { return Trap(UndefinedTableIndex); }
      var f := p.table[entry];
      if f == INVALID_INDEX { return Trap(UninitializedTableElement); }
      if f >= |p.funcs| || p.funcs[f].sig != p.types[sig] { return Trap(IndirectCallSignatureMismatch); }
      r := Invoke(f);
    }

    method DoOp(i: Instr) returns (r: Status)
      requires Valid() && callStackTop > 0
      modifies this, valueStack, callStack
      ensures Valid() && Follows(r, StepOp(p, old(State()), i))
    {
      hide PushNext, StepSelect, StepLoad, StepStore, StepGrow, StepNumeric, StepIndirect, AsU32;
      if i.Unreachable? { return Trap(UnreachableExecuted); }
      else if i.CallIndirect? { r := DoIndirect(i.sig); }
      else if i.Drop? { r := DoDrop(); }
      else if i.Select? { r := DoSelect(); }
      else if i.GetLocal? { r := DoGetLocal(i.local); }
      else if i.SetLocal? { r := DoSetLocal(i.local); }
      else if i.TeeLocal? { r := DoTeeLocal(i.local); }
      else if i.GetGlobal? { r := DoGetGlobal(i.global); }
      else if i.SetGlobal? { r := DoSetGlobal(i.global); }
      else if i.Load? { r := DoLoad(i.access, i.offset); }
      else if i.Store? { r := DoStore(i.access, i.offset); }
      else if i.CurrentMemory? { r := PushAndAdvance(U32(store.mem.pages)); }
      else if i.GrowMemory? { r := DoGrow(); }
      else if i.Const? { r := PushAndAdvance(i.v); }
      else if i.Numeric? { r := DoNumeric(i.op); }
      else { return Lost; }
    }

    /* ---- jumps ---- */

    method DoJump(code: seq<Rec>, rec: Rec) returns (r: Status)
      requires Valid() && callStackTop > 0 && rec.Jump?
      modifies this`valueStackTop, callStack
      ensures Valid() && Follows(r, StepJump(old(State()), code, rec))
    {
      hide AsU32;
      if rec.op.OpBr? || rec.op.OpElse? {
        SetPosition(rec.v2);
        return Continue;
      }
      if valueStackTop == 0 { return Lost; }
      ghost var was := State();
      var key := Pop();
      assert State() == was.(stack := Front(was.stack, 1));
      if rec.op.OpBrTable? {
        var pick := if AsU32(key) >= rec.v1 then rec.v1 else AsU32(key);
        var entry := callStack[callStackTop - 1].pos + pick + 1;
        if entry >= |code| || !code[entry].Jump? { return Lost; }
        SetPosition(code[entry].v2);
      } else if (AsU32(key) != 0) == rec.op.OpBrIf? {
        SetPosition(rec.v2);
      } else {
        Advance();
      }
      return Continue;
    }

    method DoEnd(fn: Func, stack: nat, results: nat) returns (r: Status)
      requires Valid() && callStackTop > 0 && fn.WasmFunc?
      modifies this`valueStackTop, valueStack, callStack
      ensures Valid() && Follows(r, StepRec(p, old(State()), fn, EndRec(stack, results)))
    {
      var at := callStack[callStackTop - 1].locals + |fn.locals| + stack;
      if at + results > valueStackTop { return Lost; }
      StoreResult(at, results);
      Advance();
      return Continue;
    }

    /** One turn of the dispatch loop. */
    method Turn() returns (r: Status)
      requires Valid() && callStackTop > 0
      modifies this, valueStack, callStack
      ensures Valid() && Follows(r, Step(p, old(State())))
    {
      hide StepJump, StepOp, Machine.Invoke, Machine.PopCall, Machine.StoreResult;
      var frame := callStack[callStackTop - 1];
      if frame.func >= |p.funcs| || !p.funcs[frame.func].WasmFunc? { return Lost; }
      var fn := p.funcs[frame.func];
      if frame.pos >= |fn.code| {
        r := PopCall(|fn.sig.results|);
      } else {
        var rec := fn.code[frame.pos];
        if rec.Jump? { r := DoJump(fn.code, rec); }
        else if rec.EndRec? { r := DoEnd(fn, rec.stack, rec.results); }
        else if rec.ReturnRec? { r := PopCall(rec.results); }
        else if rec.CallRec? { r := Invoke(rec.func); }
        else { r := DoOp(rec.i); }
      }
    }

    /** `Run(stackMax)`, for at most `turns` turns. */
    method Run(stackMax: nat, turns: nat) returns (r: Status)
      requires Valid()
      modifies this, valueStack, callStack
      ensures Valid() && Follows(r, Machine.Run(p, old(State()), stackMax, turns))
    {
      hide Step;
      r := Continue;
      var left: nat := turns;
      while left > 0 && callStackTop > stackMax
        invariant Valid() && left <= turns
        invariant r == Continue
        invariant Machine.Run(p, State(), stackMax, left) == Machine.Run(p, old(State()), stackMax, turns)
      {
        r := Turn();
        left := left - 1;
        if r != Continue { return; }
      }
    }

    /** `PushLocals`: the parameters from the buffer, zeros for the declared locals. */
    method PushLocals(f: nat, buffer: seq<Value>) returns (r: Status)
      requires Valid() && f < |p.funcs| && p.funcs[f].WasmFunc?
      requires |buffer| == |p.funcs[f].sig.params| <= |p.funcs[f].locals|
      modifies this`valueStackTop, valueStack
      ensures Valid()
      ensures
        var fn, c := p.funcs[f], old(State());
        if |c.stack| + Max(|fn.locals|, |fn.sig.results|) > p.valueStackSize then r == Trap(ValueStackExhausted) && State() == c
        else r == Continue && State() == c.(stack := c.stack + buffer + ZeroLocals(fn.locals[|buffer|..]))
    {
      var fn := p.funcs[f];
      if valueStackTop + Max(|fn.locals|, |fn.sig.results|) > valueStack.Length { return Trap(ValueStackExhausted); }
      ghost var was := State().stack;
      var base, n := valueStackTop, |buffer|;
      for i := 0 to |fn.locals|
        invariant valueStackTop == old(valueStackTop) && callStackTop == old(callStackTop) && store == old(store)
        invariant callStack[..] == old(callStack[..])
        invariant forall k :: 0 <= k < base ==> valueStack[k] == was[k]
        invariant forall k :: base <= k < base + i ==>
          valueStack[k] == if k - base < n then buffer[k - base] else Zero(fn.locals[k - base])
      {
        valueStack[base + i] := if i < n then buffer[i] else Zero(fn.locals[i]);
      }
      valueStackTop := base + |fn.locals|;
      assert valueStack[..valueStackTop] == was + buffer + ZeroLocals(fn.locals[n..]);
      assert callStack[..callStackTop] == old(callStack[..])[..callStackTop];
      return Continue;
    }

    /** `Run(module, func, buffer)`: push the locals, call, run until the call is over, hand back
        the results; on a trap past the early exits both tops go back to where they were. */
    method RunFunction(f: nat, buffer: seq<Value>, turns: nat) returns (o: HostOutcome)
      requires Valid() && f < |p.funcs| && p.funcs[f].WasmFunc?
      requires |buffer| == |p.funcs[f].sig.params| <= |p.funcs[f].locals|
      modifies this, valueStack, callStack
      ensures Valid() && o == HostRun(p, old(State()), f, buffer, turns)
      ensures o.Completed? || o.TrappedOut? ==> State() == o.c
    {
      hide Machine.Run, Step, ZeroLocals, Machine.PushCall, HostLengths, Max;
      var origStack, origValue := callStackTop, valueStackTop;
      var pushed := PushLocals(f, buffer);
      if pushed.Trap? { return TrappedOut(pushed.trap, State(), false); }
      var called := PushCall(f);
      if called.Lost? { return HostOutcome.Undefined; }
      if called.Trap? { return TrappedOut(called.trap, State(), false); }
      var r := Run(origStack, turns);
      if r.Lost? { return HostOutcome.Undefined; }
      if r.Trap? {
        if valueStackTop < origValue || callStackTop < origStack { return HostOutcome.Undefined; }
        Restore(origStack, origValue);
        return TrappedOut(r.trap, State(), true);
      }
      if callStackTop > origStack { return Unfinished; }
      var n := |p.funcs[f].sig.results|;
      if valueStackTop < n { return HostOutcome.Undefined; }
      var results := TakeResults(n);
      return Completed(results, State());
    }

    /** The results come off the stack into the buffer. */
    method TakeResults(n: nat) returns (results: seq<Value>)
      requires Valid() && n <= valueStackTop
      modifies this`valueStackTop
      ensures Valid() && n <= |old(State()).stack| && results == Last(old(State()).stack, n)
      ensures State() == old(State()).(stack := Front(old(State()).stack, n))
    {
      results := valueStack[valueStackTop - n..valueStackTop];
      valueStackTop := valueStackTop - n;
    }

    /** Both tops back to where they were. */
    method Restore(stackTop: nat, valueTop: nat)
      requires Valid() && stackTop <= callStackTop && valueTop <= valueStackTop
      modifies this`valueStackTop, this`callStackTop
      ensures Valid() && stackTop <= |old(State()).frames| && valueTop <= |old(State()).stack|
      ensures State() == old(State()).(stack := old(State()).stack[..valueTop], frames := old(State()).frames[..stackTop])
    {
      callStackTop, valueStackTop := stackTop, valueTop;
    }
  }
}
