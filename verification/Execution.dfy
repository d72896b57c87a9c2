/** Whole executions: entering a function from the host, the agreement of the flat machine with
    the structured semantics in both directions, and the reader as the source of the code. */
module Execution {
  import opened Wasm
  import opened LinearMemory
  import opened Checking
  import opened CheckerInvariants
  import opened Structure
  import opened Heights
  import opened Reading
  import opened Layout
  import opened OnePass
  import opened Machine
  import opened Semantics
  import opened Simulation
  import opened Preservation

  function Max(a: nat, b: nat): nat {
    if a < b then b else a
  }

  /** `Run(module, func, buffer)` up to its first opcode: `PushLocals`, then `PushCall`. */
  function HostEnter(p: Program, c: Config, f: nat, args: seq<Value>): State
    requires f < |p.funcs| && p.funcs[f].WasmFunc? && |args| == |p.funcs[f].sig.params| <= |p.funcs[f].locals|
  {
    var fn := p.funcs[f];
    if |c.stack| + Max(|fn.locals|, |fn.sig.results|) > p.valueStackSize then Trapped(ValueStackExhausted, c)
    else PushCall(p, c.(stack := c.stack + args + ZeroLocals(fn.locals[|args|..])), f)
  }

  lemma EntersAt(p: Program, c: Config, f: nat, args: seq<Value>)
    requires f < |p.funcs| && p.funcs[f].WasmFunc? && |args| == |p.funcs[f].sig.params| <= |p.funcs[f].locals|
    ensures Escaped(HostEnter(p, c, f, args)) ||
      HostEnter(p, c, f, args) ==
        Running(Cfg(Site(f, c.stack, c.frames), 0, args + ZeroLocals(p.funcs[f].locals[|args|..]), [], c.store))
  {
    var z := ZeroLocals(p.funcs[f].locals[|args|..]);
    assert c.stack + args + z == c.stack + (args + z) + [];
  }

  /** Where the structured outcome `o` of a call leaves the thread that made it. */
  predicate EndsAs(c: Config, o: Outcome, e: State) {
    match o
    case Returned(s) => e == Running(Config(c.stack + s.vs, c.frames, s.store))
    case Failed(trap, st) => e.Trapped? && e.trap == trap && e.c.store == st
    case _ => false
  }

  /* ---- runs are deterministic ---- */

  predicate Final(e: State, k: nat) {
    e.Running? ==> |e.c.frames| <= k
  }

  lemma {:induction false} FinalStays(p: Program, c: Config, k: nat, a: nat, b: nat)
    requires a <= b && Final(Run(p, c, k, a), k)
    ensures Run(p, c, k, b) == Run(p, c, k, a)
    decreases a
  {
    hide Step;
    if |c.frames| <= k {
    } else if a > 0 && Step(p, c).Running? {
      FinalStays(p, Step(p, c).c, k, a - 1, b - 1);
    }
  }

  /** A valid call, from a thread whose store fits the module. */
  ghost predicate CallOk(m: Module, c: Config, f: nat, args: seq<Value>) {
    && ModuleOk(m)
    && f < |m.p.funcs| && m.p.funcs[f].WasmFunc?
    && |args| == |m.p.funcs[f].sig.params| <= |m.p.funcs[f].locals|
    && StoreOk(m, c.store)
  }

  lemma Simulated(m: Module, c: Config, f: nat, args: seq<Value>, fuel: nat) returns (n: nat)
    requires CallOk(m, c, f, args) && HostEnter(m.p, c, f, args).Running?
    ensures
      var k, o := |c.frames|, ExecFunc(m.p, m.bodies, f, args, c.store, fuel);
      var start := HostEnter(m.p, c, f, args).c;
      var e := Run(m.p, start, k, n);
      Escapes(m, start, k, n) || EndsAs(c, o, e) || (o.OutOfFuel? && n > fuel && e.Running? && |e.c.frames| > k)
  {
    hide ModuleOk, StoreOk, ExecFunc, Run, Escapes;
    EntersAt(m.p, c, f, args);
    n := FuncSim(m, |c.frames|, Site(f, c.stack, c.frames), args, c.store, fuel);
  }

  /** Compilation preserves meaning, forwards: whatever the structured semantics computes, the
      machine computes too, unless one of its stacks is too small, a page count wraps, or the
      module is not tidy and the run strays. */
  lemma MeaningPreserved(m: Module, c: Config, f: nat, args: seq<Value>, fuel: nat)
    requires CallOk(m, c, f, args) && HostEnter(m.p, c, f, args).Running?
    requires !ExecFunc(m.p, m.bodies, f, args, c.store, fuel).OutOfFuel?
    ensures exists n: nat ::
      var start := HostEnter(m.p, c, f, args).c;
      var e := Run(m.p, start, |c.frames|, n);
      (e.Trapped? && e.trap in {ValueStackExhausted, CallStackExhausted, PageCountWrapped}) ||
      (!Tidy(m) && StraysWithin(m, start, |c.frames|, n)) ||
      EndsAs(c, ExecFunc(m.p, m.bodies, f, args, c.store, fuel), e)
  {
    hide ExecFunc, Run, ModuleOk, StoreOk, Escapes, HostEnter, Tidy, StraysWithin;
    var n := Simulated(m, c, f, args, fuel);
    var start := HostEnter(m.p, c, f, args).c;
    if Escapes(m, start, |c.frames|, n) { EscapesHow(m, start, |c.frames|, n); }
    var e := Run(m.p, start, |c.frames|, n);
    assert (e.Trapped? && e.trap in {ValueStackExhausted, CallStackExhausted, PageCountWrapped}) ||
      (!Tidy(m) && StraysWithin(m, start, |c.frames|, n)) ||
      EndsAs(c, ExecFunc(m.p, m.bodies, f, args, c.store, fuel), e);
  }

  /** There are three ways for the machine to give up. */
  lemma EscapesHow(m: Module, start: Config, k: nat, n: nat)
    requires Escapes(m, start, k, n)
    ensures
      var e := Run(m.p, start, k, n);
      (e.Trapped? && e.trap in {ValueStackExhausted, CallStackExhausted, PageCountWrapped}) ||
      (!Tidy(m) && StraysWithin(m, start, k, n))
  {
    hide Run, Tidy, StraysWithin;
  }

  /** A run that is over by turn `n` has not strayed later. */
  lemma StrayedBefore(m: Module, start: Config, k: nat, n: nat, n1: nat)
    requires n <= n1 && Final(Run(m.p, start, k, n), k) && Escapes(m, start, k, n1)
    ensures Escapes(m, start, k, n)
  {
    hide Run, Strays, Tidy;
    FinalStays(m.p, start, k, n, n1);
    if !Escaped(Run(m.p, start, k, n1)) {
      var i: nat :| i < n1 && StraysAt(m, start, k, i);
      if i >= n { FinalStays(m.p, start, k, n, i); }
    }
  }

  /** … and backwards: when the machine ends within `n` turns, without having strayed, the
      structured semantics ends the same way with fuel `n`. */
  lemma MeaningReflected(m: Module, c: Config, f: nat, args: seq<Value>, n: nat)
    requires CallOk(m, c, f, args) && HostEnter(m.p, c, f, args).Running?
    requires Final(Run(m.p, HostEnter(m.p, c, f, args).c, |c.frames|, n), |c.frames|)
    ensures
      var start := HostEnter(m.p, c, f, args).c;
      var e := Run(m.p, start, |c.frames|, n);
      (e.Trapped? && e.trap in {ValueStackExhausted, CallStackExhausted, PageCountWrapped}) ||
      (!Tidy(m) && StraysWithin(m, start, |c.frames|, n)) ||
      EndsAs(c, ExecFunc(m.p, m.bodies, f, args, c.store, n), e)
  {
    hide ExecFunc, Run, ModuleOk, StoreOk, HostEnter, Escapes, Tidy, StraysWithin;
    var k, start := |c.frames|, HostEnter(m.p, c, f, args).c;
    var n1 := Simulated(m, c, f, args, n);
    if n <= n1 {
      FinalStays(m.p, start, k, n, n1);
      if Escapes(m, start, k, n1) { StrayedBefore(m, start, k, n, n1); }
    } else if Escapes(m, start, k, n1) {
      EscapesStays(m, start, k, n1, n);
    } else {
      assert Final(Run(m.p, start, k, n1), k);
      FinalStays(m.p, start, k, n1, n);
    }
    if Escapes(m, start, k, n) { EscapesHow(m, start, k, n); }
  }

  lemma EscapesStays(m: Module, start: Config, k: nat, a: nat, b: nat)
    requires a <= b && Escapes(m, start, k, a)
    ensures Escapes(m, start, k, b)
  {
    hide Run, Strays, Tidy;
    if Escaped(Run(m.p, start, k, a)) {
      FinalStays(m.p, start, k, a, b);
    } else {
      var i: nat :| i < a && StraysAt(m, start, k, i);
      assert i < b;
    }
  }

  /** A run that has returned something else than the structured semantics has strayed. */
  lemma DifferenceIsStraying(m: Module, c: Config, f: nat, args: seq<Value>, fuel: nat, n: nat)
    requires CallOk(m, c, f, args) && HostEnter(m.p, c, f, args).Running?
    requires !ExecFunc(m.p, m.bodies, f, args, c.store, fuel).OutOfFuel?
    requires
      var e := Run(m.p, HostEnter(m.p, c, f, args).c, |c.frames|, n);
      e.Running? && |e.c.frames| <= |c.frames| && !EndsAs(c, ExecFunc(m.p, m.bodies, f, args, c.store, fuel), e)
    ensures !Tidy(m) && StraysWithin(m, HostEnter(m.p, c, f, args).c, |c.frames|, n)
  {
    hide ExecFunc, Run, ModuleOk, StoreOk, HostEnter, Escapes, Tidy, Strays;
    var start, k := HostEnter(m.p, c, f, args).c, |c.frames|;
    var a := Simulated(m, c, f, args, fuel);
    SameEndings(m.p, start, k, n, a);
    if n <= a && Escapes(m, start, k, a) { StrayedBefore(m, start, k, n, a); }
    if a < n && Escapes(m, start, k, a) { EscapesStays(m, start, k, a, n); }
    EscapedWithin(m, start, k, n);
  }

  lemma EscapedWithin(m: Module, start: Config, k: nat, n: nat)
    requires Escapes(m, start, k, n) && Run(m.p, start, k, n).Running?
    ensures !Tidy(m) && StraysWithin(m, start, k, n)
  {
  }

  /** A run that has ended by turn `a` ends nowhere else. */
  lemma SameEndings(p: Program, start: Config, k: nat, a: nat, b: nat)
    requires Final(Run(p, start, k, a), k)
    ensures Final(Run(p, start, k, b), k) ==> Run(p, start, k, b) == Run(p, start, k, a)
  {
    hide Run;
    if a <= b { FinalStays(p, start, k, a, b); }
    else if Final(Run(p, start, k, b), k) { FinalStays(p, start, k, b, a); }
  }

  /** No run of a valid call reaches a state that the dispatch loop leaves undefined without having
      strayed first; in a tidy module none does at all. */
  lemma NeverStuck(m: Module, c: Config, f: nat, args: seq<Value>, n: nat)
    requires CallOk(m, c, f, args) && HostEnter(m.p, c, f, args).Running?
    ensures
      var start := HostEnter(m.p, c, f, args).c;
      Run(m.p, start, |c.frames|, n).Stuck? ==> !Tidy(m) && StraysWithin(m, start, |c.frames|, n)
  {
    hide ExecFunc, Run, ModuleOk, StoreOk, HostEnter, Tidy, StraysWithin;
    if Run(m.p, HostEnter(m.p, c, f, args).c, |c.frames|, n).Stuck? {
      MeaningReflected(m, c, f, args, n);
    }
  }

  /** The structured semantics never goes wrong on a valid call whose run neither exhausts the
      machine nor strays. */
  lemma {:induction false} StructuredNeverWrong(m: Module, c: Config, f: nat, args: seq<Value>, fuel: nat)
    requires CallOk(m, c, f, args) && HostEnter(m.p, c, f, args).Running?
    requires forall n: nat ::
      var start := HostEnter(m.p, c, f, args).c;
      var e := Run(m.p, start, |c.frames|, n);
      !(e.Trapped? && e.trap in {ValueStackExhausted, CallStackExhausted, PageCountWrapped}) &&
      (Tidy(m) || !StraysWithin(m, start, |c.frames|, n))
    ensures var o := ExecFunc(m.p, m.bodies, f, args, c.store, fuel); o.Returned? || o.Failed? || o.OutOfFuel?
  {
    hide ExecFunc, Run, ModuleOk, StoreOk, HostEnter, Escapes, Tidy, StraysWithin;
    var n := Simulated(m, c, f, args, fuel);
    var start, k := HostEnter(m.p, c, f, args).c, |c.frames|;
    if Escapes(m, start, k, n) { EscapesHow(m, start, k, n); }
  }

  /* ---- the code comes from the reader ---- */

  function RecordsOf(i: Instr): nat {
    if i.Block? || i.Loop? then 0 else PlainSize(i)
  }

  /** How many records an instruction stream compiles to. */
  function Records(code: seq<Instr>): nat {
    if code == [] then 0 else RecordsOf(code[0]) + Records(code[1..])
  }

  lemma {:induction false} RecordsConcat(xs: seq<Instr>, ys: seq<Instr>)
    ensures Records(xs + ys) == Records(xs) + Records(ys)
    decreases |xs|
  {
    if xs == [] {
      assert xs + ys == ys;
    } else {
      assert (xs + ys)[1..] == xs[1..] + ys;
      RecordsConcat(xs[1..], ys);
    }
  }

  lemma RecordsOne(i: Instr)
    ensures Records([i]) == RecordsOf(i)
  {
    assert [i][1..] == [];
  }

  lemma {:induction false} SizeIsRecords(b: Body)
    ensures Size(b) == Records(Flatten(b))
    decreases b
  {
    match b
    case Nil =>
    case Cons(h, t) =>
      SizeInsIsRecords(h);
      SizeIsRecords(t);
      RecordsConcat(FlattenIns(h), Flatten(t));
  }

  lemma {:induction false} SizeInsIsRecords(ins: Ins)
    ensures SizeIns(ins) == Records(FlattenIns(ins))
    decreases ins
  {
    match ins
    case Plain(i) => RecordsOne(i);
    case BlockIns(sig, b) => SizeIsRecords(b); RecordsBracket(Block(sig), Flatten(b), End);
    case LoopIns(sig, b) => SizeIsRecords(b); RecordsBracket(Loop(sig), Flatten(b), End);
    case IfIns(sig, b) => SizeIsRecords(b); RecordsBracket(If(sig), Flatten(b), End);
    case IfElseIns(sig, b1, b2) =>
      SizeIsRecords(b1);
      SizeIsRecords(b2);
      RecordsBracket(If(sig), Flatten(b1), Else);
      RecordsConcat([If(sig)] + Flatten(b1) + [Else], Flatten(b2));
      RecordsConcat([If(sig)] + Flatten(b1) + [Else] + Flatten(b2), [End]);
      RecordsOne(End);
  }

  lemma RecordsBracket(open: Instr, inner: seq<Instr>, close: Instr)
    ensures Records([open] + inner + [close]) == RecordsOf(open) + Records(inner) + RecordsOf(close)
  {
    RecordsConcat([open] + inner, [close]);
    RecordsConcat([open], inner);
    RecordsOne(open);
    RecordsOne(close);
  }

  /** The code that `EndFunctionBody` stores is the direct layout of the structured body that
      the stream denotes, and the reader succeeds exactly on the streams the checker accepts. */
  lemma CompiledIsLaidOut(ctx: Context, code: seq<Instr>)
    requires Records(code) < INVALID_INDEX
    ensures CompileBody(ctx, code).Some? <==> Accepts(ctx, code)
    ensures Accepts(ctx, code) ==> exists b :: Denotes(ctx, code, b)
  {
    hide CompileBody, LayFunction, CheckBody;
    CompiledIsAccepted(ctx, code);
    if Accepts(ctx, code) {
      var b := AcceptedIsStructured(ctx, code);
      SizeIsRecords(b);
      OnePassIsLayout(ctx, b);
      assert Denotes(ctx, code, b);
    }
  }

  predicate Denotes(ctx: Context, code: seq<Instr>, b: Body) {
    && code == Flatten(b)
    && CheckBody(ctx, b, BeginFunction(ctx)).Some?
    && EndFunction(CheckBody(ctx, b, BeginFunction(ctx)).value).Some?
    && CompileBody(ctx, code) == Some(LayFunction(ctx, b))
  }
}
