/** Safety over whole runs: operands as the checker saw them, no cell read below a frame's own
    operands, calls that leave everything below them alone, and host entries that give the
    thread back as they found it. */
module RunSafety {
  import opened Wasm
  import opened LinearMemory
  import opened Checking
  import opened CheckerInvariants
  import opened Structure
  import opened Reading
  import opened Layout
  import opened Machine
  import opened Semantics
  import opened Simulation
  import opened Preservation
  import opened Execution
  import opened OperandTypes
  import opened OperandFlow
  import opened OperandSafety

  /** Turn `i` of the run leaks. */
  predicate LeaksAt(m: Module, start: Config, k: nat, i: nat) {
    var e := Run(m.p, start, k, i);
    e.Running? && |e.c.frames| > k && Step(m.p, e.c).Running? && Leaks(m, e.c, Step(m.p, e.c).c)
  }

  /** None of the first `n` turns leaks. */
  predicate Leakless(m: Module, start: Config, k: nat, n: nat) {
    forall i: nat :: i < n ==> !LeaksAt(m, start, k, i)
  }

  /** None of the first `n` turns calls a function with locals of its own. */
  predicate CallsPlain(m: Module, start: Config, k: nat, n: nat) {
    forall i: nat :: i < n ==> !OverlapsAt(m, start, k, i)
  }

  predicate OverlapsAt(m: Module, start: Config, k: nat, i: nat) {
    var e := Run(m.p, start, k, i);
    e.Running? && |e.c.frames| > k && Overlaps(m.p, e.c)
  }

  /** In a module whose callees are plain no run makes such a call. */
  lemma PlainCalleesCallPlain(m: Module, start: Config, k: nat, n: nat)
    requires PlainCallees(m.p)
    ensures CallsPlain(m, start, k, n)
  {
    hide Run, PlainCallee;
    forall i: nat | i < n ensures !OverlapsAt(m, start, k, i) {
      var e := Run(m.p, start, k, i);
      if e.Running? && |e.c.frames| > k { CalledPlain(m.p, e.c); }
    }
  }

  lemma CalledPlain(p: Program, c: Config)
    requires |c.frames| > 0 && PlainCallees(p)
    ensures !Overlaps(p, c)
  {
    hide PlainCallee, AsU32;
    var fr := TopFrame(c);
    if Called(p, c).Some? {
      var rec := p.funcs[fr.func].code[fr.pos];
      if rec.CallRec? {
        assert PlainCallee(p, p.funcs[fr.func].code[fr.pos].func);
      } else {
        assert PlainCallee(p, p.table[AsU32(Last(c.stack, 1)[0])]);
      }
    }
  }

  /** Every function's live branches to loops are taken at the loop's height. */
  predicate AllClean(m: Module) {
    forall f :: 0 <= f < |m.p.funcs| ==> CleanFunc(m, f)
  }

  lemma LeakLater(m: Module, c: Config, k: nat, n: nat)
    requires n > 0 && |c.frames| > k && Step(m.p, c).Running? && Leakless(m, c, k, n)
    ensures !Leaks(m, c, Step(m.p, c).c) && Leakless(m, Step(m.p, c).c, k, n - 1)
  {
    hide Step, Leaks;
    assert !LeaksAt(m, c, k, 0);
    forall i: nat | i < n - 1 ensures !LeaksAt(m, Step(m.p, c).c, k, i) {
      assert !LeaksAt(m, c, k, i + 1);
    }
  }

  lemma PlainLater(m: Module, c: Config, k: nat, n: nat)
    requires n > 0 && |c.frames| > k && CallsPlain(m, c, k, n)
    ensures !Overlaps(m.p, c)
    ensures Step(m.p, c).Running? ==> CallsPlain(m, Step(m.p, c).c, k, n - 1)
  {
    hide Step, Overlaps;
    assert !OverlapsAt(m, c, k, 0);
    if Step(m.p, c).Running? {
      forall i: nat | i < n - 1 ensures !OverlapsAt(m, Step(m.p, c).c, k, i) {
        assert !OverlapsAt(m, c, k, i + 1);
      }
    }
  }

  lemma {:induction false} RunKeeps(exact: bool, m: Module, b: Floor, c: Config, n: nat)
    requires ModuleFits(exact, m) && Going(exact, m, b, c) && CallsPlain(m, c, |b.frames|, n)
    requires exact ==> Leakless(m, c, |b.frames|, n) || AllClean(m)
    ensures Stepped(exact, m, b, Run(m.p, c, |b.frames|, n))
    decreases n
  {
    hide Step, ModuleFits, Waits, StoreFits, Leakless, Leaks, CleanFunc, CallsPlain, Overlaps;
    if n > 0 {
      PlainLater(m, c, |b.frames|, n);
      StepKeeps(exact, m, b, c);
      var e := Step(m.p, c);
      if e.Running? {
        if exact && Leakless(m, c, |b.frames|, n) { LeakLater(m, c, |b.frames|, n); }
        if Leaked(exact, m, c, e) { LeakedFunction(m, c, e.c); }
        if |e.c.frames| > |b.frames| { RunKeeps(exact, m, b, e.c, n - 1); }
        else { StoppedStays(m.p, e.c, |b.frames|, n - 1); }
      }
    }
  }

  lemma LeakedFunction(m: Module, c: Config, d: Config)
    requires Leaks(m, c, d)
    ensures |d.frames| > 0 && TopFrame(d).func < |m.p.funcs|
  {
  }

  /* ---- entering from the host ---- */

  /** The arguments are as many as the parameters and, with `exact`, of their types. */
  predicate ArgsFit(exact: bool, m: Module, f: nat, args: seq<Value>)
    requires f < |m.p.funcs|
  {
    |args| == |m.p.funcs[f].sig.params| && (exact ==> TypesOf(args) == m.p.funcs[f].sig.params)
  }

  /** A host's call of function `f` of a module, from a thread in state `c`. */
  ghost predicate HostCall(exact: bool, m: Module, c: Config, f: nat, args: seq<Value>) {
    && ModuleFits(exact, m) && StoreFits(exact, m, c.store)
    && f < |m.p.funcs| && m.p.funcs[f].WasmFunc? && ArgsFit(exact, m, f, args)
    && |args| <= |m.p.funcs[f].locals|
  }

  function FloorOf(m: Module, c: Config, f: nat): Floor
    requires f < |m.p.funcs|
  {
    Floor(c.stack, c.frames, m.p.funcs[f].sig.results)
  }

  lemma EntryGoes(exact: bool, m: Module, c: Config, f: nat, args: seq<Value>)
    requires HostCall(exact, m, c, f, args) && HostEnter(m.p, c, f, args).Running?
    ensures Going(exact, m, FloorOf(m, c, f), HostEnter(m.p, c, f, args).c)
  {
    hide Holds, LayFunction, CheckBody, HostFits;
    EntersAt(m.p, c, f, args);
    var fn, b := m.p.funcs[f], FloorOf(m, c, f);
    var t := Site(f, c.stack, c.frames);
    var locals := args + ZeroLocals(fn.locals[|args|..]);
    StartFits(exact, m, f);
    if exact {
      forall k | 0 <= k < |fn.locals| ensures TypesOf(locals)[k] == fn.locals[k] {
        if k < |args| { assert TypesOf(args)[k] == fn.sig.params[k]; }
      }
    }
    Remount(exact, m, b, t, 0, locals, [], c.store);
  }

  /* ---- operands as the checker saw them ---- */

  /** The topmost frame stands at a record of its function (or at the end of its code) with its
      locals in place and operands as that record's note says. */
  predicate AsChecked(exact: bool, m: Module, c: Config) {
    && |c.frames| > 0
    && var fr := TopFrame(c);
      && fr.func < |m.p.funcs| && fr.func < |m.ctxs| && fr.func < |m.bodies| && m.p.funcs[fr.func].WasmFunc?
      && fr.pos <= |m.p.funcs[fr.func].code|
      && fr.locals + |m.p.funcs[fr.func].locals| <= |c.stack|
      && (exact ==> TypesOf(LocalsIn(m, fr, c.stack)) == m.p.funcs[fr.func].locals)
      && Fits(exact, NoteAt(m, fr.func, fr.pos), TypesOf(OperandsIn(m, fr, c.stack)))
  }

  lemma GoingIsAsChecked(exact: bool, m: Module, b: Floor, c: Config)
    requires ModuleFits(exact, m) && Going(exact, m, b, c)
    ensures AsChecked(exact, m, c)
  {
    hide Rule, LayFunction, CheckBody, Notes, ModuleFits;
    var t, pc, locals, ops := Mount(exact, m, b, c);
    RuleHere(exact, m, t.f, pc, locals, TypesOf(ops));
    var fr := TopFrame(c);
    assert LocalsIn(m, fr, c.stack) == locals && OperandsIn(m, fr, c.stack) == ops;
  }

  /** State `n` of a run: not stuck and, while the run goes on, as checked. */
  predicate CheckedAt(exact: bool, m: Module, start: Config, k: nat, n: nat) {
    var e := Run(m.p, start, k, n);
    !e.Stuck? && (e.Running? && |e.c.frames| > k ==> AsChecked(exact, m, e.c))
  }

  lemma FollowsChecker(exact: bool, m: Module, c: Config, f: nat, args: seq<Value>, n: nat)
    requires HostCall(exact, m, c, f, args) && HostEnter(m.p, c, f, args).Running?
    requires CallsPlain(m, HostEnter(m.p, c, f, args).c, |c.frames|, n)
    requires exact ==> Leakless(m, HostEnter(m.p, c, f, args).c, |c.frames|, n) || AllClean(m)
    ensures CheckedAt(exact, m, HostEnter(m.p, c, f, args).c, |c.frames|, n)
  {
    hide HostEnter, Run, ModuleFits, Going, AsChecked, StoreFits, Leakless, AllClean, CallsPlain;
    EntryGoes(exact, m, c, f, args);
    var b := FloorOf(m, c, f);
    RunKeeps(exact, m, b, HostEnter(m.p, c, f, args).c, n);
    var e := Run(m.p, HostEnter(m.p, c, f, args).c, |c.frames|, n);
    if e.Running? && |e.c.frames| > |c.frames| {
      GoingIsAsChecked(exact, m, b, e.c);
    }
  }

  /** Type soundness: in every state of every run of a module whose loops are clean, the operands
      above the locals match the checker's type stack, in number and type. */
  lemma OperandsMatchChecker(m: Module, c: Config, f: nat, args: seq<Value>, n: nat)
    requires HostCall(true, m, c, f, args) && HostEnter(m.p, c, f, args).Running? && AllClean(m)
    requires CallsPlain(m, HostEnter(m.p, c, f, args).c, |c.frames|, n)
    ensures CheckedAt(true, m, HostEnter(m.p, c, f, args).c, |c.frames|, n)
  {
    FollowsChecker(true, m, c, f, args, n);
  }

  /** The same on heights alone, with nothing asked of loops: at every state of every run there are
      at least as many operands as the checker's type stack is high. */
  lemma OperandsReachChecker(m: Module, c: Config, f: nat, args: seq<Value>, n: nat)
    requires HostCall(false, m, c, f, args) && HostEnter(m.p, c, f, args).Running?
    requires CallsPlain(m, HostEnter(m.p, c, f, args).c, |c.frames|, n)
    ensures CheckedAt(false, m, HostEnter(m.p, c, f, args).c, |c.frames|, n)
  {
    FollowsChecker(false, m, c, f, args, n);
  }

  /** A step that leaks arrives in a state that is not as checked. */
  lemma LeakShows(m: Module, start: Config, k: nat, i: nat)
    requires LeaksAt(m, start, k, i)
    ensures !CheckedAt(true, m, start, k, i + 1)
  {
    hide Step, Run, NoteAt, LoopAt;
    RunThenStep(m.p, start, k, i);
    var d := Run(m.p, start, k, i + 1).c;
    var fr := TopFrame(d);
    assert |d.stack| > fr.locals + |m.p.funcs[fr.func].locals| + |NoteAt(m, fr.func, fr.pos).types|;
  }

  /** Exactly when the operands match: in the first `n` turns of a run, every state is as checked,
      in number and type, if and only if no turn takes a branch back to a loop with more operands
      than the checker had at the loop's start. Nothing is asked of the module's loops. */
  lemma OperandsMatchUntilLeak(m: Module, c: Config, f: nat, args: seq<Value>, n: nat)
    requires HostCall(true, m, c, f, args) && HostEnter(m.p, c, f, args).Running?
    requires CallsPlain(m, HostEnter(m.p, c, f, args).c, |c.frames|, n)
    ensures
      var start, k := HostEnter(m.p, c, f, args).c, |c.frames|;
      (forall i: nat :: i <= n ==> CheckedAt(true, m, start, k, i)) <==> Leakless(m, start, k, n)
  {
    hide HostEnter, ModuleFits, StoreFits, LeaksAt, CheckedAt;
    var start, k := HostEnter(m.p, c, f, args).c, |c.frames|;
    if Leakless(m, start, k, n) {
      forall i: nat | i <= n ensures CheckedAt(true, m, start, k, i) {
        FollowsChecker(true, m, c, f, args, i);
      }
    } else {
      var i: nat :| i < n && LeaksAt(m, start, k, i);
      LeakShows(m, start, k, i);
    }
  }

  /** The note of an instruction's first record is the checker's state when it met the instruction. */
  lemma {:induction false} NotesAreCheckerStates(ctx: Context, c: Checker, code: seq<Instr>, k: nat)
    requires CheckAll(ctx, c, code).Some? && k < |code| && RecordsOf(code[k]) > 0
    ensures CheckAll(ctx, c, code[..k]).Some?
    ensures
      var pc := Records(code[..k]);
      pc < |Notes(ctx, c, code)| && Notes(ctx, c, code)[pc] == NoteOf(CheckAll(ctx, c, code[..k]).value, code[k])
    decreases k
  {
    hide Check, NoteOf;
    if k > 0 {
      NotesAreCheckerStates(ctx, Check(ctx, c, code[0]).value, code[1..], k - 1);
      assert code[..k][0] == code[0] && code[..k][1..] == code[1..][..k - 1];
    }
  }

  /** Only the first record of an instruction has a live note. */
  lemma {:induction false} LiveNotesStartInstructions(ctx: Context, c: Checker, code: seq<Instr>, pc: nat) returns (k: nat)
    requires CheckAll(ctx, c, code).Some? && pc < |Notes(ctx, c, code)| && !Notes(ctx, c, code)[pc].Dead?
    ensures k < |code| && RecordsOf(code[k]) > 0 && Records(code[..k]) == pc
    decreases |code|
  {
    hide Check, NoteOf;
    var first := RecordsOf(code[0]);
    if pc < first {
      k := 0;
    } else {
      k := LiveNotesStartInstructions(ctx, Check(ctx, c, code[0]).value, code[1..], pc - first);
      k := k + 1;
      assert code[..k][0] == code[0] && code[..k][1..] == code[1..][..k - 1];
    }
  }

  /** The operands are as many and of the types that the checker, in state `k`, has on its stack when it
      meets `i`. At an `end` only those below the bracket and the results on top are: a branch
      may have left others between them. Without `exact` there are at least as many. */
  predicate OperandsAsChecked(exact: bool, k: Checker, i: Instr, ts: seq<Type>) {
    if !i.End? then if exact then ts == k.types else |ts| >= |k.types|
    else
      |k.labels| > 0 &&
      var l := k.labels[|k.labels| - 1];
      && l.limit + |l.sig| <= |ts| && l.limit <= |k.types|
      && (exact ==> ts[..l.limit] == k.types[..l.limit] && ts[|ts| - |l.sig|..] == l.sig)
  }

  /** A configuration as checked stands at the first record of an instruction (never at an entry
      of a `br_table`), or at the end of the code; in the first case its operands are what the
      checker's state was when it met that instruction. */
  lemma StandsAtInstruction(exact: bool, m: Module, c: Config) returns (k: nat)
    requires ModuleFits(exact, m) && AsChecked(exact, m, c) && TopFrame(c).pos < |m.p.funcs[TopFrame(c).func].code|
    ensures
      var fr := TopFrame(c);
      var ctx, code := m.ctxs[fr.func], Flatten(m.bodies[fr.func]);
      && k < |code| && RecordsOf(code[k]) > 0 && fr.pos == Records(code[..k])
      && CheckAll(ctx, BeginFunction(ctx), code[..k]).Some?
      && OperandsAsChecked(exact, CheckAll(ctx, BeginFunction(ctx), code[..k]).value, code[k], TypesOf(OperandsIn(m, fr, c.stack)))
  {
    hide HostFits, CheckBody, LayFunction, CheckAll, Notes, Fits, NoteOf, OperandsAsChecked, Records, OperandsIn, LocalsIn, Flatten;
    var fr := TopFrame(c);
    assert FuncOk(m, fr.func);
    var ctx, b := m.ctxs[fr.func], m.bodies[fr.func];
    FlattenChecks(ctx, b, BeginFunction(ctx));
    NotesFlatten(ctx, b, BeginFunction(ctx));
    NotDead(exact, NoteAt(m, fr.func, fr.pos), TypesOf(OperandsIn(m, fr, c.stack)));
    k := LiveNotesStartInstructions(ctx, BeginFunction(ctx), Flatten(b), fr.pos);
    NotesAreCheckerStates(ctx, BeginFunction(ctx), Flatten(b), k);
    FitIsAsChecked(exact, CheckAll(ctx, BeginFunction(ctx), Flatten(b)[..k]).value, Flatten(b)[k], TypesOf(OperandsIn(m, fr, c.stack)));
  }

  lemma FitIsAsChecked(exact: bool, k: Checker, i: Instr, ts: seq<Type>)
    requires Fits(exact, NoteOf(k, i), ts)
    ensures OperandsAsChecked(exact, k, i, ts)
  {
  }

  lemma NotDead(exact: bool, note: Note, ts: seq<Type>)
    requires Fits(exact, note, ts)
    ensures !note.Dead?
  {
  }

  /* ---- no operand underflow ---- */

  /** How many cells from the top of the stack the record (or the end of the code) takes; an `end`
      also keeps `stack` cells of its own frame below them. */
  function Reads(p: Program, fn: Func, pos: nat): nat
    requires fn.WasmFunc?
  {
    if pos >= |fn.code| then |fn.sig.results|
    else
      match fn.code[pos]
      case Jump(op, _, _) => if op.OpBr? || op.OpElse? then 0 else 1
      case EndRec(stack, results) => stack + results
      case ReturnRec(results) => results
      case CallRec(f, _) => if f < |p.funcs| then |p.funcs[f].sig.params| else 0
      case Op(i) => Takes(p, i)
  }

  /** Where the cells that a record takes must lie above: its frame's locals for an `end`, where they begin
      for a return, the bottom of the stack for the others. */
  function Under(fn: Func, fr: Frame): nat
    requires fn.WasmFunc?
  {
    if fr.pos >= |fn.code| || fn.code[fr.pos].ReturnRec? then fr.locals
    else if fn.code[fr.pos].EndRec? then fr.locals + |fn.locals|
    else 0
  }

  /** The record's immediates name something, and a function it calls is plain and can be entered. */
  predicate Names(p: Program, c: Config, code: seq<Rec>, rec: Rec)
    requires |c.frames| > 0
  {
    match rec
    case Jump(op, n, _) =>
      op.OpBrTable? ==>
        TopFrame(c).pos + 1 + n < |code| && forall k :: TopFrame(c).pos < k <= TopFrame(c).pos + 1 + n ==> code[k].Jump?
    case CallRec(f, _) => Enterable(p, c, f)
    case Op(i) =>
      (match i
       case CallIndirect(sig) =>
         sig < |p.types| && (|c.stack| > 0 ==>
           var r := Lookup(p, AsU32(Last(c.stack, 1)[0]), sig);
           r.Found? && Enterable(p, c, r.f))
       case GetLocal(x) => LocalCell(c, x) < |c.stack|
       case SetLocal(x) => |c.stack| > 0 ==> LocalCell(c, x) < |c.stack| - 1
       case TeeLocal(x) => |c.stack| > 0 ==> LocalCell(c, x) < |c.stack|
       case GetGlobal(x) => x < |c.store.globals|
       case SetGlobal(x) => x < |c.store.globals|
       case _ => IsOpcode(i))
    case _ => true
  }

  predicate Enterable(p: Program, c: Config, f: nat) {
    f < |p.funcs| && PlainCallee(p, f) && |c.frames| < p.callStackSize
  }

  lemma TakesExact(p: Program, c: Config, i: Instr)
    requires |c.frames| > 0 && IsOpcode(i) && Names(p, c, [], Op(i))
    ensures StepOp(p, c, i).Stuck? <==> |c.stack| < Takes(p, i)
  {
    hide LoadFrom, StoreTo, Grow, AsU32, Lookup, StepIndirect, Invoke, Front, Last, PlainCallee;
  }

  lemma InvokeTakes(p: Program, c: Config, f: nat)
    requires |c.frames| > 0 && Enterable(p, c, f)
    ensures Invoke(p, c, f).Stuck? <==> |c.stack| < |p.funcs[f].sig.params|
  {
  }

  lemma IndirectTakes(p: Program, c: Config, sig: nat)
    requires |c.frames| > 0 && Names(p, c, [], Op(CallIndirect(sig)))
    ensures StepOp(p, c, CallIndirect(sig)).Stuck? <==> |c.stack| < Takes(p, CallIndirect(sig))
  {
    hide Invoke, AsU32;
    if |c.stack| > 0 {
      var f := Lookup(p, AsU32(Last(c.stack, 1)[0]), sig).f;
      InvokeTakes(p, c.(stack := Front(c.stack, 1)), f);
    }
  }

  /** `Reads` is exact: a turn is undefined exactly when it finds fewer cells than that. */
  lemma ReadsExact(p: Program, c: Config)
    requires |c.frames| > 0 && TopFrame(c).func < |p.funcs| && p.funcs[TopFrame(c).func].WasmFunc?
    requires
      var fr, fn := TopFrame(c), p.funcs[TopFrame(c).func];
      fr.pos < |fn.code| ==> Names(p, c, fn.code, fn.code[fr.pos])
    ensures
      var fr, fn := TopFrame(c), p.funcs[TopFrame(c).func];
      Step(p, c).Stuck? <==> |c.stack| < Under(fn, fr) + Reads(p, fn, fr.pos)
  {
    hide Invoke, StepOp, Takes, Lookup, Next, SetPos, AsU32, PlainCallee, StepJump;
    var fr, fn := TopFrame(c), p.funcs[TopFrame(c).func];
    if fr.pos < |fn.code| {
      var rec := fn.code[fr.pos];
      match rec
      case CallRec(f, _) => InvokeTakes(p, c, f);
      case Op(i) => if i.CallIndirect? { IndirectTakes(p, c, i.sig); } else { OtherTakes(p, c, i); }
      case Jump(_, _, _) => JumpTakes(c, fn.code, rec);
      case _ =>
    }
  }

  lemma JumpTakes(c: Config, code: seq<Rec>, rec: Rec)
    requires |c.frames| > 0 && rec.Jump?
    requires rec.op.OpBrTable? ==>
      TopFrame(c).pos + 1 + rec.v1 < |code| && forall k :: TopFrame(c).pos < k <= TopFrame(c).pos + 1 + rec.v1 ==> code[k].Jump?
    ensures StepJump(c, code, rec).Stuck? <==> |c.stack| < if rec.op.OpBr? || rec.op.OpElse? then 0 else 1
  {
    hide AsU32, SetPos, Next;
  }

  lemma OtherTakes(p: Program, c: Config, i: Instr)
    requires |c.frames| > 0 && !i.CallIndirect? && Names(p, c, [], Op(i))
    ensures StepOp(p, c, i).Stuck? <==> |c.stack| < Takes(p, i)
  {
    hide StepOp, Takes;
    TakesExact(p, c, i);
  }

  lemma NoUnderflowHere(m: Module, b: Floor, c: Config)
    requires ModuleFits(false, m) && Going(false, m, b, c)
    ensures |c.frames| > 0 && TopFrame(c).func < |m.p.funcs| && m.p.funcs[TopFrame(c).func].WasmFunc?
    ensures
      var fr := TopFrame(c);
      fr.locals + |m.p.funcs[fr.func].locals| + Reads(m.p, m.p.funcs[fr.func], fr.pos) <= |c.stack|
  {
    hide LayFunction, CheckBody, Notes, HostFits, FuncOk, Mounted, StoreFits, Going, OpRule, Takes, JumpRule;
    var t, pc, locals, ops := Mount(false, m, b, c);
    RuleHere(false, m, t.f, pc, locals, TypesOf(ops));
    var fl := FlatAt(false, m, t.f);
    NoteRelates(fl, pc, ops);
    assert |ops| == |TypesOf(ops)|;
    assert |c.stack| == |t.pre| + |locals| + |ops|;
    if pc < |fl.code| {
      var note := fl.notes[pc];
      if fl.code[pc].Op? { TakesEnough(m.p, fl, pc, fl.code[pc].i, note.types); }
      if fl.code[pc].Jump? { JumpNeeds(fl, pc, fl.code[pc], note.types); }
    } else {
      assert fl.notes[pc] == Join([], m.ctxs[t.f].results);
    }
  }

  lemma JumpNeeds(fl: Flat, pc: nat, rec: Rec, ts: seq<Type>)
    requires rec.Jump? && JumpRule(fl, pc, rec.op, rec.v1, rec.v2, ts)
    ensures rec.op.OpBr? || rec.op.OpElse? || |ts| >= 1
  {
  }

  /** No record of any run reads below its own frame's operands: not into the locals, not into an
      outer frame. Nothing is asked of loops. */
  lemma NoUnderflow(m: Module, c: Config, f: nat, args: seq<Value>, n: nat)
    requires HostCall(false, m, c, f, args) && HostEnter(m.p, c, f, args).Running?
    requires CallsPlain(m, HostEnter(m.p, c, f, args).c, |c.frames|, n)
    ensures
      var e := Run(m.p, HostEnter(m.p, c, f, args).c, |c.frames|, n);
      e.Running? && |e.c.frames| > |c.frames| ==>
        var fr := TopFrame(e.c);
        fr.func < |m.p.funcs| && m.p.funcs[fr.func].WasmFunc? &&
        fr.locals + |m.p.funcs[fr.func].locals| + Reads(m.p, m.p.funcs[fr.func], fr.pos) <= |e.c.stack|
  {
    hide HostEnter, Run, ModuleFits, Going, StoreFits, Reads;
    EntryGoes(false, m, c, f, args);
    var b := FloorOf(m, c, f);
    RunKeeps(false, m, b, HostEnter(m.p, c, f, args).c, n);
    var e := Run(m.p, HostEnter(m.p, c, f, args).c, |c.frames|, n);
    if e.Running? && |e.c.frames| > |c.frames| { NoUnderflowHere(m, b, e.c); }
  }

  /* ---- calls ---- */

  /** A step that calls: one more frame, whose locals are the arguments on top of the stack. */
  predicate Calls(p: Program, c: Config, d: Config) {
    |c.frames| > 0 && Step(p, c) == Running(d) && |d.frames| > |c.frames|
  }

  lemma CallShape(m: Module, c: Config, d: Config)
    requires Calls(m.p, c, d) && !Overlaps(m.p, c)
    ensures
      var g := TopFrame(d).func;
      && g < |m.p.funcs| && m.p.funcs[g].WasmFunc? && PlainCallee(m.p, g)
      && |m.p.funcs[g].sig.params| <= |d.stack| && d.store == c.store
      && d.frames == Next(c).frames + [Frame(g, |d.stack| - |m.p.funcs[g].sig.params|, 0)]
      && (d.stack == c.stack || (|c.stack| > 0 && d.stack == Front(c.stack, 1)))
  {
    hide ModuleFits, StepNumeric, StepLoad, StepStore, StepGrow, StepSelect, LoadFrom, StoreTo, Grow, StepTable, Compiled;
    var f := TopFrame(c);
    var fn := m.p.funcs[f.func];
    if f.pos < |fn.code| {
      StepNotCall(m.p, c, fn, fn.code[f.pos]);
      var rec := fn.code[f.pos];
      if rec.CallRec? {
        assert Called(m.p, c) == Some(rec.func);
        InvokeShape(m.p, c, rec.func, d);
      } else {
        IndirectShape(m.p, c, rec.i.sig, d);
      }
    }
  }

  lemma StepNotCall(p: Program, c: Config, fn: Func, rec: Rec)
    requires |c.frames| > 0 && fn.WasmFunc? && StepRec(p, c, fn, rec).Running?
    requires |StepRec(p, c, fn, rec).c.frames| > |c.frames|
    ensures rec.CallRec? || (rec.Op? && rec.i.CallIndirect?)
  {
    hide StepOp, Invoke;
    if rec.Op? && !rec.i.CallIndirect? { OpKeepsFrames(p, c, rec.i); }
  }

  lemma OpKeepsFrames(p: Program, c: Config, i: Instr)
    requires |c.frames| > 0 && !i.CallIndirect? && StepOp(p, c, i).Running?
    ensures |StepOp(p, c, i).c.frames| == |c.frames|
  {
    hide LoadFrom, StoreTo, Grow, AsU32;
  }

  lemma InvokeShape(p: Program, c: Config, f: nat, d: Config)
    requires |c.frames| > 0 && Invoke(p, c, f) == Running(d) && |d.frames| > |c.frames| && PlainCallee(p, f)
    ensures f < |p.funcs| && p.funcs[f].WasmFunc? && TopFrame(d).func == f && d.stack == c.stack && d.store == c.store
    ensures |p.funcs[f].sig.params| <= |d.stack|
    ensures d.frames == Next(c).frames + [Frame(f, |d.stack| - |p.funcs[f].sig.params|, 0)]
  {
  }

  lemma IndirectShape(p: Program, c: Config, sig: nat, d: Config)
    requires |c.frames| > 0 && StepIndirect(p, c, sig) == Running(d) && |d.frames| > |c.frames|
    requires |c.stack| > 0 ==>
      var r := Lookup(p, AsU32(Last(c.stack, 1)[0]), sig);
      r.Found? ==> PlainCallee(p, r.f)
    ensures TopFrame(d).func < |p.funcs| && p.funcs[TopFrame(d).func].WasmFunc? && PlainCallee(p, TopFrame(d).func)
    ensures |c.stack| > 0 && d.stack == Front(c.stack, 1) && d.store == c.store
    ensures
      var g := TopFrame(d).func;
      |p.funcs[g].sig.params| <= |d.stack| &&
      d.frames == Next(c).frames + [Frame(g, |d.stack| - |p.funcs[g].sig.params|, 0)]
  {
    hide Invoke, AsU32;
    var e := c.(stack := Front(c.stack, 1));
    var f := p.table[AsU32(Last(c.stack, 1)[0])];
    assert Lookup(p, AsU32(Last(c.stack, 1)[0]), sig) == Found(f);
    InvokeShape(p, e, f, d);
    assert Next(e).frames == Next(c).frames;
  }

  /** Where a call has to leave the thread: the arguments gone, the caller past the call. */
  function CallFloor(m: Module, c: Config, d: Config): Floor
    requires |c.frames| > 0 && |d.frames| > 0 && TopFrame(d).func < |m.p.funcs|
    requires |m.p.funcs[TopFrame(d).func].sig.params| <= |d.stack|
  {
    var sig := m.p.funcs[TopFrame(d).func].sig;
    Floor(Front(d.stack, |sig.params|), Next(c).frames, sig.results)
  }

  /** Call discipline: however deep the calls in between, a call that finishes has popped exactly
      its parameters and pushed exactly its results, and no cell and no frame below has changed;
      until then (and if it traps) they are still in place. Nothing is asked of loops. */
  lemma CallDiscipline(m: Module, c: Config, d: Config, n: nat)
    requires ModuleFits(false, m) && StoreFits(false, m, c.store) && Calls(m.p, c, d)
    requires !Overlaps(m.p, c) && CallsPlain(m, d, |c.frames|, n)
    ensures TopFrame(d).func < |m.p.funcs| && |m.p.funcs[TopFrame(d).func].sig.params| <= |d.stack|
    ensures
      var b, e := CallFloor(m, c, d), Run(m.p, d, |c.frames|, n);
      && !e.Stuck?
      && (e.Running? && |e.c.frames| <= |c.frames| ==>
            e.c.frames == b.frames && |e.c.stack| == |b.stack| + |b.results| && e.c.stack[..|b.stack|] == b.stack)
      && ((e.Running? && |e.c.frames| > |c.frames|) || e.Trapped? ==> Above(b, e.c))
  {
    hide Step, Run, ModuleFits, Next, StoreFits, Going, LayFunction, CheckBody;
    CallShape(m, c, d);
    var b := CallFloor(m, c, d);
    var g := TopFrame(d).func;
    var t := Site(g, b.stack, b.frames);
    var args := Last(d.stack, |m.p.funcs[g].sig.params|);
    FramesKept(c);
    CalleeFit(false, m, g, args);
    Remount(false, m, b, t, 0, args, [], d.store);
    assert Cfg(t, 0, args, [], d.store) == d;
    RunKeeps(false, m, b, d, n);
    var e := Run(m.p, d, |c.frames|, n);
    if e.Running? {
      if |e.c.frames| > |c.frames| { WentAbove(m, b, e.c); } else { OverIsDone(m, b, e.c); }
    }
  }

  lemma FramesKept(c: Config)
    requires |c.frames| > 0
    ensures |Next(c).frames| == |c.frames|
  {
  }

  lemma WentAbove(m: Module, b: Floor, c: Config)
    requires Going(false, m, b, c) || Over(false, m, b, c)
    requires |c.frames| > |b.frames|
    ensures Above(b, c)
  {
    WaitsAbove(false, m, b, c.stack, c.frames, []);
  }

  lemma OverIsDone(m: Module, b: Floor, c: Config)
    requires Going(false, m, b, c) || Over(false, m, b, c)
    requires |c.frames| <= |b.frames|
    ensures |c.stack| == |b.stack| + |b.results| && c.frames == b.frames
    ensures Front(c.stack, |b.results|) == c.stack[..|b.stack|] == b.stack
  {
  }

  /* ---- host entries ---- */

  /** `Run(module, func, buffer)`: `restored` tells whether the trap came after the early exits. */
  datatype HostOutcome =
    | Completed(results: seq<Value>, c: Config)
    | TrappedOut(trap: Trap, c: Config, restored: bool)
    | Unfinished
    | Undefined

  function HostRun(p: Program, c: Config, f: nat, args: seq<Value>, n: nat): HostOutcome
    requires f < |p.funcs| && p.funcs[f].WasmFunc? && |args| == |p.funcs[f].sig.params| <= |p.funcs[f].locals|
  {
    match HostEnter(p, c, f, args)
    case Stuck => Undefined
    case Trapped(t, d) => TrappedOut(t, d, false)
    case Running(d) =>
      match Run(p, d, |c.frames|, n)
      case Stuck => Undefined
      case Trapped(t, e) =>
        if |e.stack| < |c.stack| || |e.frames| < |c.frames| then Undefined
        else TrappedOut(t, e.(stack := e.stack[..|c.stack|], frames := e.frames[..|c.frames|]), true)
      case Running(e) =>
        var k := |p.funcs[f].sig.results|;
        if |e.frames| > |c.frames| then Unfinished
        else if |e.stack| < k then Undefined
        else Completed(Last(e.stack, k), e.(stack := Front(e.stack, k)))
  }

  /** A host entry gives the thread's two stacks back as they were, on success and on every trap
      past the early exits; of those, the one for the value stack changes nothing and the one for
      the call stack leaves the entry's locals behind. */
  lemma HostRunRestores(m: Module, c: Config, f: nat, args: seq<Value>, n: nat)
    requires HostCall(false, m, c, f, args)
    requires HostEnter(m.p, c, f, args).Running? ==> CallsPlain(m, HostEnter(m.p, c, f, args).c, |c.frames|, n)
    ensures
      var o := HostRun(m.p, c, f, args, n);
      && !o.Undefined?
      && (o.Completed? ==> o.c.stack == c.stack && o.c.frames == c.frames && |o.results| == |m.p.funcs[f].sig.results|)
      && (o.TrappedOut? && o.restored ==> o.c.stack == c.stack && o.c.frames == c.frames)
      && (o.TrappedOut? && !o.restored ==>
            o.c.frames == c.frames &&
            (o.c.stack == c.stack <==> !(o.trap.CallStackExhausted? && |m.p.funcs[f].locals| > 0)))
  {
    hide Run, ModuleFits, StoreFits, Going;
    var e := HostEnter(m.p, c, f, args);
    if e.Running? {
      hide HostEnter, ZeroLocals;
      EntryGoes(false, m, c, f, args);
      var b := FloorOf(m, c, f);
      RunKeeps(false, m, b, e.c, n);
      var r := Run(m.p, e.c, |c.frames|, n);
      if r.Running? && |r.c.frames| <= |c.frames| {
        OverIsDone(m, b, r.c);
      }
    } else {
      var z := ZeroLocals(m.p.funcs[f].locals[|args|..]);
      assert |c.stack + args + z| == |c.stack| + |m.p.funcs[f].locals|;
      assert |m.p.funcs[f].locals| == 0 ==> c.stack + args + z == c.stack;
    }
  }
}
