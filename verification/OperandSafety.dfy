/** Operands at run time: in every run, every frame of the machine keeps above its locals what
    the checker's type stack said when the frame's next opcode was emitted. With `exact` number
    and types agree until a branch to a loop leaks operands; without it heights are bounded from
    below, and nothing is asked of loops. */
module OperandSafety {
  import opened Wasm
  import opened LinearMemory
  import opened Checking
  import opened CheckerInvariants
  import opened Structure
  import opened Heights
  import opened Reading
  import opened Layout
  import opened Loops
  import opened Machine
  import opened Semantics
  import opened Simulation
  import opened Preservation
  import opened OperandTypes
  import opened OperandFlow

  /* ---- hypotheses ---- */

  /** Every function sees the globals at the same types. */
  predicate StoreFits(exact: bool, m: Module, st: Shared) {
    |st.globals| == m.globals &&
    (exact ==> forall f, x :: 0 <= f < |m.p.funcs| && f < |m.ctxs| && m.p.funcs[f].WasmFunc? && 0 <= x < |m.ctxs[f].globals| && x < |st.globals| ==>
      st.globals[x].ty == m.ctxs[f].globals[x].ty)
  }

  /** Host functions return what they are declared to. */
  ghost predicate HostFits(exact: bool, m: Module) {
    forall f: nat, args: seq<Value>, st: Shared :: f < |m.p.funcs| && m.p.funcs[f].HostFunc? && StoreFits(exact, m, st) ==>
      AnswerFits(exact, m, f, args, st)
  }

  predicate AnswerFits(exact: bool, m: Module, f: nat, args: seq<Value>, st: Shared)
    requires f < |m.p.funcs| && m.p.funcs[f].HostFunc?
  {
    var r := m.p.host(m.p.funcs[f].id, args, st);
    r.HostOk? ==>
      && Related(exact, TypesOf(r.results), m.p.funcs[f].sig.results)
      && |r.results| == |m.p.funcs[f].sig.results|
      && StoreFits(exact, m, r.store)
  }

  ghost predicate ModuleFits(exact: bool, m: Module) {
    && |m.ctxs| == |m.p.funcs| == |m.bodies|
    && (forall f :: 0 <= f < |m.p.funcs| ==> FuncOk(m, f))
    && HostFits(exact, m)
  }

  /* ---- the invariant ---- */

  predicate Related(exact: bool, us: seq<Type>, ts: seq<Type>) {
    if exact then us == ts else |us| >= |ts|
  }

  function FlatAt(exact: bool, m: Module, f: nat): Flat
    requires f < |m.p.funcs| && f < |m.ctxs| && f < |m.bodies| && Compiled(m, f)
  {
    FlatOf(exact, m.ctxs[f], m.bodies[f])
  }

  /** What the checker's run over the body of `f` says about the record at `pc`. */
  function NoteAt(m: Module, f: nat, pc: nat): Note
    requires f < |m.ctxs| && f < |m.bodies|
  {
    var notes := FunctionNotes(m.ctxs[f], Flatten(m.bodies[f]));
    if pc < |notes| then notes[pc] else Dead
  }

  /** From `c` to `d` the topmost frame has branched back to the start of a loop with more operands
      than the checker had there. */
  predicate Leaks(m: Module, c: Config, d: Config) {
    && |d.frames| > 0 && TopFrame(d).func < |m.ctxs| && TopFrame(d).func < |m.bodies|
    && var note := NoteAt(m, TopFrame(d).func, TopFrame(d).pos);
      note.At? && BackTo(m, c, d, |note.types|)
  }

  /** A step that leaks, which only the code of an unclean function takes. */
  predicate Leaked(exact: bool, m: Module, c: Config, e: State) {
    exact && e.Running? && Leaks(m, c, e.c) && !CleanFunc(m, TopFrame(e.c).func)
  }

  /** A frame of function `f` has the locals it should. */
  predicate LocalsFit(exact: bool, m: Module, f: nat, locals: seq<Value>) {
    && f < |m.p.funcs| && f < |m.ctxs| && f < |m.bodies| && m.p.funcs[f].WasmFunc? && Compiled(m, f)
    && |locals| == |m.p.funcs[f].locals| && (exact ==> TypesOf(locals) == m.p.funcs[f].locals)
  }

  /** A frame of function `f` may go on at `pc` with these locals and operands. */
  predicate Fit(exact: bool, m: Module, f: nat, pc: nat, locals: seq<Value>, ops: seq<Type>) {
    LocalsFit(exact, m, f, locals) && Holds(FlatAt(exact, m, f), pc, ops)
  }

  /** The thread as it was below the run under study: its stack, its frames, and the results
      the run's first function will leave. */
  datatype Floor = Floor(stack: seq<Value>, frames: seq<Frame>, results: seq<ValType>)

  /** The frames of a run, from the top: each may go on once `pending` has been pushed on what is
      left of its region of the stack. */
  predicate Waits(exact: bool, m: Module, b: Floor, stack: seq<Value>, frames: seq<Frame>, pending: seq<ValType>)
    decreases |frames|
  {
    if |frames| <= |b.frames| then frames == b.frames && stack == b.stack && pending == b.results
    else
      var fr := frames[|frames| - 1];
      && fr.func < |m.p.funcs| && m.p.funcs[fr.func].WasmFunc?
      && fr.locals + |m.p.funcs[fr.func].locals| <= |stack|
      && Fit(exact, m, fr.func, fr.pos, LocalsIn(m, fr, stack), TypesOf(OperandsIn(m, fr, stack)) + pending)
      && Waits(exact, m, b, stack[..fr.locals], Front(frames, 1), m.p.funcs[fr.func].sig.results)
  }

  function LocalsIn(m: Module, fr: Frame, stack: seq<Value>): seq<Value>
    requires fr.func < |m.p.funcs| && m.p.funcs[fr.func].WasmFunc? && fr.locals + |m.p.funcs[fr.func].locals| <= |stack|
  {
    stack[fr.locals..fr.locals + |m.p.funcs[fr.func].locals|]
  }

  /** The operands of the topmost frame. */
  function OperandsIn(m: Module, fr: Frame, stack: seq<Value>): seq<Value>
    requires fr.func < |m.p.funcs| && m.p.funcs[fr.func].WasmFunc? && fr.locals + |m.p.funcs[fr.func].locals| <= |stack|
  {
    stack[fr.locals + |m.p.funcs[fr.func].locals|..]
  }

  /** A running configuration of the run. */
  predicate Going(exact: bool, m: Module, b: Floor, c: Config) {
    |c.frames| > |b.frames| && StoreFits(exact, m, c.store) && Waits(exact, m, b, c.stack, c.frames, [])
  }

  /** The run is over: its results lie on the floor. */
  predicate Over(exact: bool, m: Module, b: Floor, c: Config) {
    && c.frames == b.frames && StoreFits(exact, m, c.store)
    && |c.stack| == |b.stack| + |b.results| && c.stack[..|b.stack|] == b.stack
    && Related(exact, TypesOf(c.stack[|b.stack|..]), b.results)
  }

  /** The floor is still there. */
  predicate Above(b: Floor, c: Config) {
    b.frames <= c.frames && b.stack <= c.stack
  }

  lemma {:induction false} WaitsAbove(exact: bool, m: Module, b: Floor, stack: seq<Value>, frames: seq<Frame>, pending: seq<ValType>)
    requires Waits(exact, m, b, stack, frames, pending)
    ensures b.frames <= frames && b.stack <= stack
    decreases |frames|
  {
    hide Fit;
    if |frames| > |b.frames| {
      var fr := frames[|frames| - 1];
      WaitsAbove(exact, m, b, stack[..fr.locals], Front(frames, 1), m.p.funcs[fr.func].sig.results);
    }
  }

  /** The topmost frame on its own and what lies below it. */
  predicate Mounted(exact: bool, m: Module, b: Floor, t: Site) {
    && |t.frames| >= |b.frames| && t.f < |m.p.funcs|
    && Waits(exact, m, b, t.pre, t.frames, m.p.funcs[t.f].sig.results)
  }

  /** The topmost of the waiting frames. */
  lemma Unstack(exact: bool, m: Module, b: Floor, stack: seq<Value>, frames: seq<Frame>, pending: seq<ValType>)
    returns (t: Site, pc: nat, locals: seq<Value>, ops: seq<Value>)
    requires |frames| > |b.frames| && Waits(exact, m, b, stack, frames, pending)
    ensures stack == t.pre + locals + ops && frames == t.frames + [Frame(t.f, |t.pre|, pc)] && Mounted(exact, m, b, t)
    ensures Fit(exact, m, t.f, pc, locals, TypesOf(ops) + pending)
    ensures |locals| == |m.p.funcs[t.f].locals|
  {
    hide Fit, TypesOf;
    var fr := frames[|frames| - 1];
    t := Site(fr.func, stack[..fr.locals], Front(frames, 1));
    pc, locals, ops := fr.pos, LocalsIn(m, fr, stack), OperandsIn(m, fr, stack);
    assert frames == t.frames + [Frame(t.f, |t.pre|, pc)];
    assert stack == t.pre + locals + ops;
  }

  lemma Mount(exact: bool, m: Module, b: Floor, c: Config) returns (t: Site, pc: nat, locals: seq<Value>, ops: seq<Value>)
    requires Going(exact, m, b, c)
    ensures c == Cfg(t, pc, locals, ops, c.store) && Mounted(exact, m, b, t) && |c.frames| == |t.frames| + 1
    ensures TopFrame(c) == Frame(t.f, |t.pre|, pc)
    ensures Fit(exact, m, t.f, pc, locals, TypesOf(ops)) && |locals| == |m.p.funcs[t.f].locals|
  {
    hide Fit, Mounted, Waits;
    t, pc, locals, ops := Unstack(exact, m, b, c.stack, c.frames, []);
    assert TypesOf(ops) + [] == TypesOf(ops);
  }

  lemma Remount(exact: bool, m: Module, b: Floor, t: Site, pc: nat, locals: seq<Value>, ops: seq<Value>, store: Shared)
    requires Mounted(exact, m, b, t) && StoreFits(exact, m, store) && Fit(exact, m, t.f, pc, locals, TypesOf(ops))
    ensures Going(exact, m, b, Cfg(t, pc, locals, ops, store))
  {
    WaitsOn(exact, m, b, t, pc, locals, ops, []);
    assert TypesOf(ops) + [] == TypesOf(ops);
  }

  lemma WaitsOn(exact: bool, m: Module, b: Floor, t: Site, pc: nat, locals: seq<Value>, ops: seq<Value>, pending: seq<ValType>)
    requires Mounted(exact, m, b, t) && Fit(exact, m, t.f, pc, locals, TypesOf(ops) + pending)
    ensures Waits(exact, m, b, t.pre + locals + ops, t.frames + [Frame(t.f, |t.pre|, pc)], pending)
  {
    hide Holds;
    var stack, frames := t.pre + locals + ops, t.frames + [Frame(t.f, |t.pre|, pc)];
    assert Front(frames, 1) == t.frames;
    assert stack[..|t.pre|] == t.pre;
    var fr := frames[|frames| - 1];
    assert LocalsIn(m, fr, stack) == locals && OperandsIn(m, fr, stack) == ops;
  }

  /* ---- values and types ---- */

  lemma TypesConcat(xs: seq<Value>, ys: seq<Value>)
    ensures TypesOf(xs + ys) == TypesOf(xs) + TypesOf(ys)
  {
  }

  lemma TypesFront(vs: seq<Value>, n: nat)
    requires n <= |vs|
    ensures TypesOf(Front(vs, n)) == Front(TypesOf(vs), n) && TypesOf(Last(vs, n)) == Last(TypesOf(vs), n)
  {
  }

  lemma StillHolds(fl: Flat, pc: nat, ts: seq<Type>, us: seq<Type>)
    requires Holds(fl, pc, ts) && Related(fl.exact, us, ts)
    ensures Holds(fl, pc, us)
  {
  }

  /** Popping `n` and pushing `results` on related operands. */
  lemma PassOn(fl: Flat, pc: nat, ts: seq<Type>, params: seq<Type>, results: seq<Type>, vs: seq<Value>, rs: seq<Value>)
    requires Passes(fl, pc, ts, params, results) && Related(fl.exact, TypesOf(vs), ts)
    requires |params| <= |vs| ==> Related(fl.exact, TypesOf(rs), results)
    ensures |params| <= |vs| && Holds(fl, pc + 1, TypesOf(Front(vs, |params|) + rs))
  {
    hide Holds;
    assert |vs| == |TypesOf(vs)| >= |params|;
    TypesFront(vs, |params|);
    TypesConcat(Front(vs, |params|), rs);
    StillHolds(fl, pc + 1, Front(ts, |params|) + results, TypesOf(Front(vs, |params|) + rs));
  }

  lemma DropOn(fl: Flat, q: nat, ts: seq<Type>, n: nat, vs: seq<Value>)
    requires |ts| >= n && Holds(fl, q, Front(ts, n)) && Related(fl.exact, TypesOf(vs), ts)
    ensures |vs| >= n && Holds(fl, q, TypesOf(Front(vs, n)))
  {
    hide Holds;
    assert |vs| == |TypesOf(vs)| >= n;
    TypesFront(vs, n);
    StillHolds(fl, q, Front(ts, n), TypesOf(Front(vs, n)));
  }

  /** The rule of the record a fitting frame is about to run. */
  lemma RuleHere(exact: bool, m: Module, f: nat, pc: nat, locals: seq<Value>, ops: seq<Type>)
    requires ModuleFits(exact, m) && Fit(exact, m, f, pc, locals, ops)
    ensures var fl := FlatAt(exact, m, f);
      && |fl.notes| == |m.p.funcs[f].code| + 1 && fl.code == m.p.funcs[f].code && fl.ctx == m.ctxs[f] && fl.body == m.bodies[f] && fl.exact == exact && fl.ctx.types == m.p.types
      && (pc < |fl.code| ==> pc < |fl.notes| && Rule(fl, pc))
      && pc <= |fl.code|
  {
    hide Rule, FunctionNotes, LayFunction, CheckBody, HostFits, CleanBody;
    assert FuncOk(m, f);
    AcceptedObeysRules(exact, m.ctxs[f], m.bodies[f]);
    if pc < |FlatAt(exact, m, f).code| { assert RuleAt(FlatAt(exact, m, f), pc); }
  }

  /* ---- opcodes that neither jump nor call ---- */

  predicate OpFits(exact: bool, m: Module, f: nat, pc: nat, o: Outcome) {
    match o
    case Normal(s) => Fit(exact, m, f, pc, s.locals, TypesOf(s.vs)) && StoreFits(exact, m, s.store)
    case Failed(_, _) => true
    case _ => false
  }

  predicate IsOpcode(i: Instr) {
    IsPlain(i) && !i.Nop? && !i.Br? && !i.BrIf? && !i.BrTable? && !i.Return? && !i.Call? && !i.CallIndirect?
  }

  lemma OpKeeps(exact: bool, m: Module, f: nat, pc: nat, i: Instr, ts: seq<Type>, s: Activation)
    requires Fit(exact, m, f, pc, s.locals, TypesOf(s.vs)) && StoreFits(exact, m, s.store) && IsOpcode(i)
    requires OpRule(FlatAt(exact, m, f), pc, i, ts) && Related(exact, TypesOf(s.vs), ts)
    ensures i.GetLocal? || i.SetLocal? || i.TeeLocal? ==> i.local < |s.locals|
    ensures OpFits(exact, m, f, pc + 1, ExecOp(m.p, i, s))
  {
    hide Holds, ExecGrow, LoadFrom, StoreTo, LayFunction, CheckBody, FunctionNotes;
    var fl := FlatAt(exact, m, f);
    if i.Unreachable? {
    } else if i.Drop? {
      DropOn(fl, pc + 1, ts, 1, s.vs);
    } else if i.Select? {
      SelectOn(fl, pc, ts, s.vs);
    } else if i.GrowMemory? {
      GrowKeeps(exact, m, f, pc, ts, s);
    } else {
      ArrowKeepsFit(exact, m, f, pc, i, ts, s);
    }
  }

  lemma SelectOn(fl: Flat, pc: nat, ts: seq<Type>, vs: seq<Value>)
    requires |ts| >= 3 && ts[|ts| - 2] == ts[|ts| - 3] && Holds(fl, pc + 1, Front(ts, 2)) && Related(fl.exact, TypesOf(vs), ts)
    ensures |vs| >= 3
    ensures Holds(fl, pc + 1, TypesOf(Front(vs, 3) + [vs[|vs| - 3]])) && Holds(fl, pc + 1, TypesOf(Front(vs, 3) + [vs[|vs| - 2]]))
  {
    hide Holds;
    assert |vs| == |TypesOf(vs)| >= 3;
    DropOn(fl, pc + 1, ts, 2, vs);
    assert Front(vs, 3) + [vs[|vs| - 3]] == Front(vs, 2);
    if fl.exact {
      assert TypesOf(vs)[|vs| - 3] == TypesOf(vs)[|vs| - 2];
      assert TypesOf(Front(vs, 3) + [vs[|vs| - 2]]) == TypesOf(Front(vs, 2));
    } else {
      StillHolds(fl, pc + 1, TypesOf(Front(vs, 2)), TypesOf(Front(vs, 3) + [vs[|vs| - 2]]));
    }
  }

  lemma GrowKeeps(exact: bool, m: Module, f: nat, pc: nat, ts: seq<Type>, s: Activation)
    requires Fit(exact, m, f, pc, s.locals, TypesOf(s.vs)) && StoreFits(exact, m, s.store)
    requires Passes(FlatAt(exact, m, f), pc, ts, [I32], [I32]) && Related(exact, TypesOf(s.vs), ts)
    ensures OpFits(exact, m, f, pc + 1, ExecOp(m.p, GrowMemory, s))
    ensures |s.vs| >= 1
    ensures forall v: Value :: v.ty == I32 ==> Holds(FlatAt(exact, m, f), pc + 1, TypesOf(Front(s.vs, 1) + [v]))
  {
    hide Holds, LayFunction, CheckBody, FunctionNotes;
    forall v: Value | v.ty == I32 ensures |s.vs| >= 1 && Holds(FlatAt(exact, m, f), pc + 1, TypesOf(Front(s.vs, 1) + [v])) {
      PassOn(FlatAt(exact, m, f), pc, ts, [I32], [I32], s.vs, [v]);
    }
    assert Value(I32, 0).ty == I32;
  }

  /** The value an opcode pushes, if any. */
  function Pushed(p: Program, i: Instr, s: Activation): seq<Value> {
    var n := |s.vs|;
    match i
    case GetLocal(x) => if x < |s.locals| then [s.locals[x]] else []
    case TeeLocal(_) => if n >= 1 then [s.vs[n - 1]] else []
    case GetGlobal(x) => if x < |s.store.globals| then [s.store.globals[x]] else []
    case Load(a, _, _) => [Value(a.ty, 0)]
    case CurrentMemory => [U32(s.store.mem.pages)]
    case Const(v) => [v]
    case Numeric(op) => [Value(op.result, 0)]
    case _ => []
  }

  lemma ArrowKeepsFit(exact: bool, m: Module, f: nat, pc: nat, i: Instr, ts: seq<Type>, s: Activation)
    requires Fit(exact, m, f, pc, s.locals, TypesOf(s.vs)) && StoreFits(exact, m, s.store)
    requires IsOpcode(i) && HasArrow(i) && !i.GrowMemory? && Arrow(m.ctxs[f], i).Some?
    requires Passes(FlatAt(exact, m, f), pc, ts, Arrow(m.ctxs[f], i).value.params, Arrow(m.ctxs[f], i).value.results)
    requires Related(exact, TypesOf(s.vs), ts)
    ensures i.GetLocal? || i.SetLocal? || i.TeeLocal? ==> i.local < |s.locals|
    ensures OpFits(exact, m, f, pc + 1, ExecOp(m.p, i, s))
  {
    hide Holds, LoadFrom, StoreTo, LayFunction, CheckBody, FunctionNotes, FlatAt, AlignOk;
    var a := Arrow(m.ctxs[f], i).value;
    var fl := FlatAt(exact, m, f);
    var out := Pushed(m.p, i, s);
    assert |s.vs| == |TypesOf(s.vs)| >= |a.params|;
    PopsTyped(exact, ts, a.params, s.vs);
    assert Related(exact, TypesOf(out), a.results);
    FlatExact(exact, m, f);
    PassOn(fl, pc, ts, a.params, a.results, s.vs, out);
    if i.TeeLocal? {
      assert Front(s.vs, 1) + out == s.vs;
      if exact {
        assert s.vs[|s.vs| - |a.params| + 0].ty == a.params[0];
        LocalSet(s.locals, i.local, s.vs[|s.vs| - 1]);
      }
    } else if i.SetLocal? {
      assert Front(s.vs, 1) + out == Front(s.vs, 1);
      if exact {
        assert s.vs[|s.vs| - |a.params| + 0].ty == a.params[0];
        LocalSet(s.locals, i.local, s.vs[|s.vs| - 1]);
      }
    } else {
      ArrowOutcomeFits(exact, m, f, pc, i, a, s, out);
    }
  }

  lemma LocalSet(locals: seq<Value>, x: nat, v: Value)
    requires x < |locals| && v.ty == TypesOf(locals)[x]
    ensures TypesOf(locals[x := v]) == TypesOf(locals)
  {
  }

  lemma FlatExact(exact: bool, m: Module, f: nat)
    requires f < |m.p.funcs| && f < |m.ctxs| && f < |m.bodies| && Compiled(m, f)
    ensures FlatAt(exact, m, f).exact == exact && FlatAt(exact, m, f).ctx == m.ctxs[f]
  {
  }

  lemma PopsTyped(exact: bool, ts: seq<Type>, params: seq<ValType>, vs: seq<Value>)
    requires EndsWith(ts, params) && Related(exact, TypesOf(vs), ts)
    ensures |vs| >= |params| && (exact ==> TypesOf(Last(vs, |params|)) == params)
    ensures exact ==> forall k :: 0 <= k < |params| ==> vs[|vs| - |params| + k].ty == params[k]
  {
    assert |vs| == |TypesOf(vs)| >= |params|;
    TypesFront(vs, |params|);
    if exact {
      forall k | 0 <= k < |params| ensures vs[|vs| - |params| + k].ty == params[k] {
        assert Last(ts, |params|)[k] == params[k];
      }
    }
  }

  lemma ArrowOutcomeFits(exact: bool, m: Module, f: nat, pc: nat, i: Instr, a: Signature, s: Activation, out: seq<Value>)
    requires Fit(exact, m, f, pc, s.locals, TypesOf(s.vs)) && StoreFits(exact, m, s.store)
    requires IsOpcode(i) && HasArrow(i) && !i.GrowMemory? && !i.TeeLocal? && !i.SetLocal? && Arrow(m.ctxs[f], i) == Some(a)
    requires |s.vs| >= |a.params| && out == Pushed(m.p, i, s)
    requires exact ==> forall k :: 0 <= k < |a.params| ==> s.vs[|s.vs| - |a.params| + k].ty == a.params[k]
    requires Holds(FlatAt(exact, m, f), pc + 1, TypesOf(Front(s.vs, |a.params|) + out))
    ensures OpFits(exact, m, f, pc + 1, ExecOp(m.p, i, s))
  {
    hide Holds, LayFunction, CheckBody, FunctionNotes, FlatAt, AlignOk, Encode, Decode, Pow2;
    assert Front(s.vs, 0) == s.vs && Front(s.vs, |a.params|) + [] == Front(s.vs, |a.params|);
    if i.Load? {
      hide Extend;
      var r := LoadFrom(s.store.mem, AsU32(s.vs[|s.vs| - 1]), i.offset, i.access);
      LoadType(s.store.mem, AsU32(s.vs[|s.vs| - 1]), i.offset, i.access);
      if r.Some? { SameTypes(Front(s.vs, |a.params|), out[0], r.value); }
    } else if i.Numeric? {
      var r := m.p.numeric(i.op, Last(s.vs, |i.op.params|));
      if r.NumOk? { SameTypes(Front(s.vs, |a.params|), out[0], Value(i.op.result, r.bits)); }
    } else if i.SetGlobal? && exact {
      var x, v := i.global, s.vs[|s.vs| - 1];
      assert s.vs[|s.vs| - |a.params| + 0].ty == a.params[0];
      assert v.ty == m.ctxs[f].globals[x].ty == s.store.globals[x].ty;
    }
  }

  lemma SameTypes(vs: seq<Value>, u: Value, v: Value)
    requires u.ty == v.ty
    ensures TypesOf(vs + [u]) == TypesOf(vs + [v])
  {
  }

  lemma LoadType(mem: Memory, base: nat, offset: nat, access: Access)
    ensures LoadFrom(mem, base, offset, access).Some? ==> LoadFrom(mem, base, offset, access).value.ty == access.ty
  {
    hide Decode, Pow2;
  }

  /* ---- one step ---- */

  /** Everything known of a frame about to run. */
  ghost predicate Poised(exact: bool, m: Module, b: Floor, t: Site, pc: nat, locals: seq<Value>, ops: seq<Value>, store: Shared) {
    && ModuleFits(exact, m) && Mounted(exact, m, b, t) && StoreFits(exact, m, store)
    && Fit(exact, m, t.f, pc, locals, TypesOf(ops))
  }

  predicate Stepped(exact: bool, m: Module, b: Floor, e: State) {
    match e
    case Running(d) => Going(exact, m, b, d) || Over(exact, m, b, d)
    case Trapped(_, d) => Above(b, d)
    case Stuck => false
  }

  lemma CfgAbove(exact: bool, m: Module, b: Floor, t: Site, pc: nat, locals: seq<Value>, ops: seq<Value>, store: Shared)
    requires Mounted(exact, m, b, t)
    ensures Above(b, Cfg(t, pc, locals, ops, store))
  {
    WaitsAbove(exact, m, b, t.pre, t.frames, m.p.funcs[t.f].sig.results);
    assert t.pre <= t.pre + locals + ops && t.frames <= t.frames + [Frame(t.f, |t.pre|, pc)];
  }

  /** The frame goes on elsewhere in its code. */
  lemma Continues(exact: bool, m: Module, b: Floor, t: Site, pc: nat, locals: seq<Value>, ops: seq<Value>, store: Shared,
      q: nat, rest: seq<Value>)
    requires Poised(exact, m, b, t, pc, locals, ops, store) && Holds(FlatAt(exact, m, t.f), q, TypesOf(rest))
    ensures Stepped(exact, m, b, Running(Cfg(t, q, locals, rest, store)))
  {
    hide Holds, Mounted, ModuleFits, Compiled, FlatAt;
    Remount(exact, m, b, t, q, locals, rest, store);
  }

  lemma DropGoes(fl: Flat, pc: nat, q: nat, ts: seq<Type>, n: nat, vs: seq<Value>)
    requires |ts| >= n && Goes(fl, pc, q, Front(ts, n)) && Related(fl.exact, TypesOf(vs), ts)
    ensures |vs| >= n && Goes(fl, pc, q, TypesOf(Front(vs, n)))
  {
    hide Holds, CleanFlat, Overfull;
    assert |vs| == |TypesOf(vs)| >= n;
    TypesFront(vs, n);
    if Holds(fl, q, Front(ts, n)) { StillHolds(fl, q, Front(ts, n), TypesOf(Front(vs, n))); }
  }

  lemma UncleanFunction(exact: bool, m: Module, f: nat)
    requires f < |m.p.funcs| && f < |m.ctxs| && f < |m.bodies| && m.p.funcs[f].WasmFunc? && Compiled(m, f)
    requires !CleanFlat(FlatAt(exact, m, f))
    ensures !CleanFunc(m, f)
  {
    hide CheckBody, CleanBody, LayFunction, FunctionNotes;
  }

  /** The frame jumps, and goes on there unless the jump leaks. */
  lemma Jumps(exact: bool, m: Module, b: Floor, t: Site, pc: nat, locals: seq<Value>, ops: seq<Value>, store: Shared,
      q: nat, rest: seq<Value>)
    requires Poised(exact, m, b, t, pc, locals, ops, store) && Goes(FlatAt(exact, m, t.f), pc, q, TypesOf(rest))
    ensures
      var e := Running(Cfg(t, q, locals, rest, store));
      Stepped(exact, m, b, e) || Leaked(exact, m, Cfg(t, pc, locals, ops, store), e)
  {
    hide Cfg, Holds, Mounted, ModuleFits, Compiled, Stepped, LoopIn, FunctionNotes, LayFunction, CheckBody, CleanBody, StoreFits;
    if Holds(FlatAt(exact, m, t.f), q, TypesOf(rest)) {
      Continues(exact, m, b, t, pc, locals, ops, store, q, rest);
    } else {
      Shape(t, pc, locals, ops, store);
      Shape(t, q, locals, rest, store);
      assert |rest| == |TypesOf(rest)|;
      assert BackTo(m, Cfg(t, pc, locals, ops, store), Cfg(t, q, locals, rest, store), |NoteAt(m, t.f, q).types|);
      UncleanFunction(exact, m, t.f);
    }
  }

  lemma JumpSteps(exact: bool, m: Module, b: Floor, t: Site, pc: nat, locals: seq<Value>, ops: seq<Value>, store: Shared, rec: Rec)
    requires Poised(exact, m, b, t, pc, locals, ops, store)
    requires pc < |m.p.funcs[t.f].code| && m.p.funcs[t.f].code[pc] == rec && rec.Jump? && !rec.op.OpBrTable?
    ensures
      var c := Cfg(t, pc, locals, ops, store);
      var e := Run(m.p, c, |t.frames|, 1);
      Stepped(exact, m, b, e) || Leaked(exact, m, c, e)
  {
    hide Cfg, Run, Holds, Mounted, ModuleFits, Compiled, FlatAt, Stepped, Leaked, CleanFlat, Overfull;
    RuleHere(exact, m, t.f, pc, locals, TypesOf(ops));
    var fl := FlatAt(exact, m, t.f);
    var ts := fl.notes[pc].types;
    NoteRelates(fl, pc, ops);
    var k := |t.frames|;
    if rec.op.OpBr? || rec.op.OpElse? {
      GotoStep(m, k, t, pc, rec, locals, ops, store);
      assert Front(ts, 0) == ts && Front(ops, 0) == ops;
      DropGoes(fl, pc, rec.v2, ts, 0, ops);
      Jumps(exact, m, b, t, pc, locals, ops, store, rec.v2, ops);
    } else {
      DropGoes(fl, pc, rec.v2, ts, 1, ops);
      DropOn(fl, pc + 1, ts, 1, ops);
      TestStep(m, k, t, pc, rec, locals, [], ops, store);
      assert [] + ops == ops && [] + Front(ops, 1) == Front(ops, 1);
      Jumps(exact, m, b, t, pc, locals, ops, store, rec.v2, Front(ops, 1));
      Continues(exact, m, b, t, pc, locals, ops, store, pc + 1, Front(ops, 1));
    }
  }

  /** What the note of a record says about the operands found. */
  lemma NoteRelates(fl: Flat, pc: nat, ops: seq<Value>)
    requires Holds(fl, pc, TypesOf(ops))
    ensures pc < |fl.notes| && !fl.notes[pc].Dead?
    ensures fl.notes[pc].At? ==> Related(fl.exact, TypesOf(ops), fl.notes[pc].types)
    ensures fl.notes[pc].Join? ==> |ops| >= |fl.notes[pc].below| + |fl.notes[pc].sig|
  {
    assert |ops| == |TypesOf(ops)|;
  }

  lemma TableSteps(exact: bool, m: Module, b: Floor, t: Site, pc: nat, locals: seq<Value>, ops: seq<Value>, store: Shared, size: nat, v2: nat)
    requires Poised(exact, m, b, t, pc, locals, ops, store)
    requires pc < |m.p.funcs[t.f].code| && m.p.funcs[t.f].code[pc] == Jump(OpBrTable, size, v2)
    ensures
      var c := Cfg(t, pc, locals, ops, store);
      var e := Run(m.p, c, |t.frames|, 1);
      Stepped(exact, m, b, e) || Leaked(exact, m, c, e)
  {
    hide Cfg, Run, Holds, Mounted, ModuleFits, Compiled, FlatAt, Stepped, Leaked, CleanFlat, Overfull, Goes;
    RuleHere(exact, m, t.f, pc, locals, TypesOf(ops));
    var fl := FlatAt(exact, m, t.f);
    var ts := fl.notes[pc].types;
    NoteRelates(fl, pc, ops);
    assert |ops| == |TypesOf(ops)| >= 1;
    var key := AsU32(ops[|ops| - 1]);
    var e := pc + (if key >= size then size else key) + 1;
    assert TableRule(fl, pc, e, Front(ts, 1));
    DropGoes(fl, pc, fl.code[e].v2, ts, 1, ops);
    TableStep(m, |t.frames|, t, pc, size, v2, fl.code[e], locals, [], ops, store);
    assert [] + ops == ops && [] + Front(ops, 1) == Front(ops, 1);
    Jumps(exact, m, b, t, pc, locals, ops, store, fl.code[e].v2, Front(ops, 1));
  }

  lemma EndSteps(exact: bool, m: Module, b: Floor, t: Site, pc: nat, locals: seq<Value>, ops: seq<Value>, store: Shared, h: nat, r: nat)
    requires Poised(exact, m, b, t, pc, locals, ops, store)
    requires pc < |m.p.funcs[t.f].code| && m.p.funcs[t.f].code[pc] == EndRec(h, r)
    ensures Stepped(exact, m, b, Run(m.p, Cfg(t, pc, locals, ops, store), |t.frames|, 1))
  {
    hide Cfg, Run, Mounted, ModuleFits, Compiled, FlatAt, Stepped;
    RuleHere(exact, m, t.f, pc, locals, TypesOf(ops));
    var fl := FlatAt(exact, m, t.f);
    var note := fl.notes[pc];
    NoteRelates(fl, pc, ops);
    EndStep(m, |t.frames|, t, pc, h, r, locals, ops, store);
    var rest := ops[..h] + Last(ops, r);
    TypesConcat(ops[..h], Last(ops, r));
    TypesFront(ops, r);
    assert TypesOf(ops[..h]) == TypesOf(ops)[..h];
    StillHolds(fl, pc + 1, note.below + note.sig, TypesOf(rest));
    Continues(exact, m, b, t, pc, locals, ops, store, pc + 1, rest);
  }

  /** The frame goes and leaves its results to whoever waits for them. */
  lemma Leaving(exact: bool, m: Module, b: Floor, t: Site, rs: seq<Value>, store: Shared)
    requires Mounted(exact, m, b, t) && StoreFits(exact, m, store)
    requires |rs| == |m.p.funcs[t.f].sig.results| && Related(exact, TypesOf(rs), m.p.funcs[t.f].sig.results)
    ensures Stepped(exact, m, b, Running(Config(t.pre + rs, t.frames, store)))
  {
    if |t.frames| <= |b.frames| {
      hide Fit;
      assert (t.pre + rs)[..|b.stack|] == b.stack && (t.pre + rs)[|b.stack|..] == rs;
    } else {
      hide Waits, Related, StoreFits;
      LeavingToCaller(exact, m, b, t.pre, t.frames, m.p.funcs[t.f].sig.results, rs, store);
      GoingSteps(exact, m, b, Config(t.pre + rs, t.frames, store));
    }
  }

  lemma LeavingToCaller(exact: bool, m: Module, b: Floor, stack: seq<Value>, frames: seq<Frame>, results: seq<ValType>,
      rs: seq<Value>, store: Shared)
    requires |frames| > |b.frames| && Waits(exact, m, b, stack, frames, results) && StoreFits(exact, m, store)
    requires |rs| == |results| && Related(exact, TypesOf(rs), results)
    ensures Going(exact, m, b, Config(stack + rs, frames, store))
  {
    hide Related, Fit, Mounted, Waits, StoreFits, Going;
    var u, pos, locals, ops := Unstack(exact, m, b, stack, frames, results);
    HoldsWith(exact, m, u.f, pos, locals, ops, rs, results);
    Remount(exact, m, b, u, pos, locals, ops + rs, store);
    assert stack + rs == u.pre + locals + (ops + rs);
  }

  lemma HoldsWith(exact: bool, m: Module, f: nat, pos: nat, locals: seq<Value>, ops: seq<Value>, rs: seq<Value>, results: seq<ValType>)
    requires Fit(exact, m, f, pos, locals, TypesOf(ops) + results)
    requires |rs| == |results| && Related(exact, TypesOf(rs), results)
    ensures Fit(exact, m, f, pos, locals, TypesOf(ops + rs))
  {
    TypesConcat(ops, rs);
    hide Holds;
    StillHolds(FlatAt(exact, m, f), pos, TypesOf(ops) + results, TypesOf(ops + rs));
  }

  /** `return` finds the function's results on top. */
  lemma ReturnFinds(fl: Flat, pc: nat, r: nat, ops: seq<Value>)
    requires pc < |fl.code| && pc < |fl.notes| && fl.code[pc] == ReturnRec(r) && Rule(fl, pc) && Holds(fl, pc, TypesOf(ops))
    ensures r == |fl.ctx.results| <= |ops| && Related(fl.exact, TypesOf(Last(ops, r)), fl.ctx.results)
  {
    NoteRelates(fl, pc, ops);
    assert |ops| == |TypesOf(ops)| >= r;
    TypesFront(ops, r);
  }

  lemma ReturnSteps(exact: bool, m: Module, b: Floor, t: Site, pc: nat, locals: seq<Value>, ops: seq<Value>, store: Shared, r: nat)
    requires Poised(exact, m, b, t, pc, locals, ops, store)
    requires pc < |m.p.funcs[t.f].code| && m.p.funcs[t.f].code[pc] == ReturnRec(r)
    ensures Stepped(exact, m, b, Run(m.p, Cfg(t, pc, locals, ops, store), |t.frames|, 1))
  {
    hide Cfg, Run, Holds, Mounted, ModuleFits, FlatAt, Stepped, Rule, PopCall, StoreFits;
    RuleHere(exact, m, t.f, pc, locals, TypesOf(ops));
    ReturnFinds(FlatAt(exact, m, t.f), pc, r, ops);
    StepAt(m, |t.frames|, t, pc, ReturnRec(r), locals, ops, store);
    PopStep(t, pc, locals, ops, store, r);
    Leaving(exact, m, b, t, Last(ops, r), store);
  }

  /** Past the end of the code. */
  lemma FallOffSteps(exact: bool, m: Module, b: Floor, t: Site, pc: nat, locals: seq<Value>, ops: seq<Value>, store: Shared)
    requires Poised(exact, m, b, t, pc, locals, ops, store) && pc >= |m.p.funcs[t.f].code|
    ensures Stepped(exact, m, b, Run(m.p, Cfg(t, pc, locals, ops, store), |t.frames|, 1))
  {
    hide Run, Mounted, ModuleFits, Stepped, LayFunction, CheckBody, Notes, PopCall;
    RuleHere(exact, m, t.f, pc, locals, TypesOf(ops));
    var results := m.p.funcs[t.f].sig.results;
    assert FlatAt(exact, m, t.f).notes[pc] == Join([], results);
    assert |ops| == |TypesOf(ops)| >= |results|;
    TypesFront(ops, |results|);
    var c := Cfg(t, pc, locals, ops, store);
    Shape(t, pc, locals, ops, store);
    RunOne(m.p, c, |t.frames|);
    PopStep(t, pc, locals, ops, store, |results|);
    Leaving(exact, m, b, t, Last(ops, |results|), store);
  }

  /** How many cells an opcode takes from the top of the stack. */
  function Takes(p: Program, i: Instr): nat {
    match i
    case Drop => 1
    case Select => 3
    case SetLocal(_) => 1
    case TeeLocal(_) => 1
    case SetGlobal(_) => 1
    case Load(_, _, _) => 1
    case Store(_, _, _) => 2
    case GrowMemory => 1
    case Numeric(op) => |op.params|
    case CallIndirect(sig) => 1 + (if sig < |p.types| then |p.types[sig].params| else 0)
    case _ => 0
  }

  lemma TakesEnough(p: Program, fl: Flat, pc: nat, i: Instr, ts: seq<Type>)
    requires OpRule(fl, pc, i, ts) && fl.ctx.types == p.types
    ensures Takes(p, i) <= |ts|
  {
  }

  /** If `e` is a trap, `n` cells have been popped, or none, and nothing else has happened. */
  predicate OnlyPopped(c: Config, n: nat, e: State)
    requires n <= |c.stack|
  {
    e.Trapped? ==> e.c.frames == c.frames && (e.c.stack == c.stack || e.c.stack == Front(c.stack, n))
  }

  lemma PushTraps(p: Program, c: Config, n: nat, d: Config, v: Value)
    requires |d.frames| > 0 && d.frames == c.frames && n <= |c.stack| && d.stack == Front(c.stack, n)
    ensures OnlyPopped(c, n, PushNext(p, d, v))
  {
    hide Front, Next;
  }

  lemma LoadTraps(p: Program, c: Config, i: Instr)
    requires |c.frames| > 0 && i.Load? && |c.stack| >= 1
    ensures OnlyPopped(c, 1, StepLoad(p, c, i.access, i.offset))
  {
    hide LoadFrom, AsU32, PushNext, Front;
    var r := LoadFrom(c.store.mem, AsU32(Last(c.stack, 1)[0]), i.offset, i.access);
    if r.Some? { PushTraps(p, c, 1, c.(stack := Front(c.stack, 1)), r.value); }
  }

  lemma StoreTraps(c: Config, i: Instr)
    requires |c.frames| > 0 && i.Store? && |c.stack| >= 2
    ensures OnlyPopped(c, 2, StepStore(c, i.access, i.offset))
  {
    hide StoreTo, AsU32, Front, Next;
  }

  lemma GrowTraps(p: Program, c: Config)
    requires |c.frames| > 0 && |c.stack| >= 1
    ensures OnlyPopped(c, 1, StepGrow(p, c))
  {
    hide Grow, AsU32, PushNext, Front;
    var d := c.(stack := Front(c.stack, 1));
    var r := Grow(c.store.mem, AsU32(Last(c.stack, 1)[0]));
    if r.Refused? { PushTraps(p, c, 1, d, Value(I32, TWO32 - 1)); }
    if r.Grown? { PushTraps(p, c, 1, d.(store := d.store.(mem := r.m)), U32(c.store.mem.pages)); }
  }

  lemma SelectTraps(p: Program, c: Config)
    requires |c.frames| > 0 && |c.stack| >= 3
    ensures OnlyPopped(c, 3, StepSelect(p, c))
  {
    hide AsU32, PushNext, Front;
    var k := |c.stack|;
    PushTraps(p, c, 3, c.(stack := Front(c.stack, 3)), if AsU32(c.stack[k - 1]) != 0 then c.stack[k - 3] else c.stack[k - 2]);
  }

  lemma NumericTraps(p: Program, c: Config, op: NumericOp)
    requires |c.frames| > 0 && |c.stack| >= |op.params|
    ensures OnlyPopped(c, |op.params|, StepNumeric(p, c, op))
  {
    hide PushNext, Front;
    var n := |op.params|;
    var r := p.numeric(op, Last(c.stack, n));
    if r.NumOk? { PushTraps(p, c, n, c.(stack := Front(c.stack, n)), Value(op.result, r.bits)); }
  }

  /** A trapping opcode has only popped. */
  lemma OpTraps(p: Program, c: Config, i: Instr)
    requires |c.frames| > 0 && IsOpcode(i) && |c.stack| >= Takes(p, i)
    ensures OnlyPopped(c, Takes(p, i), StepOp(p, c, i))
  {
    hide StepLoad, StepStore, StepGrow, StepNumeric, StepSelect, StepIndirect, Next, SetPos, Front;
    if i.Load? { LoadTraps(p, c, i); }
    if i.Store? { StoreTraps(c, i); }
    if i.GrowMemory? { GrowTraps(p, c); }
    if i.Select? { SelectTraps(p, c); }
    if i.Numeric? { NumericTraps(p, c, i.op); }
  }

  lemma PopsAbove(exact: bool, m: Module, b: Floor, t: Site, pc: nat, locals: seq<Value>, ops: seq<Value>, store: Shared, d: Config)
    requires Mounted(exact, m, b, t)
    requires
      var c := Cfg(t, pc, locals, ops, store);
      d.frames == c.frames && exists n: nat :: n <= |ops| && d.stack == Front(c.stack, n)
    ensures Above(b, d)
  {
    hide Waits;
    WaitsAbove(exact, m, b, t.pre, t.frames, m.p.funcs[t.f].sig.results);
    assert t.pre <= d.stack;
    assert t.frames <= d.frames;
  }

  lemma OpSteps(exact: bool, m: Module, b: Floor, t: Site, pc: nat, locals: seq<Value>, ops: seq<Value>, store: Shared, i: Instr)
    requires Poised(exact, m, b, t, pc, locals, ops, store) && IsOpcode(i)
    requires pc < |m.p.funcs[t.f].code| && m.p.funcs[t.f].code[pc] == Op(i)
    ensures Stepped(exact, m, b, Run(m.p, Cfg(t, pc, locals, ops, store), |t.frames|, 1))
  {
    hide Cfg, Run, Holds, Mounted, ModuleFits, FlatAt, Stepped, OpRule, StepOp, ExecOp, Takes, OpFits, Compiled, Related, StoreFits, Matches, Escaped;
    RuleHere(exact, m, t.f, pc, locals, TypesOf(ops));
    var fl := FlatAt(exact, m, t.f);
    var ts := fl.notes[pc].types;
    NoteRelates(fl, pc, ops);
    var s := Activation(locals, ops, store);
    StepAt(m, |t.frames|, t, pc, Op(i), locals, ops, store);
    var c := Cfg(t, pc, locals, ops, store);
    OpKeeps(exact, m, t.f, pc, i, ts, s);
    TakesEnough(m.p, fl, pc, i, ts);
    RelatedHeight(exact, ops, ts);
    Shape(t, pc, locals, ops, store);
    OpTraps(m.p, c, i);
    var e := StepOp(m.p, c, i);
    if e.Trapped? {
      TrapPops(c, Takes(m.p, i), e, |ops|);
      PopsAbove(exact, m, b, t, pc, locals, ops, store, e.c);
      TrapSteps(exact, m, b, e);
    } else if i.GrowMemory? {
      GrowIsStep(m.p, c);
      GrowSteps(exact, m, b, t, pc, locals, ops, store, ts);
    } else {
      OpSim(m.p, t, pc, [], s, i);
      assert [] + ops == ops;
      OpGoesOn(exact, m, b, t, pc, s, i, e);
    }
  }

  lemma TrapPops(c: Config, n: nat, e: State, most: nat)
    requires n <= most <= |c.stack| && OnlyPopped(c, n, e) && e.Trapped?
    ensures e.c.frames == c.frames && exists k: nat :: k <= most && e.c.stack == Front(c.stack, k)
  {
    assert Front(c.stack, 0) == c.stack;
  }

  lemma GrowIsStep(p: Program, c: Config)
    requires |c.frames| > 0
    ensures StepOp(p, c, GrowMemory) == StepGrow(p, c)
  {
    hide StepGrow;
  }

  lemma RelatedHeight(exact: bool, ops: seq<Value>, ts: seq<Type>)
    requires Related(exact, TypesOf(ops), ts)
    ensures |ops| >= |ts|
  {
    assert |ops| == |TypesOf(ops)|;
  }

  lemma TrapSteps(exact: bool, m: Module, b: Floor, e: State)
    requires e.Trapped? && Above(b, e.c)
    ensures Stepped(exact, m, b, e)
  {
  }

  lemma OpGoesOn(exact: bool, m: Module, b: Floor, t: Site, pc: nat, s: Activation, i: Instr, e: State)
    requires Mounted(exact, m, b, t) && !e.Trapped?
    requires OpFits(exact, m, t.f, pc + 1, ExecOp(m.p, i, s))
    requires Escaped(e) || Matches(t, pc + 1, [], ExecOp(m.p, i, s), e)
    ensures Stepped(exact, m, b, e)
  {
    hide Cfg, Mounted, Fit, StoreFits, ExecOp, Going;
    var o := ExecOp(m.p, i, s);
    if o.Normal? {
      Remount(exact, m, b, t, pc + 1, o.s.locals, o.s.vs, o.s.store);
      assert [] + o.s.vs == o.s.vs;
    }
  }

  lemma GrowSteps(exact: bool, m: Module, b: Floor, t: Site, pc: nat, locals: seq<Value>, ops: seq<Value>, store: Shared, ts: seq<Type>)
    requires Poised(exact, m, b, t, pc, locals, ops, store)
    requires OpRule(FlatAt(exact, m, t.f), pc, GrowMemory, ts) && Related(exact, TypesOf(ops), ts)
    requires |Cfg(t, pc, locals, ops, store).frames| > 0
    requires !StepGrow(m.p, Cfg(t, pc, locals, ops, store)).Trapped?
    ensures Stepped(exact, m, b, StepGrow(m.p, Cfg(t, pc, locals, ops, store)))
  {
    hide Cfg, Holds, Mounted, ModuleFits, FlatAt, Stepped, StoreFits, Compiled, Related, Fit;
    var s := Activation(locals, ops, store);
    GrowKeeps(exact, m, t.f, pc, ts, s);
    var c := Cfg(t, pc, locals, ops, store);
    var st, v := GrowPushes(m.p, t, pc, locals, ops, store);
    var rest := Front(ops, 1) + [v];
    FitAt(exact, m, t.f, pc, locals, TypesOf(ops), pc + 1, TypesOf(rest));
    MemoryAside(exact, m, store, st);
    Remount(exact, m, b, t, pc + 1, locals, rest, st);
    GoingSteps(exact, m, b, Cfg(t, pc + 1, locals, rest, st));
  }

  lemma FitAt(exact: bool, m: Module, f: nat, pc: nat, locals: seq<Value>, ops: seq<Type>, q: nat, ts: seq<Type>)
    requires Fit(exact, m, f, pc, locals, ops) && Holds(FlatAt(exact, m, f), q, ts)
    ensures Fit(exact, m, f, q, locals, ts)
  {
  }

  /** `grow_memory`, when it does not trap, replaces one operand by one of type i32. */
  lemma GrowPushes(p: Program, t: Site, pc: nat, locals: seq<Value>, ops: seq<Value>, store: Shared) returns (st: Shared, v: Value)
    requires |ops| >= 1 && |Cfg(t, pc, locals, ops, store).frames| > 0
    requires !StepGrow(p, Cfg(t, pc, locals, ops, store)).Trapped?
    ensures v.ty == I32 && st.globals == store.globals
    ensures StepGrow(p, Cfg(t, pc, locals, ops, store)) == Running(Cfg(t, pc + 1, locals, Front(ops, 1) + [v], st))
  {
    hide Cfg, Grow, Next, SetPos, PushNext, Front, AsU32;
    var c := Cfg(t, pc, locals, ops, store);
    Shape(t, pc, locals, ops, store);
    PopSim(t, pc, locals, [], ops, store, 1);
    assert [] + ops == ops && [] + Front(ops, 1) == Front(ops, 1);
    var r := Grow(store.mem, AsU32(Last(c.stack, 1)[0]));
    v := if r.Refused? then Value(I32, TWO32 - 1) else U32(store.mem.pages);
    st := if r.Grown? then store.(mem := r.m) else store;
    StoreField(t, pc, locals, Front(ops, 1), store, st);
    PushSim(p, t, pc, locals, [], Front(ops, 1), st, v);
    assert [] + (Front(ops, 1) + [v]) == Front(ops, 1) + [v];
    Shape(t, pc, locals, Front(ops, 1), store);
  }

  lemma GoingSteps(exact: bool, m: Module, b: Floor, d: Config)
    requires Going(exact, m, b, d)
    ensures Stepped(exact, m, b, Running(d))
  {
  }

  /** Only the globals count. */
  lemma MemoryAside(exact: bool, m: Module, st: Shared, st2: Shared)
    requires StoreFits(exact, m, st) && st2.globals == st.globals
    ensures StoreFits(exact, m, st2)
  {
  }

  /* ---- calls ---- */

  lemma HostSteps(exact: bool, m: Module, b: Floor, t: Site, pc: nat, locals: seq<Value>, ops: seq<Value>, store: Shared, f: nat)
    requires ModuleFits(exact, m) && Mounted(exact, m, b, t) && StoreFits(exact, m, store)
    requires f < |m.p.funcs| && m.p.funcs[f].HostFunc? && |ops| >= |m.p.funcs[f].sig.params|
    requires forall rs: seq<Value> :: |rs| == |m.p.funcs[f].sig.results| && Related(exact, TypesOf(rs), m.p.funcs[f].sig.results) ==>
      Fit(exact, m, t.f, pc + 1, locals, TypesOf(Front(ops, |m.p.funcs[f].sig.params|) + rs))
    requires |Cfg(t, pc, locals, ops, store).frames| > 0
    ensures Stepped(exact, m, b, Invoke(m.p, Cfg(t, pc, locals, ops, store), f))
  {
    hide Cfg, Mounted, Fit, Stepped, Next, SetPos, Above, StoreFits, Related;
    var n := |m.p.funcs[f].sig.params|;
    var c := Cfg(t, pc, locals, ops, store);
    Shape(t, pc, locals, ops, store);
    PopSim(t, pc, locals, [], ops, store, n);
    assert [] + ops == ops;
    CfgAbove(exact, m, b, t, pc, locals, ops, store);
    var e := Invoke(m.p, c, f);
    var r := m.p.host(m.p.funcs[f].id, Last(c.stack, n), c.store);
    if e.Trapped? {
      SameStackAbove(b, c, e.c);
      TrapSteps(exact, m, b, e);
    } else {
      assert AnswerFits(exact, m, f, Last(c.stack, n), store);
      HostShape(t, pc, locals, [], ops, store, n, r.results, r.store);
      assert [] + (Front(ops, n) + r.results) == Front(ops, n) + r.results;
      Remount(exact, m, b, t, pc + 1, locals, Front(ops, n) + r.results, r.store);
      GoingSteps(exact, m, b, Cfg(t, pc + 1, locals, Front(ops, n) + r.results, r.store));
    }
  }

  lemma SameStackAbove(b: Floor, c: Config, d: Config)
    requires Above(b, c) && d.stack == c.stack && d.frames == c.frames
    ensures Above(b, d)
  {
  }

  /** A call of a wasm function: the caller waits for its results. */
  lemma WasmSteps(exact: bool, m: Module, b: Floor, t: Site, pc: nat, locals: seq<Value>, ops: seq<Value>, store: Shared, f: nat)
    requires ModuleFits(exact, m) && Mounted(exact, m, b, t) && StoreFits(exact, m, store)
    requires f < |m.p.funcs| && m.p.funcs[f].WasmFunc? && PlainCallee(m.p, f) && |ops| >= |m.p.funcs[f].sig.params|
    requires exact ==> TypesOf(Last(ops, |m.p.funcs[f].sig.params|)) == m.p.funcs[f].sig.params
    requires Fit(exact, m, t.f, pc + 1, locals, TypesOf(Front(ops, |m.p.funcs[f].sig.params|)) + m.p.funcs[f].sig.results)
    requires |Cfg(t, pc, locals, ops, store).frames| > 0
    ensures Stepped(exact, m, b, Invoke(m.p, Cfg(t, pc, locals, ops, store), f))
  {
    hide Cfg, Mounted, Fit, Stepped, Above, StoreFits, Invoke, Going, ModuleFits;
    var n := |m.p.funcs[f].sig.params|;
    var c := Cfg(t, pc, locals, ops, store);
    EnterCallee(m.p, t, f, pc, Activation(locals, ops, store), []);
    assert [] + ops == ops && [] + Front(ops, n) == Front(ops, n);
    var t2 := CalleeSite(t, f, pc, locals, [], Front(ops, n));
    var e := Invoke(m.p, c, f);
    if Escaped(e) {
      CallTraps(m.p, t, pc, locals, ops, store, f);
      CfgAbove(exact, m, b, t, pc, locals, ops, store);
      TrapSteps(exact, m, b, e);
    } else {
      CalleeMounted(exact, m, b, t, pc, locals, Front(ops, n), f);
      CalleeFit(exact, m, f, Last(ops, n));
      Remount(exact, m, b, t2, 0, Last(ops, n), [], store);
      GoingSteps(exact, m, b, Cfg(t2, 0, Last(ops, n), [], store));
    }
  }

  lemma CallTraps(p: Program, t: Site, pc: nat, locals: seq<Value>, ops: seq<Value>, store: Shared, f: nat)
    requires f < |p.funcs| && p.funcs[f].WasmFunc?
    requires |Cfg(t, pc, locals, ops, store).frames| > 0
    ensures
      var e := Invoke(p, Cfg(t, pc, locals, ops, store), f);
      e.Trapped? ==> e.c == Cfg(t, pc, locals, ops, store)
  {
    Shape(t, pc, locals, ops, store);
  }

  lemma CalleeMounted(exact: bool, m: Module, b: Floor, t: Site, pc: nat, locals: seq<Value>, rest: seq<Value>, f: nat)
    requires Mounted(exact, m, b, t) && f < |m.p.funcs|
    requires Fit(exact, m, t.f, pc + 1, locals, TypesOf(rest) + m.p.funcs[f].sig.results)
    ensures Mounted(exact, m, b, CalleeSite(t, f, pc, locals, [], rest))
  {
    hide Fit, Waits;
    WaitsOn(exact, m, b, t, pc + 1, locals, rest, m.p.funcs[f].sig.results);
    assert t.pre + locals + ([] + rest) == t.pre + locals + rest;
  }

  /** A callee starts with its arguments as locals and no operands. */
  lemma CalleeFit(exact: bool, m: Module, f: nat, args: seq<Value>)
    requires ModuleFits(exact, m) && f < |m.p.funcs| && m.p.funcs[f].WasmFunc? && PlainCallee(m.p, f)
    requires |args| == |m.p.funcs[f].sig.params| && (exact ==> TypesOf(args) == m.p.funcs[f].sig.params)
    ensures f < |m.ctxs| && f < |m.bodies| && Compiled(m, f)
    ensures Fit(exact, m, f, 0, args, TypesOf([]))
  {
    StartFits(exact, m, f);
    assert m.p.funcs[f].sig.params == m.p.funcs[f].locals;
  }

  lemma StartFits(exact: bool, m: Module, f: nat)
    requires ModuleFits(exact, m) && f < |m.p.funcs| && m.p.funcs[f].WasmFunc?
    ensures f < |m.ctxs| && f < |m.bodies| && Compiled(m, f) && Holds(FlatAt(exact, m, f), 0, TypesOf([]))
  {
    hide FunctionNotes, LayFunction, CheckBody, HostFits, CleanBody, Holds;
    assert FuncOk(m, f);
    AcceptedObeysRules(exact, m.ctxs[f], m.bodies[f]);
    assert TypesOf([]) == [];
  }

  lemma InvokeSteps(exact: bool, m: Module, b: Floor, t: Site, pc: nat, locals: seq<Value>, ops: seq<Value>, store: Shared,
      f: nat, ts: seq<Type>)
    requires ModuleFits(exact, m) && Mounted(exact, m, b, t) && StoreFits(exact, m, store)
    requires LocalsFit(exact, m, t.f, locals)
    requires f < |m.p.funcs| && PlainCallee(m.p, f) && Related(exact, TypesOf(ops), ts)
    requires Passes(FlatAt(exact, m, t.f), pc, ts, m.p.funcs[f].sig.params, m.p.funcs[f].sig.results)
    requires |Cfg(t, pc, locals, ops, store).frames| > 0
    ensures Stepped(exact, m, b, Invoke(m.p, Cfg(t, pc, locals, ops, store), f))
  {
    hide Cfg, Mounted, Stepped, Invoke, Holds, FlatAt, ModuleFits, StoreFits;
    var sig, fl := m.p.funcs[f].sig, FlatAt(exact, m, t.f);
    FlatExact(exact, m, t.f);
    RelatedHeight(exact, ops, ts);
    PopsTyped(exact, ts, sig.params, ops);
    if m.p.funcs[f].HostFunc? {
      forall rs: seq<Value> | |rs| == |sig.results| && Related(exact, TypesOf(rs), sig.results)
        ensures Fit(exact, m, t.f, pc + 1, locals, TypesOf(Front(ops, |sig.params|) + rs))
      {
        PassOn(fl, pc, ts, sig.params, sig.results, ops, rs);
      }
      HostSteps(exact, m, b, t, pc, locals, ops, store, f);
    } else {
      TypesFront(ops, |sig.params|);
      StillHolds(fl, pc + 1, Front(ts, |sig.params|) + sig.results, TypesOf(Front(ops, |sig.params|)) + sig.results);
      WasmSteps(exact, m, b, t, pc, locals, ops, store, f);
    }
  }

  lemma CallSteps(exact: bool, m: Module, b: Floor, t: Site, pc: nat, locals: seq<Value>, ops: seq<Value>, store: Shared, f: nat, imported: bool)
    requires Poised(exact, m, b, t, pc, locals, ops, store) && PlainCallee(m.p, f)
    requires pc < |m.p.funcs[t.f].code| && m.p.funcs[t.f].code[pc] == CallRec(f, imported)
    ensures Stepped(exact, m, b, Run(m.p, Cfg(t, pc, locals, ops, store), |t.frames|, 1))
  {
    hide Cfg, Run, Holds, Mounted, FlatAt, Stepped, Invoke, StoreFits, Passes, HostFits;
    RuleHere(exact, m, t.f, pc, locals, TypesOf(ops));
    var fl := FlatAt(exact, m, t.f);
    NoteRelates(fl, pc, ops);
    StepAt(m, |t.frames|, t, pc, CallRec(f, imported), locals, ops, store);
    InvokeSteps(exact, m, b, t, pc, locals, ops, store, f, fl.notes[pc].types);
  }

  lemma IndirectStepAt(m: Module, t: Site, pc: nat, locals: seq<Value>, ops: seq<Value>, store: Shared, sig: nat)
    requires t.f < |m.p.funcs| && m.p.funcs[t.f].WasmFunc? && |ops| >= 1
    requires pc < |m.p.funcs[t.f].code| && m.p.funcs[t.f].code[pc] == Op(CallIndirect(sig))
    ensures
      var d := Cfg(t, pc, locals, Front(ops, 1), store);
      && |d.frames| > 0
      && Run(m.p, Cfg(t, pc, locals, ops, store), |t.frames|, 1) ==
        match Lookup(m.p, AsU32(ops[|ops| - 1]), sig) {
          case Found(f) => Invoke(m.p, d, f)
          case NotFound(trap) => Trapped(trap, d)
          case NoSuchType => Stuck
        }
  {
    hide Cfg, Run, StepIndirect, Lookup, Invoke, AsU32, Front;
    StepAt(m, |t.frames|, t, pc, Op(CallIndirect(sig)), locals, ops, store);
    IndirectStep(m.p, t, pc, locals, [], ops, store, sig);
    assert [] + ops == ops && [] + Front(ops, 1) == Front(ops, 1);
  }

  lemma IndirectSteps(exact: bool, m: Module, b: Floor, t: Site, pc: nat, locals: seq<Value>, ops: seq<Value>, store: Shared, sig: nat)
    requires Poised(exact, m, b, t, pc, locals, ops, store)
    requires
      var c := Cfg(t, pc, locals, ops, store);
      |c.frames| > 0 && !Overlaps(m.p, c)
    requires pc < |m.p.funcs[t.f].code| && m.p.funcs[t.f].code[pc] == Op(CallIndirect(sig))
    ensures Stepped(exact, m, b, Run(m.p, Cfg(t, pc, locals, ops, store), |t.frames|, 1))
  {
    hide Cfg, Run, Holds, Mounted, FlatAt, Stepped, Invoke, StoreFits, HostFits, Lookup, Related, FuncOk, Passes, AsU32;
    RuleHere(exact, m, t.f, pc, locals, TypesOf(ops));
    var fl := FlatAt(exact, m, t.f);
    var ts := fl.notes[pc].types;
    NoteRelates(fl, pc, ops);
    RelatedHeight(exact, ops, ts);
    IndirectNeeds(fl, pc, sig, ts);
    IndirectStepAt(m, t, pc, locals, ops, store, sig);
    var entry := AsU32(ops[|ops| - 1]);
    LookupOk(m, t.f, sig, entry);
    var found := Lookup(m.p, entry, sig);
    if found.Found? {
      FoundPlain(m.p, t, pc, locals, ops, store, sig);
      FoundSteps(exact, m, b, t, pc, locals, ops, store, sig, found.f, ts);
    } else {
      CfgAbove(exact, m, b, t, pc, locals, Front(ops, 1), store);
      TrapSteps(exact, m, b, Trapped(found.trap, Cfg(t, pc, locals, Front(ops, 1), store)));
    }
  }

  lemma FoundPlain(p: Program, t: Site, pc: nat, locals: seq<Value>, ops: seq<Value>, store: Shared, sig: nat)
    requires t.f < |p.funcs| && p.funcs[t.f].WasmFunc? && pc < |p.funcs[t.f].code| && p.funcs[t.f].code[pc] == Op(CallIndirect(sig))
    requires |ops| >= 1 && Lookup(p, AsU32(ops[|ops| - 1]), sig).Found?
    requires
      var c := Cfg(t, pc, locals, ops, store);
      |c.frames| > 0 && !Overlaps(p, c)
    ensures PlainCallee(p, Lookup(p, AsU32(ops[|ops| - 1]), sig).f)
  {
    hide Cfg, AsU32, PlainCallee, Lookup;
    Shape(t, pc, locals, ops, store);
    assert (t.pre + locals + ops)[|t.pre + locals + ops| - 1] == ops[|ops| - 1];
  }

  lemma IndirectNeeds(fl: Flat, pc: nat, sig: nat, ts: seq<Type>)
    requires OpRule(fl, pc, CallIndirect(sig), ts)
    ensures sig < |fl.ctx.types| && |ts| >= 1
    ensures Passes(fl, pc, ts, fl.ctx.types[sig].params + [I32], fl.ctx.types[sig].results)
  {
    hide Holds;
  }

  lemma FoundSteps(exact: bool, m: Module, b: Floor, t: Site, pc: nat, locals: seq<Value>, ops: seq<Value>, store: Shared,
      sig: nat, f: nat, ts: seq<Type>)
    requires Poised(exact, m, b, t, pc, locals, ops, store) && sig < |m.ctxs[t.f].types|
    requires f < |m.p.funcs| && PlainCallee(m.p, f) && m.p.funcs[f].sig == m.ctxs[t.f].types[sig]
    requires |ops| >= |ts| && |ts| >= 1 && Related(exact, TypesOf(ops), ts)
    requires Passes(FlatAt(exact, m, t.f), pc, ts, m.ctxs[t.f].types[sig].params + [I32], m.ctxs[t.f].types[sig].results)
    requires |Cfg(t, pc, locals, Front(ops, 1), store).frames| > 0
    ensures Stepped(exact, m, b, Invoke(m.p, Cfg(t, pc, locals, Front(ops, 1), store), f))
  {
    hide Cfg, Mounted, Stepped, Invoke, Holds, FlatAt, ModuleFits, StoreFits, Passes, Compiled;
    IndirectPasses(FlatAt(exact, m, t.f), pc, ts, m.ctxs[t.f].types[sig]);
    TypesFront(ops, 1);
    InvokeSteps(exact, m, b, t, pc, locals, Front(ops, 1), store, f, Front(ts, 1));
  }

  lemma LookupOk(m: Module, f: nat, sig: nat, entry: nat)
    requires f < |m.p.funcs| && f < |m.ctxs| && f < |m.bodies| && Compiled(m, f) && sig < |m.ctxs[f].types|
    ensures
      var r := Lookup(m.p, entry, sig);
      !r.NoSuchType? && (r.Found? ==> r.f < |m.p.funcs| && m.p.funcs[r.f].sig == m.ctxs[f].types[sig])
  {
    hide CheckBody, LayFunction;
  }

  lemma IndirectPasses(fl: Flat, pc: nat, ts: seq<Type>, sig: Signature)
    requires Passes(fl, pc, ts, sig.params + [I32], sig.results)
    ensures |ts| >= 1 && Passes(fl, pc, Front(ts, 1), sig.params, sig.results)
  {
    hide Holds;
    var n := |sig.params|;
    assert Last(ts, n + 1)[..n] == Last(Front(ts, 1), n);
    assert Last(ts, n + 1)[..n] == (sig.params + [I32])[..n] == sig.params;
    assert Front(ts, n + 1) == Front(Front(ts, 1), n);
  }

  /** The invariant survives every step that neither leaks nor calls a function with locals of its own: the machine is never stuck, and what
      lies below the run is never touched. */
  lemma StepKeeps(exact: bool, m: Module, b: Floor, c: Config)
    requires ModuleFits(exact, m) && Going(exact, m, b, c) && !Overlaps(m.p, c)
    ensures Stepped(exact, m, b, Step(m.p, c)) || Leaked(exact, m, c, Step(m.p, c))
  {
    hide Leaked, PlainCallee, Cfg, Run, Mounted, Fit, Stepped, StoreFits, ModuleFits, Step, Rule;
    var t, pc, locals, ops := Mount(exact, m, b, c);
    RunOne(m.p, c, |t.frames|);
    KnownFunction(exact, m, t.f, pc, locals, TypesOf(ops));
    var code := m.p.funcs[t.f].code;
    if pc >= |code| { FallOffSteps(exact, m, b, t, pc, locals, ops, c.store); }
    else {
      match code[pc]
      case Jump(op, v1, v2) =>
        if op.OpBrTable? { TableSteps(exact, m, b, t, pc, locals, ops, c.store, v1, v2); }
        else { JumpSteps(exact, m, b, t, pc, locals, ops, c.store, code[pc]); }
      case EndRec(h, r) => EndSteps(exact, m, b, t, pc, locals, ops, c.store, h, r);
      case ReturnRec(r) => ReturnSteps(exact, m, b, t, pc, locals, ops, c.store, r);
      case CallRec(f, imported) => CallSteps(exact, m, b, t, pc, locals, ops, c.store, f, imported);
      case Op(i) =>
        OpcodeHere(exact, m, t.f, pc, locals, TypesOf(ops));
        if i.CallIndirect? { IndirectSteps(exact, m, b, t, pc, locals, ops, c.store, i.sig); }
        else { OpSteps(exact, m, b, t, pc, locals, ops, c.store, i); }
    }
  }

  lemma KnownFunction(exact: bool, m: Module, f: nat, pc: nat, locals: seq<Value>, ops: seq<Type>)
    requires Fit(exact, m, f, pc, locals, ops)
    ensures f < |m.p.funcs| && m.p.funcs[f].WasmFunc?
  {
  }

  lemma OpcodeHere(exact: bool, m: Module, f: nat, pc: nat, locals: seq<Value>, ops: seq<Type>)
    requires ModuleFits(exact, m) && Fit(exact, m, f, pc, locals, ops) && pc < |m.p.funcs[f].code| && m.p.funcs[f].code[pc].Op?
    ensures IsOpcode(m.p.funcs[f].code[pc].i) || m.p.funcs[f].code[pc].i.CallIndirect?
  {
    hide Holds, ModuleFits, Goes, TableRule, Passes, FlatAt;
    RuleHere(exact, m, f, pc, locals, ops);
    RuleOpcode(FlatAt(exact, m, f), pc);
  }

  lemma RuleOpcode(fl: Flat, pc: nat)
    requires pc < |fl.code| && pc < |fl.notes| && Rule(fl, pc) && fl.code[pc].Op?
    ensures IsOpcode(fl.code[pc].i) || fl.code[pc].i.CallIndirect?
  {
    hide Holds, Passes;
  }
}
