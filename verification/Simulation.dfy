/** The flat machine simulates the structured semantics, instruction by instruction. */
module Simulation {
  import opened Wasm
  import opened LinearMemory
  import opened Machine
  import opened Semantics

  /** Ways for the machine to give up that the structured semantics does not have: the two
      stacks are finite, and a wrapped page count leaves nothing defined. */
  predicate Escaped(s: State) {
    s.Trapped? && (s.trap.CallStackExhausted? || s.trap.ValueStackExhausted? || s.trap.PageCountWrapped?)
  }

  /* ---- runs compose ---- */

  lemma {:induction false} RunCompose(p: Program, c: Config, k: nat, a: nat, b: nat)
    requires Run(p, c, k, a).Running?
    ensures Run(p, c, k, a + b) == Run(p, Run(p, c, k, a).c, k, b)
    decreases a
  {
    hide Step;
    if a == 0 {
    } else if |c.frames| <= k {
      StoppedStays(p, c, k, a + b);
      StoppedStays(p, c, k, b);
    } else {
      RunCompose(p, Step(p, c).c, k, a - 1, b);
    }
  }

  lemma StoppedStays(p: Program, c: Config, k: nat, n: nat)
    requires |c.frames| <= k
    ensures Run(p, c, k, n) == Running(c)
  {
  }

  lemma RunOne(p: Program, c: Config, k: nat)
    requires |c.frames| > k
    ensures Run(p, c, k, 1) == Step(p, c)
  {
    hide Step;
    if Step(p, c).Running? {
      assert Run(p, Step(p, c).c, k, 0) == Step(p, c);
    }
  }

  /** Running `a` turns and then one more. */
  lemma RunThenStep(p: Program, c: Config, k: nat, a: nat)
    requires Run(p, c, k, a).Running? && |Run(p, c, k, a).c.frames| > k
    ensures Run(p, c, k, a + 1) == Step(p, Run(p, c, k, a).c)
  {
    RunCompose(p, c, k, a, 1);
    RunOne(p, Run(p, c, k, a).c, k);
  }

  /* ---- configurations of one activation ---- */

  /** What an activation does not touch: its function, the stack below its locals and the
      frames below its own. */
  datatype Site = Site(f: nat, pre: seq<Value>, frames: seq<Frame>)

  function Cfg(t: Site, pos: nat, locals: seq<Value>, ops: seq<Value>, store: Shared): Config {
    Config(t.pre + locals + ops, t.frames + [Frame(t.f, |t.pre|, pos)], store)
  }

  lemma Shape(t: Site, pos: nat, locals: seq<Value>, ops: seq<Value>, store: Shared)
    ensures
      var c := Cfg(t, pos, locals, ops, store);
      && |c.frames| == |t.frames| + 1 && TopFrame(c) == Frame(t.f, |t.pre|, pos)
      && c.stack == t.pre + locals + ops && c.store == store
      && Next(c) == Cfg(t, pos + 1, locals, ops, store)
  {
    Reposition(t, pos, pos + 1, locals, ops, store);
  }

  lemma Reposition(t: Site, pos: nat, q: nat, locals: seq<Value>, ops: seq<Value>, store: Shared)
    ensures |Cfg(t, pos, locals, ops, store).frames| > 0
    ensures SetPos(Cfg(t, pos, locals, ops, store), q) == Cfg(t, q, locals, ops, store)
  {
    assert (t.frames + [Frame(t.f, |t.pre|, pos)])[|t.frames| := Frame(t.f, |t.pre|, q)]
        == t.frames + [Frame(t.f, |t.pre|, q)];
  }

  /** Popping `n` operands and pushing `out`, whatever lies below. */
  lemma Replace(t: Site, locals: seq<Value>, below: seq<Value>, vs: seq<Value>, n: nat, out: seq<Value>)
    requires n <= |vs|
    ensures |t.pre + locals + (below + vs)| >= n
    ensures Front(t.pre + locals + (below + vs), n) + out == t.pre + locals + (below + (Front(vs, n) + out))
    ensures Front(t.pre + locals + (below + vs), n) == t.pre + locals + (below + Front(vs, n))
    ensures Last(t.pre + locals + (below + vs), n) == Last(vs, n)
  {
  }

  lemma Peek(t: Site, locals: seq<Value>, below: seq<Value>, vs: seq<Value>, k: nat)
    requires k < |vs|
    ensures var s := t.pre + locals + (below + vs);
      |s| > k && s[|s| - 1 - k] == vs[|vs| - 1 - k]
  {
  }

  /** The memory's size in bytes is its page count; 65535 pages is the most that 32 bits address. */
  predicate MemoryOk(m: Memory) {
    |m.bytes| == m.pages * PAGE_SIZE && m.pages < MAX_PAGES
  }

  /** What the theorems ask of host functions: results as declared, globals not removed, memory
      still a whole number of pages. */
  ghost predicate GoodHost(p: Program) {
    forall f: nat, args: seq<Value>, st: Shared :: f < |p.funcs| && p.funcs[f].HostFunc? && MemoryOk(st.mem) ==>
      HostAnswerOk(p, f, args, st)
  }

  predicate HostAnswerOk(p: Program, f: nat, args: seq<Value>, st: Shared)
    requires f < |p.funcs| && p.funcs[f].HostFunc?
  {
    var r := p.host(p.funcs[f].id, args, st);
    r.HostOk? ==> |r.results| == |p.funcs[f].sig.results| && |r.store.globals| == |st.globals| && MemoryOk(r.store.mem)
  }

  /** The machine's step against the structured outcome of an instruction that does not branch. */
  predicate Matches(t: Site, pc: nat, below: seq<Value>, o: Outcome, m: State) {
    match o
    case Normal(s) => m == Running(Cfg(t, pc, s.locals, below + s.vs, s.store))
    case Failed(trap, st) => m.Trapped? && m.trap == trap && m.c.store == st
    case _ => true
  }

  /** Growing by exact page counts is growing by 32-bit ones, unless those wrap. */
  lemma GrowAgrees(m: Memory, delta: nat)
    requires MemoryOk(m) && delta < TWO32
    ensures
      var pages := m.pages + delta;
      match Grow(m, delta) {
        case Wrapped => pages >= TWO32
        case Refused => (m.max.Some? && pages > m.max.value) || pages >= MAX_PAGES
        case Grown(g) => (m.max.Some? ==> pages <= m.max.value) && pages < MAX_PAGES && MemoryOk(g) &&
          g == Memory(m.bytes + Zeros(delta * PAGE_SIZE), pages, m.max)
      }
  {
    var pages := m.pages + delta;
    if pages >= TWO32 {
      assert (m.pages + delta) % TWO32 == pages - TWO32;
      assert (pages - TWO32) * PAGE_SIZE < m.pages * PAGE_SIZE;
    } else {
      assert pages % TWO32 == pages;
      assert pages * PAGE_SIZE - m.pages * PAGE_SIZE == delta * PAGE_SIZE;
    }
  }

  /* ---- one opcode at a time ---- */

  predicate OpAgrees(p: Program, t: Site, pc: nat, below: seq<Value>, s: Activation, i: Instr) {
    var c := Cfg(t, pc, s.locals, below + s.vs, s.store);
    |c.frames| > 0 && (Escaped(StepOp(p, c, i)) || Matches(t, pc + 1, below, ExecOp(p, i, s), StepOp(p, c, i)))
  }

  lemma PushSim(p: Program, t: Site, pc: nat, locals: seq<Value>, below: seq<Value>, vs: seq<Value>, store: Shared, v: Value)
    ensures
      var c := Cfg(t, pc, locals, below + vs, store);
      |c.frames| > 0 &&
      (Escaped(PushNext(p, c, v)) || PushNext(p, c, v) == Running(Cfg(t, pc + 1, locals, below + (vs + [v]), store)))
  {
    var c := Cfg(t, pc, locals, below + vs, store);
    Shape(t, pc, locals, below + vs, store);
    Replace(t, locals, below, vs, 0, [v]);
    assert c.stack + [v] == t.pre + locals + (below + (vs + [v]));
    assert c.(stack := c.stack + [v]) == Cfg(t, pc, locals, below + (vs + [v]), store);
    Shape(t, pc, locals, below + (vs + [v]), store);
  }

  /** Popping `n` operands leaves a configuration of the same shape. */
  lemma PopSim(t: Site, pc: nat, locals: seq<Value>, below: seq<Value>, vs: seq<Value>, store: Shared, n: nat)
    requires n <= |vs|
    ensures
      var c := Cfg(t, pc, locals, below + vs, store);
      && |c.stack| >= n
      && c.(stack := Front(c.stack, n)) == Cfg(t, pc, locals, below + Front(vs, n), store)
      && Last(c.stack, n) == Last(vs, n)
  {
    Replace(t, locals, below, vs, n, []);
  }

  lemma StoreField(t: Site, pc: nat, locals: seq<Value>, ops: seq<Value>, store: Shared, st: Shared)
    ensures Cfg(t, pc, locals, ops, store).(store := st) == Cfg(t, pc, locals, ops, st)
  {
  }

  lemma DropSim(p: Program, t: Site, pc: nat, below: seq<Value>, s: Activation)
    ensures OpAgrees(p, t, pc, below, s, Drop)
  {
    hide Cfg, Escaped, Front, Next, SetPos;
    Shape(t, pc, s.locals, below + s.vs, s.store);
    if |s.vs| >= 1 {
      PopSim(t, pc, s.locals, below, s.vs, s.store, 1);
      Shape(t, pc, s.locals, below + Front(s.vs, 1), s.store);
    }
  }

  lemma SelectSim(p: Program, t: Site, pc: nat, below: seq<Value>, s: Activation)
    ensures OpAgrees(p, t, pc, below, s, Select)
  {
    hide Cfg, Escaped, PushNext, Front, Next, SetPos;
    var n := |s.vs|;
    Shape(t, pc, s.locals, below + s.vs, s.store);
    if n >= 3 {
      PopSim(t, pc, s.locals, below, s.vs, s.store, 3);
      Peek(t, s.locals, below, s.vs, 0);
      Peek(t, s.locals, below, s.vs, 1);
      Peek(t, s.locals, below, s.vs, 2);
      PushSim(p, t, pc, s.locals, below, Front(s.vs, 3), s.store,
        if AsU32(s.vs[n - 1]) == 0 then s.vs[n - 2] else s.vs[n - 3]);
    }
  }

  lemma PushingSim(p: Program, t: Site, pc: nat, below: seq<Value>, s: Activation, i: Instr)
    requires i.Const? || i.CurrentMemory? || i.GetGlobal?
    ensures OpAgrees(p, t, pc, below, s, i)
  {
    hide Cfg, Escaped, PushNext, Front, Next, SetPos;
    Shape(t, pc, s.locals, below + s.vs, s.store);
    var v :=
      if i.Const? then i.v
      else if i.GetGlobal? && i.global < |s.store.globals| then s.store.globals[i.global]
      else U32(s.store.mem.pages);
    PushSim(p, t, pc, s.locals, below, s.vs, s.store, v);
  }

  lemma SetGlobalSim(p: Program, t: Site, pc: nat, below: seq<Value>, s: Activation, x: nat)
    ensures OpAgrees(p, t, pc, below, s, SetGlobal(x))
  {
    hide Cfg, Escaped, Front, Next, SetPos;
    var n := |s.vs|;
    Shape(t, pc, s.locals, below + s.vs, s.store);
    if n >= 1 && x < |s.store.globals| {
      PopSim(t, pc, s.locals, below, s.vs, s.store, 1);
      Peek(t, s.locals, below, s.vs, 0);
      var st := s.store.(globals := s.store.globals[x := s.vs[n - 1]]);
      StoreField(t, pc, s.locals, below + Front(s.vs, 1), s.store, st);
      Shape(t, pc, s.locals, below + Front(s.vs, 1), st);
    }
  }

  lemma LoadSim(p: Program, t: Site, pc: nat, below: seq<Value>, s: Activation, i: Instr)
    requires i.Load?
    ensures OpAgrees(p, t, pc, below, s, i)
  {
    hide Cfg, Escaped, PushNext, LoadFrom, Front, Next, SetPos;
    var n := |s.vs|;
    Shape(t, pc, s.locals, below + s.vs, s.store);
    if n >= 1 {
      PopSim(t, pc, s.locals, below, s.vs, s.store, 1);
      Shape(t, pc, s.locals, below + Front(s.vs, 1), s.store);
      assert Last(s.vs, 1)[0] == s.vs[n - 1];
      var r := LoadFrom(s.store.mem, AsU32(s.vs[n - 1]), i.offset, i.access);
      if r.Some? { PushSim(p, t, pc, s.locals, below, Front(s.vs, 1), s.store, r.value); }
    }
  }

  lemma StoreSim(p: Program, t: Site, pc: nat, below: seq<Value>, s: Activation, i: Instr)
    requires i.Store?
    ensures OpAgrees(p, t, pc, below, s, i)
  {
    hide Cfg, Escaped, StoreTo, Front, Next, SetPos;
    var n := |s.vs|;
    Shape(t, pc, s.locals, below + s.vs, s.store);
    if n >= 2 {
      PopSim(t, pc, s.locals, below, s.vs, s.store, 2);
      Peek(t, s.locals, below, s.vs, 0);
      Peek(t, s.locals, below, s.vs, 1);
      var r := StoreTo(s.store.mem, AsU32(s.vs[n - 2]), i.offset, i.access, s.vs[n - 1]);
      Shape(t, pc, s.locals, below + Front(s.vs, 2), s.store);
      if r.Some? {
        var st := s.store.(mem := r.value);
        StoreField(t, pc, s.locals, below + Front(s.vs, 2), s.store, st);
        Shape(t, pc, s.locals, below + Front(s.vs, 2), st);
      }
    }
  }

  lemma NumericSim(p: Program, t: Site, pc: nat, below: seq<Value>, s: Activation, op: NumericOp)
    ensures OpAgrees(p, t, pc, below, s, Numeric(op))
  {
    hide Cfg, Escaped, PushNext, Front, Next, SetPos;
    var k := |op.params|;
    Shape(t, pc, s.locals, below + s.vs, s.store);
    if |s.vs| >= k {
      PopSim(t, pc, s.locals, below, s.vs, s.store, k);
      Shape(t, pc, s.locals, below + Front(s.vs, k), s.store);
      var r := p.numeric(op, Last(s.vs, k));
      if r.NumOk? { PushSim(p, t, pc, s.locals, below, Front(s.vs, k), s.store, Value(op.result, r.bits)); }
    }
  }

  lemma GrowOutcome(s: Activation, delta: nat)
    requires MemoryOk(s.store.mem) && delta < TWO32
    ensures
      var r := Grow(s.store.mem, delta);
      && (r.Refused? ==> ExecGrow(s, delta) == Push(s, Value(I32, TWO32 - 1)))
      && (r.Grown? ==> ExecGrow(s, delta) == Push(s.(store := s.store.(mem := r.m)), U32(s.store.mem.pages)))
  {
    hide Grow;
    GrowAgrees(s.store.mem, delta);
  }

  lemma GrowStep(p: Program, t: Site, pc: nat, below: seq<Value>, s: Activation)
    requires MemoryOk(s.store.mem) && |s.vs| >= 1
    ensures
      var c := Cfg(t, pc, s.locals, below + s.vs, s.store);
      var o := ExecGrow(s.(vs := Front(s.vs, 1)), AsU32(s.vs[|s.vs| - 1]));
      |c.frames| > 0 && (Escaped(StepGrow(p, c)) || Matches(t, pc + 1, below, o, StepGrow(p, c)))
  {
    hide Cfg, PushNext, Grow, ExecGrow, MemoryOk, Front, Next, SetPos;
    var n := |s.vs|;
    Shape(t, pc, s.locals, below + s.vs, s.store);
    PopSim(t, pc, s.locals, below, s.vs, s.store, 1);
    Shape(t, pc, s.locals, below + Front(s.vs, 1), s.store);
    assert Last(s.vs, 1)[0] == s.vs[n - 1];
    var delta := AsU32(s.vs[n - 1]);
    GrowOutcome(s.(vs := Front(s.vs, 1)), delta);
    var r := Grow(s.store.mem, delta);
    if r.Grown? {
      var st := s.store.(mem := r.m);
      StoreField(t, pc, s.locals, below + Front(s.vs, 1), s.store, st);
      PushSim(p, t, pc, s.locals, below, Front(s.vs, 1), st, U32(s.store.mem.pages));
    } else {
      PushSim(p, t, pc, s.locals, below, Front(s.vs, 1), s.store, Value(I32, TWO32 - 1));
    }
  }

  lemma GrowSim(p: Program, t: Site, pc: nat, below: seq<Value>, s: Activation)
    requires MemoryOk(s.store.mem)
    ensures OpAgrees(p, t, pc, below, s, GrowMemory)
  {
    hide Cfg, StepGrow, ExecGrow, MemoryOk, Front, Matches, Escaped;
    Shape(t, pc, s.locals, below + s.vs, s.store);
    if |s.vs| >= 1 {
      GrowStep(p, t, pc, below, s);
    } else {
      assert ExecOp(p, GrowMemory, s).Wrong?;
      assert Matches(t, pc + 1, below, Wrong, StepGrow(p, Cfg(t, pc, s.locals, below + s.vs, s.store))) by {
        WrongMatches(t, pc + 1, below, StepGrow(p, Cfg(t, pc, s.locals, below + s.vs, s.store)));
      }
    }
  }

  lemma WrongMatches(t: Site, pc: nat, below: seq<Value>, m: State)
    ensures Matches(t, pc, below, Wrong, m)
  {
  }

  lemma WriteLocal(t: Site, pc: nat, locals: seq<Value>, ops: seq<Value>, store: Shared, x: nat, v: Value)
    requires x < |locals|
    ensures
      var c := Cfg(t, pc, locals, ops, store);
      && |t.pre| + x < |c.stack|
      && c.(stack := c.stack[|t.pre| + x := v]) == Cfg(t, pc, locals[x := v], ops, store)
  {
    assert (t.pre + locals + ops)[|t.pre| + x := v] == t.pre + locals[x := v] + ops;
  }

  lemma GetLocalSim(p: Program, t: Site, pc: nat, below: seq<Value>, s: Activation, x: nat)
    requires x < |s.locals|
    ensures OpAgrees(p, t, pc, below, s, GetLocal(x))
  {
    hide Cfg, Escaped, PushNext, Front, Next, SetPos;
    Shape(t, pc, s.locals, below + s.vs, s.store);
    assert (t.pre + s.locals + (below + s.vs))[|t.pre| + x] == s.locals[x];
    PushSim(p, t, pc, s.locals, below, s.vs, s.store, s.locals[x]);
  }

  lemma SetLocalSim(p: Program, t: Site, pc: nat, below: seq<Value>, s: Activation, x: nat)
    requires x < |s.locals|
    ensures OpAgrees(p, t, pc, below, s, SetLocal(x))
  {
    hide Cfg, Escaped, Front, Next, SetPos, AsU32;
    var n := |s.vs|;
    Shape(t, pc, s.locals, below + s.vs, s.store);
    if n >= 1 {
      Peek(t, s.locals, below, s.vs, 0);
      PopThenWrite(t, pc, s.locals, below, s.vs, s.store, x);
      Shape(t, pc, s.locals[x := s.vs[n - 1]], below + Front(s.vs, 1), s.store);
    }
  }

  lemma PopThenWrite(t: Site, pc: nat, locals: seq<Value>, below: seq<Value>, vs: seq<Value>, store: Shared, x: nat)
    requires x < |locals| && |vs| >= 1
    ensures
      var c, v := Cfg(t, pc, locals, below + vs, store), vs[|vs| - 1];
      && |t.pre| + x < |c.stack| - 1
      && c.(stack := Front(c.stack, 1)[|t.pre| + x := v]) == Cfg(t, pc, locals[x := v], below + Front(vs, 1), store)
  {
    PopSim(t, pc, locals, below, vs, store, 1);
    WriteLocal(t, pc, locals, below + Front(vs, 1), store, x, vs[|vs| - 1]);
    var c := Cfg(t, pc, locals, below + vs, store);
    assert Front(c.stack, 1) == Cfg(t, pc, locals, below + Front(vs, 1), store).stack;
  }

  lemma TeeLocalSim(p: Program, t: Site, pc: nat, below: seq<Value>, s: Activation, x: nat)
    requires x < |s.locals|
    ensures OpAgrees(p, t, pc, below, s, TeeLocal(x))
  {
    hide Cfg, Escaped, Front, Next, SetPos;
    var n := |s.vs|;
    Shape(t, pc, s.locals, below + s.vs, s.store);
    if n >= 1 {
      Peek(t, s.locals, below, s.vs, 0);
      WriteLocal(t, pc, s.locals, below + s.vs, s.store, x, s.vs[n - 1]);
      Shape(t, pc, s.locals[x := s.vs[n - 1]], below + s.vs, s.store);
    }
  }

  /** Every instruction that neither branches nor calls. */
  lemma OpSim(p: Program, t: Site, pc: nat, below: seq<Value>, s: Activation, i: Instr)
    requires IsPlain(i) && !i.Nop? && !i.Br? && !i.BrIf? && !i.BrTable? && !i.Return? && !i.Call? && !i.CallIndirect?
    requires i.GrowMemory? ==> MemoryOk(s.store.mem)
    requires i.GetLocal? || i.SetLocal? || i.TeeLocal? ==> i.local < |s.locals|
    ensures OpAgrees(p, t, pc, below, s, i)
  {
    hide OpAgrees;
    match i
    case Drop => DropSim(p, t, pc, below, s);
    case Select => SelectSim(p, t, pc, below, s);
    case GetLocal(x) => GetLocalSim(p, t, pc, below, s, x);
    case SetLocal(x) => SetLocalSim(p, t, pc, below, s, x);
    case TeeLocal(x) => TeeLocalSim(p, t, pc, below, s, x);
    case SetGlobal(x) => SetGlobalSim(p, t, pc, below, s, x);
    case Load(_, _, _) => LoadSim(p, t, pc, below, s, i);
    case Store(_, _, _) => StoreSim(p, t, pc, below, s, i);
    case GrowMemory => GrowSim(p, t, pc, below, s);
    case Numeric(op) => NumericSim(p, t, pc, below, s, op);
    case Unreachable => UnreachableSim(p, t, pc, below, s);
    case _ => PushingSim(p, t, pc, below, s, i);
  }

  lemma UnreachableSim(p: Program, t: Site, pc: nat, below: seq<Value>, s: Activation)
    ensures OpAgrees(p, t, pc, below, s, Unreachable)
  {
    hide Cfg;
    Shape(t, pc, s.locals, below + s.vs, s.store);
  }
}
