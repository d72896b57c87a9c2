/** Compilation preserves meaning: running the flat code of an accepted body does what the
    structured semantics says, or runs out of stack, or strays: takes a branch to a loop with more
    operands than the loop was entered with, or calls a function with locals of its own. */
module Preservation {
  import opened Wasm
  import opened LinearMemory
  import opened Checking
  import opened CheckerInvariants
  import opened Structure
  import opened Heights
  import opened Reading
  import opened Layout
  import opened Loops
  import opened Machine
  import opened Semantics
  import opened Simulation

  /** A linked module: its program, and for each function the context it was read in and the
      structured body it was read from. */
  datatype Module = Module(p: Program, ctxs: seq<Context>, bodies: seq<Body>, globals: nat)

  predicate ContextOk(m: Module, f: nat)
    requires f < |m.p.funcs| && f < |m.ctxs|
  {
    var ctx, fn := m.ctxs[f], m.p.funcs[f];
    && fn.WasmFunc?
    && ctx.locals == fn.locals
    && ctx.results == fn.sig.results
    && ctx.types == m.p.types
    && |ctx.globals| == m.globals
    && |ctx.funcs| == |m.p.funcs|
    && (forall g :: 0 <= g < |m.p.funcs| ==> ctx.funcs[g] == FuncType(m.p.funcs[g].sig, m.p.funcs[g].HostFunc?))
  }

  /** The function was read in its context, and its code is what the reader makes of its body. */
  predicate Compiled(m: Module, f: nat)
    requires f < |m.p.funcs| && f < |m.ctxs| && f < |m.bodies|
  {
    && ContextOk(m, f)
    && CheckBody(m.ctxs[f], m.bodies[f], BeginFunction(m.ctxs[f])).Some?
    && EndFunction(CheckBody(m.ctxs[f], m.bodies[f], BeginFunction(m.ctxs[f])).value).Some?
    && m.p.funcs[f].code == LayFunction(m.ctxs[f], m.bodies[f])
    && m.p.funcs[f].sig.params <= m.p.funcs[f].locals
  }

  predicate FuncOk(m: Module, f: nat)
    requires f < |m.p.funcs| && f < |m.ctxs| && f < |m.bodies|
  {
    m.p.funcs[f].WasmFunc? ==> Compiled(m, f)
  }

  /** Its live branches to loops are taken at the height of the loop's entry. */
  predicate CleanFunc(m: Module, f: nat) {
    f < |m.p.funcs| && f < |m.ctxs| && f < |m.bodies| && m.p.funcs[f].WasmFunc? && Compiled(m, f) ==>
      CleanBody(m.ctxs[f], m.bodies[f], BeginFunction(m.ctxs[f]))
  }

  /** Functions reached by a call have no locals beyond their parameters. */
  predicate PlainCallee(p: Program, f: nat) {
    f < |p.funcs| && p.funcs[f].WasmFunc? ==> |p.funcs[f].locals| == |p.funcs[f].sig.params|
  }

  predicate PlainCallees(p: Program) {
    && (forall g, k :: 0 <= g < |p.funcs| && p.funcs[g].WasmFunc? && 0 <= k < |p.funcs[g].code| && p.funcs[g].code[k].CallRec? ==>
          PlainCallee(p, p.funcs[g].code[k].func))
    && (forall e :: 0 <= e < |p.table| ==> PlainCallee(p, p.table[e]))
  }

  ghost predicate ModuleOk(m: Module) {
    && |m.ctxs| == |m.p.funcs| == |m.bodies|
    && (forall f :: 0 <= f < |m.p.funcs| ==> FuncOk(m, f))
    && GoodHost(m.p)
  }

  /** The module's code holds neither a live branch that brings operands back to a loop nor a call
      of a function with locals of its own. */
  predicate Tidy(m: Module) {
    (forall f :: 0 <= f < |m.p.funcs| ==> CleanFunc(m, f)) && PlainCallees(m.p)
  }

  /* ---- straying ---- */

  /** A loop of function `f`, entered with `h` operands, has its first record at `pos`. */
  predicate LoopAt(m: Module, f: nat, pos: nat, h: nat) {
    f < |m.ctxs| && f < |m.bodies| && LoopIn(m.ctxs[f], m.bodies[f], pos, h)
  }

  /** Between `c` and `d` the topmost frame has gone back to the start of a loop that was entered
      with `h` operands, and has more than `h`. */
  predicate BackTo(m: Module, c: Config, d: Config, h: nat) {
    && |c.frames| == |d.frames| > 0
    && var fr := TopFrame(d);
      && fr.func == TopFrame(c).func < |m.p.funcs| && m.p.funcs[fr.func].WasmFunc?
      && fr.pos <= TopFrame(c).pos
      && LoopAt(m, fr.func, fr.pos, h)
      && fr.locals + |m.p.funcs[fr.func].locals| + h < |d.stack|
  }

  /** The function that the record about to run calls, if it calls one. */
  function Called(p: Program, c: Config): Option<nat>
    requires |c.frames| > 0
  {
    var fr := TopFrame(c);
    if fr.func >= |p.funcs| || !p.funcs[fr.func].WasmFunc? || fr.pos >= |p.funcs[fr.func].code| then None
    else
      match p.funcs[fr.func].code[fr.pos]
      case CallRec(f, _) => Some(f)
      case Op(CallIndirect(sig)) =>
        if |c.stack| == 0 then None
        else (match Lookup(p, AsU32(Last(c.stack, 1)[0]), sig) case Found(f) => Some(f) case _ => None)
      case _ => None
  }

  /** The next turn calls a function that has locals of its own. */
  predicate Overlaps(p: Program, c: Config)
    requires |c.frames| > 0
  {
    Called(p, c).Some? && !PlainCallee(p, Called(p, c).value)
  }

  /** The next turn takes a branch to a loop with more operands than the loop was entered with,
      or calls a function that has locals of its own. */
  ghost predicate Strays(m: Module, c: Config)
    requires |c.frames| > 0
  {
    || (Step(m.p, c).Running? && exists h: nat :: BackTo(m, c, Step(m.p, c).c, h))
    || Overlaps(m.p, c)
  }

  ghost predicate StraysAt(m: Module, start: Config, k: nat, i: nat) {
    var e := Run(m.p, start, k, i);
    e.Running? && |e.c.frames| > k && Strays(m, e.c)
  }

  ghost predicate StraysWithin(m: Module, start: Config, k: nat, n: nat) {
    exists i: nat :: i < n && StraysAt(m, start, k, i)
  }

  /** The `n` turns leave what the structured semantics describes: the machine gives up, or the run
      strays; a tidy module is not excused by straying. */
  ghost predicate Escapes(m: Module, start: Config, k: nat, n: nat) {
    Escaped(Run(m.p, start, k, n)) || (!Tidy(m) && StraysWithin(m, start, k, n))
  }

  lemma EscapesLater(m: Module, start: Config, k: nat, a: nat, mid: Config, n: nat)
    requires Run(m.p, start, k, a) == Running(mid) && Escapes(m, mid, k, n)
    ensures Escapes(m, start, k, a + n)
  {
    hide Run, Strays, Tidy;
    RunCompose(m.p, start, k, a, n);
    if !Escaped(Run(m.p, mid, k, n)) {
      var i: nat :| i < n && StraysAt(m, mid, k, i);
      RunCompose(m.p, start, k, a, i);
      assert StraysAt(m, start, k, a + i);
    }
  }

  lemma StraysNow(m: Module, start: Config, k: nat)
    requires |start.frames| > k && Strays(m, start) && !Tidy(m)
    ensures Escapes(m, start, k, 1)
  {
    hide Strays, Tidy;
    assert Run(m.p, start, k, 0) == Running(start);
    assert StraysAt(m, start, k, 0);
  }

  /* ---- loops known where code starts ---- */

  /** Every open loop label leads back to the start of a loop entered at the label's limit. */
  predicate LoopsBehind(m: Module, f: nat, c: Checker, env: seq<Target>, pc: nat) {
    |env| == |c.labels| &&
    forall j :: 0 <= j < |c.labels| && c.labels[j].kind.LoopLabel? ==> LoopBehind(m, f, env[j].offset, c.labels[j].limit, pc)
  }

  predicate LoopBehind(m: Module, f: nat, pos: nat, h: nat, pc: nat) {
    pos <= pc && LoopAt(m, f, pos, h)
  }

  /** A piece of the body of function `f`; in a tidy module it is clean. */
  ghost predicate PieceOf(m: Module, f: nat, ctx: Context, b: Body, c: Checker, pc: nat)
    requires CheckBody(ctx, b, c).Some?
  {
    f < |m.ctxs| && f < |m.bodies| && ctx == m.ctxs[f] && PartOf(Tidy(m), ctx, m.bodies[f], b, c, pc)
  }

  ghost predicate InsOf(m: Module, f: nat, ctx: Context, ins: Ins, c: Checker, pc: nat)
    requires CheckIns(ctx, ins, c).Some?
  {
    f < |m.ctxs| && f < |m.bodies| && ctx == m.ctxs[f] && InsPartOf(Tidy(m), ctx, m.bodies[f], ins, c, pc)
  }

  lemma {:induction false} PieceParts(m: Module, f: nat, ctx: Context, h: Ins, t: Body, c: Checker, pc: nat)
    requires CheckBody(ctx, Cons(h, t), c).Some? && PieceOf(m, f, ctx, Cons(h, t), c, pc)
    ensures InsOf(m, f, ctx, h, c, pc) && PieceOf(m, f, ctx, t, CheckIns(ctx, h, c).value, pc + SizeIns(h))
  {
    hide Tidy, PartOf, InsPartOf, Check;
    ConsParts(Tidy(m), ctx, m.bodies[f], h, t, c, pc);
  }

  lemma {:induction false} BlockPiece(m: Module, f: nat, ctx: Context, sig: seq<ValType>, b: Body, c: Checker, pc: nat)
    requires CheckIns(ctx, BlockIns(sig, b), c).Some? && InsOf(m, f, ctx, BlockIns(sig, b), c, pc)
    ensures PieceOf(m, f, ctx, b, PushLabel(c, BlockLabel, sig), pc)
  {
    hide Tidy, PartOf, InsPartOf, Check;
    BlockPart(Tidy(m), ctx, m.bodies[f], sig, b, c, pc);
  }

  lemma {:induction false} LoopPiece(m: Module, f: nat, ctx: Context, sig: seq<ValType>, b: Body, c: Checker, pc: nat)
    requires CheckIns(ctx, LoopIns(sig, b), c).Some? && InsOf(m, f, ctx, LoopIns(sig, b), c, pc)
    ensures PieceOf(m, f, ctx, b, PushLabel(c, LoopLabel, sig), pc) && LoopAt(m, f, pc, |c.types|)
  {
    hide Tidy, PartOf, InsPartOf, Check;
    LoopPart(Tidy(m), ctx, m.bodies[f], sig, b, c, pc);
  }

  lemma {:induction false} IfPiece(m: Module, f: nat, ctx: Context, sig: seq<ValType>, b: Body, c: Checker, pc: nat)
    requires CheckIns(ctx, IfIns(sig, b), c).Some? && InsOf(m, f, ctx, IfIns(sig, b), c, pc)
    ensures PieceOf(m, f, ctx, b, Check(ctx, c, If(sig)).value, pc + 1)
  {
    hide Tidy, PartOf, InsPartOf, Check;
    IfPart(Tidy(m), ctx, m.bodies[f], sig, b, c, pc);
  }

  lemma {:induction false} IfElsePieces(m: Module, f: nat, ctx: Context, sig: seq<ValType>, b1: Body, b2: Body, c: Checker, pc: nat)
    requires CheckIns(ctx, IfElseIns(sig, b1, b2), c).Some? && InsOf(m, f, ctx, IfElseIns(sig, b1, b2), c, pc)
    ensures
      var c1 := Check(ctx, c, If(sig)).value;
      PieceOf(m, f, ctx, b1, c1, pc + 1) &&
      PieceOf(m, f, ctx, b2, Then(ctx, CheckBody(ctx, b1, c1), Else).value, pc + 2 + Size(b1))
  {
    hide Tidy, PartOf, InsPartOf, Check;
    ArmParts(Tidy(m), ctx, m.bodies[f], sig, b1, b2, c, pc);
  }

  predicate StoreOk(m: Module, st: Shared) {
    |st.globals| == m.globals && MemoryOk(st.mem)
  }

  function Arity(l: Label): nat {
    if l.kind.LoopLabel? then 0 else |l.sig|
  }

  function AritiesOf(c: Checker): (r: seq<nat>)
    ensures |r| == |c.labels|
  {
    seq(|c.labels|, j requires 0 <= j < |c.labels| => Arity(c.labels[j]))
  }

  predicate Inside(m: Module, t: Site, s: Activation) {
    && t.f < |m.p.funcs| && m.p.funcs[t.f].WasmFunc?
    && |s.locals| == |m.p.funcs[t.f].locals|
    && StoreOk(m, s.store)
  }

  /** A branch to depth `d` arrives with its values on top, everything below its label's limit
      untouched, possibly with other cells in between; none of those when it is a loop. */
  predicate Lands(c: Checker, below: seq<Value>, ops: seq<Value>, d: nat, vals: seq<Value>)
    requires d < |c.labels|
  {
    var l := LabelAt(c, d);
    && |vals| == Arity(l)
    && l.limit <= |below|
    && l.limit + |vals| <= |ops|
    && ops[..l.limit] == below[..l.limit]
    && Last(ops, |vals|) == vals
    && (l.kind.LoopLabel? ==> |ops| == l.limit)
  }

  function OpsOf(t: Site, locals: nat, c: Config): seq<Value> {
    if |t.pre| + locals <= |c.stack| then c.stack[|t.pre| + locals..] else []
  }

  predicate Arrives(t: Site, e: State, c: Checker, env: seq<Target>, below: seq<Value>, d: nat, s: Activation)
    requires d < |c.labels|
  {
    && e.Running?
    && e.c == Cfg(t, TargetAt(env, d).offset, s.locals, OpsOf(t, |s.locals|, e.c), s.store)
    && Lands(c, below, OpsOf(t, |s.locals|, e.c), d, s.vs)
  }

  lemma ArrivesWith(t: Site, c: Checker, env: seq<Target>, below: seq<Value>, ops: seq<Value>, d: nat, s: Activation)
    requires d < |c.labels| && Lands(c, below, ops, d, s.vs)
    ensures Arrives(t, Running(Cfg(t, TargetAt(env, d).offset, s.locals, ops, s.store)), c, env, below, d, s)
  {
    var e := Cfg(t, TargetAt(env, d).offset, s.locals, ops, s.store);
    assert OpsOf(t, |s.locals|, e) == ops;
  }

  /** After `n` turns the machine is where the outcome `o` says. `c` is the checker's state
      where the code starts, `after` where it ends; `end` is the position after it. */
  ghost predicate Simulates(m: Module, k: nat, t: Site, c: Checker, after: Checker, env: seq<Target>, below: seq<Value>,
      end: nat, start: Config, o: Outcome, fuel: nat, n: nat) {
    var e := Run(m.p, start, k, n);
    Escapes(m, start, k, n) ||
    match o
    case Normal(s) =>
      && AllLive(after) && Inside(m, t, s) && |below| + |s.vs| == |after.types|
      && e == Running(Cfg(t, end, s.locals, below + s.vs, s.store))
    case Branch(d, s) => n > 0 && d < |c.labels| && Inside(m, t, s) && Arrives(t, e, c, env, below, d, s)
    case Returned(s) => n > 0 && Leaves(m, t, s, e)
    case Failed(trap, st) => e.Trapped? && e.trap == trap && e.c.store == st
    case OutOfFuel => n > fuel && e.Running? && |e.c.frames| > k
    case Wrong => false
  }

  /** The frame is gone and its results have replaced its locals. */
  predicate Leaves(m: Module, t: Site, s: Activation, e: State) {
    && t.f < |m.p.funcs| && |s.vs| == |m.p.funcs[t.f].sig.results|
    && StoreOk(m, s.store)
    && e == Running(Config(t.pre + s.vs, t.frames, s.store))
  }

  /** The same for a whole function. */
  ghost predicate FuncSimulates(m: Module, k: nat, t: Site, start: Config, o: Outcome, fuel: nat, n: nat) {
    var e := Run(m.p, start, k, n);
    Escapes(m, start, k, n) ||
    match o
    case Returned(s) => n > 0 && Leaves(m, t, s, e)
    case Failed(trap, st) => e.Trapped? && e.trap == trap && e.c.store == st
    case OutOfFuel => n > fuel && e.Running? && |e.c.frames| > k
    case _ => false
  }

  /** Everything the induction assumes about the point where a piece of code starts. */
  ghost predicate Ready(m: Module, k: nat, t: Site, c: Checker, env: seq<Target>, below: seq<Value>, s: Activation, pc: nat) {
    && ModuleOk(m)
    && k <= |t.frames|
    && Inside(m, t, s)
    && Valid(c) && AllLive(c)
    && |env| == |c.labels| && LoopsBehind(m, t.f, c, env, pc)
    && |below| == Top(c).limit
    && |below| + |s.vs| == |c.types|
  }

  predicate CodeAt(m: Module, f: nat, pc: nat, lay: seq<Rec>) {
    && f < |m.p.funcs| && m.p.funcs[f].WasmFunc?
    && pc + |lay| <= |m.p.funcs[f].code|
    && m.p.funcs[f].code[pc..pc + |lay|] == lay
  }

  lemma CodeSplit(m: Module, f: nat, pc: nat, xs: seq<Rec>, ys: seq<Rec>)
    requires CodeAt(m, f, pc, xs + ys)
    ensures CodeAt(m, f, pc, xs) && CodeAt(m, f, pc + |xs|, ys)
  {
    var code := m.p.funcs[f].code[pc..pc + |xs + ys|];
    assert code[..|xs|] == xs && code[|xs|..] == ys;
  }

  lemma CodeHead(m: Module, f: nat, pc: nat, rec: Rec)
    requires CodeAt(m, f, pc, [rec])
    ensures pc < |m.p.funcs[f].code| && m.p.funcs[f].code[pc] == rec
  {
    assert m.p.funcs[f].code[pc..pc + 1][0] == rec;
  }

  /* ---- gluing runs together ---- */

  lemma Prefixed(m: Module, k: nat, t: Site, c: Checker, after: Checker, env: seq<Target>, below: seq<Value>,
      end: nat, start: Config, mid: Config, o: Outcome, fuel: nat, rest: nat, a: nat, n: nat)
    requires Run(m.p, start, k, a) == Running(mid) && fuel <= rest + a
    requires Simulates(m, k, t, c, after, env, below, end, mid, o, rest, n)
    ensures Simulates(m, k, t, c, after, env, below, end, start, o, fuel, a + n)
  {
    hide Inside, Arrives, Leaves, AllLive, Cfg, Escapes;
    RunCompose(m.p, start, k, a, n);
    if Escapes(m, mid, k, n) { EscapesLater(m, start, k, a, mid, n); }
  }

  /** The first instruction behaves the same seen from before or after others in its block. */
  lemma SameLabels(c: Checker, d: Checker)
    requires SameLabel(c, d)
    ensures AritiesOf(d) == AritiesOf(c)
    ensures forall k :: 0 <= k < |c.labels| ==>
      (LabelAt(d, k).kind == LabelAt(c, k).kind && LabelAt(d, k).sig == LabelAt(c, k).sig && LabelAt(d, k).limit == LabelAt(c, k).limit)
  {
    forall j | 0 <= j < |c.labels|
      ensures d.labels[j].kind == c.labels[j].kind && d.labels[j].sig == c.labels[j].sig && d.labels[j].limit == c.labels[j].limit
    {
      if j < |c.labels| - 1 {
        assert d.labels[..|c.labels| - 1][j] == c.labels[..|c.labels| - 1][j];
      }
    }
  }

  lemma Retarget(m: Module, k: nat, t: Site, c: Checker, c1: Checker, after: Checker, env: seq<Target>, below: seq<Value>,
      end: nat, start: Config, o: Outcome, fuel: nat, n: nat)
    requires SameLabel(c, c1)
    requires Simulates(m, k, t, c1, after, env, below, end, start, o, fuel, n)
    ensures Simulates(m, k, t, c, after, env, below, end, start, o, fuel, n)
  {
    hide Inside, Leaves, AllLive, Cfg, Run, Lands, SameLabel, OpsOf, Escapes;
    if o.Branch? && o.depth < |c1.labels| {
      var e := Run(m.p, start, k, n);
      SameSize(c, c1);
      if e.Running? { RetargetLands(c, c1, below, OpsOf(t, |o.s.locals|, e.c), o.depth, o.s.vs); }
    }
  }

  lemma SameSize(c: Checker, c1: Checker)
    requires SameLabel(c, c1)
    ensures |c.labels| == |c1.labels|
  {
  }

  lemma RetargetLands(c: Checker, c1: Checker, below: seq<Value>, ops: seq<Value>, d: nat, vals: seq<Value>)
    requires SameLabel(c, c1) && d < |c1.labels|
    ensures |c.labels| == |c1.labels|
    ensures Lands(c1, below, ops, d, vals) == Lands(c, below, ops, d, vals)
  {
    SameLabels(c, c1);
  }

  /** An outcome other than `Normal` is the outcome of the whole sequence. */
  lemma CutShort(m: Module, k: nat, t: Site, c: Checker, c1: Checker, after: Checker, env: seq<Target>, below: seq<Value>,
      mid: nat, end: nat, start: Config, o: Outcome, fuel: nat, n: nat)
    requires !o.Normal? || Escapes(m, start, k, n)
    requires Simulates(m, k, t, c, c1, env, below, mid, start, o, fuel, n)
    ensures Simulates(m, k, t, c, after, env, below, end, start, o, fuel, n)
  {
  }

  /* ---- single records ---- */

  lemma StepAt(m: Module, k: nat, t: Site, pc: nat, rec: Rec, locals: seq<Value>, ops: seq<Value>, store: Shared)
    requires t.f < |m.p.funcs| && m.p.funcs[t.f].WasmFunc? && k <= |t.frames|
    requires pc < |m.p.funcs[t.f].code| && m.p.funcs[t.f].code[pc] == rec
    ensures
      var c := Cfg(t, pc, locals, ops, store);
      |c.frames| > 0 && Run(m.p, c, k, 1) == StepRec(m.p, c, m.p.funcs[t.f], rec)
  {
    hide StepRec;
    var c := Cfg(t, pc, locals, ops, store);
    Shape(t, pc, locals, ops, store);
    RunOne(m.p, c, k);
  }

  lemma CutStack(low: seq<Value>, ops: seq<Value>, h: nat, r: nat)
    requires h <= |ops| && r <= |ops|
    ensures (low + ops)[..|low| + h] == low + ops[..h]
    ensures Last(low + ops, r) == Last(ops, r)
  {
  }

  /** `end`: the results come down to the bracket's own height. */
  lemma EndStep(m: Module, k: nat, t: Site, pc: nat, h: nat, r: nat, locals: seq<Value>, ops: seq<Value>, store: Shared)
    requires t.f < |m.p.funcs| && m.p.funcs[t.f].WasmFunc? && k <= |t.frames|
    requires pc < |m.p.funcs[t.f].code| && m.p.funcs[t.f].code[pc] == EndRec(h, r)
    requires |locals| == |m.p.funcs[t.f].locals| && h + r <= |ops|
    ensures Run(m.p, Cfg(t, pc, locals, ops, store), k, 1) == Running(Cfg(t, pc + 1, locals, ops[..h] + Last(ops, r), store))
  {
    StepAt(m, k, t, pc, EndRec(h, r), locals, ops, store);
    Shape(t, pc, locals, ops, store);
    var c := Cfg(t, pc, locals, ops, store);
    hide Run;
    CutStack(t.pre + locals, ops, h, r);
    Regroup(t.pre + locals, ops[..h], Last(ops, r));
    Shape(t, pc, locals, ops[..h] + Last(ops, r), store);
    assert c.(stack := t.pre + locals + (ops[..h] + Last(ops, r))) == Cfg(t, pc, locals, ops[..h] + Last(ops, r), store);
  }

  lemma GotoStep(m: Module, k: nat, t: Site, pc: nat, rec: Rec, locals: seq<Value>, ops: seq<Value>, store: Shared)
    requires t.f < |m.p.funcs| && m.p.funcs[t.f].WasmFunc? && k <= |t.frames|
    requires pc < |m.p.funcs[t.f].code| && m.p.funcs[t.f].code[pc] == rec && rec.Jump? && (rec.op.OpBr? || rec.op.OpElse?)
    ensures Run(m.p, Cfg(t, pc, locals, ops, store), k, 1) == Running(Cfg(t, rec.v2, locals, ops, store))
  {
    hide Cfg;
    StepAt(m, k, t, pc, rec, locals, ops, store);
    Reposition(t, pc, rec.v2, locals, ops, store);
  }

  /** `if` and `br_if`: the condition goes; `if` jumps when it is zero, `br_if` when it is not. */
  lemma TestStep(m: Module, k: nat, t: Site, pc: nat, rec: Rec, locals: seq<Value>, below: seq<Value>, vs: seq<Value>, store: Shared)
    requires t.f < |m.p.funcs| && m.p.funcs[t.f].WasmFunc? && k <= |t.frames|
    requires pc < |m.p.funcs[t.f].code| && m.p.funcs[t.f].code[pc] == rec && rec.Jump? && (rec.op.OpIf? || rec.op.OpBrIf?)
    requires |vs| >= 1
    ensures
      var taken := (AsU32(vs[|vs| - 1]) != 0) == rec.op.OpBrIf?;
      Run(m.p, Cfg(t, pc, locals, below + vs, store), k, 1) ==
        Running(Cfg(t, if taken then rec.v2 else pc + 1, locals, below + Front(vs, 1), store))
  {
    hide Cfg, Front, Next, SetPos;
    StepAt(m, k, t, pc, rec, locals, below + vs, store);
    PopSim(t, pc, locals, below, vs, store, 1);
    assert Last(vs, 1)[0] == vs[|vs| - 1];
    Shape(t, pc, locals, below + vs, store);
    Shape(t, pc, locals, below + Front(vs, 1), store);
    Reposition(t, pc, rec.v2, locals, below + Front(vs, 1), store);
  }

  /** `br_table`: the selector goes and picks a target. */
  lemma TableStep(m: Module, k: nat, t: Site, pc: nat, size: nat, v2: nat, entry: Rec, locals: seq<Value>, below: seq<Value>, vs: seq<Value>, store: Shared)
    requires t.f < |m.p.funcs| && m.p.funcs[t.f].WasmFunc? && k <= |t.frames| && |vs| >= 1
    requires pc < |m.p.funcs[t.f].code| && m.p.funcs[t.f].code[pc] == Jump(OpBrTable, size, v2)
    requires
      var key := AsU32(vs[|vs| - 1]);
      var j := pc + (if key >= size then size else key) + 1;
      j < |m.p.funcs[t.f].code| && m.p.funcs[t.f].code[j] == entry && entry.Jump?
    ensures Run(m.p, Cfg(t, pc, locals, below + vs, store), k, 1) == Running(Cfg(t, entry.v2, locals, below + Front(vs, 1), store))
  {
    hide Cfg, Front, Next, SetPos;
    StepAt(m, k, t, pc, Jump(OpBrTable, size, v2), locals, below + vs, store);
    PopSim(t, pc, locals, below, vs, store, 1);
    assert Last(vs, 1)[0] == vs[|vs| - 1];
    Shape(t, pc, locals, below + vs, store);
    Reposition(t, pc, entry.v2, locals, below + Front(vs, 1), store);
  }

  /** Leaving the function from anywhere: its results move down over its locals. */
  lemma PopStep(t: Site, pc: nat, locals: seq<Value>, ops: seq<Value>, store: Shared, r: nat)
    requires r <= |ops|
    ensures
      var c := Cfg(t, pc, locals, ops, store);
      |c.frames| > 0 && PopCall(c, r) == Running(Config(t.pre + Last(ops, r), t.frames, store))
  {
    var c := Cfg(t, pc, locals, ops, store);
    Shape(t, pc, locals, ops, store);
    assert c.stack[..|t.pre|] == t.pre;
    assert Last(c.stack, r) == Last(ops, r);
    assert Front(c.frames, 1) == t.frames;
  }

  /* ---- instructions that are not brackets ---- */

  lemma BranchLands(c: Checker, below: seq<Value>, vs: seq<Value>, d: nat)
    requires Valid(c) && |below| == Top(c).limit && d < |c.labels|
    requires Arity(LabelAt(c, d)) <= |vs| && CleanBranch(c, |below| + |vs|, d)
    ensures Lands(c, below, below + vs, d, Last(vs, Arity(LabelAt(c, d))))
  {
    var l := LabelAt(c, d);
    assert l.limit <= |below|;
    assert (below + vs)[..l.limit] == below[..l.limit];
  }

  /** A taken branch, once the machine has jumped. */
  lemma BranchSim(m: Module, k: nat, t: Site, c: Checker, after: Checker, env: seq<Target>, below: seq<Value>, end: nat,
      pc: nat, start: Config, s: Activation, d: nat, fuel: nat)
    requires k <= |t.frames| && Valid(c) && |below| == Top(c).limit && Inside(m, t, s) && LoopsBehind(m, t.f, c, env, pc)
    requires d < |c.labels| && Arity(LabelAt(c, d)) <= |s.vs| && (Tidy(m) ==> CleanBranch(c, |below| + |s.vs|, d))
    requires |start.frames| == |t.frames| + 1 && TopFrame(start) == Frame(t.f, |t.pre|, pc)
    requires Run(m.p, start, k, 1) == Running(Cfg(t, TargetAt(env, d).offset, s.locals, below + s.vs, s.store))
    ensures Simulates(m, k, t, c, after, env, below, end, start, BranchTo(AritiesOf(c), d, s), fuel, 1)
  {
    hide Cfg, Run, Lands, Tidy, LoopsBehind;
    if CleanBranch(c, |below| + |s.vs|, d) {
      BranchLands(c, below, s.vs, d);
      var r := s.(vs := Last(s.vs, Arity(LabelAt(c, d))));
      ArrivesWith(t, c, env, below, below + s.vs, d, r);
      assert BranchTo(AritiesOf(c), d, s) == Branch(d, r);
      hide Escapes;
    } else {
      BranchStrays(m, k, t, c, env, below, pc, start, s, d);
      EscapedSimulates(m, k, t, c, after, env, below, end, start, BranchTo(AritiesOf(c), d, s), fuel, 1);
    }
  }

  /** A branch to a loop that is not clean strays. */
  lemma BranchStrays(m: Module, k: nat, t: Site, c: Checker, env: seq<Target>, below: seq<Value>, pc: nat, start: Config,
      s: Activation, d: nat)
    requires k <= |t.frames| && Valid(c) && |below| == Top(c).limit && Inside(m, t, s) && LoopsBehind(m, t.f, c, env, pc)
    requires d < |c.labels| && !CleanBranch(c, |below| + |s.vs|, d) && !Tidy(m)
    requires |start.frames| == |t.frames| + 1 && TopFrame(start) == Frame(t.f, |t.pre|, pc)
    requires Run(m.p, start, k, 1) == Running(Cfg(t, TargetAt(env, d).offset, s.locals, below + s.vs, s.store))
    ensures Escapes(m, start, k, 1)
  {
    hide Cfg, Run, LoopAt, Escapes, Tidy, Step;
    var j := |c.labels| - 1 - d;
    var q, h := env[j].offset, c.labels[j].limit;
    assert LoopBehind(m, t.f, q, h, pc);
    assert h <= |below|;
    RunOne(m.p, start, k);
    Shape(t, q, s.locals, below + s.vs, s.store);
    assert BackTo(m, start, Step(m.p, start).c, h);
    StraysNow(m, start, k);
  }

  lemma BrSim(m: Module, k: nat, t: Site, ctx: Context, d: nat, c: Checker, pc: nat, env: seq<Target>, below: seq<Value>,
      s: Activation, fuel: nat, after: Checker, end: nat)
    requires Ready(m, k, t, c, env, below, s, pc)
    requires Check(ctx, c, Br(d)).Some? && (Tidy(m) ==> CleanPlain(c, Br(d))) && CodeAt(m, t.f, pc, LayPlain(ctx, Br(d), env))
    ensures Simulates(m, k, t, c, after, env, below, end, Cfg(t, pc, s.locals, below + s.vs, s.store),
      BranchTo(AritiesOf(c), d, s), fuel, 1)
  {
    hide Cfg, Run, Simulates, Tidy, LoopBehind;
    CodeHead(m, t.f, pc, JumpTo(OpBr, env, d));
    Shape(t, pc, s.locals, below + s.vs, s.store);
    GotoStep(m, k, t, pc, JumpTo(OpBr, env, d), s.locals, below + s.vs, s.store);
    if !LabelAt(c, d).kind.LoopLabel? { LiveSignature(c, LabelAt(c, d).sig); }
    BranchSim(m, k, t, c, after, env, below, end, pc, Cfg(t, pc, s.locals, below + s.vs, s.store), s, d, fuel);
  }

  lemma BrIfSim(m: Module, k: nat, t: Site, ctx: Context, d: nat, c: Checker, pc: nat, env: seq<Target>, below: seq<Value>,
      s: Activation, results: nat, fuel: nat)
    requires Ready(m, k, t, c, env, below, s, pc)
    requires Check(ctx, c, BrIf(d)).Some? && (Tidy(m) ==> CleanPlain(c, BrIf(d))) && CodeAt(m, t.f, pc, LayPlain(ctx, BrIf(d), env))
    ensures Simulates(m, k, t, c, Check(ctx, c, BrIf(d)).value, env, below, pc + 1,
      Cfg(t, pc, s.locals, below + s.vs, s.store), ExecPlain(m.p, m.bodies, AritiesOf(c), results, BrIf(d), s, fuel), fuel, 1)
  {
    hide Cfg, Run, Tidy, LoopBehind, Escapes;
    CodeHead(m, t.f, pc, JumpTo(OpBrIf, env, d));
    Shape(t, pc, s.locals, below + s.vs, s.store);
    LiveBrIf(c, d);
    LiveStays(ctx, c, BrIf(d));
    TestStep(m, k, t, pc, JumpTo(OpBrIf, env, d), s.locals, below, s.vs, s.store);
    var r := s.(vs := Front(s.vs, 1));
    if AsU32(s.vs[|s.vs| - 1]) != 0 {
      BranchSim(m, k, t, c, Check(ctx, c, BrIf(d)).value, env, below, pc + 1, pc,
        Cfg(t, pc, s.locals, below + s.vs, s.store), r, d, fuel);
    }
  }

  lemma BrTableSim(m: Module, k: nat, t: Site, ctx: Context, ds: seq<nat>, d: nat, c: Checker, pc: nat, env: seq<Target>,
      below: seq<Value>, s: Activation, results: nat, fuel: nat, after: Checker, end: nat)
    requires Ready(m, k, t, c, env, below, s, pc)
    requires Check(ctx, c, BrTable(ds, d)).Some? && (Tidy(m) ==> CleanPlain(c, BrTable(ds, d)))
    requires CodeAt(m, t.f, pc, LayPlain(ctx, BrTable(ds, d), env))
    ensures Simulates(m, k, t, c, after, env, below, end, Cfg(t, pc, s.locals, below + s.vs, s.store),
      ExecPlain(m.p, m.bodies, AritiesOf(c), results, BrTable(ds, d), s, fuel), fuel, 1)
  {
    hide Cfg, Run, Simulates, ModuleOk, AnyOnlyAtDeadLimit, LimitsOrdered, CodeAt, StoreOk, Tidy, LoopBehind;
    LivePop(c, [I32]);
    Shape(t, pc, s.locals, below + s.vs, s.store);
    var key := AsU32(s.vs[|s.vs| - 1]);
    var pick := Chosen(ds, d, key);
    LiveBrTable(c, ds, d, key);
    TableCode(m, t.f, ctx, ds, d, pc, env, key);
    TableStep(m, k, t, pc, |ds|, 0, JumpTo(OpBrTable, env, pick), s.locals, below, s.vs, s.store);
    var r := s.(vs := Front(s.vs, 1));
    BranchSim(m, k, t, c, after, env, below, end, pc, Cfg(t, pc, s.locals, below + s.vs, s.store), r, pick, fuel);
  }

  /** The records of a `br_table` and the one a selector picks. */
  lemma TableCode(m: Module, f: nat, ctx: Context, ds: seq<nat>, d: nat, pc: nat, env: seq<Target>, key: nat)
    requires CodeAt(m, f, pc, LayPlain(ctx, BrTable(ds, d), env))
    ensures
      var j := pc + (if key >= |ds| then |ds| else key) + 1;
      j < |m.p.funcs[f].code| && m.p.funcs[f].code[j] == JumpTo(OpBrTable, env, Chosen(ds, d, key)) &&
      m.p.funcs[f].code[pc] == Jump(OpBrTable, |ds|, 0)
  {
    var lay := LayPlain(ctx, BrTable(ds, d), env);
    var code, j := m.p.funcs[f].code, (if key >= |ds| then |ds| else key) + 1;
    assert code[pc..pc + |lay|][j] == lay[j] == JumpTo(OpBrTable, env, Chosen(ds, d, key));
    assert code[pc..pc + |lay|][0] == lay[0];
  }

  lemma ReturnSim(m: Module, k: nat, t: Site, ctx: Context, c: Checker, pc: nat, env: seq<Target>, below: seq<Value>,
      s: Activation, fuel: nat, after: Checker, end: nat)
    requires Ready(m, k, t, c, env, below, s, pc) && ctx.results == m.p.funcs[t.f].sig.results && c.labels[0].sig == ctx.results
    requires Check(ctx, c, Return).Some? && CodeAt(m, t.f, pc, LayPlain(ctx, Return, env))
    ensures Simulates(m, k, t, c, after, env, below, end, Cfg(t, pc, s.locals, below + s.vs, s.store),
      ExecPlain(m.p, m.bodies, AritiesOf(c), |ctx.results|, Return, s, fuel), fuel, 1)
  {
    hide Cfg, Run, PopCall;
    var r := |ctx.results|;
    CodeHead(m, t.f, pc, ReturnRec(r));
    LivePop(c, c.labels[0].sig);
    StepAt(m, k, t, pc, ReturnRec(r), s.locals, below + s.vs, s.store);
    PopStep(t, pc, s.locals, below + s.vs, s.store, r);
    assert Last(below + s.vs, r) == Last(s.vs, r);
  }

  lemma NopSim(m: Module, k: nat, t: Site, ctx: Context, c: Checker, pc: nat, env: seq<Target>, below: seq<Value>,
      s: Activation, fuel: nat)
    requires Ready(m, k, t, c, env, below, s, pc) && Check(ctx, c, Nop).Some?
    ensures Simulates(m, k, t, c, Check(ctx, c, Nop).value, env, below, pc,
      Cfg(t, pc, s.locals, below + s.vs, s.store), Normal(s), fuel, 0)
  {
    LiveStays(ctx, c, Nop);
    LiveArrow(ctx, c, Nop);
  }

  /** What an opcode does to heights, locals and store. */
  lemma OpOutcome(m: Module, t: Site, ctx: Context, c: Checker, i: Instr, below: seq<Value>, s: Activation)
    requires Inside(m, t, s) && Valid(c) && AllLive(c) && |below| == Top(c).limit && |below| + |s.vs| == |c.types|
    requires |ctx.globals| == m.globals && ctx.locals == m.p.funcs[t.f].locals
    requires IsPlain(i) && !i.Nop? && !i.Br? && !i.BrIf? && !i.BrTable? && !i.Return? && !i.Call? && !i.CallIndirect?
    requires Check(ctx, c, i).Some?
    ensures i.GetLocal? || i.SetLocal? || i.TeeLocal? ==> i.local < |s.locals|
    ensures
      var o := ExecOp(m.p, i, s);
      o.Failed? ||
      (o.Normal? && AllLive(Check(ctx, c, i).value) && Inside(m, t, o.s) &&
        |below| + |o.s.vs| == |Check(ctx, c, i).value.types|)
  {
    if i.Unreachable? {
    } else if HasArrow(i) {
      ArrowOutcome(m, t, ctx, c, i, below, s);
    } else if i.Drop? {
      LiveStays(ctx, c, i);
    } else {
      LiveStays(ctx, c, i);
      LiveSelect(c);
    }
  }

  lemma LiveSelect(c: Checker)
    requires Valid(c) && AllLive(c) && OnSelect(c).Some?
    ensures Top(c).limit + 3 <= |c.types| && |OnSelect(c).value.types| == |c.types| - 2
  {
  }

  /** What an opcode with a fixed type does: fail, or trade its parameters for its results. */
  ghost predicate Effect(p: Program, ctx: Context, i: Instr, s: Activation)
    requires Arrow(ctx, i).Some?
  {
    var o, a := ExecOp(p, i, s), Arrow(ctx, i).value;
    && (i.GetLocal? || i.SetLocal? || i.TeeLocal? ==> i.local < |s.locals|)
    && (o.Failed? ||
        (o.Normal? && |o.s.locals| == |s.locals| && |o.s.store.globals| == |s.store.globals| &&
         MemoryOk(o.s.store.mem) && |o.s.vs| == |s.vs| - |a.params| + |a.results|))
  }

  predicate EffectReady(ctx: Context, i: Instr, s: Activation) {
    && Arrow(ctx, i).Some? && |Arrow(ctx, i).value.params| <= |s.vs| && MemoryOk(s.store.mem)
    && |s.locals| == |ctx.locals| && |s.store.globals| == |ctx.globals|
  }

  lemma VariableEffect(p: Program, ctx: Context, i: Instr, s: Activation)
    requires EffectReady(ctx, i, s) && (i.GetLocal? || i.SetLocal? || i.TeeLocal? || i.GetGlobal? || i.SetGlobal?)
    ensures Effect(p, ctx, i, s)
  {
    hide MemoryOk;
  }

  lemma AccessEffect(p: Program, ctx: Context, i: Instr, s: Activation)
    requires EffectReady(ctx, i, s) && (i.Load? || i.Store?)
    ensures Effect(p, ctx, i, s)
  {
    hide MemoryOk, LoadFrom, StoreTo, AlignOk;
    if i.Store? {
      StoreKeepsMemoryOk(s.store.mem, AsU32(s.vs[|s.vs| - 2]), i.offset, i.access, s.vs[|s.vs| - 1]);
    }
  }

  lemma GrowEffect(p: Program, ctx: Context, s: Activation)
    requires EffectReady(ctx, GrowMemory, s)
    ensures Effect(p, ctx, GrowMemory, s)
  {
    hide MemoryOk, ExecGrow;
    GrowOutcomeOk(s.(vs := Front(s.vs, 1)), AsU32(s.vs[|s.vs| - 1]));
  }

  lemma OtherEffect(p: Program, ctx: Context, i: Instr, s: Activation)
    requires EffectReady(ctx, i, s) && (i.CurrentMemory? || i.Const? || i.Numeric?)
    ensures Effect(p, ctx, i, s)
  {
    hide MemoryOk;
  }

  lemma OpEffect(p: Program, ctx: Context, i: Instr, s: Activation)
    requires HasArrow(i) && !i.Nop? && !i.Call? && !i.CallIndirect? && EffectReady(ctx, i, s)
    ensures Effect(p, ctx, i, s)
  {
    hide EffectReady, Effect;
    match i
    case Load(_, _, _) => AccessEffect(p, ctx, i, s);
    case Store(_, _, _) => AccessEffect(p, ctx, i, s);
    case GrowMemory => GrowEffect(p, ctx, s);
    case CurrentMemory => OtherEffect(p, ctx, i, s);
    case Const(_) => OtherEffect(p, ctx, i, s);
    case Numeric(_) => OtherEffect(p, ctx, i, s);
    case _ => VariableEffect(p, ctx, i, s);
  }

  lemma ArrowOutcome(m: Module, t: Site, ctx: Context, c: Checker, i: Instr, below: seq<Value>, s: Activation)
    requires Inside(m, t, s) && Valid(c) && AllLive(c) && |below| == Top(c).limit && |below| + |s.vs| == |c.types|
    requires |ctx.globals| == m.globals && ctx.locals == m.p.funcs[t.f].locals
    requires HasArrow(i) && !i.Nop? && !i.Call? && !i.CallIndirect? && Check(ctx, c, i).Some?
    ensures i.GetLocal? || i.SetLocal? || i.TeeLocal? ==> i.local < |s.locals|
    ensures
      var o := ExecOp(m.p, i, s);
      o.Failed? ||
      (o.Normal? && AllLive(Check(ctx, c, i).value) && Inside(m, t, o.s) &&
        |below| + |o.s.vs| == |Check(ctx, c, i).value.types|)
  {
    LiveStays(ctx, c, i);
    LiveArrow(ctx, c, i);
    OpEffect(m.p, ctx, i, s);
    hide Check, Valid, AllLive, MemoryOk, ExecOp, Arrow;
  }

  lemma GrowOutcomeOk(s: Activation, delta: nat)
    requires MemoryOk(s.store.mem)
    ensures
      var o := ExecGrow(s, delta);
      && o.Normal? && o.s.locals == s.locals && |o.s.vs| == |s.vs| + 1
      && o.s.store.globals == s.store.globals && MemoryOk(o.s.store.mem)
  {
  }

  lemma StoreKeepsMemoryOk(mem: Memory, base: nat, offset: nat, access: Access, v: Value)
    requires MemoryOk(mem)
    ensures StoreTo(mem, base, offset, access, v).Some? ==> MemoryOk(StoreTo(mem, base, offset, access, v).value)
  {
  }

  lemma OpcodeSim(m: Module, k: nat, t: Site, ctx: Context, i: Instr, c: Checker, pc: nat, env: seq<Target>, below: seq<Value>,
      s: Activation, fuel: nat)
    requires Ready(m, k, t, c, env, below, s, pc)
    requires |ctx.globals| == m.globals && ctx.locals == m.p.funcs[t.f].locals
    requires IsPlain(i) && !i.Nop? && !i.Br? && !i.BrIf? && !i.BrTable? && !i.Return? && !i.Call? && !i.CallIndirect?
    requires Check(ctx, c, i).Some? && CodeAt(m, t.f, pc, LayPlain(ctx, i, env))
    ensures Simulates(m, k, t, c, Check(ctx, c, i).value, env, below, pc + 1,
      Cfg(t, pc, s.locals, below + s.vs, s.store), ExecOp(m.p, i, s), fuel, 1)
  {
    CodeHead(m, t.f, pc, Op(i));
    OpOutcome(m, t, ctx, c, i, below, s);
    OpSim(m.p, t, pc, below, s, i);
    StepAt(m, k, t, pc, Op(i), s.locals, below + s.vs, s.store);
    hide Check, Cfg, Run, StepOp, ExecOp, AllLive, Inside, Valid, CodeAt;
  }

  /* ---- calls ---- */

  lemma HostSim(m: Module, k: nat, t: Site, f: nat, c: Checker, after: Checker, pc: nat, env: seq<Target>, below: seq<Value>,
      s: Activation, fuel: nat)
    requires GoodHost(m.p) && Inside(m, t, s) && f < |m.p.funcs| && m.p.funcs[f].HostFunc?
    requires |s.vs| >= |m.p.funcs[f].sig.params| && AllLive(after)
    requires |below| + |s.vs| - |m.p.funcs[f].sig.params| + |m.p.funcs[f].sig.results| == |after.types|
    ensures
      var start := Cfg(t, pc, s.locals, below + s.vs, s.store);
      var e, o := Invoke(m.p, start, f), ExecCall(m.p, m.bodies, f, s, fuel);
      |start.frames| > 0 &&
      (Escaped(e) ||
       (o.Failed? && e.Trapped? && e.trap == o.trap && e.c.store == o.store) ||
       (o.Normal? && Inside(m, t, o.s) && |below| + |o.s.vs| == |after.types| &&
        e == Running(Cfg(t, pc + 1, o.s.locals, below + o.s.vs, o.s.store))))
  {
    hide Cfg, Front, Next, SetPos, MemoryOk;
    var n := |m.p.funcs[f].sig.params|;
    Shape(t, pc, s.locals, below + s.vs, s.store);
    PopSim(t, pc, s.locals, below, s.vs, s.store, n);
    assert HostAnswerOk(m.p, f, Last(s.vs, n), s.store);
    var r := m.p.host(m.p.funcs[f].id, Last(s.vs, n), s.store);
    if r.HostOk? {
      HostShape(t, pc, s.locals, below, s.vs, s.store, n, r.results, r.store);
    }
  }

  lemma HostShape(t: Site, pc: nat, locals: seq<Value>, below: seq<Value>, vs: seq<Value>, store: Shared, n: nat,
      rs: seq<Value>, st: Shared)
    requires n <= |vs|
    ensures
      var c := Cfg(t, pc, locals, below + vs, store);
      && |c.stack| >= n && |c.frames| > 0
      && Next(c.(stack := Front(c.stack, n) + rs, store := st)) == Cfg(t, pc + 1, locals, below + (Front(vs, n) + rs), st)
      && |Front(vs, n) + rs| == |vs| - n + |rs|
  {
    Replace(t, locals, below, vs, n, rs);
    var c := Cfg(t, pc, locals, below + vs, store);
    assert c.(stack := Front(c.stack, n) + rs, store := st) == Cfg(t, pc, locals, below + (Front(vs, n) + rs), st);
    Shape(t, pc, locals, below + (Front(vs, n) + rs), st);
  }

  /** Where a callee starts: its arguments are the top cells of the caller, everything else of
      the caller lies below. */
  function CalleeSite(t: Site, f: nat, pc: nat, locals: seq<Value>, below: seq<Value>, rest: seq<Value>): Site {
    Site(f, t.pre + locals + (below + rest), t.frames + [Frame(t.f, |t.pre|, pc + 1)])
  }

  lemma EnterCallee(p: Program, t: Site, f: nat, pc: nat, s: Activation, below: seq<Value>)
    requires f < |p.funcs| && p.funcs[f].WasmFunc? && PlainCallee(p, f)
    requires |s.vs| >= |p.funcs[f].sig.params|
    ensures
      var start, n := Cfg(t, pc, s.locals, below + s.vs, s.store), |p.funcs[f].sig.params|;
      |start.frames| > 0 &&
      (Escaped(Invoke(p, start, f)) ||
       Invoke(p, start, f) ==
         Running(Cfg(CalleeSite(t, f, pc, s.locals, below, Front(s.vs, n)), 0, Last(s.vs, n), [], s.store)))
  {
    var start, n := Cfg(t, pc, s.locals, below + s.vs, s.store), |p.funcs[f].sig.params|;
    Shape(t, pc, s.locals, below + s.vs, s.store);
    Replace(t, s.locals, below, s.vs, n, []);
    var t2 := CalleeSite(t, f, pc, s.locals, below, Front(s.vs, n));
    assert t2.pre + Last(s.vs, n) + [] == start.stack by {
      assert s.vs == Front(s.vs, n) + Last(s.vs, n);
    }
  }

  lemma ReturnToCaller(t: Site, f: nat, pc: nat, locals: seq<Value>, below: seq<Value>, rest: seq<Value>, rs: seq<Value>, st: Shared)
    ensures
      var t2 := CalleeSite(t, f, pc, locals, below, rest);
      Config(t2.pre + rs, t2.frames, st) == Cfg(t, pc + 1, locals, below + (rest + rs), st)
  {
    assert t.pre + locals + (below + rest) + rs == t.pre + locals + (below + (rest + rs));
  }

  /** A call, from the configuration the call opcode hands over. `start` is one turn earlier. */
  lemma {:induction false} CallSim(m: Module, k: nat, t: Site, f: nat, c: Checker, after: Checker, pc: nat, env: seq<Target>,
      below: seq<Value>, s: Activation, start: Config, fuel: nat) returns (n: nat)
    requires ModuleOk(m) && k <= |t.frames| && Inside(m, t, s) && f < |m.p.funcs| && PlainCallee(m.p, f)
    requires |s.vs| >= |m.p.funcs[f].sig.params| && AllLive(after)
    requires |below| + |s.vs| - |m.p.funcs[f].sig.params| + |m.p.funcs[f].sig.results| == |after.types|
    requires |Cfg(t, pc, s.locals, below + s.vs, s.store).frames| > 0
    requires Run(m.p, start, k, 1) == Invoke(m.p, Cfg(t, pc, s.locals, below + s.vs, s.store), f)
    ensures Simulates(m, k, t, c, after, env, below, pc + 1, start, ExecCall(m.p, m.bodies, f, s, fuel), fuel, n)
    decreases fuel, 0
  {
    hide Cfg, Invoke, ExecCall, Inside, StoreOk, AllLive, ModuleOk, Run, ExecFunc;
    var start2 := Cfg(t, pc, s.locals, below + s.vs, s.store);
    n := 1;
    CalleeFits(m, t, f, s);
    if m.p.funcs[f].HostFunc? {
      HostCallSim(m, k, t, f, c, after, pc, env, below, s, start, fuel);
    } else {
      var q := |m.p.funcs[f].sig.params|;
      var t2 := CalleeSite(t, f, pc, s.locals, below, Front(s.vs, q));
      var entry := Cfg(t2, 0, Last(s.vs, q), [], s.store);
      EnterCallee(m.p, t, f, pc, s, below);
      if Escapes(m, start, k, 1) {
        EscapedSimulates(m, k, t, c, after, env, below, pc + 1, start, ExecCall(m.p, m.bodies, f, s, fuel), fuel, 1);
      } else if fuel == 0 {
        CallStarved(m, k, t, f, c, after, env, below, pc + 1, start, s, t2, Last(s.vs, q));
      } else {
        var n2 := FuncSim(m, k, t2, Last(s.vs, q), s.store, fuel - 1);
        assert LocalsFor(m, f, Last(s.vs, q)) == Last(s.vs, q);
        n := 1 + n2;
        AfterCallee(m, k, t, f, c, after, pc, env, below, s, start, entry, fuel, n2);
      }
    }
  }

  lemma HostCallSim(m: Module, k: nat, t: Site, f: nat, c: Checker, after: Checker, pc: nat, env: seq<Target>,
      below: seq<Value>, s: Activation, start: Config, fuel: nat)
    requires GoodHost(m.p) && Inside(m, t, s) && f < |m.p.funcs| && m.p.funcs[f].HostFunc?
    requires |s.vs| >= |m.p.funcs[f].sig.params| && AllLive(after)
    requires |below| + |s.vs| - |m.p.funcs[f].sig.params| + |m.p.funcs[f].sig.results| == |after.types|
    requires |Cfg(t, pc, s.locals, below + s.vs, s.store).frames| > 0
    requires Run(m.p, start, k, 1) == Invoke(m.p, Cfg(t, pc, s.locals, below + s.vs, s.store), f)
    ensures Simulates(m, k, t, c, after, env, below, pc + 1, start, ExecCall(m.p, m.bodies, f, s, fuel), fuel, 1)
  {
    hide Cfg, Invoke, ExecCall, Inside, AllLive, Run;
    HostSim(m, k, t, f, c, after, pc, env, below, s, fuel);
  }

  lemma CallStarved(m: Module, k: nat, t: Site, f: nat, c: Checker, after: Checker, env: seq<Target>, below: seq<Value>,
      end: nat, start: Config, s: Activation, t2: Site, args: seq<Value>)
    requires f < |m.p.funcs| && m.p.funcs[f].WasmFunc? && |s.vs| >= |m.p.funcs[f].sig.params| && k <= |t2.frames|
    requires Run(m.p, start, k, 1) == Running(Cfg(t2, 0, args, [], s.store))
    ensures Simulates(m, k, t, c, after, env, below, end, start, ExecCall(m.p, m.bodies, f, s, 0), 0, 1)
  {
    hide Run;
  }

  lemma CalleeFits(m: Module, t: Site, f: nat, s: Activation)
    requires ModuleOk(m) && Inside(m, t, s) && f < |m.p.funcs|
    ensures GoodHost(m.p) && StoreOk(m, s.store)
    ensures m.p.funcs[f].WasmFunc? ==> |m.p.funcs[f].sig.params| <= |m.p.funcs[f].locals|
  {
    assert FuncOk(m, f);
  }

  lemma AfterCallee(m: Module, k: nat, t: Site, f: nat, c: Checker, after: Checker, pc: nat, env: seq<Target>,
      below: seq<Value>, s: Activation, start: Config, entry: Config, fuel: nat, n2: nat)
    requires ModuleOk(m) && Inside(m, t, s) && f < |m.p.funcs| && m.p.funcs[f].WasmFunc? && fuel > 0
    requires |s.vs| >= |m.p.funcs[f].sig.params| && AllLive(after)
    requires |below| + |s.vs| - |m.p.funcs[f].sig.params| + |m.p.funcs[f].sig.results| == |after.types|
    requires Run(m.p, start, k, 1) == Running(entry)
    requires
      var q := |m.p.funcs[f].sig.params|;
      FuncSimulates(m, k, CalleeSite(t, f, pc, s.locals, below, Front(s.vs, q)), entry,
        ExecFunc(m.p, m.bodies, f, Last(s.vs, q), s.store, fuel - 1), fuel - 1, n2)
    ensures Simulates(m, k, t, c, after, env, below, pc + 1, start, ExecCall(m.p, m.bodies, f, s, fuel), fuel, 1 + n2)
  {
    hide Cfg, ExecFunc, StoreOk, ModuleOk, AllLive, Escapes, Run;
    RunCompose(m.p, start, k, 1, n2);
    if Escapes(m, entry, k, n2) { EscapesLater(m, start, k, 1, entry, n2); }
    var q := |m.p.funcs[f].sig.params|;
    var o := ExecFunc(m.p, m.bodies, f, Last(s.vs, q), s.store, fuel - 1);
    if o.Returned? {
      ReturnToCaller(t, f, pc, s.locals, below, Front(s.vs, q), o.s.vs, o.s.store);
    }
  }

  lemma CallHeights(m: Module, ctx: Context, c: Checker, f: nat)
    requires Valid(c) && AllLive(c) && Check(ctx, c, Call(f)).Some?
    ensures f < |ctx.funcs| && AllLive(Check(ctx, c, Call(f)).value)
    ensures Top(c).limit + |ctx.funcs[f].sig.params| <= |c.types|
    ensures |Check(ctx, c, Call(f)).value.types| == |c.types| - |ctx.funcs[f].sig.params| + |ctx.funcs[f].sig.results|
  {
    LiveArrow(ctx, c, Call(f));
    LiveStays(ctx, c, Call(f));
  }

  lemma IndirectHeights(ctx: Context, c: Checker, sig: nat)
    requires Valid(c) && AllLive(c) && Check(ctx, c, CallIndirect(sig)).Some?
    ensures sig < |ctx.types| && AllLive(Check(ctx, c, CallIndirect(sig)).value)
    ensures Top(c).limit + |ctx.types[sig].params| + 1 <= |c.types|
    ensures |Check(ctx, c, CallIndirect(sig)).value.types| == |c.types| - 1 - |ctx.types[sig].params| + |ctx.types[sig].results|
  {
    LiveArrow(ctx, c, CallIndirect(sig));
    LiveStays(ctx, c, CallIndirect(sig));
  }

  lemma {:induction false} DirectSim(m: Module, k: nat, t: Site, ctx: Context, f: nat, c: Checker, pc: nat, env: seq<Target>,
      below: seq<Value>, s: Activation, fuel: nat) returns (n: nat)
    requires Ready(m, k, t, c, env, below, s, pc) && t.f < |m.ctxs| && ctx == m.ctxs[t.f] && ContextOk(m, t.f)
    requires Check(ctx, c, Call(f)).Some? && CodeAt(m, t.f, pc, LayPlain(ctx, Call(f), env))
    ensures Simulates(m, k, t, c, Check(ctx, c, Call(f)).value, env, below, pc + 1,
      Cfg(t, pc, s.locals, below + s.vs, s.store), ExecCall(m.p, m.bodies, f, s, fuel), fuel, n)
    decreases fuel, 1
  {
    CallHeights(m, ctx, c, f);
    var rec := CallRec(f, ctx.funcs[f].imported);
    CodeHead(m, t.f, pc, rec);
    StepAt(m, k, t, pc, rec, s.locals, below + s.vs, s.store);
    var start := Cfg(t, pc, s.locals, below + s.vs, s.store);
    if PlainCallee(m.p, f) {
      hide Check, Cfg, Simulates, CodeAt;
      n := CallSim(m, k, t, f, c, Check(ctx, c, Call(f)).value, pc, env, below, s, start, fuel);
    } else {
      n := 1;
      CallStrays(m, k, t, pc, s.locals, below + s.vs, s.store, f);
      hide Check, Cfg, CodeAt;
      EscapedSimulates(m, k, t, c, Check(ctx, c, Call(f)).value, env, below, pc + 1, start,
        ExecCall(m.p, m.bodies, f, s, fuel), fuel, 1);
    }
  }

  /** A call of a function with locals of its own strays. */
  lemma CallStrays(m: Module, k: nat, t: Site, pc: nat, locals: seq<Value>, ops: seq<Value>, store: Shared, f: nat)
    requires k <= |t.frames| && t.f < |m.p.funcs| && m.p.funcs[t.f].WasmFunc? && pc < |m.p.funcs[t.f].code|
    requires m.p.funcs[t.f].code[pc].CallRec? && m.p.funcs[t.f].code[pc].func == f && !PlainCallee(m.p, f)
    ensures Escapes(m, Cfg(t, pc, locals, ops, store), k, 1)
  {
    hide Cfg, Step, Escapes;
    var start := Cfg(t, pc, locals, ops, store);
    Shape(t, pc, locals, ops, store);
    assert Called(m.p, start) == Some(f);
    assert !PlainCallee(m.p, m.p.funcs[t.f].code[pc].func);
    StraysNow(m, start, k);
  }

  lemma IndirectStrays(m: Module, k: nat, t: Site, pc: nat, locals: seq<Value>, below: seq<Value>, vs: seq<Value>, store: Shared, sig: nat)
    requires k <= |t.frames| && t.f < |m.p.funcs| && m.p.funcs[t.f].WasmFunc? && pc < |m.p.funcs[t.f].code|
    requires m.p.funcs[t.f].code[pc] == Op(CallIndirect(sig)) && |vs| >= 1
    requires var r := Lookup(m.p, AsU32(vs[|vs| - 1]), sig); r.Found? && !PlainCallee(m.p, r.f)
    ensures Escapes(m, Cfg(t, pc, locals, below + vs, store), k, 1)
  {
    hide Cfg, Step, Escapes, AsU32, Front;
    var start := Cfg(t, pc, locals, below + vs, store);
    Shape(t, pc, locals, below + vs, store);
    PopSim(t, pc, locals, below, vs, store, 1);
    assert Last(vs, 1)[0] == vs[|vs| - 1];
    assert |start.stack| > 0;
    var f := Lookup(m.p, AsU32(vs[|vs| - 1]), sig).f;
    assert Called(m.p, start) == Some(f);
    assert m.p.table[AsU32(vs[|vs| - 1])] == f;
    StraysNow(m, start, k);
  }

  /** The machine's table lookup, after the index is popped, is the structured one. */
  lemma IndirectStep(p: Program, t: Site, pc: nat, locals: seq<Value>, below: seq<Value>, vs: seq<Value>, store: Shared, sig: nat)
    requires |vs| >= 1
    ensures
      var c, d := Cfg(t, pc, locals, below + vs, store), Cfg(t, pc, locals, below + Front(vs, 1), store);
      && |c.frames| > 0 && |d.frames| > 0 && d.store == store
      && StepIndirect(p, c, sig) ==
        match Lookup(p, AsU32(vs[|vs| - 1]), sig) {
          case Found(f) => Invoke(p, d, f)
          case NotFound(trap) => Trapped(trap, d)
          case NoSuchType => Stuck
        }
  {
    hide Cfg, Front, Invoke;
    PopSim(t, pc, locals, below, vs, store, 1);
    Shape(t, pc, locals, below + vs, store);
    Shape(t, pc, locals, below + Front(vs, 1), store);
    assert Last(vs, 1)[0] == vs[|vs| - 1];
    assert |t.pre + locals + (below + vs)| > 0;
  }

  lemma {:induction false} IndirectSim(m: Module, k: nat, t: Site, ctx: Context, sig: nat, results: nat, c: Checker, pc: nat,
      env: seq<Target>, below: seq<Value>, s: Activation, fuel: nat) returns (n: nat)
    requires Ready(m, k, t, c, env, below, s, pc) && t.f < |m.ctxs| && ctx == m.ctxs[t.f] && ContextOk(m, t.f)
    requires Check(ctx, c, CallIndirect(sig)).Some? && CodeAt(m, t.f, pc, LayPlain(ctx, CallIndirect(sig), env))
    ensures Simulates(m, k, t, c, Check(ctx, c, CallIndirect(sig)).value, env, below, pc + 1,
      Cfg(t, pc, s.locals, below + s.vs, s.store),
      ExecPlain(m.p, m.bodies, AritiesOf(c), results, CallIndirect(sig), s, fuel), fuel, n)
    decreases fuel, 1
  {
    hide Cfg, AritiesOf, Check, Simulates, CodeAt, StepRec, Inside, Run, AnyOnlyAtDeadLimit, LimitsOrdered, Escaped, Escapes, PlainCallee, LoopsBehind, ModuleOk;
    IndirectHeights(ctx, c, sig);
    var after := Check(ctx, c, CallIndirect(sig)).value;
    IndirectTurn(m, k, t, ctx, sig, pc, env, below, s);
    var start := Cfg(t, pc, s.locals, below + s.vs, s.store);
    var found := Lookup(m.p, AsU32(s.vs[|s.vs| - 1]), sig);
    n := 1;
    if found.Found? && !PlainCallee(m.p, found.f) {
      IndirectStrays(m, k, t, pc, s.locals, below, s.vs, s.store, sig);
      EscapedSimulates(m, k, t, c, after, env, below, pc + 1, start,
        ExecPlain(m.p, m.bodies, AritiesOf(c), results, CallIndirect(sig), s, fuel), fuel, 1);
    } else if found.Found? {
      InsideFront(m, t, s);
      n := CallSim(m, k, t, found.f, c, after, pc, env, below, s.(vs := Front(s.vs, 1)), start, fuel);
    } else {
      TrappedSimulates(m, k, t, c, after, env, below, pc + 1, start, found.trap, s.store, fuel);
    }
  }

  lemma InsideFront(m: Module, t: Site, s: Activation)
    requires Inside(m, t, s) && |s.vs| >= 1
    ensures Inside(m, t, s.(vs := Front(s.vs, 1)))
  {
  }

  lemma TrappedSimulates(m: Module, k: nat, t: Site, c: Checker, after: Checker, env: seq<Target>, below: seq<Value>,
      end: nat, start: Config, trap: Trap, st: Shared, fuel: nat)
    requires Run(m.p, start, k, 1).Trapped? && Run(m.p, start, k, 1).trap == trap && Run(m.p, start, k, 1).c.store == st
    ensures Simulates(m, k, t, c, after, env, below, end, start, Failed(trap, st), fuel, 1)
  {
    hide Run;
  }

  /** One turn of the machine at a `call_indirect`. */
  lemma IndirectTurn(m: Module, k: nat, t: Site, ctx: Context, sig: nat, pc: nat, env: seq<Target>, below: seq<Value>, s: Activation)
    requires k <= |t.frames| && Inside(m, t, s) && |s.vs| >= 1
    requires CodeAt(m, t.f, pc, LayPlain(ctx, CallIndirect(sig), env))
    ensures t.f < |m.p.funcs| && m.p.funcs[t.f].WasmFunc?
    ensures pc < |m.p.funcs[t.f].code| && m.p.funcs[t.f].code[pc] == Op(CallIndirect(sig))
    ensures
      var start, d := Cfg(t, pc, s.locals, below + s.vs, s.store), Cfg(t, pc, s.locals, below + Front(s.vs, 1), s.store);
      && |start.frames| > 0 && |d.frames| > 0 && d.store == s.store
      && Run(m.p, start, k, 1) ==
        match Lookup(m.p, AsU32(s.vs[|s.vs| - 1]), sig) {
          case Found(f) => Invoke(m.p, d, f)
          case NotFound(trap) => Trapped(trap, d)
          case NoSuchType => Stuck
        }
  {
    hide Cfg, Run, StepIndirect, Lookup, Invoke;
    CodeHead(m, t.f, pc, Op(CallIndirect(sig)));
    StepAt(m, k, t, pc, Op(CallIndirect(sig)), s.locals, below + s.vs, s.store);
    IndirectStep(m.p, t, pc, s.locals, below, s.vs, s.store, sig);
  }

  lemma {:induction false} PlainSim(m: Module, k: nat, t: Site, ctx: Context, i: PlainInstr, c: Checker, pc: nat,
      env: seq<Target>, below: seq<Value>, s: Activation, fuel: nat) returns (n: nat)
    requires Ready(m, k, t, c, env, below, s, pc) && t.f < |m.ctxs| && ctx == m.ctxs[t.f] && ContextOk(m, t.f)
    requires c.labels[0].sig == ctx.results
    requires Check(ctx, c, i).Some? && (Tidy(m) ==> CleanPlain(c, i)) && CodeAt(m, t.f, pc, LayPlain(ctx, i, env))
    ensures Simulates(m, k, t, c, Check(ctx, c, i).value, env, below, pc + PlainSize(i),
      Cfg(t, pc, s.locals, below + s.vs, s.store),
      ExecPlain(m.p, m.bodies, AritiesOf(c), |ctx.results|, i, s, fuel), fuel, n)
    decreases fuel, 2
  {
    hide Check, Cfg, Simulates, CodeAt, LayPlain, Ready, CleanPlain, Tidy;
    if i.Call? {
      n := DirectSim(m, k, t, ctx, i.func, c, pc, env, below, s, fuel);
    } else if i.CallIndirect? {
      n := IndirectSim(m, k, t, ctx, i.sig, |ctx.results|, c, pc, env, below, s, fuel);
    } else {
      n := if i.Nop? then 0 else 1;
      LocalSim(m, k, t, ctx, i, c, pc, env, below, s, fuel);
    }
  }

  lemma LocalSim(m: Module, k: nat, t: Site, ctx: Context, i: PlainInstr, c: Checker, pc: nat,
      env: seq<Target>, below: seq<Value>, s: Activation, fuel: nat)
    requires Ready(m, k, t, c, env, below, s, pc) && t.f < |m.ctxs| && ctx == m.ctxs[t.f] && ContextOk(m, t.f)
    requires c.labels[0].sig == ctx.results && !i.Call? && !i.CallIndirect?
    requires Check(ctx, c, i).Some? && (Tidy(m) ==> CleanPlain(c, i)) && CodeAt(m, t.f, pc, LayPlain(ctx, i, env))
    ensures Simulates(m, k, t, c, Check(ctx, c, i).value, env, below, pc + PlainSize(i),
      Cfg(t, pc, s.locals, below + s.vs, s.store),
      ExecPlain(m.p, m.bodies, AritiesOf(c), |ctx.results|, i, s, fuel), fuel, if i.Nop? then 0 else 1)
  {
    hide Check, Cfg, Simulates, CodeAt, LayPlain, Ready, CleanPlain, Tidy;
    var after, end := Check(ctx, c, i).value, pc + PlainSize(i);
    if i.Nop? { NopSim(m, k, t, ctx, c, pc, env, below, s, fuel); }
    else if i.Br? { BrSim(m, k, t, ctx, i.depth, c, pc, env, below, s, fuel, after, end); }
    else if i.BrIf? { BrIfSim(m, k, t, ctx, i.depth, c, pc, env, below, s, |ctx.results|, fuel); }
    else if i.BrTable? { BrTableSim(m, k, t, ctx, i.depths, i.default, c, pc, env, below, s, |ctx.results|, fuel, after, end); }
    else if i.Return? { ReturnSim(m, k, t, ctx, c, pc, env, below, s, fuel, after, end); }
    else { OpcodeSim(m, k, t, ctx, i, c, pc, env, below, s, fuel); }
  }

  /* ---- brackets ---- */

  /** From the end of a bracket's body, or a branch to its end, to after its `end` record.
      `c0` is the checker where the label was opened, `outer` the operands below the bracket. */
  lemma CloseSim(m: Module, k: nat, t: Site, c: Checker, c0: Checker, kind: LabelKind, sig: seq<ValType>, d: Checker,
      env: seq<Target>, x: Target, below: seq<Value>, outer: seq<Value>, close: nat, start: Config, o: Outcome, fuel: nat, n1: nat)
    returns (n: nat)
    requires k <= |t.frames| && Valid(c) && |env| == |c.labels| && |below| == Top(c).limit && SameLabel(c, c0) && AllLive(c0)
    requires |below| + |outer| == |c0.types| && (o.Branch? && o.depth == 0 ==> !kind.LoopLabel? && x.offset == close)
    requires AllLive(d) ==> |d.types| == |c0.types| + |sig|
    requires t.f < |m.p.funcs| && m.p.funcs[t.f].WasmFunc?
    requires close < |m.p.funcs[t.f].code| && m.p.funcs[t.f].code[close] == EndRec(|c0.types|, |sig|)
    requires Simulates(m, k, t, PushLabel(c0, kind, sig), d, env + [x], below + outer, close, start, o, fuel, n1)
    ensures Simulates(m, k, t, c, PushTypes(c0, sig), env, below, close + 1, start, LeaveBlock(outer, o), fuel, n)
  {
    hide Run, Escapes, Cfg, Arrives, Inside, Leaves, StoreOk;
    n := n1;
    if Escapes(m, start, k, n1) {
      hide Simulates;
      EscapedSimulates(m, k, t, c, PushTypes(c0, sig), env, below, close + 1, start, LeaveBlock(outer, o), fuel, n);
    } else if o.Normal? || (o.Branch? && o.depth == 0) {
      n := n1 + 1;
      EndReached(m, k, t, c, c0, kind, sig, d, env, x, below, outer, close, start, o, fuel, n1);
    } else if o.Branch? {
      hide Simulates;
      PassThrough(m, k, t, c, c0, kind, sig, d, env, x, below, outer, close, start, o, fuel, n1);
    }
  }

  /** The body is over, or has branched to its end: its `end` record is next. */
  lemma EndReached(m: Module, k: nat, t: Site, c: Checker, c0: Checker, kind: LabelKind, sig: seq<ValType>, d: Checker,
      env: seq<Target>, x: Target, below: seq<Value>, outer: seq<Value>, close: nat, start: Config, o: Outcome, fuel: nat, n1: nat)
    requires k <= |t.frames| && |below| + |outer| == |c0.types| && AllLive(c0)
    requires o.Normal? || (o.Branch? && o.depth == 0 && !kind.LoopLabel? && x.offset == close)
    requires AllLive(d) ==> |d.types| == |c0.types| + |sig|
    requires t.f < |m.p.funcs| && m.p.funcs[t.f].WasmFunc?
    requires close < |m.p.funcs[t.f].code| && m.p.funcs[t.f].code[close] == EndRec(|c0.types|, |sig|)
    requires Simulates(m, k, t, PushLabel(c0, kind, sig), d, env + [x], below + outer, close, start, o, fuel, n1)
    requires !Escapes(m, start, k, n1)
    ensures Simulates(m, k, t, c, PushTypes(c0, sig), env, below, close + 1, start, LeaveBlock(outer, o), fuel, n1 + 1)
  {
    hide Escapes, Run, Cfg, StoreOk, AllLive;
    assert (below + outer)[..|c0.types|] == below + outer;
    if o.Normal? {
      assert (below + outer + o.s.vs)[..|c0.types|] == below + outer;
      EndOfBracket(m, k, t, c, c0, sig, env, below, outer, close, start, o.s, below + outer + o.s.vs, fuel, n1);
    } else {
      var e := Run(m.p, start, k, n1).c;
      assert LabelAt(PushLabel(c0, kind, sig), 0) == Label(kind, sig, |c0.types|, false);
      assert TargetAt(env + [x], 0) == x;
      EndOfBracket(m, k, t, c, c0, sig, env, below, outer, close, start, o.s, OpsOf(t, |o.s.locals|, e), fuel, n1);
    }
    hide Simulates;
  }

  lemma EscapedSimulates(m: Module, k: nat, t: Site, c: Checker, after: Checker, env: seq<Target>, below: seq<Value>,
      end: nat, start: Config, o: Outcome, fuel: nat, n: nat)
    requires Escapes(m, start, k, n)
    ensures Simulates(m, k, t, c, after, env, below, end, start, o, fuel, n)
  {
  }

  /** A body that runs to its end leaves exactly the bracket's results. */
  lemma ClosedHeight(ctx: Context, c0: Checker, kind: LabelKind, sig: seq<ValType>, d: Checker)
    requires Valid(d) && SameLabel(PushLabel(c0, kind, sig), d) && Check(ctx, d, End).Some?
    ensures AllLive(d) ==> |d.types| == |c0.types| + |sig|
  {
    if AllLive(d) { LiveEnd(ctx, d); }
  }

  lemma EndOfBracket(m: Module, k: nat, t: Site, c: Checker, c0: Checker, sig: seq<ValType>, env: seq<Target>,
      below: seq<Value>, outer: seq<Value>, close: nat, start: Config, s: Activation, ops: seq<Value>, fuel: nat, n1: nat)
    requires k <= |t.frames| && |below| + |outer| == |c0.types| && AllLive(c0)
    requires Inside(m, t, s) && |s.vs| == |sig|
    requires close < |m.p.funcs[t.f].code| && m.p.funcs[t.f].code[close] == EndRec(|c0.types|, |sig|)
    requires |c0.types| + |sig| <= |ops| && ops[..|c0.types|] == below + outer && Last(ops, |sig|) == s.vs
    requires Run(m.p, start, k, n1) == Running(Cfg(t, close, s.locals, ops, s.store))
    ensures Simulates(m, k, t, c, PushTypes(c0, sig), env, below, close + 1, start, Normal(s.(vs := outer + s.vs)), fuel, n1 + 1)
  {
    hide Cfg, Run, StoreOk;
    EndStep(m, k, t, close, |c0.types|, |sig|, s.locals, ops, s.store);
    RunCompose(m.p, start, k, n1, 1);
    Regroup(below, outer, s.vs);
    PushedHeight(c0, sig);
  }

  lemma Regroup(a: seq<Value>, b: seq<Value>, c: seq<Value>)
    ensures a + b + c == a + (b + c)
  {
  }

  lemma PushedHeight(c: Checker, sig: seq<ValType>)
    requires AllLive(c)
    ensures AllLive(PushTypes(c, sig)) && |PushTypes(c, sig).types| == |c.types| + |sig|
  {
  }

  /** A branch to an outer label passes the bracket's own. */
  lemma PassThrough(m: Module, k: nat, t: Site, c: Checker, c0: Checker, kind: LabelKind, sig: seq<ValType>, d: Checker,
      env: seq<Target>, x: Target, below: seq<Value>, outer: seq<Value>, end: nat, start: Config, o: Outcome, fuel: nat, n: nat)
    requires Valid(c) && |env| == |c.labels| && |below| == Top(c).limit && SameLabel(c, c0)
    requires o.Branch? && o.depth > 0 && !Escapes(m, start, k, n)
    requires Simulates(m, k, t, PushLabel(c0, kind, sig), d, env + [x], below + outer, end, start, o, fuel, n)
    ensures Simulates(m, k, t, c, PushTypes(c0, sig), env, below, end + 1, start, Branch(o.depth - 1, o.s), fuel, n)
  {
    hide Run, Cfg, Inside, Escaped, OpsOf;
    var c1, q := PushLabel(c0, kind, sig), o.depth - 1;
    SameLabels(c, c0);
    assert LabelAt(c1, o.depth) == LabelAt(c0, q);
    assert TargetAt(env + [x], o.depth) == TargetAt(env, q);
    var l := LabelAt(c, q);
    assert l.limit <= |below|;
    assert (below + outer)[..l.limit] == below[..l.limit];
  }

  lemma {:induction false} BodySim(m: Module, k: nat, t: Site, ctx: Context, b: Body, c: Checker, pc: nat, next: nat,
      env: seq<Target>, below: seq<Value>, s: Activation, fuel: nat) returns (n: nat)
    requires Ready(m, k, t, c, env, below, s, pc) && t.f < |m.ctxs| && ctx == m.ctxs[t.f] && ContextOk(m, t.f)
    requires c.labels[0].sig == ctx.results
    requires CheckBody(ctx, b, c).Some? && PieceOf(m, t.f, ctx, b, c, pc) && CodeAt(m, t.f, pc, LayBody(ctx, b, c, pc, next, env))
    ensures Simulates(m, k, t, c, CheckBody(ctx, b, c).value, env, below, pc + Size(b),
      Cfg(t, pc, s.locals, below + s.vs, s.store),
      ExecBody(m.p, m.bodies, AritiesOf(c), |ctx.results|, b, s, fuel), fuel, n)
    decreases fuel, 3, b, 0
  {
    hide Check, Simulates, CodeAt, Valid, AllLive, ModuleOk, Inside, ContextOk, Cfg, Run, AritiesOf, CheckIns, LayIns, ExecIns, SizeIns, LabelsIns, CleanIns, PieceOf, InsOf, Escapes, LoopsBehind;
    match b
    case Nil =>
      n := 0;
      NilSim(m, k, t, ctx, c, pc, env, below, s, fuel);
    case Cons(h, tl) =>
      var c1 := CheckIns(ctx, h, c).value;
      InsKeeps(ctx, h, c);
      PieceParts(m, t.f, ctx, h, tl, c, pc);
      CodeSplit(m, t.f, pc, LayIns(ctx, h, c, pc, next, env), LayBody(ctx, tl, c1, pc + SizeIns(h), next + LabelsIns(h), env));
      var start := Cfg(t, pc, s.locals, below + s.vs, s.store);
      var n1 := InsSim(m, k, t, ctx, h, c, pc, next, env, below, s, fuel);
      var o1 := ExecIns(m.p, m.bodies, AritiesOf(c), |ctx.results|, h, s, fuel);
      var o := ExecBody(m.p, m.bodies, AritiesOf(c), |ctx.results|, b, s, fuel);
      if Escapes(m, start, k, n1) {
        n := n1;
        EscapedSimulates(m, k, t, c, CheckBody(ctx, b, c).value, env, below, pc + Size(b), start, o, fuel, n1);
      } else if o1.Normal? {
        NextReady(m, k, t, ctx, c, c1, env, below, s, o1.s, pc, pc + SizeIns(h), start, fuel, n1);
        var n2 := BodySim(m, k, t, ctx, tl, c1, pc + SizeIns(h), next + LabelsIns(h), env, below, o1.s, fuel);
        n := n1 + n2;
        SeqSim(m, k, t, c, c1, CheckBody(ctx, tl, c1).value, env, below, pc + Size(b), start,
          Cfg(t, pc + SizeIns(h), o1.s.locals, below + o1.s.vs, o1.s.store),
          ExecBody(m.p, m.bodies, AritiesOf(c1), |ctx.results|, tl, o1.s, fuel), fuel, n1, n2);
        SameLabels(c, c1);
      } else {
        n := n1;
        CutShort(m, k, t, c, c1, CheckBody(ctx, b, c).value, env, below, pc + SizeIns(h), pc + Size(b), start, o1, fuel, n1);
      }
  }

  lemma NilSim(m: Module, k: nat, t: Site, ctx: Context, c: Checker, pc: nat, env: seq<Target>, below: seq<Value>,
      s: Activation, fuel: nat)
    requires Ready(m, k, t, c, env, below, s, pc)
    ensures Simulates(m, k, t, c, c, env, below, pc, Cfg(t, pc, s.locals, below + s.vs, s.store), Normal(s), fuel, 0)
  {
  }

  /** After an instruction that ran normally, the next one is ready to run. */
  lemma NextReady(m: Module, k: nat, t: Site, ctx: Context, c: Checker, c1: Checker, env: seq<Target>, below: seq<Value>,
      s: Activation, s1: Activation, pc: nat, mid: nat, start: Config, fuel: nat, n1: nat)
    requires Ready(m, k, t, c, env, below, s, pc) && Valid(c1) && SameLabel(c, c1) && c.labels[0].sig == ctx.results
    requires !Escapes(m, start, k, n1) && pc <= mid
    requires Simulates(m, k, t, c, c1, env, below, mid, start, Normal(s1), fuel, n1)
    ensures Ready(m, k, t, c1, env, below, s1, mid) && c1.labels[0].sig == ctx.results
    ensures Run(m.p, start, k, n1) == Running(Cfg(t, mid, s1.locals, below + s1.vs, s1.store))
  {
    hide Run, Cfg, ModuleOk, Escapes, LoopAt;
    SameLabels(c, c1);
    LoopsStay(m, t.f, c, c1, env, pc, mid);
    hide LoopsBehind;
    assert LabelAt(c1, |c.labels| - 1) == c1.labels[0] && LabelAt(c, |c.labels| - 1) == c.labels[0];
  }

  lemma LoopsStay(m: Module, f: nat, c: Checker, d: Checker, env: seq<Target>, pc: nat, q: nat)
    requires LoopsBehind(m, f, c, env, pc) && SameLabel(c, d) && pc <= q
    ensures LoopsBehind(m, f, d, env, q)
  {
    hide LoopAt;
    SameSize(c, d);
    SameLabels(c, d);
    forall j | 0 <= j < |d.labels| && d.labels[j].kind.LoopLabel? ensures LoopBehind(m, f, env[j].offset, d.labels[j].limit, q) {
      assert LabelAt(d, |c.labels| - 1 - j) == d.labels[j] && LabelAt(c, |c.labels| - 1 - j) == c.labels[j];
      assert LoopBehind(m, f, env[j].offset, c.labels[j].limit, pc);
    }
  }

  lemma SeqSim(m: Module, k: nat, t: Site, c: Checker, c1: Checker, after: Checker, env: seq<Target>, below: seq<Value>,
      end: nat, start: Config, mid: Config, o: Outcome, fuel: nat, n1: nat, n2: nat)
    requires SameLabel(c, c1) && Run(m.p, start, k, n1) == Running(mid)
    requires Simulates(m, k, t, c1, after, env, below, end, mid, o, fuel, n2)
    ensures Simulates(m, k, t, c, after, env, below, end, start, o, fuel, n1 + n2)
  {
    hide Simulates, Run;
    Prefixed(m, k, t, c1, after, env, below, end, start, mid, o, fuel, fuel, n1, n2);
    Retarget(m, k, t, c, c1, after, env, below, end, start, o, fuel, n1 + n2);
  }

  /** Inside a bracket: nothing of its own on the stack yet. */
  lemma InnerReady(m: Module, k: nat, t: Site, ctx: Context, c: Checker, c0: Checker, kind: LabelKind, sig: seq<ValType>,
      env: seq<Target>, x: Target, below: seq<Value>, outer: seq<Value>, s: Activation, r: Activation, pc: nat, q: nat)
    requires pc <= q && (kind.LoopLabel? ==> LoopBehind(m, t.f, x.offset, |c0.types|, q))
    requires Ready(m, k, t, c, env, below, s, pc) && Valid(c0) && SameLabel(c, c0) && AllLive(c0) && !kind.FuncLabel?
    requires c.labels[0].sig == ctx.results && |below| + |outer| == |c0.types| && Inside(m, t, r) && r.vs == []
    ensures
      var c1 := PushLabel(c0, kind, sig);
      && Ready(m, k, t, c1, env + [x], below + outer, r, q) && c1.labels[0].sig == ctx.results
      && AritiesOf(c1) == AritiesOf(c) + [if kind.LoopLabel? then 0 else |sig|]
  {
    hide ModuleOk, LoopBehind;
    PushLabelKeeps(c0, kind, sig);
    SameLabels(c, c0);
    LoopsStay(m, t.f, c, c0, env, pc, q);
    assert LabelAt(c0, |c.labels| - 1) == c0.labels[0] && LabelAt(c, |c.labels| - 1) == c.labels[0];
    assert AritiesOf(c0) == AritiesOf(c);
  }

  lemma {:induction false} BlockSim(m: Module, k: nat, t: Site, ctx: Context, sig: seq<ValType>, b: Body, c: Checker, pc: nat,
      next: nat, env: seq<Target>, below: seq<Value>, s: Activation, fuel: nat) returns (n: nat)
    requires Ready(m, k, t, c, env, below, s, pc) && t.f < |m.ctxs| && ctx == m.ctxs[t.f] && ContextOk(m, t.f)
    requires c.labels[0].sig == ctx.results
    requires CheckIns(ctx, BlockIns(sig, b), c).Some? && InsOf(m, t.f, ctx, BlockIns(sig, b), c, pc)
    requires CodeAt(m, t.f, pc, LayIns(ctx, BlockIns(sig, b), c, pc, next, env))
    ensures Simulates(m, k, t, c, PushTypes(c, sig), env, below, pc + Size(b) + 1, Cfg(t, pc, s.locals, below + s.vs, s.store),
      ExecIns(m.p, m.bodies, AritiesOf(c), |ctx.results|, BlockIns(sig, b), s, fuel), fuel, n)
    decreases fuel, 3, b, 1
  {
    hide Check, Simulates, CodeAt, ModuleOk, StoreOk, ContextOk, Cfg, Run, LayBody, CheckBody, CleanBody, ExecBody, AllLive, Size, Labels, AnyOnlyAtDeadLimit, LimitsOrdered, PieceOf, InsOf, Escapes, LoopsBehind, LoopAt;
    var c1, x, r := PushLabel(c, BlockLabel, sig), Target(next, pc + Size(b)), s.(vs := []);
    BlockPiece(m, t.f, ctx, sig, b, c, pc);
    PushLabelKeeps(c, BlockLabel, sig);
    BodyKeeps(ctx, b, c1);
    InnerReady(m, k, t, ctx, c, c, BlockLabel, sig, env, x, below, s.vs, s, r, pc, pc);
    CodeSplit(m, t.f, pc, LayBody(ctx, b, c1, pc, next + 1, env + [x]), [EndRec(|c.types|, |sig|)]);
    CodeHead(m, t.f, pc + Size(b), EndRec(|c.types|, |sig|));
    var n1 := BodySim(m, k, t, ctx, b, c1, pc, next + 1, env + [x], below + s.vs, r, fuel);
    assert below + s.vs + [] == below + s.vs;
    ClosedHeight(ctx, c, BlockLabel, sig, CheckBody(ctx, b, c1).value);
    n := CloseSim(m, k, t, c, c, BlockLabel, sig, CheckBody(ctx, b, c1).value, env, x, below, s.vs, pc + Size(b),
      Cfg(t, pc, s.locals, below + s.vs, s.store),
      ExecBody(m.p, m.bodies, AritiesOf(c1), |ctx.results|, b, r, fuel), fuel, n1);
  }

  lemma {:induction false} LoopSim(m: Module, k: nat, t: Site, ctx: Context, sig: seq<ValType>, b: Body, c: Checker, pc: nat,
      next: nat, env: seq<Target>, below: seq<Value>, s: Activation, fuel: nat) returns (n: nat)
    requires Ready(m, k, t, c, env, below, s, pc) && t.f < |m.ctxs| && ctx == m.ctxs[t.f] && ContextOk(m, t.f)
    requires c.labels[0].sig == ctx.results
    requires CheckIns(ctx, LoopIns(sig, b), c).Some? && InsOf(m, t.f, ctx, LoopIns(sig, b), c, pc)
    requires CodeAt(m, t.f, pc, LayIns(ctx, LoopIns(sig, b), c, pc, next, env))
    ensures Simulates(m, k, t, c, PushTypes(c, sig), env, below, pc + Size(b) + 1, Cfg(t, pc, s.locals, below + s.vs, s.store),
      ExecIns(m.p, m.bodies, AritiesOf(c), |ctx.results|, LoopIns(sig, b), s, fuel), fuel, n)
    decreases fuel, 3, b, 1
  {
    hide Check, Simulates, CodeAt, ModuleOk, StoreOk, ContextOk, Cfg, LayBody, CheckBody, CleanBody, ExecBody, AllLive, Size, Labels, AnyOnlyAtDeadLimit, LimitsOrdered, Run, PieceOf, InsOf, Escapes, LoopsBehind, LoopAt;
    var c1, x, r := PushLabel(c, LoopLabel, sig), Target(next, pc), s.(vs := []);
    LoopPiece(m, t.f, ctx, sig, b, c, pc);
    PushLabelKeeps(c, LoopLabel, sig);
    BodyKeeps(ctx, b, c1);
    InnerReady(m, k, t, ctx, c, c, LoopLabel, sig, env, x, below, s.vs, s, r, pc, pc);
    CodeSplit(m, t.f, pc, LayBody(ctx, b, c1, pc, next + 1, env + [x]), [EndRec(|c.types|, |sig|)]);
    CodeHead(m, t.f, pc + Size(b), EndRec(|c.types|, |sig|));
    var n1 := BodySim(m, k, t, ctx, b, c1, pc, next + 1, env + [x], below + s.vs, r, fuel);
    assert below + s.vs + [] == below + s.vs;
    ClosedHeight(ctx, c, LoopLabel, sig, CheckBody(ctx, b, c1).value);
    var start := Cfg(t, pc, s.locals, below + s.vs, s.store);
    var o := ExecBody(m.p, m.bodies, AritiesOf(c1), |ctx.results|, b, r, fuel);
    var whole := ExecIns(m.p, m.bodies, AritiesOf(c), |ctx.results|, LoopIns(sig, b), s, fuel);
    if Escapes(m, start, k, n1) {
      n := n1;
      EscapedSimulates(m, k, t, c, PushTypes(c, sig), env, below, pc + Size(b) + 1, start, whole, fuel, n);
    } else if o.Branch? && o.depth == 0 {
      BackAtLoop(m, k, t, c, sig, CheckBody(ctx, b, c1).value, env, x, below, s, pc, pc + Size(b), start, o.s, fuel, n1);
      if fuel == 0 {
        n := n1;
        LoopStarved(m, k, t, c, PushTypes(c, sig), env, below, pc + Size(b) + 1, start, pc, o.s, below + s.vs, n1);
      } else {
        var n2 := LoopSim(m, k, t, ctx, sig, b, c, pc, next, env, below, o.s.(vs := s.vs), fuel - 1);
        n := n1 + n2;
        Prefixed(m, k, t, c, PushTypes(c, sig), env, below, pc + Size(b) + 1, start,
          Cfg(t, pc, o.s.locals, below + s.vs, o.s.store), whole, fuel, fuel - 1, n1, n2);
      }
    } else {
      assert whole == LeaveBlock(s.vs, o);
      n := CloseSim(m, k, t, c, c, LoopLabel, sig, CheckBody(ctx, b, c1).value, env, x, below, s.vs, pc + Size(b), start, o, fuel, n1);
    }
  }

  lemma LoopStarved(m: Module, k: nat, t: Site, c: Checker, after: Checker, env: seq<Target>, below: seq<Value>, end: nat,
      start: Config, pc: nat, s: Activation, ops: seq<Value>, n: nat)
    requires k <= |t.frames| && n > 0 && Run(m.p, start, k, n) == Running(Cfg(t, pc, s.locals, ops, s.store))
    ensures Simulates(m, k, t, c, after, env, below, end, start, OutOfFuel, 0, n)
  {
    hide Run;
  }

  /** A branch to a loop finds the machine at the loop's first opcode with the stack it was
      entered with. */
  lemma BackAtLoop(m: Module, k: nat, t: Site, c: Checker, sig: seq<ValType>, d: Checker, env: seq<Target>, x: Target,
      below: seq<Value>, s: Activation, pc: nat, end: nat, start: Config, r: Activation, fuel: nat, n1: nat)
    requires Ready(m, k, t, c, env, below, s, pc)
    requires !Escapes(m, start, k, n1)
    requires Simulates(m, k, t, PushLabel(c, LoopLabel, sig), d, env + [x], below + s.vs, end, start, Branch(0, r), fuel, n1)
    ensures Ready(m, k, t, c, env, below, r.(vs := s.vs), pc) && n1 > 0
    ensures Run(m.p, start, k, n1) == Running(Cfg(t, x.offset, r.locals, below + s.vs, r.store))
  {
    hide Run, Cfg, ModuleOk, Escapes, LoopsBehind;
    assert LabelAt(PushLabel(c, LoopLabel, sig), 0) == Label(LoopLabel, sig, |c.types|, false);
    assert TargetAt(env + [x], 0) == x;
    assert (below + s.vs)[..|c.types|] == below + s.vs;
    var e := Run(m.p, start, k, n1).c;
    var ops := OpsOf(t, |r.locals|, e);
    assert ops[..|c.types|] == ops;
  }

  /** The condition of an `if` is popped and one of its arms is next. */
  lemma IfReady(m: Module, k: nat, t: Site, ctx: Context, sig: seq<ValType>, c: Checker, env: seq<Target>, below: seq<Value>,
      s: Activation, pc: nat)
    requires Ready(m, k, t, c, env, below, s, pc) && Check(ctx, c, If(sig)).Some?
    ensures PopTypes(c, [I32]).Some? && |s.vs| >= 1
    ensures
      var c0 := IfBase(c);
      && Valid(c0) && SameLabel(c, c0) && AllLive(c0) && c0.labels == c.labels
      && |below| + |Front(s.vs, 1)| == |c0.types|
      && Check(ctx, c, If(sig)).value == PushLabel(c0, IfLabel, sig)
  {
    IfStarts(ctx, c, sig);
    LivePop(c, [I32]);
  }

  lemma {:induction false} IfSim(m: Module, k: nat, t: Site, ctx: Context, sig: seq<ValType>, b: Body, c: Checker, pc: nat,
      next: nat, env: seq<Target>, below: seq<Value>, s: Activation, fuel: nat) returns (n: nat)
    requires Ready(m, k, t, c, env, below, s, pc) && t.f < |m.ctxs| && ctx == m.ctxs[t.f] && ContextOk(m, t.f)
    requires c.labels[0].sig == ctx.results
    requires CheckIns(ctx, IfIns(sig, b), c).Some? && InsOf(m, t.f, ctx, IfIns(sig, b), c, pc)
    requires CodeAt(m, t.f, pc, LayIns(ctx, IfIns(sig, b), c, pc, next, env))
    requires PopTypes(c, [I32]).Some?
    ensures Simulates(m, k, t, c, PushTypes(IfBase(c), sig), env, below, pc + Size(b) + 2, Cfg(t, pc, s.locals, below + s.vs, s.store),
      ExecIns(m.p, m.bodies, AritiesOf(c), |ctx.results|, IfIns(sig, b), s, fuel), fuel, n)
    decreases fuel, 3, b, 1
  {
    hide Check, Simulates, CodeAt, ModuleOk, ContextOk, Cfg, LayBody, CheckBody, CleanBody, ExecBody, AllLive, Size, Labels, AnyOnlyAtDeadLimit, LimitsOrdered, SameLabel, Step, PopTypes, PieceOf, InsOf, Escapes, LoopsBehind, LoopAt;
    IfReady(m, k, t, ctx, sig, c, env, below, s, pc);
    IfPiece(m, t.f, ctx, sig, b, c, pc);
    var c0, outer, close := IfBase(c), Front(s.vs, 1), pc + 1 + Size(b);
    var c1, x, r := PushLabel(c0, IfLabel, sig), Target(next, close), s.(vs := []);
    var arm := LayBody(ctx, b, c1, pc + 1, next + 1, env + [x]);
    var start, mid := Cfg(t, pc, s.locals, below + s.vs, s.store), Cfg(t, pc + 1, s.locals, below + outer, s.store);
    var whole := ExecIns(m.p, m.bodies, AritiesOf(c), |ctx.results|, IfIns(sig, b), s, fuel);
    CodeSplit(m, t.f, pc, [Jump(OpIf, next, close)], Closing(arm, |c0.types|, |sig|));
    CodeSplit(m, t.f, pc + 1, arm, [EndRec(|c0.types|, |sig|)]);
    CodeHead(m, t.f, pc, Jump(OpIf, next, close));
    CodeHead(m, t.f, close, EndRec(|c0.types|, |sig|));
    TestStep(m, k, t, pc, Jump(OpIf, next, close), s.locals, below, s.vs, s.store);
    BodyKeepsPushed(ctx, b, c0, IfLabel, sig);
    if AsU32(s.vs[|s.vs| - 1]) != 0 {
      InnerReady(m, k, t, ctx, c, c0, IfLabel, sig, env, x, below, outer, s, r, pc, pc + 1);
      var n1 := BodySim(m, k, t, ctx, b, c1, pc + 1, next + 1, env + [x], below + outer, r, fuel);
      assert below + outer + [] == below + outer;
      ClosedHeight(ctx, c0, IfLabel, sig, CheckBody(ctx, b, c1).value);
      var o := ExecBody(m.p, m.bodies, AritiesOf(c1), |ctx.results|, b, r, fuel);
      assert whole == LeaveBlock(outer, o);
      var n2 := CloseSim(m, k, t, c, c0, IfLabel, sig, CheckBody(ctx, b, c1).value, env, x, below, outer, close, mid, o, fuel, n1);
      n := 1 + n2;
      Prefixed(m, k, t, c, PushTypes(c0, sig), env, below, close + 1, start, mid, whole, fuel, fuel, 1, n2);
    } else {
      NoSignature(ctx, b, c0, sig);
      n := 2;
      assert outer + [] == outer;
      assert (below + outer)[..|c0.types|] == below + outer;
      EndOfBracket(m, k, t, c, c0, sig, env, below, outer, close, start, r, below + outer, fuel, 1);
    }
  }

  lemma BodyKeepsPushed(ctx: Context, b: Body, c0: Checker, kind: LabelKind, sig: seq<ValType>)
    requires Valid(c0) && !kind.FuncLabel? && CheckBody(ctx, b, PushLabel(c0, kind, sig)).Some?
    ensures Valid(PushLabel(c0, kind, sig))
    ensures
      var d := CheckBody(ctx, b, PushLabel(c0, kind, sig)).value;
      Valid(d) && SameLabel(PushLabel(c0, kind, sig), d)
  {
    PushLabelKeeps(c0, kind, sig);
    BodyKeeps(ctx, b, PushLabel(c0, kind, sig));
  }

  /** An `if` without `else` has no results. */
  lemma NoSignature(ctx: Context, b: Body, c0: Checker, sig: seq<ValType>)
    requires Valid(c0) && CheckBody(ctx, b, PushLabel(c0, IfLabel, sig)).Some?
    requires Then(ctx, CheckBody(ctx, b, PushLabel(c0, IfLabel, sig)), End).Some?
    ensures sig == []
  {
    BodyKeepsPushed(ctx, b, c0, IfLabel, sig);
  }

  lemma {:induction false} ArmSim(m: Module, k: nat, t: Site, ctx: Context, kind: LabelKind, sig: seq<ValType>, b: Body, c: Checker,
      c0: Checker, from: nat, pc: nat, next: nat, env: seq<Target>, x: Target, below: seq<Value>, outer: seq<Value>, s: Activation,
      fuel: nat) returns (n: nat)
    requires from <= pc && Ready(m, k, t, c, env, below, s, from) && t.f < |m.ctxs| && ctx == m.ctxs[t.f] && ContextOk(m, t.f)
    requires c.labels[0].sig == ctx.results && Valid(c0) && SameLabel(c, c0) && AllLive(c0)
    requires kind.IfLabel? || kind.ElseLabel?
    requires |below| + |outer| == |c0.types|
    requires CheckBody(ctx, b, PushLabel(c0, kind, sig)).Some? && PieceOf(m, t.f, ctx, b, PushLabel(c0, kind, sig), pc)
    requires CodeAt(m, t.f, pc, LayBody(ctx, b, PushLabel(c0, kind, sig), pc, next, env + [x]))
    ensures Simulates(m, k, t, PushLabel(c0, kind, sig), CheckBody(ctx, b, PushLabel(c0, kind, sig)).value, env + [x],
      below + outer, pc + Size(b), Cfg(t, pc, s.locals, below + outer, s.store),
      ExecBody(m.p, m.bodies, AritiesOf(c) + [|sig|], |ctx.results|, b, s.(vs := []), fuel), fuel, n)
    decreases fuel, 3, b, 1
  {
    hide Simulates, CodeAt, Check, Cfg, LayBody, CleanBody, ExecBody, CheckBody, Valid, AllLive, Run, Size, ModuleOk, ContextOk, AritiesOf, PieceOf, InsOf, Escapes, LoopsBehind, LoopAt;
    var r := s.(vs := []);
    InnerReady(m, k, t, ctx, c, c0, kind, sig, env, x, below, outer, s, r, from, pc);
    n := BodySim(m, k, t, ctx, b, PushLabel(c0, kind, sig), pc, next, env + [x], below + outer, r, fuel);
    assert below + outer + [] == below + outer;
  }

  /** The first arm ends with a jump over the second. */
  lemma OverElse(m: Module, k: nat, t: Site, c: Checker, d: Checker, env: seq<Target>, below: seq<Value>, mid: nat, close: nat,
      id: nat, start: Config, o: Outcome, fuel: nat, n1: nat) returns (n: nat)
    requires k <= |t.frames| && t.f < |m.p.funcs| && m.p.funcs[t.f].WasmFunc?
    requires mid < |m.p.funcs[t.f].code| && m.p.funcs[t.f].code[mid] == Jump(OpElse, id, close)
    requires Simulates(m, k, t, c, d, env, below, mid, start, o, fuel, n1)
    ensures Simulates(m, k, t, c, d, env, below, close, start, o, fuel, n)
  {
    n := n1;
    if o.Normal? && !Escapes(m, start, k, n1) {
      n := n1 + 1;
      GotoStep(m, k, t, mid, Jump(OpElse, id, close), o.s.locals, below + o.s.vs, o.s.store);
      RunCompose(m.p, start, k, n1, 1);
      hide Cfg, Run, Escapes;
    } else {
      hide Cfg, Run, Inside, Escapes;
    }
  }

  lemma {:induction false} IfElseSim(m: Module, k: nat, t: Site, ctx: Context, sig: seq<ValType>, b1: Body, b2: Body, c: Checker,
      pc: nat, next: nat, env: seq<Target>, below: seq<Value>, s: Activation, fuel: nat) returns (n: nat)
    requires Ready(m, k, t, c, env, below, s, pc) && t.f < |m.ctxs| && ctx == m.ctxs[t.f] && ContextOk(m, t.f)
    requires c.labels[0].sig == ctx.results
    requires CheckIns(ctx, IfElseIns(sig, b1, b2), c).Some? && InsOf(m, t.f, ctx, IfElseIns(sig, b1, b2), c, pc)
    requires CodeAt(m, t.f, pc, LayIns(ctx, IfElseIns(sig, b1, b2), c, pc, next, env))
    requires PopTypes(c, [I32]).Some?
    ensures Simulates(m, k, t, c, PushTypes(IfBase(c), sig), env, below, pc + SizeIns(IfElseIns(sig, b1, b2)),
      Cfg(t, pc, s.locals, below + s.vs, s.store),
      ExecIns(m.p, m.bodies, AritiesOf(c), |ctx.results|, IfElseIns(sig, b1, b2), s, fuel), fuel, n)
    decreases fuel, 3, IfElseIns(sig, b1, b2), 0
  {
    hide Check, Simulates, CodeAt, ModuleOk, ContextOk, Cfg, LayBody, CheckBody, CleanBody, CleanIns, ExecBody, AllLive, Labels, AnyOnlyAtDeadLimit, LimitsOrdered, SameLabel, Run, PopTypes, LayIns, StoreOk, PieceOf, InsOf, Escapes, LoopsBehind, LoopAt;
    IfReady(m, k, t, ctx, sig, c, env, below, s, pc);
    var c0, outer := IfBase(c), Front(s.vs, 1);
    var mid := pc + 1 + Size(b1);
    var close := mid + 1 + Size(b2);
    var x := Target(next, close);
    var start := Cfg(t, pc, s.locals, below + s.vs, s.store);
    IfElseParts(m, t, ctx, sig, b1, b2, c, pc, next, env);
    TestStep(m, k, t, pc, Jump(OpIf, next, mid + 1), s.locals, below, s.vs, s.store);
    var whole := ExecIns(m.p, m.bodies, AritiesOf(c), |ctx.results|, IfElseIns(sig, b1, b2), s, fuel);
    if AsU32(s.vs[|s.vs| - 1]) != 0 {
      var n1 := ArmSim(m, k, t, ctx, IfLabel, sig, b1, c, c0, pc, pc + 1, next + 1, env, x, below, outer, s, fuel);
      var d := CheckBody(ctx, b1, PushLabel(c0, IfLabel, sig)).value;
      var o := ExecBody(m.p, m.bodies, AritiesOf(c) + [|sig|], |ctx.results|, b1, s.(vs := []), fuel);
      assert whole == LeaveBlock(outer, o);
      var n2 := OverElse(m, k, t, PushLabel(c0, IfLabel, sig), d, env + [x], below + outer, mid, close, next,
        Cfg(t, pc + 1, s.locals, below + outer, s.store), o, fuel, n1);
      var n3 := CloseSim(m, k, t, c, c0, IfLabel, sig, d, env, x, below, outer, close,
        Cfg(t, pc + 1, s.locals, below + outer, s.store), o, fuel, n2);
      n := 1 + n3;
      Prefixed(m, k, t, c, PushTypes(c0, sig), env, below, close + 1, start, Cfg(t, pc + 1, s.locals, below + outer, s.store),
        whole, fuel, fuel, 1, n3);
    } else {
      var n1 := ArmSim(m, k, t, ctx, ElseLabel, sig, b2, c, c0, pc, mid + 1, next + 1 + Labels(b1), env, x, below, outer, s, fuel);
      var d := CheckBody(ctx, b2, PushLabel(c0, ElseLabel, sig)).value;
      var o := ExecBody(m.p, m.bodies, AritiesOf(c) + [|sig|], |ctx.results|, b2, s.(vs := []), fuel);
      assert whole == LeaveBlock(outer, o);
      var n2 := CloseSim(m, k, t, c, c0, ElseLabel, sig, d, env, x, below, outer, close,
        Cfg(t, mid + 1, s.locals, below + outer, s.store), o, fuel, n1);
      n := 1 + n2;
      Prefixed(m, k, t, c, PushTypes(c0, sig), env, below, close + 1, start, Cfg(t, mid + 1, s.locals, below + outer, s.store),
        whole, fuel, fuel, 1, n2);
    }
  }

  /** The pieces of a two-armed `if`: where they lie and how high they end. */
  lemma {:induction false} IfElseParts(m: Module, t: Site, ctx: Context, sig: seq<ValType>, b1: Body, b2: Body, c: Checker,
      pc: nat, next: nat, env: seq<Target>)
    requires Valid(c) && CheckIns(ctx, IfElseIns(sig, b1, b2), c).Some? && InsOf(m, t.f, ctx, IfElseIns(sig, b1, b2), c, pc)
    requires PopTypes(c, [I32]).Some? && Check(ctx, c, If(sig)) == Some(PushLabel(IfBase(c), IfLabel, sig)) && Valid(IfBase(c))
    requires CodeAt(m, t.f, pc, LayIns(ctx, IfElseIns(sig, b1, b2), c, pc, next, env))
    ensures
      var c0 := IfBase(c);
      var c1, c2 := PushLabel(c0, IfLabel, sig), PushLabel(c0, ElseLabel, sig);
      var mid := pc + 1 + Size(b1);
      var close := mid + 1 + Size(b2);
      var inner, code := env + [Target(next, close)], m.p.funcs[t.f].code;
      && CheckBody(ctx, b1, c1).Some? && PieceOf(m, t.f, ctx, b1, c1, pc + 1)
      && CheckBody(ctx, b2, c2).Some? && PieceOf(m, t.f, ctx, b2, c2, mid + 1)
      && (AllLive(CheckBody(ctx, b1, c1).value) ==> |CheckBody(ctx, b1, c1).value.types| == |c0.types| + |sig|)
      && (AllLive(CheckBody(ctx, b2, c2).value) ==> |CheckBody(ctx, b2, c2).value.types| == |c0.types| + |sig|)
      && close < |code| && code[pc] == Jump(OpIf, next, mid + 1) && code[mid] == Jump(OpElse, next, close)
      && code[close] == EndRec(|c0.types|, |sig|)
      && CodeAt(m, t.f, pc + 1, LayBody(ctx, b1, c1, pc + 1, next + 1, inner))
      && CodeAt(m, t.f, mid + 1, LayBody(ctx, b2, c2, mid + 1, next + 1 + Labels(b1), inner))
  {
    hide Check, CodeAt, LayBody, LayIns, PopTypes, PieceOf, InsOf;
    IfElsePieces(m, t.f, ctx, sig, b1, b2, c, pc);
    var c0 := IfBase(c);
    var c1, c2 := PushLabel(c0, IfLabel, sig), PushLabel(c0, ElseLabel, sig);
    BodyKeepsPushed(ctx, b1, c0, IfLabel, sig);
    ElseRestarts(ctx, b1, c0, sig);
    BodyKeepsPushed(ctx, b2, c0, ElseLabel, sig);
    var d := CheckBody(ctx, b1, c1).value;
    if AllLive(d) { LiveElse(ctx, d); }
    ClosedHeight(ctx, c0, ElseLabel, sig, CheckBody(ctx, b2, c2).value);
    IfElseCodeAt(m, t, ctx, sig, b1, b2, c, c1, c2, pc, next, env);
  }

  lemma {:induction false} IfElseCodeAt(m: Module, t: Site, ctx: Context, sig: seq<ValType>, b1: Body, b2: Body, c: Checker,
      c1: Checker, c2: Checker, pc: nat, next: nat, env: seq<Target>)
    requires CheckIns(ctx, IfElseIns(sig, b1, b2), c).Some? && Check(ctx, c, If(sig)) == Some(c1)
    requires CheckBody(ctx, b1, c1).Some? && Then(ctx, CheckBody(ctx, b1, c1), Else) == Some(c2) && CheckBody(ctx, b2, c2).Some?
    requires CodeAt(m, t.f, pc, LayIns(ctx, IfElseIns(sig, b1, b2), c, pc, next, env))
    ensures
      var mid := pc + 1 + Size(b1);
      var close := mid + 1 + Size(b2);
      var inner, code := env + [Target(next, close)], m.p.funcs[t.f].code;
      && close < |code| && code[pc] == Jump(OpIf, next, mid + 1) && code[mid] == Jump(OpElse, next, close)
      && code[close] == EndRec(|c1.types|, |sig|)
      && CodeAt(m, t.f, pc + 1, LayBody(ctx, b1, c1, pc + 1, next + 1, inner))
      && CodeAt(m, t.f, mid + 1, LayBody(ctx, b2, c2, mid + 1, next + 1 + Labels(b1), inner))
  {
    hide Check, CodeAt, LayBody, CheckBody, CleanBody, Size;
    var mid := pc + 1 + Size(b1);
    var close := mid + 1 + Size(b2);
    var inner := env + [Target(next, close)];
    var arm1, arm2 := LayBody(ctx, b1, c1, pc + 1, next + 1, inner), LayBody(ctx, b2, c2, mid + 1, next + 1 + Labels(b1), inner);
    assert LayIns(ctx, IfElseIns(sig, b1, b2), c, pc, next, env) == TwoArms(arm1, arm2, pc, next, |c1.types|, |sig|);
    TwoArmsAt(m, t.f, arm1, arm2, pc, next, |c1.types|, |sig|);
  }

  lemma TwoArmsAt(m: Module, f: nat, arm1: seq<Rec>, arm2: seq<Rec>, pc: nat, id: nat, h: nat, r: nat)
    requires CodeAt(m, f, pc, TwoArms(arm1, arm2, pc, id, h, r))
    ensures
      var mid := pc + 1 + |arm1|;
      var close, code := mid + 1 + |arm2|, m.p.funcs[f].code;
      && close < |code| && code[pc] == Jump(OpIf, id, mid + 1) && code[mid] == Jump(OpElse, id, close) && code[close] == EndRec(h, r)
      && CodeAt(m, f, pc + 1, arm1) && CodeAt(m, f, mid + 1, arm2)
  {
    var mid := pc + 1 + |arm1|;
    var close := mid + 1 + |arm2|;
    hide CodeAt;
    var one, two := [Jump(OpIf, id, mid + 1)], [Jump(OpElse, id, close)];
    assert TwoArms(arm1, arm2, pc, id, h, r) == one + arm1 + two + (arm2 + [EndRec(h, r)]);
    CodeSplit(m, f, pc, one + arm1 + two, arm2 + [EndRec(h, r)]);
    CodeSplit(m, f, pc, one + arm1, two);
    CodeSplit(m, f, pc, one, arm1);
    CodeSplit(m, f, mid + 1, arm2, [EndRec(h, r)]);
    CodeHead(m, f, pc, one[0]);
    CodeHead(m, f, mid, two[0]);
    CodeHead(m, f, close, EndRec(h, r));
  }

  lemma {:induction false} InsSim(m: Module, k: nat, t: Site, ctx: Context, ins: Ins, c: Checker, pc: nat, next: nat,
      env: seq<Target>, below: seq<Value>, s: Activation, fuel: nat) returns (n: nat)
    requires Ready(m, k, t, c, env, below, s, pc) && t.f < |m.ctxs| && ctx == m.ctxs[t.f] && ContextOk(m, t.f)
    requires c.labels[0].sig == ctx.results
    requires CheckIns(ctx, ins, c).Some? && InsOf(m, t.f, ctx, ins, c, pc) && CodeAt(m, t.f, pc, LayIns(ctx, ins, c, pc, next, env))
    ensures Simulates(m, k, t, c, CheckIns(ctx, ins, c).value, env, below, pc + SizeIns(ins),
      Cfg(t, pc, s.locals, below + s.vs, s.store),
      ExecIns(m.p, m.bodies, AritiesOf(c), |ctx.results|, ins, s, fuel), fuel, n)
    decreases fuel, 3, ins, 1
  {
    hide Check, Cfg, Simulates, CodeAt, Valid, ModuleOk, ContextOk, Tidy, LoopAt, LoopsBehind, LoopAt;
    InsKeeps(ctx, ins, c);
    match ins
    case Plain(i) => n := PlainSim(m, k, t, ctx, i, c, pc, env, below, s, fuel);
    case BlockIns(sig, b) => n := BlockSim(m, k, t, ctx, sig, b, c, pc, next, env, below, s, fuel);
    case LoopIns(sig, b) => n := LoopSim(m, k, t, ctx, sig, b, c, pc, next, env, below, s, fuel);
    case IfIns(sig, b) => n := IfSim(m, k, t, ctx, sig, b, c, pc, next, env, below, s, fuel);
    case IfElseIns(sig, b1, b2) => n := IfElseSim(m, k, t, ctx, sig, b1, b2, c, pc, next, env, below, s, fuel);
  }

  /* ---- functions ---- */

  function LocalsFor(m: Module, f: nat, args: seq<Value>): seq<Value>
    requires f < |m.p.funcs| && m.p.funcs[f].WasmFunc? && |args| <= |m.p.funcs[f].locals|
  {
    args + ZeroLocals(m.p.funcs[f].locals[|args|..])
  }

  /** The end of the code: falling off it returns the function's results. */
  lemma LeaveSim(m: Module, k: nat, t: Site, locals: seq<Value>, ops: seq<Value>, s: Activation, start: Config, n1: nat)
    requires k <= |t.frames| && t.f < |m.p.funcs| && m.p.funcs[t.f].WasmFunc? && StoreOk(m, s.store)
    requires |s.vs| == |m.p.funcs[t.f].sig.results| <= |ops| && Last(ops, |s.vs|) == s.vs
    requires Run(m.p, start, k, n1) == Running(Cfg(t, |m.p.funcs[t.f].code|, locals, ops, s.store))
    ensures Leaves(m, t, s, Run(m.p, start, k, n1 + 1))
  {
    hide PopCall, StoreOk;
    var pc := |m.p.funcs[t.f].code|;
    Shape(t, pc, locals, ops, s.store);
    PopStep(t, pc, locals, ops, s.store, |s.vs|);
    RunThenStep(m.p, start, k, n1);
  }

  lemma {:induction false} FuncSim(m: Module, k: nat, t: Site, args: seq<Value>, store: Shared, fuel: nat) returns (n: nat)
    requires ModuleOk(m) && k <= |t.frames| && t.f < |m.p.funcs| && m.p.funcs[t.f].WasmFunc? && StoreOk(m, store)
    requires |args| == |m.p.funcs[t.f].sig.params| <= |m.p.funcs[t.f].locals|
    ensures FuncSimulates(m, k, t, Cfg(t, 0, LocalsFor(m, t.f, args), [], store),
      ExecFunc(m.p, m.bodies, t.f, args, store, fuel), fuel, n)
    decreases fuel, 4
  {
    hide ModuleOk, ContextOk, Simulates, CheckBody, CleanBody, LayBody, ExecBody, AllLive, Valid, Run, Cfg, CodeAt, StoreOk, Ready, Size, SameLabel, PieceOf, Escapes;
    var s := Activation(LocalsFor(m, t.f, args), [], store);
    FunctionReady(m, k, t, s);
    var ctx, fn, b := m.ctxs[t.f], m.p.funcs[t.f], m.bodies[t.f];
    var c, env := BeginFunction(ctx), [Target(0, Size(b))];
    n := BodySim(m, k, t, ctx, b, c, 0, 1, env, [], s, fuel);
    assert [] + s.vs == [];
    n := FunctionEnds(m, k, t, ctx, c, CheckBody(ctx, b, c).value, env, Cfg(t, 0, s.locals, [], store),
      ExecBody(m.p, m.bodies, AritiesOf(c), |ctx.results|, b, s, fuel), fuel, n);
  }

  lemma FunctionReady(m: Module, k: nat, t: Site, s: Activation)
    requires ModuleOk(m) && k <= |t.frames| && t.f < |m.p.funcs| && m.p.funcs[t.f].WasmFunc? && StoreOk(m, s.store)
    requires |s.locals| == |m.p.funcs[t.f].locals| && s.vs == []
    ensures t.f < |m.ctxs| && t.f < |m.bodies| && Compiled(m, t.f)
    ensures PieceOf(m, t.f, m.ctxs[t.f], m.bodies[t.f], BeginFunction(m.ctxs[t.f]), 0)
    ensures
      var ctx, b := m.ctxs[t.f], m.bodies[t.f];
      var c, env := BeginFunction(ctx), [Target(0, Size(b))];
      && ctx.results == m.p.funcs[t.f].sig.results
      && Ready(m, k, t, c, env, [], s, 0) && AritiesOf(c) == [|m.p.funcs[t.f].sig.results|]
      && CodeAt(m, t.f, 0, LayBody(ctx, b, c, 0, 1, env))
      && (AllLive(CheckBody(ctx, b, c).value) ==> |CheckBody(ctx, b, c).value.types| == |ctx.results|)
  {
    hide CheckBody, LayBody, CleanBody, GoodHost, PlainCallees, PartOf;
    assert FuncOk(m, t.f);
    assert Tidy(m) ==> CleanFunc(m, t.f);
    WholePart(Tidy(m), m.ctxs[t.f], m.bodies[t.f]);
    var ctx, b := m.ctxs[t.f], m.bodies[t.f];
    var c := BeginFunction(ctx);
    BeginFunctionValid(ctx);
    var code := m.p.funcs[t.f].code;
    assert code[0..|code|] == code;
    BodyKeeps(ctx, b, c);
    var d := CheckBody(ctx, b, c).value;
    if AllLive(d) { LiveEnd(ctx, d); }
  }

  lemma LeftSimulates(m: Module, k: nat, t: Site, start: Config, s: Activation, fuel: nat, n: nat)
    requires n > 0 && Leaves(m, t, s, Run(m.p, start, k, n))
    ensures FuncSimulates(m, k, t, start, Returned(s), fuel, n)
  {
    hide Run, Leaves, Escapes;
  }

  /** Falling off the end, or branching to the function's own label. */
  lemma EndLeaves(m: Module, k: nat, t: Site, ctx: Context, d: Checker, start: Config, o: Outcome, fuel: nat, n1: nat)
    requires k <= |t.frames| && t.f < |m.p.funcs| && m.p.funcs[t.f].WasmFunc? && ctx.results == m.p.funcs[t.f].sig.results
    requires AllLive(d) ==> |d.types| == |ctx.results|
    requires o.Normal? || (o.Branch? && o.depth == 0)
    requires Simulates(m, k, t, BeginFunction(ctx), d, [Target(0, |m.p.funcs[t.f].code|)], [], |m.p.funcs[t.f].code|, start, o, fuel, n1)
    requires !Escapes(m, start, k, n1)
    ensures FuncSimulates(m, k, t, start, Returned(o.s), fuel, n1 + 1)
  {
    hide Escapes, Run, Leaves, AllLive, Cfg, StoreOk;
    if o.Normal? {
      assert [] + o.s.vs == o.s.vs;
      assert Last(o.s.vs, |o.s.vs|) == o.s.vs;
      LeaveSim(m, k, t, o.s.locals, o.s.vs, o.s, start, n1);
    } else {
      var e := Run(m.p, start, k, n1).c;
      assert LabelAt(BeginFunction(ctx), 0) == BeginFunction(ctx).labels[0];
      LeaveSim(m, k, t, o.s.locals, OpsOf(t, |o.s.locals|, e), o.s, start, n1);
    }
    LeftSimulates(m, k, t, start, o.s, fuel, n1 + 1);
  }

  lemma FunctionEnds(m: Module, k: nat, t: Site, ctx: Context, c: Checker, d: Checker, env: seq<Target>, start: Config,
      o: Outcome, fuel: nat, n1: nat) returns (n: nat)
    requires k <= |t.frames| && t.f < |m.p.funcs| && m.p.funcs[t.f].WasmFunc? && ctx.results == m.p.funcs[t.f].sig.results
    requires c == BeginFunction(ctx) && env == [Target(0, |m.p.funcs[t.f].code|)]
    requires AllLive(d) ==> |d.types| == |ctx.results|
    requires Simulates(m, k, t, c, d, env, [], |m.p.funcs[t.f].code|, start, o, fuel, n1)
    ensures
      var r := match o
        case Normal(s) => Returned(s)
        case Branch(q, s) => if q == 0 then Returned(s) else Wrong
        case Returned(s) => Returned(s)
        case Failed(trap, st) => Failed(trap, st)
        case OutOfFuel => OutOfFuel
        case Wrong => Wrong;
      FuncSimulates(m, k, t, start, r, fuel, n)
  {
    hide Escapes, Run, Leaves, AllLive, Arrives, Inside;
    n := n1;
    if !Escapes(m, start, k, n1) && (o.Normal? || o.Branch?) {
      assert o.Branch? ==> o.depth < 1;
      EndLeaves(m, k, t, ctx, d, start, o, fuel, n1);
      n := n1 + 1;
    }
  }
}
