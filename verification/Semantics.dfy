/** The structured semantics of sections 4.4.5 and 4.4.6 of the WebAssembly Core Specification
    1.0: blocks have operand stacks of their own, a branch carries the values its label wants
    and unwinds, a call is a recursive evaluation. `fuel` bounds loop iterations and call depth
    along any path; nothing else consumes it. */
module Semantics {
  import opened Wasm
  import opened LinearMemory
  import opened Machine

  /** Locals of the current function, operands of the innermost block, and the store. */
  datatype Activation = Activation(locals: seq<Value>, vs: seq<Value>, store: Shared)

  /** `Branch(d, s)`: on its way to the d-th enclosing label with values `s.vs`.
      `Wrong` never happens to a valid program. */
  datatype Outcome =
    | Normal(s: Activation)
    | Branch(depth: nat, s: Activation)
    | Returned(s: Activation)
    | Failed(trap: Trap, store: Shared)
    | OutOfFuel
    | Wrong

  function Zero(ty: ValType): Value {
    Value(ty, 0)
  }

  function ZeroLocals(tys: seq<ValType>): (r: seq<Value>)
    ensures |r| == |tys|
  {
    seq(|tys|, k requires 0 <= k < |tys| => Zero(tys[k]))
  }

  function Push(s: Activation, v: Value): Outcome {
    Normal(s.(vs := s.vs + [v]))
  }

  /** Instructions that neither branch nor call. */
  function ExecOp(p: Program, i: Instr, s: Activation): Outcome {
    var n := |s.vs|;
    match i
    case Nop => Normal(s)
    case Unreachable => Failed(UnreachableExecuted, s.store)
    case Drop => if n < 1 then Wrong else Normal(s.(vs := Front(s.vs, 1)))
    case Select =>
      if n < 3 then Wrong
      else
        var first, second, cond := s.vs[n - 3], s.vs[n - 2], s.vs[n - 1];
        Normal(s.(vs := Front(s.vs, 3) + [if AsU32(cond) == 0 then second else first]))
    case GetLocal(x) => if x >= |s.locals| then Wrong else Push(s, s.locals[x])
    case SetLocal(x) =>
      if x >= |s.locals| || n < 1 then Wrong
      else Normal(s.(vs := Front(s.vs, 1), locals := s.locals[x := s.vs[n - 1]]))
    case TeeLocal(x) =>
      if x >= |s.locals| || n < 1 then Wrong else Normal(s.(locals := s.locals[x := s.vs[n - 1]]))
    case GetGlobal(x) => if x >= |s.store.globals| then Wrong else Push(s, s.store.globals[x])
    case SetGlobal(x) =>
      if x >= |s.store.globals| || n < 1 then Wrong
      else
        var st := s.store.(globals := s.store.globals[x := s.vs[n - 1]]);
        Normal(s.(vs := Front(s.vs, 1), store := st))
    case Load(access, _, offset) =>
      if n < 1 then Wrong
      else (match LoadFrom(s.store.mem, AsU32(s.vs[n - 1]), offset, access)
            case None => Failed(MemoryAccessOutOfBounds, s.store)
            case Some(v) => Push(s.(vs := Front(s.vs, 1)), v))
    case Store(access, _, offset) =>
      if n < 2 then Wrong
      else (match StoreTo(s.store.mem, AsU32(s.vs[n - 2]), offset, access, s.vs[n - 1])
            case None => Failed(MemoryAccessOutOfBounds, s.store)
            case Some(m) => Normal(s.(vs := Front(s.vs, 2), store := s.store.(mem := m))))
    case CurrentMemory => Push(s, U32(s.store.mem.pages))
    case GrowMemory =>
      if n < 1 then Wrong else ExecGrow(s.(vs := Front(s.vs, 1)), AsU32(s.vs[n - 1]))
    case Const(v) => Push(s, v)
    case Numeric(op) =>
      if n < |op.params| then Wrong
      else (match p.numeric(op, Last(s.vs, |op.params|))
            case NumTrap(t) => Failed(t, s.store)
            case NumOk(bits) => Push(s.(vs := Front(s.vs, |op.params|)), Value(op.result, bits)))
    case _ => Wrong
  }

  /** `memory.grow` over exact page counts: it fails, pushing -1, when the sum would exceed the
      limit or what 32 bits can address. */
  function ExecGrow(s: Activation, delta: nat): Outcome {
    var m := s.store.mem;
    var pages := m.pages + delta;
    if (m.max.Some? && pages > m.max.value) || pages >= MAX_PAGES then Push(s, Value(I32, TWO32 - 1))
    else
      var grown := Memory(m.bytes + Zeros(delta * PAGE_SIZE), pages, m.max);
      Push(s.(store := s.store.(mem := grown)), U32(m.pages))
  }

  /** Arity of the label `depth` levels out; `arities` has the innermost last. */
  function BranchTo(arities: seq<nat>, depth: nat, s: Activation): Outcome {
    if depth >= |arities| then Wrong
    else
      var n := arities[|arities| - 1 - depth];
      if |s.vs| < n then Wrong else Branch(depth, s.(vs := Last(s.vs, n)))
  }

  /** Leaving a block entered with operands `outer` below it. */
  function LeaveBlock(outer: seq<Value>, o: Outcome): Outcome {
    match o
    case Normal(t) => Normal(t.(vs := outer + t.vs))
    case Branch(d, t) => if d == 0 then Normal(t.(vs := outer + t.vs)) else Branch(d - 1, t)
    case _ => o
  }

  datatype Callee = Found(f: nat) | NotFound(trap: Trap) | NoSuchType

  /** The function that `entry` of the table refers to, if it has the type asked for. */
  function Lookup(p: Program, entry: nat, sig: nat): Callee {
    if sig >= |p.types| then NoSuchType
    else if entry >= |p.table| then NotFound(UndefinedTableIndex)
    else if p.table[entry] == INVALID_INDEX then NotFound(UninitializedTableElement)
    else if p.table[entry] >= |p.funcs| || p.funcs[p.table[entry]].sig != p.types[sig] then
      NotFound(IndirectCallSignatureMismatch)
    else Found(p.table[entry])
  }

  function ExecPlain(p: Program, bodies: seq<Body>, arities: seq<nat>, results: nat, i: Instr, s: Activation, fuel: nat): Outcome
    decreases fuel, 1
  {
    var n := |s.vs|;
    match i
    case Br(d) => BranchTo(arities, d, s)
    case BrIf(d) =>
      if n < 1 then Wrong
      else
        var t := s.(vs := Front(s.vs, 1));
        if AsU32(s.vs[n - 1]) != 0 then BranchTo(arities, d, t) else Normal(t)
    case BrTable(ds, d) =>
      if n < 1 then Wrong
      else
        var key, t := AsU32(s.vs[n - 1]), s.(vs := Front(s.vs, 1));
        BranchTo(arities, if key < |ds| then ds[key] else d, t)
    case Return => if n < results then Wrong else Returned(s.(vs := Last(s.vs, results)))
    case Call(f) => ExecCall(p, bodies, f, s, fuel)
    case CallIndirect(sig) =>
      if n < 1 then Wrong
      else
        (match Lookup(p, AsU32(s.vs[n - 1]), sig)
         case Found(f) => ExecCall(p, bodies, f, s.(vs := Front(s.vs, 1)), fuel)
         case NotFound(t) => Failed(t, s.store)
         case NoSuchType => Wrong)
    case _ => ExecOp(p, i, s)
  }

  function ExecCall(p: Program, bodies: seq<Body>, f: nat, s: Activation, fuel: nat): Outcome
    decreases fuel, 0
  {
    if f >= |p.funcs| || |s.vs| < |p.funcs[f].sig.params| then Wrong
    else
      var k := |p.funcs[f].sig.params|;
      var args, rest := Last(s.vs, k), Front(s.vs, k);
      match p.funcs[f]
      case HostFunc(_, id) =>
        (match p.host(id, args, s.store)
         case HostFail(st) => Failed(HostTrapped, st)
         case HostOk(rs, st) => Normal(s.(vs := rest + rs, store := st)))
      case WasmFunc(_, _, _) =>
        if fuel == 0 then OutOfFuel
        else
          (match ExecFunc(p, bodies, f, args, s.store, fuel - 1)
           case Returned(t) => Normal(s.(vs := rest + t.vs, store := t.store))
           case Failed(t, st) => Failed(t, st)
           case OutOfFuel => OutOfFuel
           case _ => Wrong)
  }

  /** The body of a function runs inside a label of its own; its locals are the arguments and
      then zeros. The outcome is never `Normal` or `Branch`. */
  function ExecFunc(p: Program, bodies: seq<Body>, f: nat, args: seq<Value>, store: Shared, fuel: nat): Outcome
    decreases fuel, 3
  {
    if f >= |p.funcs| || f >= |bodies| || !p.funcs[f].WasmFunc? || |args| != |p.funcs[f].sig.params| ||
       |p.funcs[f].locals| < |args| then Wrong
    else
      var fn := p.funcs[f];
      var s := Activation(args + ZeroLocals(fn.locals[|args|..]), [], store);
      match ExecBody(p, bodies, [|fn.sig.results|], |fn.sig.results|, bodies[f], s, fuel)
      case Normal(t) => Returned(t)
      case Branch(d, t) => if d == 0 then Returned(t) else Wrong
      case Returned(t) => Returned(t)
      case Failed(t, st) => Failed(t, st)
      case OutOfFuel => OutOfFuel
      case Wrong => Wrong
  }

  function ExecIns(p: Program, bodies: seq<Body>, arities: seq<nat>, results: nat, ins: Ins, s: Activation, fuel: nat): Outcome
    decreases fuel, 2, ins
  {
    match ins
    case Plain(i) => ExecPlain(p, bodies, arities, results, i, s, fuel)
    case BlockIns(sig, b) =>
      LeaveBlock(s.vs, ExecBody(p, bodies, arities + [|sig|], results, b, s.(vs := []), fuel))
    case LoopIns(sig, b) =>
      (match ExecBody(p, bodies, arities + [0], results, b, s.(vs := []), fuel)
       case Branch(d, t) =>
         if d > 0 then Branch(d - 1, t)
         else if fuel == 0 then OutOfFuel
         else ExecIns(p, bodies, arities, results, ins, t.(vs := s.vs), fuel - 1)
       case Normal(t) => Normal(t.(vs := s.vs + t.vs))
       case Returned(t) => Returned(t)
       case Failed(t, st) => Failed(t, st)
       case OutOfFuel => OutOfFuel
       case Wrong => Wrong)
    case IfIns(sig, b) =>
      if |s.vs| < 1 then Wrong
      else
        var cond, outer := s.vs[|s.vs| - 1], Front(s.vs, 1);
        if AsU32(cond) != 0 then
          LeaveBlock(outer, ExecBody(p, bodies, arities + [|sig|], results, b, s.(vs := []), fuel))
        else Normal(s.(vs := outer))
    case IfElseIns(sig, b1, b2) =>
      if |s.vs| < 1 then Wrong
      else
        var cond, outer := s.vs[|s.vs| - 1], Front(s.vs, 1);
        LeaveBlock(outer,
          if AsU32(cond) != 0 then ExecBody(p, bodies, arities + [|sig|], results, b1, s.(vs := []), fuel)
          else ExecBody(p, bodies, arities + [|sig|], results, b2, s.(vs := []), fuel))
  }

  function ExecBody(p: Program, bodies: seq<Body>, arities: seq<nat>, results: nat, b: Body, s: Activation, fuel: nat): Outcome
    decreases fuel, 2, b
  {
    match b
    case Nil => Normal(s)
    case Cons(h, t) =>
      match ExecIns(p, bodies, arities, results, h, s, fuel)
      case Normal(s1) => ExecBody(p, bodies, arities, results, t, s1, fuel)
      case Branch(d, s1) => Branch(d, s1)
      case Returned(s1) => Returned(s1)
      case Failed(t1, st) => Failed(t1, st)
      case OutOfFuel => OutOfFuel
      case Wrong => Wrong
  }
}
