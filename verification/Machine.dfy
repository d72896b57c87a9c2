/** The flat-code machine on values: one value stack shared by all frames, an explicit call
    stack, and one step for each turn of the dispatch loop. */
module Machine {
  import opened Wasm
  import opened Reading
  import opened LinearMemory

  datatype Trap =
    | MemoryAccessOutOfBounds
    | IntegerOverflow
    | IntegerDivideByZero
    | InvalidConversionToInteger
    | UndefinedTableIndex
    | UninitializedTableElement
    | UnreachableExecuted
    | IndirectCallSignatureMismatch
    | CallStackExhausted
    | ValueStackExhausted
    | HostTrapped
    | PageCountWrapped  // not a trap of the original: the page count of a memory wrapped

  datatype NumericResult = NumOk(bits: nat) | NumTrap(trap: Trap)

  /** Globals and memory: what all frames share besides the value stack. */
  datatype Shared = Shared(globals: seq<Value>, mem: Memory)

  datatype HostResult = HostOk(results: seq<Value>, store: Shared) | HostFail(store: Shared)

  /** `locals` lists the types of the parameters and then of the declared locals. */
  datatype Func =
    | WasmFunc(sig: Signature, locals: seq<ValType>, code: seq<Rec>)
    | HostFunc(sig: Signature, id: nat)

  /** A linked module with its thread's stack sizes. Numeric opcodes and host functions are
      parameters: what they compute is outside the machine. */
  datatype Program = Program(
    funcs: seq<Func>,
    types: seq<Signature>,
    table: seq<nat>,
    valueStackSize: nat,
    callStackSize: nat,
    numeric: (NumericOp, seq<Value>) -> NumericResult,
    host: (nat, seq<Value>, Shared) -> HostResult)

  /** `CallStackFrame`: `locals` is an index into the value stack, `pos` one into the code. */
  datatype Frame = Frame(func: nat, locals: nat, pos: nat)

  datatype Config = Config(stack: seq<Value>, frames: seq<Frame>, store: Shared)

  /** `Stuck` is everything the dispatch loop leaves undefined: popping an empty value stack, results
      taken from below where they go, an index outside the module, a record never executed. */
  datatype State = Running(c: Config) | Trapped(trap: Trap, c: Config) | Stuck

  function TopFrame(c: Config): Frame
    requires |c.frames| > 0
  {
    c.frames[|c.frames| - 1]
  }

  function SetPos(c: Config, pos: nat): Config
    requires |c.frames| > 0
  {
    c.(frames := c.frames[|c.frames| - 1 := TopFrame(c).(pos := pos)])
  }

  function Next(c: Config): Config
    requires |c.frames| > 0
  {
    SetPos(c, TopFrame(c).pos + 1)
  }

  function Last<T>(s: seq<T>, n: nat): seq<T>
    requires n <= |s|
  {
    s[|s| - n..]
  }

  function Front<T>(s: seq<T>, n: nat): seq<T>
    requires n <= |s|
  {
    s[..|s| - n]
  }

  /** `Push`, then the next opcode. */
  function PushNext(p: Program, c: Config, v: Value): State
    requires |c.frames| > 0
  {
    if |c.stack| >= p.valueStackSize then Trapped(ValueStackExhausted, c)
    else Running(Next(c.(stack := c.stack + [v])))
  }

  /** `StoreResult`: the top `results` cells move down to `at`, which becomes the new top
      less `results`. `None` when they do not all lie at or above `at`. */
  function StoreResult(c: Config, at: nat, results: nat): Option<Config> {
    if |c.stack| < at + results then None
    else Some(c.(stack := c.stack[..at] + Last(c.stack, results)))
  }

  /** `PopCall`: the results move down over the frame's locals and the frame goes. */
  function PopCall(c: Config, results: nat): State
    requires |c.frames| > 0
  {
    match StoreResult(c, TopFrame(c).locals, results)
    case None => Stuck
    case Some(d) => Running(d.(frames := Front(d.frames, 1)))
  }

  /** `PushCall` for a function compiled from wasm. Its parameters are already on the stack;
      the locals region starts `types.size()` cells below the top, whatever lies there. */
  function PushCall(p: Program, c: Config, f: nat): State
    requires f < |p.funcs| && p.funcs[f].WasmFunc?
  {
    if |c.frames| >= p.callStackSize then Trapped(CallStackExhausted, c)
    else if |c.stack| < |p.funcs[f].locals| then Stuck
    else Running(c.(frames := c.frames + [Frame(f, |c.stack| - |p.funcs[f].locals|, 0)]))
  }

  /** `PushCall` for a host function: it runs at once and its results replace its parameters. */
  function CallHost(p: Program, c: Config, f: nat): State
    requires |c.frames| > 0 && f < |p.funcs| && p.funcs[f].HostFunc?
  {
    var sig := p.funcs[f].sig;
    if |c.frames| >= p.callStackSize then Trapped(CallStackExhausted, c)
    else if |c.stack| < |sig.params| then Stuck
    else if |c.stack| - |sig.params| + |sig.results| >= p.valueStackSize then Trapped(ValueStackExhausted, c)
    else
      match p.host(p.funcs[f].id, Last(c.stack, |sig.params|), c.store)
      case HostFail(st) => Trapped(HostTrapped, c.(store := st))
      case HostOk(rs, st) => Running(Next(c.(stack := Front(c.stack, |sig.params|) + rs, store := st)))
  }

  function Invoke(p: Program, c: Config, f: nat): State
    requires |c.frames| > 0
  {
    if f >= |p.funcs| then Stuck
    else if p.funcs[f].HostFunc? then CallHost(p, c, f)
    else if |c.frames| >= p.callStackSize then Trapped(CallStackExhausted, c)
    else PushCall(p, Next(c), f)
  }

  function StepSelect(p: Program, c: Config): State
    requires |c.frames| > 0
  {
    if |c.stack| < 3 then Stuck
    else
      var n := |c.stack|;
      PushNext(p, c.(stack := Front(c.stack, 3)), if AsU32(c.stack[n - 1]) != 0 then c.stack[n - 3] else c.stack[n - 2])
  }

  function StepIndirect(p: Program, c: Config, sig: nat): State
    requires |c.frames| > 0
  {
    if |c.stack| == 0 || sig >= |p.types| then Stuck
    else
      var entry, d := AsU32(Last(c.stack, 1)[0]), c.(stack := Front(c.stack, 1));
      if entry >= |p.table| then Trapped(UndefinedTableIndex, d)
      else if p.table[entry] == INVALID_INDEX then Trapped(UninitializedTableElement, d)
      else if p.table[entry] >= |p.funcs| || p.funcs[p.table[entry]].sig != p.types[sig] then
        Trapped(IndirectCallSignatureMismatch, d)
      else Invoke(p, d, p.table[entry])
  }

  function StepNumeric(p: Program, c: Config, op: NumericOp): State
    requires |c.frames| > 0
  {
    var n := |op.params|;
    if |c.stack| < n then Stuck
    else
      match p.numeric(op, Last(c.stack, n))
      case NumTrap(t) => Trapped(t, c.(stack := Front(c.stack, n)))
      case NumOk(bits) => PushNext(p, c.(stack := Front(c.stack, n)), Value(op.result, bits))
  }

  function StepLoad(p: Program, c: Config, access: Access, offset: nat): State
    requires |c.frames| > 0
  {
    if |c.stack| == 0 then Stuck
    else
      var d := c.(stack := Front(c.stack, 1));
      match LoadFrom(c.store.mem, AsU32(Last(c.stack, 1)[0]), offset, access)
      case None => Trapped(MemoryAccessOutOfBounds, d)
      case Some(v) => PushNext(p, d, v)
  }

  function StepStore(c: Config, access: Access, offset: nat): State
    requires |c.frames| > 0
  {
    if |c.stack| < 2 then Stuck
    else
      var n := |c.stack|;
      var d := c.(stack := Front(c.stack, 2));
      match StoreTo(c.store.mem, AsU32(c.stack[n - 2]), offset, access, c.stack[n - 1])
      case None => Trapped(MemoryAccessOutOfBounds, d)
      case Some(m) => Running(Next(d.(store := d.store.(mem := m))))
  }

  function StepGrow(p: Program, c: Config): State
    requires |c.frames| > 0
  {
    if |c.stack| == 0 then Stuck
    else
      var d := c.(stack := Front(c.stack, 1));
      match Grow(c.store.mem, AsU32(Last(c.stack, 1)[0]))
      case Wrapped => Trapped(PageCountWrapped, d)
      case Refused => PushNext(p, d, Value(I32, TWO32 - 1))
      case Grown(m) => PushNext(p, d.(store := d.store.(mem := m)), U32(c.store.mem.pages))
  }

  /** A local's cell in the value stack. */
  function LocalCell(c: Config, x: nat): nat
    requires |c.frames| > 0
  {
    TopFrame(c).locals + x
  }

  /** Opcodes that are not jumps. */
  function StepOp(p: Program, c: Config, i: Instr): State
    requires |c.frames| > 0
  {
    var n := |c.stack|;
    match i
    case Unreachable => Trapped(UnreachableExecuted, c)
    case CallIndirect(sig) => StepIndirect(p, c, sig)
    case Drop => if n == 0 then Stuck else Running(Next(c.(stack := Front(c.stack, 1))))
    case Select => StepSelect(p, c)
    case GetLocal(x) => if LocalCell(c, x) >= n then Stuck else PushNext(p, c, c.stack[LocalCell(c, x)])
    case SetLocal(x) =>
      if n == 0 || LocalCell(c, x) >= n - 1 then Stuck
      else Running(Next(c.(stack := Front(c.stack, 1)[LocalCell(c, x) := c.stack[n - 1]])))
    case TeeLocal(x) =>
      if n == 0 || LocalCell(c, x) >= n then Stuck
      else Running(Next(c.(stack := c.stack[LocalCell(c, x) := c.stack[n - 1]])))
    case GetGlobal(x) => if x >= |c.store.globals| then Stuck else PushNext(p, c, c.store.globals[x])
    case SetGlobal(x) =>
      if n == 0 || x >= |c.store.globals| then Stuck
      else Running(Next(c.(stack := Front(c.stack, 1),
                           store := c.store.(globals := c.store.globals[x := c.stack[n - 1]]))))
    case Load(access, _, offset) => StepLoad(p, c, access, offset)
    case Store(access, _, offset) => StepStore(c, access, offset)
    case CurrentMemory => PushNext(p, c, U32(c.store.mem.pages))
    case GrowMemory => StepGrow(p, c)
    case Const(v) => PushNext(p, c, v)
    case Numeric(op) => StepNumeric(p, c, op)
    case _ => Stuck
  }

  /** `br_table`: the selector picks one of the records that follow. */
  function StepTable(c: Config, code: seq<Rec>, targets: nat): State
    requires |c.frames| > 0
  {
    if |c.stack| == 0 then Stuck
    else
      var key := AsU32(Last(c.stack, 1)[0]);
      var entry := TopFrame(c).pos + (if key >= targets then targets else key) + 1;
      if entry >= |code| || !code[entry].Jump? then Stuck
      else Running(SetPos(c.(stack := Front(c.stack, 1)), code[entry].v2))
  }

  function StepJump(c: Config, code: seq<Rec>, rec: Rec): State
    requires |c.frames| > 0 && rec.Jump?
  {
    match rec.op
    case OpBr => Running(SetPos(c, rec.v2))
    case OpElse => Running(SetPos(c, rec.v2))
    case OpBrIf =>
      if |c.stack| == 0 then Stuck
      else
        var d := c.(stack := Front(c.stack, 1));
        Running(if AsU32(Last(c.stack, 1)[0]) != 0 then SetPos(d, rec.v2) else Next(d))
    case OpIf =>
      if |c.stack| == 0 then Stuck
      else
        var d := c.(stack := Front(c.stack, 1));
        Running(if AsU32(Last(c.stack, 1)[0]) == 0 then SetPos(d, rec.v2) else Next(d))
    case OpBrTable => StepTable(c, code, rec.v1)
  }

  function StepRec(p: Program, c: Config, fn: Func, rec: Rec): State
    requires |c.frames| > 0 && fn.WasmFunc?
  {
    match rec
    case Jump(_, _, _) => StepJump(c, fn.code, rec)
    case EndRec(stack, results) =>
      (match StoreResult(c, TopFrame(c).locals + |fn.locals| + stack, results)
       case None => Stuck
       case Some(d) => Running(Next(d)))
    case ReturnRec(results) => PopCall(c, results)
    case CallRec(f, _) => Invoke(p, c, f)
    case Op(i) => StepOp(p, c, i)
  }

  /** One turn of the dispatch loop for the topmost frame; past the last record the frame
      returns. */
  function Step(p: Program, c: Config): State
    requires |c.frames| > 0
  {
    var f := TopFrame(c);
    if f.func >= |p.funcs| || !p.funcs[f.func].WasmFunc? then Stuck
    else
      var fn := p.funcs[f.func];
      if f.pos >= |fn.code| then PopCall(c, |fn.sig.results|)
      else StepRec(p, c, fn, fn.code[f.pos])
  }

  /** `Run(stackMax)` for at most `n` turns: it goes on while more than `stackMax` frames are open. */
  function Run(p: Program, c: Config, stackMax: nat, n: nat): State
    decreases n
  {
    if n == 0 || |c.frames| <= stackMax then Running(c)
    else
      match Step(p, c)
      case Running(d) => Run(p, d, stackMax, n - 1)
      case Trapped(t, d) => Trapped(t, d)
      case Stuck => Stuck
  }
}
