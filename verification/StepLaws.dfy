/** What single steps of the machine do with the i32 cells they pop and push, said on the numbers
    themselves: branches, `select`, tables, memory accesses, memory size and growth, and the locals a
    host entry sets to zero. */
module StepLaws {
  import opened Wasm
  import opened LinearMemory
  import opened Machine
  import opened Reading
  import MemoryLaws
  import Simulation
  import Execution

  /** The topmost frame is about to run `rec`. */
  predicate StandsAt(p: Program, c: Config, rec: Rec) {
    && |c.frames| > 0
    && var fr := c.frames[|c.frames| - 1];
      fr.func < |p.funcs| && p.funcs[fr.func].WasmFunc? && fr.pos < |p.funcs[fr.func].code| && p.funcs[fr.func].code[fr.pos] == rec
  }

  /** The same thread with another stack and its topmost frame at another position. */
  function With(c: Config, stack: seq<Value>, pos: nat): Config
    requires |c.frames| > 0
  {
    var k := |c.frames| - 1;
    c.(stack := stack, frames := c.frames[k := Frame(c.frames[k].func, c.frames[k].locals, pos)])
  }

  /** The position after the record about to run. */
  function Behind(c: Config): nat
    requires |c.frames| > 0
  {
    c.frames[|c.frames| - 1].pos + 1
  }

  /** `v` goes on the stack `ops`, if there is room, and the next record is next. */
  function Pushing(p: Program, c: Config, ops: seq<Value>, v: Value): State
    requires |c.frames| > 0
  {
    if |ops| >= p.valueStackSize then Trapped(ValueStackExhausted, c.(stack := ops))
    else Running(With(c, ops + [v], Behind(c)))
  }

  lemma Popped(ops: seq<Value>, vs: seq<Value>)
    ensures Front(ops + vs, |vs|) == ops && Last(ops + vs, |vs|) == vs
  {
  }

  /** `br_if` branches exactly on a number that is not zero; of a wider cell it looks at the low 32 bits. */
  lemma BranchOnNonZero(p: Program, c: Config, id: nat, target: nat, ops: seq<Value>, v: Value)
    requires StandsAt(p, c, Jump(OpBrIf, id, target)) && c.stack == ops + [v]
    ensures Step(p, c) == Running(With(c, ops, if v.bits % 0x1_0000_0000 != 0 then target else Behind(c)))
    ensures v.bits < 0x1_0000_0000 ==> Step(p, c) == Running(With(c, ops, if v.bits != 0 then target else Behind(c)))
  {
    Popped(ops, [v]);
  }

  /** `if` goes to its second arm exactly on zero. */
  lemma ElseOnZero(p: Program, c: Config, id: nat, target: nat, ops: seq<Value>, n: nat)
    requires StandsAt(p, c, Jump(OpIf, id, target)) && c.stack == ops + [Value(I32, n)] && n < 0x1_0000_0000
    ensures Step(p, c) == Running(With(c, ops, if n == 0 then target else Behind(c)))
  {
    Popped(ops, [Value(I32, n)]);
  }

  /** `br_table` takes the n-th target, and the last one for every number from their count on. */
  lemma TableTakesNth(p: Program, c: Config, targets: nat, unused: nat, ops: seq<Value>, n: nat)
    requires StandsAt(p, c, Jump(OpBrTable, targets, unused)) && c.stack == ops + [Value(I32, n)] && n < 0x1_0000_0000
    ensures
      var code := p.funcs[c.frames[|c.frames| - 1].func].code;
      var entry := Behind(c) + (if n < targets then n else targets);
      Step(p, c) == if entry < |code| && code[entry].Jump? then Running(With(c, ops, code[entry].v2)) else Stuck
  {
    Popped(ops, [Value(I32, n)]);
  }

  /** `select` keeps the first operand exactly when the number is not zero. */
  lemma FirstOnNonZero(p: Program, c: Config, ops: seq<Value>, first: Value, second: Value, n: nat)
    requires StandsAt(p, c, Op(Select)) && c.stack == ops + [first, second, Value(I32, n)] && n < 0x1_0000_0000
    ensures Step(p, c) == Pushing(p, c, ops, if n != 0 then first else second)
  {
    Popped(ops, [first, second, Value(I32, n)]);
  }

  /** `call_indirect` calls the function in the n-th place of the table, if there is one of that type. */
  lemma CallsNth(p: Program, c: Config, sig: nat, ops: seq<Value>, n: nat)
    requires StandsAt(p, c, Op(CallIndirect(sig))) && c.stack == ops + [Value(I32, n)] && n < 0x1_0000_0000 && sig < |p.types|
    ensures
      var d := c.(stack := ops);
      Step(p, c) ==
        if n >= |p.table| then Trapped(UndefinedTableIndex, d)
        else if p.table[n] == 0xFFFF_FFFF then Trapped(UninitializedTableElement, d)
        else if p.table[n] >= |p.funcs| || p.funcs[p.table[n]].sig != p.types[sig] then Trapped(IndirectCallSignatureMismatch, d)
        else Invoke(p, d, p.table[n])
  {
    hide Invoke;
    Popped(ops, [Value(I32, n)]);
  }

  /** A load reads exactly the `width` bytes from n + offset on, least significant first. */
  lemma LoadsBytes(p: Program, c: Config, access: Access, align: nat, offset: nat, ops: seq<Value>, n: nat)
    requires StandsAt(p, c, Op(Load(access, align, offset))) && c.stack == ops + [Value(I32, n)] && n < 0x1_0000_0000
    ensures
      var bytes, a, w := c.store.mem.bytes, n + offset, access.width;
      Step(p, c) ==
        if a + w > |bytes| then Trapped(MemoryAccessOutOfBounds, c.(stack := ops))
        else Pushing(p, c, ops, Extend(Decode(bytes[a..a + w]), access))
  {
    hide Decode, Extend;
    Popped(ops, [Value(I32, n)]);
  }

  /** A store replaces exactly the `width` bytes from n + offset on. */
  lemma StoresBytes(p: Program, c: Config, access: Access, align: nat, offset: nat, ops: seq<Value>, n: nat, v: Value)
    requires StandsAt(p, c, Op(Store(access, align, offset))) && c.stack == ops + [Value(I32, n), v] && n < 0x1_0000_0000
    ensures
      var mem, a, w := c.store.mem, n + offset, access.width;
      Step(p, c) ==
        if a + w > |mem.bytes| then Trapped(MemoryAccessOutOfBounds, c.(stack := ops))
        else
          var stored := mem.(bytes := mem.bytes[..a] + Encode(v.bits, w) + mem.bytes[a + w..]);
          Running(With(c, ops, Behind(c)).(store := c.store.(mem := stored)))
  {
    hide Encode;
    Popped(ops, [Value(I32, n), v]);
  }

  /** `memory.size` pushes the page count. */
  lemma SizeIsPages(p: Program, c: Config)
    requires StandsAt(p, c, Op(CurrentMemory)) && c.store.mem.pages < 0x1_0000_0000
    ensures Step(p, c) == Pushing(p, c, c.stack, Value(I32, c.store.mem.pages))
  {
  }

  /** `memory.grow` asks for n more pages: it pushes the old page count and adds that many zero pages,
      or pushes -1 when the maximum or 32-bit addressing forbid it. */
  lemma GrowsPages(p: Program, c: Config, ops: seq<Value>, n: nat)
    requires StandsAt(p, c, Op(GrowMemory)) && c.stack == ops + [Value(I32, n)] && n < 0x1_0000_0000
    requires Simulation.MemoryOk(c.store.mem) && MemoryLaws.WithinMax(c.store.mem)
    ensures
      var mem := c.store.mem;
      var pages := mem.pages + n;
      var grown := Memory(mem.bytes + seq(65536 * n, _ => 0), pages, mem.max);
      Step(p, c) ==
        if pages >= 0x1_0000_0000 then Trapped(PageCountWrapped, c.(stack := ops))
        else if pages >= 65536 || (mem.max.Some? && pages > mem.max.value) then Pushing(p, c, ops, Value(I32, 0xFFFF_FFFF))
        else Pushing(p, c.(store := c.store.(mem := grown)), ops, Value(I32, mem.pages))
  {
    hide Grow;
    Popped(ops, [Value(I32, n)]);
    Simulation.GrowAgrees(c.store.mem, n);
    MemoryLaws.GrowExact(c.store.mem, n);
  }

  /** A host entry puts the arguments on the stack and a zero of its type for every declared local. */
  lemma EntryZeroes(p: Program, c: Config, f: nat, args: seq<Value>, k: nat)
    requires f < |p.funcs| && p.funcs[f].WasmFunc? && |args| == |p.funcs[f].sig.params| <= |p.funcs[f].locals|
    requires Execution.HostEnter(p, c, f, args).Running? && k < |p.funcs[f].locals|
    ensures
      var d := Execution.HostEnter(p, c, f, args).c;
      && |d.stack| == |c.stack| + |p.funcs[f].locals| && d.stack[..|c.stack|] == c.stack && d.store == c.store
      && d.stack[|c.stack| + k] == (if k < |args| then args[k] else Value(p.funcs[f].locals[k], 0))
      && d.frames == c.frames + [Frame(f, |c.stack|, 0)]
  {
  }
}
