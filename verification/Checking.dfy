/** The type checker's state machine on values: one state, one instruction, the next state
    or an error (reading stops at the first error). */
module Checking {
  import opened Wasm

  datatype LabelKind = FuncLabel | BlockLabel | LoopLabel | IfLabel | ElseLabel

  datatype Label = Label(kind: LabelKind, sig: seq<ValType>, limit: nat, unreachable: bool)

  /** `type_stack_` and `label_stack_`, both with the top at the end. */
  datatype Checker = Checker(types: seq<Type>, labels: seq<Label>)

  function Top(c: Checker): Label
    requires |c.labels| > 0
  {
    c.labels[|c.labels| - 1]
  }

  function LabelAt(c: Checker, depth: nat): Label
    requires depth < |c.labels|
  {
    c.labels[|c.labels| - 1 - depth]
  }

  predicate Compatible(actual: Type, expected: Type) {
    actual == expected || actual == Any || expected == Any
  }

  /** `PeekType`: an empty region reads as `Any`, which is an error unless it is unreachable. */
  function PeekType(c: Checker, depth: nat): Option<Type>
    requires |c.labels| > 0
  {
    if Top(c).limit + depth >= |c.types| then
      if Top(c).unreachable then Some(Any) else None
    else
      Some(c.types[|c.types| - depth - 1])
  }

  predicate PeekIs(c: Checker, depth: nat, expected: Type)
    requires |c.labels| > 0
  {
    PeekType(c, depth).Some? && Compatible(PeekType(c, depth).value, expected)
  }

  predicate SignatureOk(c: Checker, sig: seq<Type>)
    requires |c.labels| > 0
  {
    forall i :: 0 <= i < |sig| ==> PeekIs(c, |sig| - i - 1, sig[i])
  }

  function DropTypes(c: Checker, n: nat): Option<Checker>
    requires |c.labels| > 0
  {
    if Top(c).limit + n > |c.types| then
      if Top(c).unreachable then Some(ResetToLimit(c)) else None
    else
      Some(c.(types := c.types[..|c.types| - n]))
  }

  /** `vector::resize` to the top label's limit (the limit never exceeds the size). */
  function ResetToLimit(c: Checker): Checker
    requires |c.labels| > 0
  {
    if Top(c).limit <= |c.types| then c.(types := c.types[..Top(c).limit]) else c
  }

  function PushTypes(c: Checker, ts: seq<Type>): Checker {
    c.(types := c.types + ts)
  }

  function PopTypes(c: Checker, sig: seq<Type>): Option<Checker>
    requires |c.labels| > 0
  {
    if SignatureOk(c, sig) then DropTypes(c, |sig|) else None
  }

  /** Pop `params`, push `results`. */
  function Apply(c: Checker, params: seq<Type>, results: seq<Type>): Option<Checker>
    requires |c.labels| > 0
  {
    match PopTypes(c, params)
    case None => None
    case Some(c1) => Some(PushTypes(c1, results))
  }

  function SetUnreachable(c: Checker): Checker
    requires |c.labels| > 0
  {
    var r := ResetToLimit(c);
    r.(labels := r.labels[|r.labels| - 1 := Top(c).(unreachable := true)])
  }

  function PushLabel(c: Checker, kind: LabelKind, sig: seq<ValType>): Checker {
    c.(labels := c.labels + [Label(kind, sig, |c.types|, false)])
  }

  function BeginFunction(ctx: Context): Checker {
    Checker([], [Label(FuncLabel, ctx.results, 0, false)])
  }

  /** The pop/push arrow of an instruction whose typing does not look at the stack.
      `None` when an immediate is out of range or the module lacks the object it needs. */
  function Arrow(ctx: Context, i: Instr): Option<Signature> {
    match i
    case Nop => Some(Signature([], []))
    case Call(f) => if f < |ctx.funcs| then Some(ctx.funcs[f].sig) else None
    case CallIndirect(s) =>
      if ctx.hasTable && s < |ctx.types| then
        Some(Signature(ctx.types[s].params + [I32], ctx.types[s].results))
      else None
    case GetLocal(x) => if x < |ctx.locals| then Some(Signature([], [ctx.locals[x]])) else None
    case SetLocal(x) => if x < |ctx.locals| then Some(Signature([ctx.locals[x]], [])) else None
    case TeeLocal(x) =>
      if x < |ctx.locals| then Some(Signature([ctx.locals[x]], [ctx.locals[x]])) else None
    case GetGlobal(x) =>
      if x < |ctx.globals| then Some(Signature([], [ctx.globals[x].ty])) else None
    case SetGlobal(x) =>
      if x < |ctx.globals| && ctx.globals[x].mut then Some(Signature([ctx.globals[x].ty], [])) else None
    case Load(a, align, _) =>
      if ctx.hasMemory && AlignOk(align, a.width) then Some(Signature([I32], [a.ty])) else None
    case Store(a, align, _) =>
      if ctx.hasMemory && AlignOk(align, a.width) then Some(Signature([I32, a.ty], [])) else None
    case CurrentMemory => if ctx.hasMemory then Some(Signature([], [I32])) else None
    case GrowMemory => if ctx.hasMemory then Some(Signature([I32], [I32])) else None
    case Const(v) => Some(Signature([], [v.ty]))
    case Numeric(op) => Some(Signature(op.params, [op.result]))
    case _ => None
  }

  predicate HasArrow(i: Instr) {
    i.Nop? || i.Call? || i.CallIndirect? || i.GetLocal? || i.SetLocal? || i.TeeLocal? ||
    i.GetGlobal? || i.SetGlobal? || i.Load? || i.Store? || i.CurrentMemory? || i.GrowMemory? ||
    i.Const? || i.Numeric?
  }

  /** Opcodes that only push: the checker accepts these even with no label open. */
  predicate OnlyPushes(i: Instr) {
    i.Nop? || i.GetLocal? || i.GetGlobal? || i.CurrentMemory? || i.Const?
  }

  function OnSelect(c: Checker): Option<Checker>
    requires |c.labels| > 0
  {
    var t := PeekType(c, 1);
    if PeekIs(c, 0, I32) && t.Some? && PeekIs(c, 2, t.value) then
      match DropTypes(c, 3)
      case None => None
      case Some(c1) => Some(PushTypes(c1, [t.value]))
    else None
  }

  function OnBr(c: Checker, depth: nat): Option<Checker>
    requires |c.labels| > 0
  {
    if depth < |c.labels| && (LabelAt(c, depth).kind.LoopLabel? || SignatureOk(c, LabelAt(c, depth).sig)) then
      Some(SetUnreachable(c))
    else None
  }

  function OnBrIf(c: Checker, depth: nat): Option<Checker>
    requires |c.labels| > 0
  {
    match PopTypes(c, [I32])
    case None => None
    case Some(c1) =>
      if depth >= |c1.labels| then None
      else if LabelAt(c1, depth).kind.LoopLabel? then Some(c1)
      else Apply(c1, LabelAt(c1, depth).sig, LabelAt(c1, depth).sig)
  }

  /** The single-type signature a `br_table` target is compared by. */
  function TargetType(l: Label): Type {
    if l.kind.LoopLabel? || |l.sig| == 0 then Void else l.sig[0]
  }

  /** `OnBrTableTarget`: `sig` is `br_table_sig_`, the type of the previous target. */
  function OnBrTableTarget(c: Checker, depth: nat, sig: Type): Option<Type>
    requires |c.labels| > 0
  {
    if depth < |c.labels| &&
       (LabelAt(c, depth).kind.LoopLabel? || SignatureOk(c, LabelAt(c, depth).sig)) &&
       Compatible(sig, TargetType(LabelAt(c, depth)))
    then Some(TargetType(LabelAt(c, depth)))
    else None
  }

  function OnBrTableTargets(c: Checker, depths: seq<nat>, sig: Type): Option<Type>
    requires |c.labels| > 0
  {
    if depths == [] then Some(sig)
    else
      match OnBrTableTarget(c, depths[0], sig)
      case None => None
      case Some(s) => OnBrTableTargets(c, depths[1..], s)
  }

  function OnBrTable(c: Checker, depths: seq<nat>, default: nat): Option<Checker>
    requires |c.labels| > 0
  {
    match PopTypes(c, [I32])
    case None => None
    case Some(c1) =>
      if OnBrTableTargets(c1, depths + [default], Any).Some? then Some(SetUnreachable(c1)) else None
  }

  function OnReturn(c: Checker): Option<Checker>
    requires |c.labels| > 0
  {
    match PopTypes(c, c.labels[0].sig)
    case None => None
    case Some(c1) => Some(SetUnreachable(c1))
  }

  function OnElse(c: Checker): Option<Checker>
    requires |c.labels| > 0
  {
    if !Top(c).kind.IfLabel? then None else
    match PopTypes(c, Top(c).sig)
    case None => None
    case Some(c1) =>
      if |c1.types| != Top(c).limit then None
      else Some(c1.(labels := c1.labels[|c1.labels| - 1 := Top(c).(kind := ElseLabel, unreachable := false)]))
  }

  /** `OnEnd(label, …)`: close the top label, whatever its kind. */
  function CloseLabel(c: Checker): Option<Checker>
    requires |c.labels| > 0
  {
    match PopTypes(c, Top(c).sig)
    case None => None
    case Some(c1) =>
      if |c1.types| != Top(c).limit then None
      else Some(Checker(c1.types + Top(c).sig, c1.labels[..|c1.labels| - 1]))
  }

  function OnEnd(c: Checker): Option<Checker>
    requires |c.labels| > 0
  {
    if Top(c).kind.IfLabel? && |Top(c).sig| != 0 then None else CloseLabel(c)
  }

  function OnIf(c: Checker, sig: seq<ValType>): Option<Checker>
    requires |c.labels| > 0
  {
    match PopTypes(c, [I32])
    case None => None
    case Some(c1) => Some(PushLabel(c1, IfLabel, sig))
  }

  /** One callback of the module reader, checker side. */
  function Check(ctx: Context, c: Checker, i: Instr): Option<Checker> {
    if HasArrow(i) then
      match Arrow(ctx, i)
      case None => None
      case Some(a) =>
        if OnlyPushes(i) then Some(PushTypes(c, a.results))
        else if |c.labels| == 0 then None
        else if i.CallIndirect? then
          match PopTypes(c, [I32]) {
            case None => None
            case Some(c1) => Apply(c1, ctx.types[i.sig].params, a.results)
          }
        else Apply(c, a.params, a.results)
    else if i.Block? then Some(PushLabel(c, BlockLabel, i.results))
    else if i.Loop? then Some(PushLabel(c, LoopLabel, i.results))
    else if |c.labels| == 0 then None
    else if i.If? then OnIf(c, i.results)
    else if i.Else? then OnElse(c)
    else if i.End? then OnEnd(c)
    else if i.Br? then OnBr(c, i.depth)
    else if i.BrIf? then OnBrIf(c, i.depth)
    else if i.BrTable? then OnBrTable(c, i.depths, i.default)
    else if i.Return? then OnReturn(c)
    else if i.Drop? then DropTypes(c, 1)
    else if i.Select? then OnSelect(c)
    else Some(SetUnreachable(c))
  }

  function CheckAll(ctx: Context, c: Checker, code: seq<Instr>): Option<Checker>
    decreases |code|
  {
    if code == [] then Some(c)
    else
      match Check(ctx, c, code[0])
      case None => None
      case Some(c1) => CheckAll(ctx, c1, code[1..])
  }

  /** `EndFunction`: the label still open must be the function's own. */
  function EndFunction(c: Checker): Option<Checker> {
    if |c.labels| == 0 || !Top(c).kind.FuncLabel? then None else CloseLabel(c)
  }

  predicate Accepts(ctx: Context, code: seq<Instr>) {
    var r := CheckAll(ctx, BeginFunction(ctx), code);
    r.Some? && EndFunction(r.value).Some?
  }
}
