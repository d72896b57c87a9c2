/** The checker's type stack carried over to the flat code: what every record may assume about
    the operands it finds, and why each of its successors may assume as much. */
module OperandTypes {
  import opened Wasm
  import opened Checking
  import opened CheckerInvariants
  import opened Structure
  import opened Heights
  import opened Reading
  import opened Layout
  import opened Loops
  import opened Machine
  import opened Execution

  /** `Dead`: never reached. `At`: the checker's type stack when the record was emitted. `Join`: the
      end of a bracket, reached from its body or by a branch, with cells left between the
      bracket's own height and its results in the second case. */
  datatype Note = Dead | At(types: seq<Type>) | Join(below: seq<Type>, sig: seq<Type>)

  predicate OuterLive(c: Checker) {
    forall j :: 0 <= j < |c.labels| - 1 ==> !c.labels[j].unreachable
  }

  /** What the checker, in state `c` when it meets `i`, says about the operands of `i`. */
  function NoteOf(c: Checker, i: Instr): Note {
    if i.End? then
      if |c.labels| > 0 && OuterLive(c) && Top(c).limit <= |c.types| then Join(c.types[..Top(c).limit], Top(c).sig)
      else Dead
    else if AllLive(c) then At(c.types)
    else Dead
  }

  /** The notes of the `n` records of one instruction; a `br_table`'s entries are never executed. */
  function NotesOf(note: Note, n: nat): (r: seq<Note>)
    ensures |r| == n
  {
    if n == 0 then [] else [note] + seq(n - 1, _ => Dead)
  }

  /** The notes of an instruction stream, record by record, from the checker's own run over it. */
  function Notes(ctx: Context, c: Checker, code: seq<Instr>): seq<Note>
    decreases |code|
  {
    if code == [] then []
    else
      match Check(ctx, c, code[0])
      case None => []
      case Some(c1) => NotesOf(NoteOf(c, code[0]), RecordsOf(code[0])) + Notes(ctx, c1, code[1..])
  }

  /** Operands of types `ts` are what `note` expects. Without `exact` only the height counts. */
  predicate Fits(exact: bool, note: Note, ts: seq<Type>) {
    match note
    case Dead => false
    case At(us) => if exact then ts == us else |ts| >= |us|
    case Join(below, sig) =>
      |ts| >= |below| + |sig| && (exact ==> ts[..|below|] == below && Last(ts, |sig|) == sig)
  }

  /** A function's body and code with its notes; the last note is for the position after the code. */
  datatype Flat = Flat(exact: bool, ctx: Context, body: Body, code: seq<Rec>, notes: seq<Note>)

  predicate Holds(fl: Flat, pc: nat, ts: seq<Type>) {
    pc < |fl.notes| && Fits(fl.exact, fl.notes[pc], ts)
  }

  /** Every live branch of the body to a loop is taken at the height of the loop's entry. */
  predicate CleanFlat(fl: Flat) {
    CheckBody(fl.ctx, fl.body, BeginFunction(fl.ctx)).Some? && CleanBody(fl.ctx, fl.body, BeginFunction(fl.ctx))
  }

  /** A loop starts at `pc`, and `ts` are more operands than it was entered with. */
  predicate Overfull(fl: Flat, pc: nat, ts: seq<Type>) {
    && pc < |fl.notes| && fl.notes[pc].At?
    && |ts| > |fl.notes[pc].types| && LoopIn(fl.ctx, fl.body, pc, |fl.notes[pc].types|)
  }

  /** A branch from `pc` brings the operands `ts` to `target`, where they suit the note; a branch
      back to a loop may bring too many, though not in a clean body. */
  predicate Goes(fl: Flat, pc: nat, target: nat, ts: seq<Type>) {
    Holds(fl, target, ts) || (fl.exact && !CleanFlat(fl) && target <= pc && Overfull(fl, target, ts))
  }

  predicate EndsWith(ts: seq<Type>, sig: seq<Type>) {
    |ts| >= |sig| && Last(ts, |sig|) == sig
  }

  /** From operands `ts`, popping `params` and pushing `results` suits the next record. */
  predicate Passes(fl: Flat, pc: nat, ts: seq<Type>, params: seq<Type>, results: seq<Type>) {
    EndsWith(ts, params) && Holds(fl, pc + 1, Front(ts, |params|) + results)
  }

  predicate JumpRule(fl: Flat, pc: nat, op: JumpOp, v1: nat, v2: nat, ts: seq<Type>) {
    match op
    case OpBr => Goes(fl, pc, v2, ts)
    case OpElse => Holds(fl, v2, ts)
    case OpBrIf => |ts| >= 1 && Goes(fl, pc, v2, Front(ts, 1)) && Holds(fl, pc + 1, Front(ts, 1))
    case OpIf => |ts| >= 1 && Holds(fl, v2, Front(ts, 1)) && Holds(fl, pc + 1, Front(ts, 1))
    case OpBrTable => |ts| >= 1 && forall e :: pc < e <= pc + 1 + v1 ==> TableRule(fl, pc, e, Front(ts, 1))
  }

  predicate TableRule(fl: Flat, pc: nat, entry: nat, ts: seq<Type>) {
    entry < |fl.code| && fl.code[entry].Jump? && Goes(fl, pc, fl.code[entry].v2, ts)
  }

  predicate OpRule(fl: Flat, pc: nat, i: Instr, ts: seq<Type>) {
    if i.Unreachable? then true
    else if i.Drop? then |ts| >= 1 && Holds(fl, pc + 1, Front(ts, 1))
    else if i.Select? then
      |ts| >= 3 && ts[|ts| - 2] == ts[|ts| - 3] && Holds(fl, pc + 1, Front(ts, 2))
    else
      HasArrow(i) && !i.Nop? && !i.Call? && Arrow(fl.ctx, i).Some? &&
      Passes(fl, pc, ts, Arrow(fl.ctx, i).value.params, Arrow(fl.ctx, i).value.results)
  }

  /** The record at `pc`, run on operands its note expects, finds what it consumes and hands its
      successors what theirs expect. */
  predicate Rule(fl: Flat, pc: nat)
    requires pc < |fl.code| && pc < |fl.notes|
  {
    var note := fl.notes[pc];
    match fl.code[pc]
    case Jump(op, v1, v2) => note.At? && JumpRule(fl, pc, op, v1, v2, note.types)
    case EndRec(h, r) => note.Join? && |note.below| == h && |note.sig| == r && Holds(fl, pc + 1, note.below + note.sig)
    case ReturnRec(r) => note.At? && r == |fl.ctx.results| && EndsWith(note.types, fl.ctx.results)
    case CallRec(f, _) =>
      note.At? && f < |fl.ctx.funcs| && Passes(fl, pc, note.types, fl.ctx.funcs[f].sig.params, fl.ctx.funcs[f].sig.results)
    case Op(i) => note.At? && OpRule(fl, pc, i, note.types)
  }

  predicate RuleAt(fl: Flat, pc: nat) {
    pc < |fl.code| && pc < |fl.notes| && (fl.notes[pc].Dead? || Rule(fl, pc))
  }

  predicate RulesIn(fl: Flat, from: nat, to: nat) {
    forall q :: from <= q < to ==> RuleAt(fl, q)
  }

  /* ---- notes of the structured form ---- */

  function NotesIns(ctx: Context, ins: Ins, c: Checker): (r: seq<Note>)
    requires CheckIns(ctx, ins, c).Some?
    ensures |r| == SizeIns(ins)
    decreases ins
  {
    match ins
    case Plain(i) => NotesOf(NoteOf(c, i), PlainSize(i))
    case BlockIns(sig, b) => NotesArm(ctx, b, PushLabel(c, BlockLabel, sig), End)
    case LoopIns(sig, b) => NotesArm(ctx, b, PushLabel(c, LoopLabel, sig), End)
    case IfIns(sig, b) => [NoteOf(c, If(sig))] + NotesArm(ctx, b, Check(ctx, c, If(sig)).value, End)
    case IfElseIns(sig, b1, b2) =>
      var c1 := Check(ctx, c, If(sig)).value;
      [NoteOf(c, If(sig))] + NotesArm(ctx, b1, c1, Else)
      + NotesArm(ctx, b2, Then(ctx, CheckBody(ctx, b1, c1), Else).value, End)
  }

  /** A body and the bracket that closes it. */
  function NotesArm(ctx: Context, b: Body, c: Checker, close: Instr): (r: seq<Note>)
    requires CheckBody(ctx, b, c).Some?
    ensures |r| == Size(b) + 1
    decreases b, 1
  {
    NotesBody(ctx, b, c) + [NoteOf(CheckBody(ctx, b, c).value, close)]
  }

  function NotesBody(ctx: Context, b: Body, c: Checker): (r: seq<Note>)
    requires CheckBody(ctx, b, c).Some?
    ensures |r| == Size(b)
    decreases b, 0
  {
    match b
    case Nil => []
    case Cons(h, t) => NotesIns(ctx, h, c) + NotesBody(ctx, t, CheckIns(ctx, h, c).value)
  }

  lemma {:induction false} NotesConcat(ctx: Context, c: Checker, xs: seq<Instr>, ys: seq<Instr>)
    requires CheckAll(ctx, c, xs).Some?
    ensures Notes(ctx, c, xs + ys) == Notes(ctx, c, xs) + Notes(ctx, CheckAll(ctx, c, xs).value, ys)
    decreases |xs|
  {
    hide Check, NoteOf;
    if xs == [] {
      assert xs + ys == ys;
    } else {
      assert (xs + ys)[1..] == xs[1..] + ys;
      NotesConcat(ctx, Check(ctx, c, xs[0]).value, xs[1..], ys);
    }
  }

  lemma NotesOne(ctx: Context, c: Checker, i: Instr)
    requires Check(ctx, c, i).Some?
    ensures Notes(ctx, c, [i]) == NotesOf(NoteOf(c, i), RecordsOf(i))
  {
    hide Check;
    assert [i][1..] == [];
    assert Notes(ctx, Check(ctx, c, i).value, []) == [];
  }

  /** The stream's notes are the structured form's. */
  lemma {:induction false} NotesFlatten(ctx: Context, b: Body, c: Checker)
    requires CheckBody(ctx, b, c).Some?
    ensures Notes(ctx, c, Flatten(b)) == NotesBody(ctx, b, c)
    decreases b
  {
    hide Check, NoteOf, CheckAll;
    match b
    case Nil =>
    case Cons(h, t) =>
      NotesFlattenIns(ctx, h, c);
      FlattenInsChecks(ctx, h, c);
      NotesConcat(ctx, c, FlattenIns(h), Flatten(t));
      NotesFlatten(ctx, t, CheckIns(ctx, h, c).value);
  }

  lemma {:induction false} NotesFlattenIns(ctx: Context, ins: Ins, c: Checker)
    requires CheckIns(ctx, ins, c).Some?
    ensures Notes(ctx, c, FlattenIns(ins)) == NotesIns(ctx, ins, c)
    decreases ins
  {
    hide Check, NoteOf, CheckAll, Notes, NotesArm, CheckBody, Flatten;
    match ins
    case Plain(i) => NotesOne(ctx, c, i);
    case BlockIns(sig, b) =>
      NotesFlatten(ctx, b, PushLabel(c, BlockLabel, sig));
      OpensSilently(ctx, c, Block(sig));
      NotesBracket(ctx, c, Block(sig), b, End);
    case LoopIns(sig, b) =>
      NotesFlatten(ctx, b, PushLabel(c, LoopLabel, sig));
      OpensSilently(ctx, c, Loop(sig));
      NotesBracket(ctx, c, Loop(sig), b, End);
    case IfIns(sig, b) =>
      NotesFlatten(ctx, b, Check(ctx, c, If(sig)).value);
      NotesBracket(ctx, c, If(sig), b, End);
    case IfElseIns(sig, b1, b2) =>
      var c1 := Check(ctx, c, If(sig)).value;
      NotesFlatten(ctx, b1, c1);
      NotesFlatten(ctx, b2, Then(ctx, CheckBody(ctx, b1, c1), Else).value);
      NotesIfElse(ctx, sig, b1, b2, c);
  }

  lemma {:induction false} NotesIfElse(ctx: Context, sig: seq<ValType>, b1: Body, b2: Body, c: Checker)
    requires CheckIns(ctx, IfElseIns(sig, b1, b2), c).Some?
    requires
      var c1 := Check(ctx, c, If(sig)).value;
      Notes(ctx, c1, Flatten(b1)) == NotesBody(ctx, b1, c1)
    requires
      var c2 := Then(ctx, CheckBody(ctx, b1, Check(ctx, c, If(sig)).value), Else).value;
      Notes(ctx, c2, Flatten(b2)) == NotesBody(ctx, b2, c2)
    ensures Notes(ctx, c, FlattenIns(IfElseIns(sig, b1, b2))) == NotesIns(ctx, IfElseIns(sig, b1, b2), c)
  {
    hide Check, NoteOf, CheckAll, Notes, NotesArm, CheckBody, Flatten;
    var c1 := Check(ctx, c, If(sig)).value;
    var c2 := Then(ctx, CheckBody(ctx, b1, c1), Else).value;
    NotesBracket(ctx, c, If(sig), b1, Else);
    NotesRest(ctx, c, [If(sig)] + Flatten(b1) + [Else], c2, b2, End);
    assert NotesOf(NoteOf(c, If(sig)), RecordsOf(If(sig))) == [NoteOf(c, If(sig))];
  }

  lemma OpensSilently(ctx: Context, c: Checker, i: Instr)
    requires i.Block? || i.Loop?
    ensures Check(ctx, c, i) == Some(PushLabel(c, if i.Block? then BlockLabel else LoopLabel, i.results))
    ensures NotesOf(NoteOf(c, i), RecordsOf(i)) == []
  {
  }

  lemma {:induction false} NotesBracket(ctx: Context, c: Checker, open: Instr, b: Body, close: Instr)
    requires Check(ctx, c, open).Some? && CheckBody(ctx, b, Check(ctx, c, open).value).Some?
    requires Then(ctx, CheckBody(ctx, b, Check(ctx, c, open).value), close).Some?
    requires Notes(ctx, Check(ctx, c, open).value, Flatten(b)) == NotesBody(ctx, b, Check(ctx, c, open).value)
    requires RecordsOf(close) == 1
    ensures CheckAll(ctx, c, [open] + Flatten(b) + [close]) == Then(ctx, CheckBody(ctx, b, Check(ctx, c, open).value), close)
    ensures Notes(ctx, c, [open] + Flatten(b) + [close]) ==
      NotesOf(NoteOf(c, open), RecordsOf(open)) + NotesArm(ctx, b, Check(ctx, c, open).value, close)
  {
    hide Check, NoteOf, CheckAll, Notes;
    var c1 := Check(ctx, c, open).value;
    CheckAllOne(ctx, c, open);
    NotesOne(ctx, c, open);
    CheckAllConcat(ctx, c, [open], Flatten(b));
    FlattenChecks(ctx, b, c1);
    NotesConcat(ctx, c, [open], Flatten(b));
    var d := CheckBody(ctx, b, c1).value;
    CheckAllConcat(ctx, c, [open] + Flatten(b), [close]);
    CheckAllOne(ctx, d, close);
    NotesConcat(ctx, c, [open] + Flatten(b), [close]);
    NotesOne(ctx, d, close);
    assert NotesOf(NoteOf(d, close), 1) == [NoteOf(d, close)];
  }

  lemma {:induction false} NotesRest(ctx: Context, c: Checker, head: seq<Instr>, c2: Checker, b: Body, close: Instr)
    requires CheckAll(ctx, c, head) == Some(c2) && CheckBody(ctx, b, c2).Some?
    requires Then(ctx, CheckBody(ctx, b, c2), close).Some? && RecordsOf(close) == 1
    requires Notes(ctx, c2, Flatten(b)) == NotesBody(ctx, b, c2)
    ensures Notes(ctx, c, head + Flatten(b) + [close]) == Notes(ctx, c, head) + NotesArm(ctx, b, c2, close)
  {
    hide Check, NoteOf, CheckAll, Notes;
    CheckAllConcat(ctx, c, head, Flatten(b));
    FlattenChecks(ctx, b, c2);
    NotesConcat(ctx, c, head, Flatten(b));
    var d := CheckBody(ctx, b, c2).value;
    NotesConcat(ctx, c, head + Flatten(b), [close]);
    NotesOne(ctx, d, close);
    assert NotesOf(NoteOf(d, close), 1) == [NoteOf(d, close)];
  }
}
