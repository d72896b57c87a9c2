/** A tidy module never strays: the condition that a reader of the module can check rules out every
    turn that the theorems about runs make an exception for. */
module Tidiness {
  import opened Wasm
  import opened LinearMemory
  import opened Checking
  import opened CheckerInvariants
  import opened Structure
  import opened Heights
  import opened Reading
  import opened Layout
  import opened Loops
  import opened Machine
  import opened Simulation
  import opened Preservation
  import opened Execution
  import opened OperandTypes
  import opened OperandFlow
  import opened OperandSafety
  import opened RunSafety

  /* ---- loops that start at the same place are entered at the same height ---- */

  lemma {:induction false} LoopsInside(ctx: Context, b: Body, c: Checker, pc: nat, pos: nat, h: nat)
    requires CheckBody(ctx, b, c).Some? && LoopStarts(ctx, b, c, pc, pos, h)
    ensures pc <= pos < pc + Size(b)
    decreases b
  {
    hide Check;
    match b
    case Cons(x, t) =>
      if LoopStartsIns(ctx, x, c, pc, pos, h) { LoopsInsideIns(ctx, x, c, pc, pos, h); }
      else { LoopsInside(ctx, t, CheckIns(ctx, x, c).value, pc + SizeIns(x), pos, h); }
  }

  lemma {:induction false} LoopsInsideIns(ctx: Context, ins: Ins, c: Checker, pc: nat, pos: nat, h: nat)
    requires CheckIns(ctx, ins, c).Some? && LoopStartsIns(ctx, ins, c, pc, pos, h)
    ensures pc <= pos < pc + SizeIns(ins)
    decreases ins
  {
    hide Check, CheckBody;
    match ins
    case BlockIns(sig, b) => LoopsInside(ctx, b, PushLabel(c, BlockLabel, sig), pc, pos, h);
    case LoopIns(sig, b) =>
      if !(pos == pc && h == |c.types|) { LoopsInside(ctx, b, PushLabel(c, LoopLabel, sig), pc, pos, h); }
    case IfIns(sig, b) => LoopsInside(ctx, b, Check(ctx, c, If(sig)).value, pc + 1, pos, h);
    case IfElseIns(sig, b1, b2) =>
      var c1 := Check(ctx, c, If(sig)).value;
      if LoopStarts(ctx, b1, c1, pc + 1, pos, h) { LoopsInside(ctx, b1, c1, pc + 1, pos, h); }
      else { LoopsInside(ctx, b2, Then(ctx, CheckBody(ctx, b1, c1), Else).value, pc + 2 + Size(b1), pos, h); }
  }

  /** A loop at the very start of a body is entered with what the body is. */
  lemma {:induction false} FirstLoop(ctx: Context, b: Body, c: Checker, pc: nat, h: nat)
    requires CheckBody(ctx, b, c).Some? && LoopStarts(ctx, b, c, pc, pc, h)
    ensures h == |c.types|
    decreases b
  {
    hide Check;
    match b
    case Cons(x, t) =>
      if LoopStartsIns(ctx, x, c, pc, pc, h) { FirstLoopIns(ctx, x, c, pc, h); }
      else {
        LoopsInside(ctx, t, CheckIns(ctx, x, c).value, pc + SizeIns(x), pc, h);
        NoRecordNoChange(ctx, x, c);
        FirstLoop(ctx, t, c, pc, h);
      }
  }

  lemma NoRecordNoChange(ctx: Context, ins: Ins, c: Checker)
    requires CheckIns(ctx, ins, c).Some? && SizeIns(ins) == 0
    ensures CheckIns(ctx, ins, c) == Some(c)
  {
    assert c.types + [] == c.types;
  }

  lemma {:induction false} FirstLoopIns(ctx: Context, ins: Ins, c: Checker, pc: nat, h: nat)
    requires CheckIns(ctx, ins, c).Some? && LoopStartsIns(ctx, ins, c, pc, pc, h)
    ensures h == |c.types|
    decreases ins
  {
    hide Check, CheckBody;
    match ins
    case BlockIns(sig, b) => FirstLoop(ctx, b, PushLabel(c, BlockLabel, sig), pc, h);
    case LoopIns(sig, b) =>
      if h != |c.types| { FirstLoop(ctx, b, PushLabel(c, LoopLabel, sig), pc, h); }
    case IfIns(sig, b) => LoopsInside(ctx, b, Check(ctx, c, If(sig)).value, pc + 1, pc, h);
    case IfElseIns(sig, b1, b2) =>
      var c1 := Check(ctx, c, If(sig)).value;
      if LoopStarts(ctx, b1, c1, pc + 1, pc, h) { LoopsInside(ctx, b1, c1, pc + 1, pc, h); }
      else { LoopsInside(ctx, b2, Then(ctx, CheckBody(ctx, b1, c1), Else).value, pc + 2 + Size(b1), pc, h); }
  }

  lemma {:induction false} OneHeight(ctx: Context, b: Body, c: Checker, pc: nat, pos: nat, h: nat, g: nat)
    requires CheckBody(ctx, b, c).Some? && LoopStarts(ctx, b, c, pc, pos, h) && LoopStarts(ctx, b, c, pc, pos, g)
    ensures h == g
    decreases b
  {
    hide Check;
    match b
    case Cons(x, t) =>
      var c1, q := CheckIns(ctx, x, c).value, pc + SizeIns(x);
      forall k | k in {h, g} && LoopStartsIns(ctx, x, c, pc, pos, k) ensures pos < q { LoopsInsideIns(ctx, x, c, pc, pos, k); }
      forall k | k in {h, g} && LoopStarts(ctx, t, c1, q, pos, k) ensures q <= pos { LoopsInside(ctx, t, c1, q, pos, k); }
      if pos < q { OneHeightIns(ctx, x, c, pc, pos, h, g); } else { OneHeight(ctx, t, c1, q, pos, h, g); }
  }

  lemma {:induction false} InArm(ctx: Context, sig: seq<ValType>, b1: Body, b2: Body, c: Checker, pc: nat, pos: nat, h: nat)
    requires CheckIns(ctx, IfElseIns(sig, b1, b2), c).Some? && LoopStartsIns(ctx, IfElseIns(sig, b1, b2), c, pc, pos, h)
    ensures
      var c1 := Check(ctx, c, If(sig)).value;
      if pos < pc + 1 + Size(b1) then LoopStarts(ctx, b1, c1, pc + 1, pos, h)
      else LoopStarts(ctx, b2, Then(ctx, CheckBody(ctx, b1, c1), Else).value, pc + 2 + Size(b1), pos, h)
  {
    hide Check, CheckBody;
    var c1 := Check(ctx, c, If(sig)).value;
    if LoopStarts(ctx, b1, c1, pc + 1, pos, h) { LoopsInside(ctx, b1, c1, pc + 1, pos, h); }
    else { LoopsInside(ctx, b2, Then(ctx, CheckBody(ctx, b1, c1), Else).value, pc + 2 + Size(b1), pos, h); }
  }

  lemma {:induction false} OneHeightIns(ctx: Context, ins: Ins, c: Checker, pc: nat, pos: nat, h: nat, g: nat)
    requires CheckIns(ctx, ins, c).Some? && LoopStartsIns(ctx, ins, c, pc, pos, h) && LoopStartsIns(ctx, ins, c, pc, pos, g)
    ensures h == g
    decreases ins
  {
    hide Check, CheckBody;
    if pos == pc {
      FirstLoopIns(ctx, ins, c, pc, h);
      FirstLoopIns(ctx, ins, c, pc, g);
    } else {
      match ins
      case BlockIns(sig, b) => OneHeight(ctx, b, PushLabel(c, BlockLabel, sig), pc, pos, h, g);
      case LoopIns(sig, b) => OneHeight(ctx, b, PushLabel(c, LoopLabel, sig), pc, pos, h, g);
      case IfIns(sig, b) => OneHeight(ctx, b, Check(ctx, c, If(sig)).value, pc + 1, pos, h, g);
      case IfElseIns(sig, b1, b2) =>
        var c1 := Check(ctx, c, If(sig)).value;
        var c2, mid := Then(ctx, CheckBody(ctx, b1, c1), Else).value, pc + 1 + Size(b1);
        InArm(ctx, sig, b1, b2, c, pc, pos, h);
        InArm(ctx, sig, b1, b2, c, pc, pos, g);
        if pos < mid { OneHeight(ctx, b1, c1, pc + 1, pos, h, g); } else { OneHeight(ctx, b2, c2, mid + 1, pos, h, g); }
    }
  }

  /* ---- clean code goes back to loops at their height ---- */

  /** A jump from `q` to `target` with `n` operands brings no loop more than it was entered with. */
  ghost predicate Returns(ctx: Context, whole: Body, q: nat, target: nat, n: int) {
    target <= q ==> forall h: nat :: LoopIn(ctx, whole, target, h) ==> n <= h
  }

  /** So do the jumps of record `k` of a piece of code that starts at `pc`. */
  ghost predicate Turns(ctx: Context, whole: Body, pc: nat, lay: seq<Rec>, notes: seq<Note>, k: nat)
    requires k < |lay| == |notes|
  {
    lay[k].Jump? && notes[k].At? ==>
      var n, v2 := |notes[k].types|, lay[k].v2;
      match lay[k].op
      case OpBr => Returns(ctx, whole, pc + k, v2, n)
      case OpElse => Returns(ctx, whole, pc + k, v2, n)
      case OpBrIf => Returns(ctx, whole, pc + k, v2, n - 1)
      case OpIf => Returns(ctx, whole, pc + k, v2, n - 1)
      case OpBrTable =>
        k + 1 + lay[k].v1 < |lay| &&
        forall e :: k < e <= k + 1 + lay[k].v1 ==> lay[e].Jump? && Returns(ctx, whole, pc + k, lay[e].v2, n - 1)
  }

  ghost predicate AllTurn(ctx: Context, whole: Body, pc: nat, lay: seq<Rec>, notes: seq<Note>) {
    |lay| == |notes| && forall k :: 0 <= k < |lay| ==> Turns(ctx, whole, pc, lay, notes, k)
  }

  lemma TurnConcat(ctx: Context, whole: Body, pc: nat, l1: seq<Rec>, n1: seq<Note>, l2: seq<Rec>, n2: seq<Note>)
    requires AllTurn(ctx, whole, pc, l1, n1) && AllTurn(ctx, whole, pc + |l1|, l2, n2)
    ensures AllTurn(ctx, whole, pc, l1 + l2, n1 + n2)
  {
    hide Returns;
    forall k | 0 <= k < |l1 + l2| ensures Turns(ctx, whole, pc, l1 + l2, n1 + n2, k) {
      if k < |l1| {
        assert Turns(ctx, whole, pc, l1, n1, k);
      } else {
        assert Turns(ctx, whole, pc + |l1|, l2, n2, k - |l1|);
        if l2[k - |l1|].Jump? && n2[k - |l1|].At? && l2[k - |l1|].op.OpBrTable? {
          forall e | k < e <= k + 1 + l2[k - |l1|].v1
            ensures (l1 + l2)[e].Jump? && Returns(ctx, whole, pc + k, (l1 + l2)[e].v2, |n2[k - |l1|].types| - 1)
          {
            assert (l1 + l2)[e] == l2[e - |l1|];
          }
        }
      }
    }
  }

  lemma OneTurns(ctx: Context, whole: Body, pc: nat, rec: Rec, note: Note)
    requires rec.Jump? ==> !rec.op.OpBrTable? && rec.v2 > pc
    ensures AllTurn(ctx, whole, pc, [rec], [note])
  {
  }

  /** Open labels of loops lead to loops entered at the label's limit, all others past `end`. */
  predicate Places(ctx: Context, whole: Body, c: Checker, env: seq<Target>, end: nat) {
    |env| == |c.labels| &&
    forall j :: 0 <= j < |env| ==>
      if c.labels[j].kind.LoopLabel? then LoopIn(ctx, whole, env[j].offset, c.labels[j].limit) else end <= env[j].offset
  }

  lemma PlacesStay(ctx: Context, whole: Body, c: Checker, d: Checker, env: seq<Target>, end: nat, e: nat)
    requires Places(ctx, whole, c, env, end) && SameLabel(c, d) && e <= end
    ensures Places(ctx, whole, d, env, e)
  {
    hide LoopIn;
    forall j | 0 <= j < |env| ensures d.labels[j].kind == c.labels[j].kind && d.labels[j].limit == c.labels[j].limit {
      if j < |c.labels| - 1 { assert d.labels[j] == d.labels[..|c.labels| - 1][j] == c.labels[..|c.labels| - 1][j]; }
    }
  }

  lemma PlacesInside(ctx: Context, whole: Body, c: Checker, kind: LabelKind, sig: seq<ValType>, env: seq<Target>, t: Target, end: nat, e: nat)
    requires Places(ctx, whole, c, env, end) && e <= end
    requires if kind.LoopLabel? then LoopIn(ctx, whole, t.offset, |c.types|) else e <= t.offset
    ensures Places(ctx, whole, PushLabel(c, kind, sig), env + [t], e)
  {
    hide LoopIn;
  }

  lemma BranchReturns(ctx: Context, whole: Body, c: Checker, env: seq<Target>, end: nat, d: nat, q: nat, n: nat)
    requires Places(ctx, whole, c, env, end) && d < |c.labels| && q < end && CleanBranch(c, n, d)
    ensures Returns(ctx, whole, q, TargetAt(env, d).offset, n)
  {
    hide CheckBody, LoopStarts;
    var j := |c.labels| - 1 - d;
    var target := env[j].offset;
    if c.labels[j].kind.LoopLabel? {
      forall h: nat | LoopIn(ctx, whole, target, h) ensures n <= h {
        OneHeight(ctx, whole, BeginFunction(ctx), 0, target, h, c.labels[j].limit);
      }
    }
  }

  lemma PlainTurns(ctx: Context, whole: Body, i: PlainInstr, c: Checker, pc: nat, env: seq<Target>)
    requires Valid(c) && Check(ctx, c, i).Some? && (AllLive(c) ==> CleanPlain(c, i))
    requires Places(ctx, whole, c, env, pc + PlainSize(i))
    ensures AllTurn(ctx, whole, pc, LayPlain(ctx, i, env), NotesOf(NoteOf(c, i), PlainSize(i)))
  {
    hide Places, Returns, Valid, TargetAt;
    var lay, notes := LayPlain(ctx, i, env), NotesOf(NoteOf(c, i), PlainSize(i));
    if AllLive(c) {
      match i
      case Br(d) => BranchReturns(ctx, whole, c, env, pc + 1, d, pc, |c.types|);
      case BrIf(d) =>
        LiveBrIf(c, d);
        BranchReturns(ctx, whole, c, env, pc + 1, d, pc, |c.types| - 1);
      case BrTable(ds, d) =>
        forall e | 0 < e <= 1 + |ds| ensures lay[e].Jump? && Returns(ctx, whole, pc, lay[e].v2, |c.types| - 1) {
          EntryReturns(ctx, whole, c, ds, d, env, pc, e - 1);
        }
      case _ =>
    }
  }

  lemma EntryReturns(ctx: Context, whole: Body, c: Checker, ds: seq<nat>, d: nat, env: seq<Target>, pc: nat, k: nat)
    requires Valid(c) && AllLive(c) && OnBrTable(c, ds, d).Some? && CleanPlain(c, BrTable(ds, d)) && k <= |ds|
    requires Places(ctx, whole, c, env, pc + |ds| + 2)
    ensures Returns(ctx, whole, pc, TargetAt(env, if k < |ds| then ds[k] else d).offset, |c.types| - 1)
  {
    hide Places, Returns, AnyOnlyAtDeadLimit, LimitsOrdered;
    LivePop(c, [I32]);
    PopKeeps(c, [I32]);
    var c1 := PopTypes(c, [I32]).value;
    LiveTargets(c1, ds + [d], Any, k);
    assert (ds + [d])[k] == if k < |ds| then ds[k] else d;
    BranchReturns(ctx, whole, c, env, pc + |ds| + 2, (ds + [d])[k], pc, |c.types| - 1);
  }

  lemma {:induction false} BodyTurns(ctx: Context, whole: Body, b: Body, c: Checker, pc: nat, next: nat, env: seq<Target>)
    requires Valid(c) && CheckBody(ctx, b, c).Some? && PartOf(true, ctx, whole, b, c, pc)
    requires Places(ctx, whole, c, env, pc + Size(b))
    ensures AllTurn(ctx, whole, pc, LayBody(ctx, b, c, pc, next, env), NotesBody(ctx, b, c))
    decreases b, 0
  {
    hide Places, AllTurn, Valid, PartOf, InsPartOf, SameLabel, LayIns, NotesIns, CheckIns;
    match b
    case Nil => NothingTurns(ctx, whole, pc);
    case Cons(h, t) =>
      var c1, q := CheckIns(ctx, h, c).value, pc + SizeIns(h);
      ConsParts(true, ctx, whole, h, t, c, pc);
      InsKeeps(ctx, h, c);
      PlacesStay(ctx, whole, c, c1, env, pc + Size(b), pc + Size(b));
      PlacesShrink(ctx, whole, c, env, pc + Size(b), q);
      InsTurns(ctx, whole, h, c, pc, next, env);
      BodyTurns(ctx, whole, t, c1, q, next + LabelsIns(h), env);
      TurnConcat(ctx, whole, pc, LayIns(ctx, h, c, pc, next, env), NotesIns(ctx, h, c),
        LayBody(ctx, t, c1, q, next + LabelsIns(h), env), NotesBody(ctx, t, c1));
  }

  lemma NothingTurns(ctx: Context, whole: Body, pc: nat)
    ensures AllTurn(ctx, whole, pc, [], [])
  {
  }

  lemma PlacesShrink(ctx: Context, whole: Body, c: Checker, env: seq<Target>, end: nat, e: nat)
    requires Places(ctx, whole, c, env, end) && e <= end
    ensures Places(ctx, whole, c, env, e)
  {
    hide LoopIn;
  }

  /** A bracket's body and its `end`. */
  lemma {:induction false} ArmTurns(ctx: Context, whole: Body, b: Body, c: Checker, kind: LabelKind, sig: seq<ValType>,
      pc: nat, next: nat, env: seq<Target>, t: Target, end: nat)
    requires Valid(c) && !kind.FuncLabel? && CheckBody(ctx, b, PushLabel(c, kind, sig)).Some?
    requires PartOf(true, ctx, whole, b, PushLabel(c, kind, sig), pc)
    requires Places(ctx, whole, c, env, end) && pc + Size(b) <= end
    requires if kind.LoopLabel? then LoopIn(ctx, whole, t.offset, |c.types|) else pc + Size(b) <= t.offset
    ensures
      var c1 := PushLabel(c, kind, sig);
      && AllTurn(ctx, whole, pc, LayBody(ctx, b, c1, pc, next, env + [t]), NotesBody(ctx, b, c1))
      && AllTurn(ctx, whole, pc, Closing(LayBody(ctx, b, c1, pc, next, env + [t]), |c.types|, |sig|), NotesArm(ctx, b, c1, End))
    decreases b, 1
  {
    hide Places, AllTurn, Valid, PartOf, LayBody, NotesBody, CheckBody, NoteOf, LoopIn, PushLabel;
    var c1 := PushLabel(c, kind, sig);
    PushLabelKeeps(c, kind, sig);
    PlacesInside(ctx, whole, c, kind, sig, env, t, end, pc + Size(b));
    BodyTurns(ctx, whole, b, c1, pc, next, env + [t]);
    var close := NoteOf(CheckBody(ctx, b, c1).value, End);
    OneTurns(ctx, whole, pc + Size(b), EndRec(|c.types|, |sig|), close);
    TurnConcat(ctx, whole, pc, LayBody(ctx, b, c1, pc, next, env + [t]), NotesBody(ctx, b, c1), [EndRec(|c.types|, |sig|)], [close]);
  }

  lemma {:induction false} InsTurns(ctx: Context, whole: Body, ins: Ins, c: Checker, pc: nat, next: nat, env: seq<Target>)
    requires Valid(c) && CheckIns(ctx, ins, c).Some? && InsPartOf(true, ctx, whole, ins, c, pc)
    requires Places(ctx, whole, c, env, pc + SizeIns(ins))
    ensures AllTurn(ctx, whole, pc, LayIns(ctx, ins, c, pc, next, env), NotesIns(ctx, ins, c))
    decreases ins
  {
    hide Places, AllTurn, Valid, PartOf, LayBody, NotesBody, CheckBody, Check, NoteOf, LoopIn, NotesArm, Closing, LayPlain, NotesOf, CleanBody, LoopStarts, CleanPlain, AllLive;
    match ins
    case Plain(i) => PlainTurns(ctx, whole, i, c, pc, env);
    case BlockIns(sig, b) =>
      BlockPart(true, ctx, whole, sig, b, c, pc);
      ArmTurns(ctx, whole, b, c, BlockLabel, sig, pc, next + 1, env, Target(next, pc + Size(b)), pc + SizeIns(ins));
    case LoopIns(sig, b) =>
      LoopPart(true, ctx, whole, sig, b, c, pc);
      ArmTurns(ctx, whole, b, c, LoopLabel, sig, pc, next + 1, env, Target(next, pc), pc + SizeIns(ins));
    case IfIns(sig, b) => IfTurns(ctx, whole, sig, b, c, pc, next, env);
    case IfElseIns(sig, b1, b2) => IfElseTurns(ctx, whole, sig, b1, b2, c, pc, next, env);
  }

  lemma {:induction false} IfTurns(ctx: Context, whole: Body, sig: seq<ValType>, b: Body, c: Checker, pc: nat, next: nat, env: seq<Target>)
    requires Valid(c) && CheckIns(ctx, IfIns(sig, b), c).Some? && InsPartOf(true, ctx, whole, IfIns(sig, b), c, pc)
    requires Places(ctx, whole, c, env, pc + Size(b) + 2)
    ensures AllTurn(ctx, whole, pc, LayIns(ctx, IfIns(sig, b), c, pc, next, env), NotesIns(ctx, IfIns(sig, b), c))
    decreases b, 2
  {
    hide Places, AllTurn, Valid, PartOf, InsPartOf, LayBody, NotesBody, CheckBody, Check, NoteOf, LoopIn, SameLabel, NotesArm;
    IfPart(true, ctx, whole, sig, b, c, pc);
    IfStarts(ctx, c, sig);
    var c0, t := IfBase(c), Target(next, pc + 1 + Size(b));
    PlacesStay(ctx, whole, c, c0, env, pc + Size(b) + 2, pc + Size(b) + 2);
    ArmTurns(ctx, whole, b, c0, IfLabel, sig, pc + 1, next + 1, env, t, pc + Size(b) + 2);
    var c1 := PushLabel(c0, IfLabel, sig);
    var test := Jump(OpIf, next, pc + 1 + Size(b));
    OneTurns(ctx, whole, pc, test, NoteOf(c, If(sig)));
    TurnConcat(ctx, whole, pc, [test], [NoteOf(c, If(sig))],
      Closing(LayBody(ctx, b, c1, pc + 1, next + 1, env + [t]), |c0.types|, |sig|), NotesArm(ctx, b, c1, End));
  }

  lemma TwoArmsTurn(ctx: Context, whole: Body, pc: nat, test: Rec, testNote: Note, thn: seq<Rec>, thnNotes: seq<Note>,
      turn: Rec, turnNote: Note, els: seq<Rec>, elsNotes: seq<Note>)
    requires test.Jump? && test.op.OpIf? && test.v2 > pc && turn.Jump? && turn.op.OpElse? && turn.v2 > pc + 1 + |thn|
    requires AllTurn(ctx, whole, pc + 1, thn, thnNotes) && AllTurn(ctx, whole, pc + 2 + |thn|, els, elsNotes)
    ensures AllTurn(ctx, whole, pc, [test] + thn + [turn] + els, [testNote] + (thnNotes + [turnNote]) + elsNotes)
  {
    hide AllTurn;
    OneTurns(ctx, whole, pc, test, testNote);
    OneTurns(ctx, whole, pc + 1 + |thn|, turn, turnNote);
    TurnConcat(ctx, whole, pc, [test], [testNote], thn, thnNotes);
    TurnConcat(ctx, whole, pc, [test] + thn, [testNote] + thnNotes, [turn], [turnNote]);
    TurnConcat(ctx, whole, pc, [test] + thn + [turn], [testNote] + thnNotes + [turnNote], els, elsNotes);
    assert [testNote] + (thnNotes + [turnNote]) + elsNotes == [testNote] + thnNotes + [turnNote] + elsNotes;
  }

  lemma {:induction false} IfElseTurns(ctx: Context, whole: Body, sig: seq<ValType>, b1: Body, b2: Body, c: Checker, pc: nat, next: nat, env: seq<Target>)
    requires Valid(c) && CheckIns(ctx, IfElseIns(sig, b1, b2), c).Some?
    requires InsPartOf(true, ctx, whole, IfElseIns(sig, b1, b2), c, pc)
    requires Places(ctx, whole, c, env, pc + Size(b1) + Size(b2) + 3)
    ensures AllTurn(ctx, whole, pc, LayIns(ctx, IfElseIns(sig, b1, b2), c, pc, next, env), NotesIns(ctx, IfElseIns(sig, b1, b2), c))
    decreases IfElseIns(sig, b1, b2), 0
  {
    hide Places, AllTurn, Valid, PartOf, InsPartOf, LayBody, NotesBody, CheckBody, Check, NoteOf, LoopIn, SameLabel;
    ArmParts(true, ctx, whole, sig, b1, b2, c, pc);
    IfStarts(ctx, c, sig);
    var c0, mid := IfBase(c), pc + 1 + Size(b1);
    var end := mid + 1 + Size(b2);
    var t := Target(next, end);
    PlacesStay(ctx, whole, c, c0, env, end + 1, end + 1);
    var c1, c2 := PushLabel(c0, IfLabel, sig), PushLabel(c0, ElseLabel, sig);
    BodyKeeps(ctx, b1, c1);
    ElseRestarts(ctx, b1, c0, sig);
    ArmTurns(ctx, whole, b1, c0, IfLabel, sig, pc + 1, next + 1, env, t, end + 1);
    ArmTurns(ctx, whole, b2, c0, ElseLabel, sig, mid + 1, next + 1 + Labels(b1), env, t, end + 1);
    var test, turn := Jump(OpIf, next, mid + 1), Jump(OpElse, next, end);
    var testNote, turnNote := NoteOf(c, If(sig)), NoteOf(CheckBody(ctx, b1, c1).value, Else);
    var thn, els := LayBody(ctx, b1, c1, pc + 1, next + 1, env + [t]),
      Closing(LayBody(ctx, b2, c2, mid + 1, next + 1 + Labels(b1), env + [t]), |c0.types|, |sig|);
    TwoArmsTurn(ctx, whole, pc, test, testNote, thn, NotesBody(ctx, b1, c1), turn, turnNote, els, NotesArm(ctx, b2, c2, End));
  }

  lemma {:induction false} FunctionTurns(ctx: Context, b: Body)
    requires CheckBody(ctx, b, BeginFunction(ctx)).Some? && CleanBody(ctx, b, BeginFunction(ctx))
    ensures AllTurn(ctx, b, 0, LayFunction(ctx, b), Notes(ctx, BeginFunction(ctx), Flatten(b)))
  {
    hide CheckBody, CleanBody, LayBody, Notes, AllTurn, PartOf, Valid, LoopIn;
    BeginFunctionValid(ctx);
    WholePart(true, ctx, b);
    NotesFlatten(ctx, b, BeginFunction(ctx));
    BodyTurns(ctx, b, b, BeginFunction(ctx), 0, 1, [Target(0, Size(b))]);
  }

  /* ---- tidy runs ---- */

  lemma OpMovesOn(p: Program, c: Config, i: Instr)
    requires |c.frames| > 0 && StepOp(p, c, i).Running?
    ensures var d := StepOp(p, c, i).c; |d.frames| == |c.frames| ==> TopFrame(d).pos == TopFrame(c).pos + 1
  {
    hide AsU32, LoadFrom, StoreTo, Grow, Invoke;
    if i.CallIndirect? && StepIndirect(p, c, i.sig).Running? {
      var entry, d := AsU32(Last(c.stack, 1)[0]), c.(stack := Front(c.stack, 1));
      InvokeMovesOn(p, d, p.table[entry]);
    }
  }

  lemma InvokeMovesOn(p: Program, c: Config, f: nat)
    requires |c.frames| > 0 && Invoke(p, c, f).Running?
    ensures var d := Invoke(p, c, f).c; |d.frames| == |c.frames| ==> TopFrame(d).pos == TopFrame(c).pos + 1
  {
  }

  /** A turn after which the same frames are open and the topmost one has gone back is a jump. */
  lemma GoesBackByJump(m: Module, c: Config, h: nat)
    requires |c.frames| > 0 && Step(m.p, c).Running? && BackTo(m, c, Step(m.p, c).c, h)
    ensures
      var fr := TopFrame(c);
      && fr.func < |m.p.funcs| && m.p.funcs[fr.func].WasmFunc? && fr.pos < |m.p.funcs[fr.func].code|
      && m.p.funcs[fr.func].code[fr.pos].Jump?
  {
    hide LoopAt, StepOp, Invoke;
    var fn := m.p.funcs[TopFrame(c).func];
    if TopFrame(c).pos < |fn.code| {
      match fn.code[TopFrame(c).pos]
      case Op(i) => OpMovesOn(m.p, c, i);
      case CallRec(f, _) => InvokeMovesOn(m.p, c, f);
      case _ =>
    }
  }

  /** In a clean function such a jump brings back what the loop was entered with. */
  lemma JumpReturns(ctx: Context, b: Body, c: Config, d: Config, n: nat, h: nat)
    requires |c.frames| > 0 && |d.frames| > 0 && CheckBody(ctx, b, BeginFunction(ctx)).Some?
    requires
      var code, notes := LayFunction(ctx, b), Notes(ctx, BeginFunction(ctx), Flatten(b));
      var q := TopFrame(c).pos;
      && q < |code| == |notes| && code[q].Jump? && notes[q].At? && |notes[q].types| == n <= |c.stack|
      && Turns(ctx, b, 0, code, notes, q) && StepJump(c, code, code[q]) == Running(d)
      && TopFrame(d).pos <= q && LoopIn(ctx, b, TopFrame(d).pos, h)
    ensures |d.stack| + n <= |c.stack| + h && TopFrame(d).locals == TopFrame(c).locals
  {
    hide LayFunction, Notes, Flatten, CheckBody, LoopIn, AsU32;
    var code, q := LayFunction(ctx, b), TopFrame(c).pos;
    var pops := if code[q].op.OpBr? || code[q].op.OpElse? then 0 else 1;
    assert Returns(ctx, b, q, TopFrame(d).pos, n - pops);
  }

  lemma JumpIsAt(ctx: Context, b: Body, pc: nat, ts: seq<Type>)
    requires CheckBody(ctx, b, BeginFunction(ctx)).Some?
    requires EndFunction(CheckBody(ctx, b, BeginFunction(ctx)).value).Some?
    requires pc < |LayFunction(ctx, b)| && LayFunction(ctx, b)[pc].Jump?
    requires pc < |FunctionNotes(ctx, Flatten(b))| && Fits(true, FunctionNotes(ctx, Flatten(b))[pc], ts)
    ensures
      var notes := Notes(ctx, BeginFunction(ctx), Flatten(b));
      |notes| == |LayFunction(ctx, b)| && notes[pc] == At(ts)
  {
    hide LayFunction, Notes, Flatten, CheckBody, EndFunction, JumpRule;
    AcceptedObeysRules(true, ctx, b);
    assert RuleAt(FlatOf(true, ctx, b), pc);
  }

  lemma StepsByJump(p: Program, c: Config)
    requires |c.frames| > 0 && TopFrame(c).func < |p.funcs| && p.funcs[TopFrame(c).func].WasmFunc?
    requires
      var code := p.funcs[TopFrame(c).func].code;
      TopFrame(c).pos < |code| && code[TopFrame(c).pos].Jump?
    ensures
      var code := p.funcs[TopFrame(c).func].code;
      Step(p, c) == StepJump(c, code, code[TopFrame(c).pos])
  {
    hide StepJump;
  }

  lemma CleanNeverBack(m: Module, c: Config, h: nat)
    requires ModuleFits(true, m) && AsChecked(true, m, c) && CleanFunc(m, TopFrame(c).func) && Step(m.p, c).Running?
    ensures !BackTo(m, c, Step(m.p, c).c, h)
  {
    hide HostFits, CheckBody, LayFunction, Notes, Fits, LocalsIn, Flatten, Step, LoopIn, Turns, Rule, StepJump;
    var d := Step(m.p, c).c;
    if BackTo(m, c, d, h) {
      GoesBackByJump(m, c, h);
      var fr := TopFrame(c);
      assert FuncOk(m, fr.func);
      var ctx, b := m.ctxs[fr.func], m.bodies[fr.func];
      NotDead(true, NoteAt(m, fr.func, fr.pos), TypesOf(OperandsIn(m, fr, c.stack)));
      JumpIsAt(ctx, b, fr.pos, TypesOf(OperandsIn(m, fr, c.stack)));
      FunctionTurns(ctx, b);
      StepsByJump(m.p, c);
      JumpReturns(ctx, b, c, d, |OperandsIn(m, fr, c.stack)|, h);
    }
  }

  /** No run of a tidy module strays, whatever the length of the run and however its stacks are
      sized: neither does a turn bring operands back to a loop nor does one call a function with
      locals of its own. */
  lemma TidyNeverStrays(m: Module, c: Config, f: nat, args: seq<Value>, n: nat)
    requires HostCall(true, m, c, f, args) && HostEnter(m.p, c, f, args).Running? && Tidy(m)
    ensures !StraysWithin(m, HostEnter(m.p, c, f, args).c, |c.frames|, n)
  {
    hide HostEnter, Run, ModuleFits, AsChecked, StoreFits, CallsPlain, Step, CleanFunc, Overlaps, PlainCallees, BackTo;
    var start, k := HostEnter(m.p, c, f, args).c, |c.frames|;
    forall i: nat | i < n ensures !StraysAt(m, start, k, i) {
      PlainCalleesCallPlain(m, start, k, i);
      OperandsMatchChecker(m, c, f, args, i);
      var e := Run(m.p, start, k, i);
      if e.Running? && |e.c.frames| > k {
        CalledPlain(m.p, e.c);
        InsideModule(m, e.c);
        if Step(m.p, e.c).Running? {
          forall h: nat ensures !BackTo(m, e.c, Step(m.p, e.c).c, h) { CleanNeverBack(m, e.c, h); }
        }
      }
    }
  }

  lemma InsideModule(m: Module, c: Config)
    requires AsChecked(true, m, c)
    ensures |c.frames| > 0 && TopFrame(c).func < |m.p.funcs|
  {
  }

  /* ---- what tidy means, read off the instruction stream ---- */

  /** In state `c` of the checker a branch to depth `d` that finds `n` operands goes to a loop entered with
      exactly as many, or to no loop. */
  predicate AtEntryHeight(c: Checker, n: int, d: nat) {
    d < |c.labels| && c.labels[|c.labels| - 1 - d].kind == LoopLabel ==> c.labels[|c.labels| - 1 - d].limit == n
  }

  /** The checker, in state `c`, meets `i`: unless the code is unreachable, it brings no loop more or fewer
      operands than the loop was entered with. */
  predicate TidyAt(c: Checker, i: Instr) {
    (forall j :: 0 <= j < |c.labels| ==> !c.labels[j].unreachable) ==>
      match i
      case Br(d) => AtEntryHeight(c, |c.types|, d)
      case BrIf(d) => AtEntryHeight(c, |c.types| - 1, d)
      case BrTable(ds, d) => AtEntryHeight(c, |c.types| - 1, d) && forall e :: e in ds ==> AtEntryHeight(c, |c.types| - 1, e)
      case _ => true
  }

  predicate TidyStream(ctx: Context, c: Checker, code: seq<Instr>)
    decreases |code|
  {
    code != [] ==>
      TidyAt(c, code[0]) && (Check(ctx, c, code[0]).Some? ==> TidyStream(ctx, Check(ctx, c, code[0]).value, code[1..]))
  }

  lemma {:induction false} StreamConcat(ctx: Context, c: Checker, xs: seq<Instr>, ys: seq<Instr>)
    requires CheckAll(ctx, c, xs).Some?
    ensures TidyStream(ctx, c, xs + ys) <==> TidyStream(ctx, c, xs) && TidyStream(ctx, CheckAll(ctx, c, xs).value, ys)
    decreases |xs|
  {
    hide Check, TidyAt;
    if xs == [] {
      assert xs + ys == ys;
    } else {
      assert (xs + ys)[1..] == xs[1..] + ys;
      StreamConcat(ctx, Check(ctx, c, xs[0]).value, xs[1..], ys);
    }
  }

  lemma PlainIsTidy(c: Checker, i: PlainInstr)
    ensures (AllLive(c) ==> CleanPlain(c, i)) <==> TidyAt(c, i)
  {
    if i.BrTable? {
      forall k | 0 <= k < |i.depths| ensures i.depths[k] in i.depths { }
    }
  }

  lemma StreamOne(ctx: Context, c: Checker, i: Instr)
    ensures TidyStream(ctx, c, [i]) <==> TidyAt(c, i)
  {
    hide Check, TidyAt;
    if Check(ctx, c, i).Some? { assert [i][1..] == [] && TidyStream(ctx, Check(ctx, c, i).value, []); }
  }

  /** An opening instruction, a body and a closing one. */
  lemma {:induction false} BracketStream(ctx: Context, c: Checker, open: Instr, b: Body, close: Instr)
    requires !open.Br? && !open.BrIf? && !open.BrTable? && !close.Br? && !close.BrIf? && !close.BrTable?
    requires Check(ctx, c, open).Some? && CheckBody(ctx, b, Check(ctx, c, open).value).Some?
    ensures TidyStream(ctx, c, [open] + Flatten(b) + [close]) <==> TidyStream(ctx, Check(ctx, c, open).value, Flatten(b))
    ensures CheckAll(ctx, c, [open] + Flatten(b) + [close]) == Then(ctx, CheckBody(ctx, b, Check(ctx, c, open).value), close)
  {
    hide Check;
    var c1 := Check(ctx, c, open).value;
    FlattenChecks(ctx, b, c1);
    BracketChecks(ctx, c, open, b, close, c1);
    var d := CheckBody(ctx, b, c1).value;
    StreamOne(ctx, d, close);
    StreamConcat(ctx, c1, Flatten(b), [close]);
    assert ([open] + Flatten(b) + [close])[1..] == Flatten(b) + [close];
  }

  /** A body is clean exactly when its instruction stream is tidy. */
  lemma {:induction false} CleanIsTidy(ctx: Context, b: Body, c: Checker)
    requires CheckBody(ctx, b, c).Some?
    ensures CleanBody(ctx, b, c) <==> TidyStream(ctx, c, Flatten(b))
    decreases b
  {
    hide CheckIns, CleanIns, FlattenIns, Check;
    match b
    case Nil =>
    case Cons(h, t) =>
      FlattenInsChecks(ctx, h, c);
      StreamConcat(ctx, c, FlattenIns(h), Flatten(t));
      CleanInsIsTidy(ctx, h, c);
      CleanIsTidy(ctx, t, CheckIns(ctx, h, c).value);
  }

  lemma {:induction false} CleanInsIsTidy(ctx: Context, ins: Ins, c: Checker)
    requires CheckIns(ctx, ins, c).Some?
    ensures CleanIns(ctx, ins, c) <==> TidyStream(ctx, c, FlattenIns(ins))
    decreases ins
  {
    hide CheckBody, CleanBody, Flatten, TidyStream, CleanPlain, TidyAt, PushLabel;
    match ins
    case Plain(i) => StreamOne(ctx, c, i); PlainIsTidy(c, i);
    case BlockIns(sig, b) =>
      CleanIsTidy(ctx, b, PushLabel(c, BlockLabel, sig));
      BracketStream(ctx, c, Block(sig), b, End);
    case LoopIns(sig, b) =>
      CleanIsTidy(ctx, b, PushLabel(c, LoopLabel, sig));
      BracketStream(ctx, c, Loop(sig), b, End);
    case IfIns(sig, b) =>
      CleanIsTidy(ctx, b, Check(ctx, c, If(sig)).value);
      BracketStream(ctx, c, If(sig), b, End);
    case IfElseIns(sig, b1, b2) => ArmsAreTidy(ctx, sig, b1, b2, c);
  }

  lemma {:induction false} ArmsAreTidy(ctx: Context, sig: seq<ValType>, b1: Body, b2: Body, c: Checker)
    requires CheckIns(ctx, IfElseIns(sig, b1, b2), c).Some?
    ensures CleanIns(ctx, IfElseIns(sig, b1, b2), c) <==> TidyStream(ctx, c, FlattenIns(IfElseIns(sig, b1, b2)))
    decreases IfElseIns(sig, b1, b2), 0
  {
    hide CheckBody, CleanBody, Flatten, TidyStream, Check, TidyAt;
    var c1 := Check(ctx, c, If(sig)).value;
    var c2 := Then(ctx, CheckBody(ctx, b1, c1), Else).value;
    CleanIsTidy(ctx, b1, c1);
    CleanIsTidy(ctx, b2, c2);
    var front := [If(sig)] + Flatten(b1) + [Else];
    BracketStream(ctx, c, If(sig), b1, Else);
    StreamConcat(ctx, c, front, Flatten(b2) + [End]);
    FlattenChecks(ctx, b2, c2);
    StreamConcat(ctx, c2, Flatten(b2), [End]);
    StreamOne(ctx, CheckBody(ctx, b2, c2).value, End);
    EndIsTidy(CheckBody(ctx, b2, c2).value);
    assert front + (Flatten(b2) + [End]) == FlattenIns(IfElseIns(sig, b1, b2));
  }

  lemma EndIsTidy(c: Checker)
    ensures TidyAt(c, End)
  {
  }

  /** What a reader of the module has to look at: no instruction that the checker reached brings a loop
      another number of operands than the loop was entered with, and whatever is called directly or
      stands in the table is a host function, or has no locals but its parameters. */
  lemma TidyIs(m: Module)
    requires |m.ctxs| == |m.p.funcs| == |m.bodies| && forall f :: 0 <= f < |m.p.funcs| ==> FuncOk(m, f)
    ensures Tidy(m) <==>
      && (forall f :: 0 <= f < |m.p.funcs| && m.p.funcs[f].WasmFunc? ==>
            TidyStream(m.ctxs[f], BeginFunction(m.ctxs[f]), Flatten(m.bodies[f])))
      && (forall f, k, g ::
            0 <= f < |m.p.funcs| && m.p.funcs[f].WasmFunc? && 0 <= k < |m.p.funcs[f].code| && 0 <= g < |m.p.funcs| &&
            (m.p.funcs[f].code[k] == CallRec(g, true) || m.p.funcs[f].code[k] == CallRec(g, false)) && m.p.funcs[g].WasmFunc? ==>
              |m.p.funcs[g].locals| == |m.p.funcs[g].sig.params|)
      && (forall e :: 0 <= e < |m.p.table| && m.p.table[e] < |m.p.funcs| && m.p.funcs[m.p.table[e]].WasmFunc? ==>
            |m.p.funcs[m.p.table[e]].locals| == |m.p.funcs[m.p.table[e]].sig.params|)
  {
    hide CheckBody, CleanBody, TidyStream, LayFunction;
    forall f | 0 <= f < |m.p.funcs| && m.p.funcs[f].WasmFunc?
      ensures CleanFunc(m, f) <==> TidyStream(m.ctxs[f], BeginFunction(m.ctxs[f]), Flatten(m.bodies[f]))
    {
      assert FuncOk(m, f);
      CleanIsTidy(m.ctxs[f], m.bodies[f], BeginFunction(m.ctxs[f]));
    }
  }
}
