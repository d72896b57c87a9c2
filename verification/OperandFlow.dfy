/** Every record of an accepted body obeys the rule for its note: a static proof over the
    structured form, with branch targets resolved by the layout. */
module OperandFlow {
  import opened Wasm
  import opened Checking
  import opened CheckerInvariants
  import opened Structure
  import opened Heights
  import opened Reading
  import opened Layout
  import opened Loops
  import opened Machine
  import opened OperandTypes

  predicate Placed(fl: Flat, pc: nat, lay: seq<Rec>, notes: seq<Note>) {
    && |lay| == |notes|
    && pc + |lay| <= |fl.code| && pc + |lay| <= |fl.notes|
    && fl.code[pc..pc + |lay|] == lay && fl.notes[pc..pc + |lay|] == notes
  }

  lemma SliceParts<T>(s: seq<T>, pc: nat, x: seq<T>, y: seq<T>)
    requires pc + |x| + |y| <= |s| && s[pc..pc + |x| + |y|] == x + y
    ensures s[pc..pc + |x|] == x && s[pc + |x|..pc + |x| + |y|] == y
  {
    assert s[pc..pc + |x|] == s[pc..pc + |x| + |y|][..|x|];
    assert s[pc + |x|..pc + |x| + |y|] == s[pc..pc + |x| + |y|][|x|..];
  }

  lemma LastOfSlice<T>(s: seq<T>, k: nat, x: T)
    requires k + 1 <= |s| && s[k..k + 1] == [x]
    ensures s[k] == x
  {
    assert s[k] == s[k..k + 1][0];
  }

  lemma PlacedSplit(fl: Flat, pc: nat, l1: seq<Rec>, n1: seq<Note>, l2: seq<Rec>, n2: seq<Note>)
    requires |l1| == |n1| && |l2| == |n2| && Placed(fl, pc, l1 + l2, n1 + n2)
    ensures Placed(fl, pc, l1, n1) && Placed(fl, pc + |l1|, l2, n2)
  {
    SliceParts(fl.code, pc, l1, l2);
    SliceParts(fl.notes, pc, n1, n2);
  }

  lemma PlacedGet(fl: Flat, pc: nat, lay: seq<Rec>, notes: seq<Note>, e: nat)
    requires Placed(fl, pc, lay, notes) && e < |lay|
    ensures pc + e < |fl.code| && pc + e < |fl.notes| && fl.code[pc + e] == lay[e] && fl.notes[pc + e] == notes[e]
  {
    assert fl.code[pc + e] == fl.code[pc..pc + |lay|][e] && fl.notes[pc + e] == fl.notes[pc..pc + |lay|][e];
  }

  lemma PlacedOne(fl: Flat, pc: nat, rec: Rec, note: Note)
    requires Placed(fl, pc, [rec], [note])
    ensures pc < |fl.code| && pc < |fl.notes| && fl.code[pc] == rec && fl.notes[pc] == note
  {
    assert fl.code[pc..pc + 1][0] == rec && fl.notes[pc..pc + 1][0] == note;
  }

  /** The first record of code entered with operands `ts`: an opcode's, or the `end` of an empty
      bracket without results. */
  predicate StartNote(note: Note, ts: seq<Type>) {
    note == At(ts) || note == Join(ts, [])
  }

  /** The start of a loop entered with operands `ts`. */
  predicate LoopOpens(fl: Flat, pc: nat, ts: seq<Type>) {
    pc < |fl.notes| && StartNote(fl.notes[pc], ts) && LoopIn(fl.ctx, fl.body, pc, |ts|)
  }

  /** What a branch to label `l`, from `pc` on, may rely on at its target. */
  predicate LabelOk(fl: Flat, l: Label, types: seq<Type>, offset: nat, pc: nat) {
    l.limit <= |types| &&
    if l.kind.LoopLabel? then offset <= pc && LoopOpens(fl, offset, types[..l.limit])
    else offset < |fl.notes| && fl.notes[offset] == Join(types[..l.limit], l.sig)
  }

  predicate LabelsOk(fl: Flat, c: Checker, env: seq<Target>, pc: nat) {
    |env| == |c.labels| &&
    (AllLive(c) ==> forall j :: 0 <= j < |c.labels| ==> LabelOk(fl, c.labels[j], c.types, env[j].offset, pc))
  }

  lemma LabelsStay(fl: Flat, c: Checker, d: Checker, env: seq<Target>, pc: nat, q: nat)
    requires LabelsOk(fl, c, env, pc) && SameLabel(c, d) && Valid(c) && pc <= q
    ensures LabelsOk(fl, d, env, q)
  {
    hide LoopOpens;
    if AllLive(d) {
      SameLabelLive(c, d);
      forall j | 0 <= j < |d.labels| ensures LabelOk(fl, d.labels[j], d.types, env[j].offset, q) {
        assert LabelOk(fl, c.labels[j], c.types, env[j].offset, pc);
        assert c.labels[j].limit <= Top(c).limit;
        assert d.types[..c.labels[j].limit] == d.types[..Top(c).limit][..c.labels[j].limit]
            == c.types[..c.labels[j].limit];
      }
    }
  }

  /** A label that was dead stays dead, so live code is only ever preceded by live code. */
  lemma SameLabelLive(c: Checker, d: Checker)
    requires SameLabel(c, d) && AllLive(d)
    ensures AllLive(c) && d.labels == c.labels
  {
    forall j | 0 <= j < |c.labels| ensures !c.labels[j].unreachable && d.labels[j] == c.labels[j] {
      if j < |c.labels| - 1 {
        assert c.labels[j] == c.labels[..|c.labels| - 1][j] == d.labels[..|c.labels| - 1][j];
      }
    }
  }

  /* ---- live code: the checker's matches are equalities ---- */

  lemma LiveMatch(c: Checker, sig: seq<ValType>)
    requires Valid(c) && AllLive(c) && SignatureOk(c, sig)
    ensures Top(c).limit + |sig| <= |c.types| && EndsWith(c.types, sig)
  {
    LiveSignature(c, sig);
    forall i | 0 <= i < |sig| ensures Last(c.types, |sig|)[i] == sig[i] {
      LiveTypes(c, |c.types| - |sig| + i);
    }
  }

  lemma LivePopMatch(c: Checker, sig: seq<ValType>)
    requires Valid(c) && AllLive(c) && PopTypes(c, sig).Some?
    ensures Top(c).limit + |sig| <= |c.types| && EndsWith(c.types, sig)
    ensures PopTypes(c, sig).value == c.(types := Front(c.types, |sig|))
  {
    LiveMatch(c, sig);
    LivePop(c, sig);
  }

  lemma ArrowMatch(ctx: Context, c: Checker, i: Instr)
    requires Valid(c) && AllLive(c) && HasArrow(i) && Check(ctx, c, i).Some?
    ensures Arrow(ctx, i).Some? && EndsWith(c.types, Arrow(ctx, i).value.params)
    ensures Check(ctx, c, i).value ==
      c.(types := Front(c.types, |Arrow(ctx, i).value.params|) + Arrow(ctx, i).value.results)
  {
    LiveArrow(ctx, c, i);
    var a := Arrow(ctx, i).value;
    if OnlyPushes(i) {
    } else if i.CallIndirect? {
      PopKeeps(c, [I32]);
      LivePopMatch(c, [I32]);
      var c1 := PopTypes(c, [I32]).value;
      LivePopMatch(c1, ctx.types[i.sig].params);
      IndirectMatch(c.types, ctx.types[i.sig].params);
    } else {
      LivePopMatch(c, a.params);
    }
  }

  lemma IndirectMatch(ts: seq<Type>, params: seq<ValType>)
    requires EndsWith(ts, [I32]) && EndsWith(Front(ts, 1), params)
    ensures EndsWith(ts, params + [I32])
  {
    var n := |params|;
    assert Last(ts, n + 1) == Last(Front(ts, 1), n) + Last(ts, 1);
  }

  lemma SelectMatch(c: Checker)
    requires Valid(c) && AllLive(c) && OnSelect(c).Some?
    ensures |c.types| >= 3 && c.types[|c.types| - 2] == c.types[|c.types| - 3]
    ensures OnSelect(c).value == c.(types := Front(c.types, 2))
  {
    var n := |c.types|;
    LiveTypes(c, n - 2);
    LiveTypes(c, n - 3);
    assert Front(c.types, 3) + [c.types[n - 2]] == Front(c.types, 2);
  }

  lemma DropMatch(c: Checker)
    requires Valid(c) && AllLive(c) && DropTypes(c, 1).Some?
    ensures |c.types| >= 1 && DropTypes(c, 1).value == c.(types := Front(c.types, 1))
  {
  }

  /* ---- entering a piece of code ---- */

  /** The code after a body may be entered with the operands the body ends with. */
  predicate EndHolds(fl: Flat, after: Checker, end: nat) {
    AllLive(after) ==> Holds(fl, end, after.types)
  }

  lemma AtHolds(fl: Flat, pc: nat, ts: seq<Type>)
    requires pc < |fl.notes| && fl.notes[pc] == At(ts)
    ensures Holds(fl, pc, ts)
  {
  }

  lemma JoinHolds(fl: Flat, pc: nat, below: seq<Type>, sig: seq<Type>)
    requires pc < |fl.notes| && fl.notes[pc] == Join(below, sig)
    ensures Holds(fl, pc, below + sig)
  {
  }

  /** The note of a bracket's `end` is that of a join over the operands the bracket found. */
  lemma EndNote(c: Checker, kind: LabelKind, sig: seq<ValType>, d: Checker)
    requires SameLabel(PushLabel(c, kind, sig), d) && AllLive(c)
    ensures NoteOf(d, End) == Join(c.types, sig)
  {
    var c1 := PushLabel(c, kind, sig);
    assert d.types[..|c.types|] == c1.types[..|c.types|] == c.types;
    forall j | 0 <= j < |d.labels| - 1 ensures !d.labels[j].unreachable {
      assert d.labels[j] == d.labels[..|c1.labels| - 1][j] == c1.labels[..|c1.labels| - 1][j] == c.labels[j];
    }
  }

  lemma DeadEndNote(c: Checker, kind: LabelKind, sig: seq<ValType>, d: Checker)
    requires SameLabel(PushLabel(c, kind, sig), d) && !AllLive(c)
    ensures NoteOf(d, End) == Dead && !AllLive(d)
  {
    var c1 := PushLabel(c, kind, sig);
    var j :| 0 <= j < |c.labels| && c.labels[j].unreachable;
    assert d.labels[j] == d.labels[..|c1.labels| - 1][j] == c1.labels[..|c1.labels| - 1][j] == c.labels[j];
  }

  /** A body that falls off its end in live code leaves its label's results on the operands found. */
  lemma FallsOff(ctx: Context, c: Checker, kind: LabelKind, sig: seq<ValType>, d: Checker)
    requires Valid(d) && SameLabel(PushLabel(c, kind, sig), d) && AllLive(d)
    requires SignatureOk(d, sig) && |d.types| == |c.types| + |sig|
    ensures AllLive(c) && d.types == c.types + sig
  {
    hide Valid, AllLive, SignatureOk;
    SameLabelLive(PushLabel(c, kind, sig), d);
    InnerLive(c, kind, sig);
    LiveMatch(d, sig);
    assert d.types[..|c.types|] == PushLabel(c, kind, sig).types[..|c.types|] == c.types;
    assert d.types == d.types[..|c.types|] + Last(d.types, |sig|);
  }

  lemma BodyFallsOff(ctx: Context, c: Checker, kind: LabelKind, sig: seq<ValType>, d: Checker, close: Instr)
    requires Valid(d) && SameLabel(PushLabel(c, kind, sig), d)
    requires (close.End? || close.Else?) && Check(ctx, d, close).Some?
    ensures AllLive(d) ==> AllLive(c) && d.types == c.types + sig
  {
    if AllLive(d) {
      if close.End? { LiveEnd(ctx, d); } else { LiveElse(ctx, d); }
      FallsOff(ctx, c, kind, sig, d);
    }
  }

  lemma NotesSplit(s: seq<Note>, pc: nat, xs: seq<Note>, ys: seq<Note>)
    requires pc + |xs| + |ys| <= |s| && s[pc..pc + |xs| + |ys|] == xs + ys
    ensures s[pc..pc + |xs|] == xs && s[pc + |xs|..pc + |xs| + |ys|] == ys
  {
    assert s[pc..pc + |xs| + |ys|][..|xs|] == xs && s[pc..pc + |xs| + |ys|][|xs|..] == ys;
  }

  lemma {:induction false} BodyEntry(fl: Flat, b: Body, c: Checker, pc: nat)
    requires Valid(c) && CheckBody(fl.ctx, b, c).Some?
    requires pc + Size(b) <= |fl.notes| && fl.notes[pc..pc + Size(b)] == NotesBody(fl.ctx, b, c)
    requires EndHolds(fl, CheckBody(fl.ctx, b, c).value, pc + Size(b))
    ensures EndHolds(fl, c, pc)
    decreases b, 0
  {
    hide Holds, NoteOf, Check, Valid, AllLive, NotesIns;
    match b
    case Nil =>
    case Cons(h, t) =>
      var c1 := CheckIns(fl.ctx, h, c).value;
      var n := SizeIns(h);
      InsKeeps(fl.ctx, h, c);
      NotesSplit(fl.notes, pc, NotesIns(fl.ctx, h, c), NotesBody(fl.ctx, t, c1));
      BodyEntry(fl, t, c1, pc + n);
      InsEntry(fl, h, c, pc);
  }

  lemma {:induction false} InsEntry(fl: Flat, ins: Ins, c: Checker, pc: nat)
    requires Valid(c) && CheckIns(fl.ctx, ins, c).Some?
    requires pc + SizeIns(ins) <= |fl.notes| && fl.notes[pc..pc + SizeIns(ins)] == NotesIns(fl.ctx, ins, c)
    requires EndHolds(fl, CheckIns(fl.ctx, ins, c).value, pc + SizeIns(ins))
    ensures EndHolds(fl, c, pc)
    decreases ins
  {
    hide Holds, NoteOf, Check, Valid, AllLive, NotesBody, EndHolds;
    match ins
    case Plain(i) => PlainEntry(fl, i, c, pc);
    case BlockIns(sig, b) => ArmEntry(fl, b, c, BlockLabel, sig, pc);
    case LoopIns(sig, b) => ArmEntry(fl, b, c, LoopLabel, sig, pc);
    case IfIns(sig, b) => assert fl.notes[pc] == NotesIns(fl.ctx, ins, c)[0]; TestEntry(fl, c, sig, pc);
    case IfElseIns(sig, b1, b2) => assert fl.notes[pc] == NotesIns(fl.ctx, ins, c)[0]; TestEntry(fl, c, sig, pc);
  }

  lemma TestEntry(fl: Flat, c: Checker, sig: seq<ValType>, pc: nat)
    requires pc < |fl.notes| && fl.notes[pc] == NoteOf(c, If(sig))
    ensures EndHolds(fl, c, pc)
  {
  }

  lemma PlainEntry(fl: Flat, i: PlainInstr, c: Checker, pc: nat)
    requires Valid(c) && Check(fl.ctx, c, i).Some?
    requires pc + PlainSize(i) <= |fl.notes| && fl.notes[pc..pc + PlainSize(i)] == NotesOf(NoteOf(c, i), PlainSize(i))
    requires EndHolds(fl, Check(fl.ctx, c, i).value, pc + PlainSize(i))
    ensures EndHolds(fl, c, pc)
  {
    if i.Nop? {
      assert Check(fl.ctx, c, i).value == c by { assert c.types + [] == c.types; }
    } else {
      assert fl.notes[pc] == fl.notes[pc..pc + PlainSize(i)][0] == NoteOf(c, i);
    }
  }

  lemma {:induction false} ArmEntry(fl: Flat, b: Body, c: Checker, kind: LabelKind, sig: seq<ValType>, pc: nat)
    requires Valid(c) && !kind.FuncLabel? && CheckBody(fl.ctx, b, PushLabel(c, kind, sig)).Some?
    requires Then(fl.ctx, CheckBody(fl.ctx, b, PushLabel(c, kind, sig)), End).Some?
    requires pc + Size(b) + 1 <= |fl.notes|
    requires fl.notes[pc..pc + Size(b) + 1] == NotesArm(fl.ctx, b, PushLabel(c, kind, sig), End)
    ensures EndHolds(fl, c, pc)
    decreases b, 1
  {
    hide Holds, NoteOf, Check, AllLive, NotesBody, Valid;
    var c1 := PushLabel(c, kind, sig);
    PushLabelKeeps(c, kind, sig);
    BodyKeeps(fl.ctx, b, c1);
    var d := CheckBody(fl.ctx, b, c1).value;
    assert NotesArm(fl.ctx, b, c1, End) == NotesBody(fl.ctx, b, c1) + [NoteOf(d, End)];
    SliceParts(fl.notes, pc, NotesBody(fl.ctx, b, c1), [NoteOf(d, End)]);
    LastOfSlice(fl.notes, pc + Size(b), NoteOf(d, End));
    BodyFallsOff(fl.ctx, c, kind, sig, d, End);
    if AllLive(d) {
      EndNote(c, kind, sig, d);
      JoinHolds(fl, pc + Size(b), c.types, sig);
    }
    BodyEntry(fl, b, c1, pc);
    InnerLive(c, kind, sig);
  }

  lemma InnerLive(c: Checker, kind: LabelKind, sig: seq<ValType>)
    ensures AllLive(PushLabel(c, kind, sig)) == AllLive(c)
    ensures PushLabel(c, kind, sig).types == c.types
  {
    var d := PushLabel(c, kind, sig);
    assert forall j :: 0 <= j < |c.labels| ==> d.labels[j] == c.labels[j];
  }

  /* ---- how a piece of live code starts ---- */

  lemma {:induction false} BodyStart(ctx: Context, b: Body, c: Checker)
    requires Valid(c) && AllLive(c) && CheckBody(ctx, b, c).Some?
    ensures Size(b) == 0 ==> CheckBody(ctx, b, c) == Some(c)
    ensures Size(b) > 0 ==> StartNote(NotesBody(ctx, b, c)[0], c.types)
    decreases b, 0
  {
    hide Valid, AllLive, Check, NoteOf, NotesIns, CheckIns, StartNote;
    match b
    case Nil =>
    case Cons(h, t) =>
      if SizeIns(h) == 0 {
        NopStart(ctx, h, c);
        BodyStart(ctx, t, c);
        assert NotesBody(ctx, b, c) == NotesBody(ctx, t, c);
      } else {
        InsStart(ctx, h, c);
      }
  }

  lemma NopStart(ctx: Context, ins: Ins, c: Checker)
    requires CheckIns(ctx, ins, c).Some? && SizeIns(ins) == 0
    ensures CheckIns(ctx, ins, c) == Some(c)
  {
    assert c.types + [] == c.types;
  }

  lemma {:induction false} InsStart(ctx: Context, ins: Ins, c: Checker)
    requires Valid(c) && AllLive(c) && CheckIns(ctx, ins, c).Some? && SizeIns(ins) > 0
    ensures StartNote(NotesIns(ctx, ins, c)[0], c.types)
    decreases ins
  {
    hide Valid, AllLive, Check, NotesBody, NotesArm;
    match ins
    case Plain(i) =>
    case BlockIns(sig, b) => ArmStart(ctx, b, c, BlockLabel, sig);
    case LoopIns(sig, b) => ArmStart(ctx, b, c, LoopLabel, sig);
    case IfIns(_, _) =>
    case IfElseIns(_, _, _) =>
  }

  lemma {:induction false} ArmStart(ctx: Context, b: Body, c: Checker, kind: LabelKind, sig: seq<ValType>)
    requires Valid(c) && AllLive(c) && !kind.FuncLabel? && CheckBody(ctx, b, PushLabel(c, kind, sig)).Some?
    requires Then(ctx, CheckBody(ctx, b, PushLabel(c, kind, sig)), End).Some?
    ensures StartNote(NotesArm(ctx, b, PushLabel(c, kind, sig), End)[0], c.types)
    decreases b, 1
  {
    hide Valid, AllLive, Check, NotesBody, CheckBody, NoteOf;
    var c1 := PushLabel(c, kind, sig);
    PushLabelKeeps(c, kind, sig);
    InnerLive(c, kind, sig);
    BodyStart(ctx, b, c1);
    if Size(b) == 0 {
      BodyKeeps(ctx, b, c1);
      EndNote(c, kind, sig, c1);
      BodyFallsOff(ctx, c, kind, sig, c1, End);
      assert |c.types| == |c.types + sig|;
    }
  }

  /* ---- the rules, instruction by instruction ---- */

  predicate ArmReady(fl: Flat, c: Checker, env: seq<Target>, pc: nat) {
    Valid(c) && LabelsOk(fl, c, env, pc)
  }

  /** A branch whose values the checker saw may be taken. */
  lemma BranchGoes(fl: Flat, c: Checker, ts: seq<Type>, d: nat, env: seq<Target>, pc: nat)
    requires Valid(c) && AllLive(c) && LabelsOk(fl, c, env, pc) && d < |c.labels|
    requires Top(c).limit <= |ts| <= |c.types| && c.types[..|ts|] == ts
    requires CleanFlat(fl) ==> CleanBranch(c, |ts|, d)
    requires !LabelAt(c, d).kind.LoopLabel? ==>
      Top(c).limit + |LabelAt(c, d).sig| <= |ts| && EndsWith(ts, LabelAt(c, d).sig)
    ensures Goes(fl, pc, TargetAt(env, d).offset, ts)
  {
    hide CleanFlat, LoopIn;
    var j := |c.labels| - 1 - d;
    var l := c.labels[j];
    assert LabelOk(fl, l, c.types, env[j].offset, pc);
    assert l.limit <= Top(c).limit;
    assert ts[..l.limit] == c.types[..l.limit];
  }

  lemma BrRule(fl: Flat, c: Checker, d: nat, pc: nat, env: seq<Target>)
    requires ArmReady(fl, c, env, pc) && AllLive(c) && OnBr(c, d).Some? && (CleanFlat(fl) ==> CleanBranch(c, |c.types|, d))
    requires pc < |fl.code| && pc < |fl.notes|
    requires fl.code[pc] == JumpTo(OpBr, env, d) && fl.notes[pc] == At(c.types)
    ensures RuleAt(fl, pc)
  {
    hide Holds, LabelsOk, AnyOnlyAtDeadLimit, LimitsOrdered, CleanFlat, Goes;
    if !LabelAt(c, d).kind.LoopLabel? { LiveMatch(c, LabelAt(c, d).sig); }
    BranchGoes(fl, c, c.types, d, env, pc);
  }

  lemma BrIfRule(fl: Flat, c: Checker, d: nat, pc: nat, env: seq<Target>)
    requires ArmReady(fl, c, env, pc) && AllLive(c) && OnBrIf(c, d).Some? && (CleanFlat(fl) ==> CleanBranch(c, |c.types| - 1, d))
    requires pc < |fl.code| && pc < |fl.notes|
    requires fl.code[pc] == JumpTo(OpBrIf, env, d) && fl.notes[pc] == At(c.types)
    requires Holds(fl, pc + 1, OnBrIf(c, d).value.types)
    ensures RuleAt(fl, pc)
  {
    hide Holds, LabelsOk, AnyOnlyAtDeadLimit, LimitsOrdered, CleanFlat, Goes;
    LivePopMatch(c, [I32]);
    PopKeeps(c, [I32]);
    var c1 := PopTypes(c, [I32]).value;
    if !LabelAt(c1, d).kind.LoopLabel? {
      var sig := LabelAt(c1, d).sig;
      LivePopMatch(c1, sig);
      assert Front(c1.types, |sig|) + sig == c1.types;
    }
    BranchGoes(fl, c, c1.types, d, env, pc);
    assert OnBrIf(c, d).value.types == c1.types;
  }

  lemma TableRecord(ctx: Context, ds: seq<nat>, d: nat, env: seq<Target>, note: Note, e: nat)
    requires e < |ds| + 2
    ensures LayPlain(ctx, BrTable(ds, d), env)[e] ==
      if e == 0 then Jump(OpBrTable, |ds|, 0) else JumpTo(OpBrTable, env, if e - 1 < |ds| then ds[e - 1] else d)
    ensures NotesOf(note, |ds| + 2)[e] == if e == 0 then note else Dead
  {
    hide JumpTo;
  }

  lemma BrTableRule(fl: Flat, c: Checker, ds: seq<nat>, d: nat, pc: nat, env: seq<Target>)
    requires ArmReady(fl, c, env, pc) && AllLive(c) && OnBrTable(c, ds, d).Some? && (CleanFlat(fl) ==> CleanPlain(c, BrTable(ds, d)))
    requires Placed(fl, pc, LayPlain(fl.ctx, BrTable(ds, d), env), NotesOf(At(c.types), |ds| + 2))
    ensures RulesIn(fl, pc, pc + |ds| + 2)
  {
    hide Holds, LabelsOk, Valid, AllLive, Placed, LayPlain, NotesOf, OnBrTable, CleanPlain, ArmReady, CleanFlat, Goes;
    var lay, notes := LayPlain(fl.ctx, BrTable(ds, d), env), NotesOf(At(c.types), |ds| + 2);
    EntryRule(fl, c, ds, d, env, pc, 0);
    forall e | pc < e <= pc + 1 + |ds| ensures RuleAt(fl, e) && TableRule(fl, pc, e, Front(c.types, 1)) {
      EntryRule(fl, c, ds, d, env, pc, e - pc - 1);
      TableRecord(fl.ctx, ds, d, env, At(c.types), e - pc);
      PlacedGet(fl, pc, lay, notes, e - pc);
    }
    TableRecord(fl.ctx, ds, d, env, At(c.types), 0);
    PlacedGet(fl, pc, lay, notes, 0);
    hide TableRule;
    assert RuleAt(fl, pc);
  }

  lemma EntryRule(fl: Flat, c: Checker, ds: seq<nat>, d: nat, env: seq<Target>, pc: nat, k: nat)
    requires ArmReady(fl, c, env, pc) && AllLive(c) && OnBrTable(c, ds, d).Some? && (CleanFlat(fl) ==> CleanPlain(c, BrTable(ds, d)))
    requires k <= |ds|
    ensures |c.types| >= 1
    ensures Goes(fl, pc, TargetAt(env, if k < |ds| then ds[k] else d).offset, Front(c.types, 1))
  {
    hide Holds, LabelsOk, AnyOnlyAtDeadLimit, LimitsOrdered, CleanFlat, Goes;
    LivePopMatch(c, [I32]);
    PopKeeps(c, [I32]);
    var c1 := PopTypes(c, [I32]).value;
    LiveTargets(c1, ds + [d], Any, k);
    var depth := if k < |ds| then ds[k] else d;
    assert (ds + [d])[k] == depth;
    if !LabelAt(c1, depth).kind.LoopLabel? { LiveMatch(c1, LabelAt(c1, depth).sig); }
    BranchGoes(fl, c, c1.types, depth, env, pc);
  }

  lemma ReturnRule(fl: Flat, c: Checker, pc: nat)
    requires Valid(c) && AllLive(c) && OnReturn(c).Some? && c.labels[0].sig == fl.ctx.results
    requires pc < |fl.code| && pc < |fl.notes|
    requires fl.code[pc] == ReturnRec(|fl.ctx.results|) && fl.notes[pc] == At(c.types)
    ensures RuleAt(fl, pc)
  {
    hide AnyOnlyAtDeadLimit, LimitsOrdered, AllLive;
    LivePopMatch(c, c.labels[0].sig);
  }

  lemma ArrowRule(fl: Flat, c: Checker, i: Instr, pc: nat)
    requires Valid(c) && AllLive(c) && HasArrow(i) && !i.Nop? && Check(fl.ctx, c, i).Some?
    requires pc < |fl.code| && pc < |fl.notes|
    requires fl.code[pc] == (if i.Call? then CallRec(i.func, i.func < |fl.ctx.funcs| && fl.ctx.funcs[i.func].imported) else Op(i))
    requires fl.notes[pc] == At(c.types)
    requires Holds(fl, pc + 1, Check(fl.ctx, c, i).value.types)
    ensures RuleAt(fl, pc)
  {
    hide Valid, AllLive, Holds, Check;
    ArrowMatch(fl.ctx, c, i);
  }

  lemma OtherRule(fl: Flat, c: Checker, i: Instr, pc: nat)
    requires Valid(c) && AllLive(c) && (i.Drop? || i.Select? || i.Unreachable?) && Check(fl.ctx, c, i).Some?
    requires pc < |fl.code| && pc < |fl.notes| && fl.code[pc] == Op(i) && fl.notes[pc] == At(c.types)
    requires !i.Unreachable? ==> Holds(fl, pc + 1, Check(fl.ctx, c, i).value.types)
    ensures RuleAt(fl, pc)
  {
    hide Valid, AllLive, Holds;
    if i.Drop? { DropMatch(c); }
    if i.Select? { SelectMatch(c); }
  }

  lemma PlainRules(fl: Flat, i: PlainInstr, c: Checker, pc: nat, env: seq<Target>)
    requires ArmReady(fl, c, env, pc) && Check(fl.ctx, c, i).Some? && c.labels[0].sig == fl.ctx.results
    requires Placed(fl, pc, LayPlain(fl.ctx, i, env), NotesOf(NoteOf(c, i), PlainSize(i)))
    requires EndHolds(fl, Check(fl.ctx, c, i).value, pc + PlainSize(i))
    requires CleanFlat(fl) && AllLive(c) ==> CleanPlain(c, i)
    ensures RulesIn(fl, pc, pc + PlainSize(i))
  {
    hide Valid, Holds, LabelsOk, Rule, CleanFlat;
    var notes := NotesOf(NoteOf(c, i), PlainSize(i));
    if !AllLive(c) {
      forall q | pc <= q < pc + PlainSize(i) ensures RuleAt(fl, q) {
        assert fl.notes[q] == fl.notes[pc..pc + PlainSize(i)][q - pc] == Dead;
      }
    } else if i.BrTable? {
      BrTableRule(fl, c, i.depths, i.default, pc, env);
    } else if !i.Nop? {
      PlacedOne(fl, pc, LayPlain(fl.ctx, i, env)[0], notes[0]);
      SingleRule(fl, i, c, pc, env);
    }
  }

  lemma SingleRule(fl: Flat, i: PlainInstr, c: Checker, pc: nat, env: seq<Target>)
    requires ArmReady(fl, c, env, pc) && AllLive(c) && Check(fl.ctx, c, i).Some? && c.labels[0].sig == fl.ctx.results
    requires !i.Nop? && !i.BrTable? && pc < |fl.code| && pc < |fl.notes|
    requires fl.code[pc] == LayPlain(fl.ctx, i, env)[0] && fl.notes[pc] == At(c.types)
    requires EndHolds(fl, Check(fl.ctx, c, i).value, pc + 1)
    requires CleanFlat(fl) ==> CleanPlain(c, i)
    ensures RuleAt(fl, pc)
  {
    hide Valid, Holds, LabelsOk, AllLive, Rule, CleanFlat;
    if !Ends(i) { LiveStays(fl.ctx, c, i); }
    if HasArrow(i) { ArrowRule(fl, c, i, pc); }
    else if i.Br? { BrRule(fl, c, i.depth, pc, env); }
    else if i.BrIf? { BrIfRule(fl, c, i.depth, pc, env); }
    else if i.Return? { ReturnRule(fl, c, pc); }
    else { OtherRule(fl, c, i, pc); }
  }

  /* ---- brackets ---- */

  /** Everything known about a bracket whose body starts at `pc` in the checker state `c` (before
      its label) and ends at `pc + Size(b)`. */
  predicate Bracket(fl: Flat, b: Body, c: Checker, kind: LabelKind, sig: seq<ValType>, pc: nat, close: Instr) {
    && Valid(c) && !kind.FuncLabel?
    && CheckBody(fl.ctx, b, PushLabel(c, kind, sig)).Some?
    && (close.End? || close.Else?)
    && Then(fl.ctx, CheckBody(fl.ctx, b, PushLabel(c, kind, sig)), close).Some?
    && pc + Size(b) < |fl.notes|
    && fl.notes[pc..pc + Size(b)] == NotesBody(fl.ctx, b, PushLabel(c, kind, sig))
    && fl.notes[pc + Size(b)] == NoteOf(CheckBody(fl.ctx, b, PushLabel(c, kind, sig)).value, close)
  }

  /** Its body ends where it should, and can be entered. */
  lemma {:induction false} BracketEntry(fl: Flat, b: Body, c: Checker, kind: LabelKind, sig: seq<ValType>, pc: nat, close: Instr)
    requires Bracket(fl, b, c, kind, sig, pc, close)
    ensures EndHolds(fl, CheckBody(fl.ctx, b, PushLabel(c, kind, sig)).value, pc + Size(b))
    ensures EndHolds(fl, c, pc)
  {
    hide Holds, Check, AllLive, NotesBody, Valid, CheckBody;
    var c1 := PushLabel(c, kind, sig);
    PushLabelKeeps(c, kind, sig);
    BodyKeeps(fl.ctx, b, c1);
    var d := CheckBody(fl.ctx, b, c1).value;
    BodyFallsOff(fl.ctx, c, kind, sig, d, close);
    if AllLive(d) {
      if close.End? {
        EndNote(c, kind, sig, d);
        JoinHolds(fl, pc + Size(b), c.types, sig);
      } else {
        AtHolds(fl, pc + Size(b), d.types);
      }
    }
    BodyEntry(fl, b, c1, pc);
    InnerLive(c, kind, sig);
  }

  /** Inside a bracket one more label is open. */
  lemma InnerLabels(fl: Flat, c: Checker, kind: LabelKind, sig: seq<ValType>, env: seq<Target>, t: Target, pc: nat)
    requires ArmReady(fl, c, env, pc) && !kind.FuncLabel?
    requires AllLive(c) ==> LabelOk(fl, Label(kind, sig, |c.types|, false), c.types, t.offset, pc)
    ensures ArmReady(fl, PushLabel(c, kind, sig), env + [t], pc)
    ensures PushLabel(c, kind, sig).labels[0] == c.labels[0]
  {
    hide LabelOk;
    PushLabelKeeps(c, kind, sig);
    InnerLive(c, kind, sig);
    var d, inner := PushLabel(c, kind, sig), env + [t];
    if AllLive(d) {
      forall j | 0 <= j < |d.labels| ensures LabelOk(fl, d.labels[j], d.types, inner[j].offset, pc) {
        if j < |c.labels| { assert LabelOk(fl, c.labels[j], c.types, env[j].offset, pc); }
      }
    }
  }

  /** A label that ends at a bracket's `end`. */
  lemma ForwardLabel(fl: Flat, b: Body, c: Checker, kind: LabelKind, sig: seq<ValType>, pc: nat)
    requires Bracket(fl, b, c, kind, sig, pc, End) && !kind.LoopLabel? && AllLive(c)
    ensures LabelOk(fl, Label(kind, sig, |c.types|, false), c.types, pc + Size(b), pc)
  {
    hide Check, AllLive, NotesBody, Valid, CheckBody;
    var c1 := PushLabel(c, kind, sig);
    PushLabelKeeps(c, kind, sig);
    BodyKeeps(fl.ctx, b, c1);
    EndNote(c, kind, sig, CheckBody(fl.ctx, b, c1).value);
    assert c.types[..|c.types|] == c.types;
  }

  lemma EndRule(fl: Flat, b: Body, c: Checker, kind: LabelKind, sig: seq<ValType>, pc: nat, after: Checker)
    requires Bracket(fl, b, c, kind, sig, pc, End) && pc + Size(b) < |fl.code|
    requires fl.code[pc + Size(b)] == EndRec(|c.types|, |sig|)
    requires after == PushTypes(c, sig) && EndHolds(fl, after, pc + Size(b) + 1)
    ensures RuleAt(fl, pc + Size(b))
  {
    hide Check, NotesBody, Valid, CheckBody, Holds;
    var c1 := PushLabel(c, kind, sig);
    PushLabelKeeps(c, kind, sig);
    BodyKeeps(fl.ctx, b, c1);
    var d := CheckBody(fl.ctx, b, c1).value;
    if AllLive(c) { EndNote(c, kind, sig, d); } else { DeadEndNote(c, kind, sig, d); }
  }

  /* ---- bodies ---- */

  ghost predicate BodyAt(fl: Flat, b: Body, c: Checker, pc: nat, next: nat, env: seq<Target>) {
    && ArmReady(fl, c, env, pc) && c.labels[0].sig == fl.ctx.results
    && CheckBody(fl.ctx, b, c).Some?
    && Placed(fl, pc, LayBody(fl.ctx, b, c, pc, next, env), NotesBody(fl.ctx, b, c))
    && EndHolds(fl, CheckBody(fl.ctx, b, c).value, pc + Size(b))
    && PartOf(CleanFlat(fl), fl.ctx, fl.body, b, c, pc)
  }

  ghost predicate InsAt(fl: Flat, ins: Ins, c: Checker, pc: nat, next: nat, env: seq<Target>) {
    && ArmReady(fl, c, env, pc) && c.labels[0].sig == fl.ctx.results
    && CheckIns(fl.ctx, ins, c).Some?
    && Placed(fl, pc, LayIns(fl.ctx, ins, c, pc, next, env), NotesIns(fl.ctx, ins, c))
    && EndHolds(fl, CheckIns(fl.ctx, ins, c).value, pc + SizeIns(ins))
    && InsPartOf(CleanFlat(fl), fl.ctx, fl.body, ins, c, pc)
  }

  lemma {:induction false} BodyRules(fl: Flat, b: Body, c: Checker, pc: nat, next: nat, env: seq<Target>)
    requires BodyAt(fl, b, c, pc, next, env)
    ensures RulesIn(fl, pc, pc + Size(b))
    decreases b, 0
  {
    hide EndHolds, Placed, ArmReady, RuleAt, LayIns, NotesIns, CleanIns, CheckIns, InsAt, LayBody, NotesBody, CleanBody;
    match b
    case Nil =>
    case Cons(h, t) =>
      BodyParts(fl, h, t, c, pc, next, env);
      InsRules(fl, h, c, pc, next, env);
      BodyRules(fl, t, CheckIns(fl.ctx, h, c).value, pc + SizeIns(h), next + LabelsIns(h), env);
  }

  lemma {:induction false} BodyParts(fl: Flat, h: Ins, t: Body, c: Checker, pc: nat, next: nat, env: seq<Target>)
    requires BodyAt(fl, Cons(h, t), c, pc, next, env)
    ensures InsAt(fl, h, c, pc, next, env)
    ensures BodyAt(fl, t, CheckIns(fl.ctx, h, c).value, pc + SizeIns(h), next + LabelsIns(h), env)
  {
    hide EndHolds, Placed, LabelsOk, Valid, RuleAt, LayIns, LayBody, NotesIns, NotesBody, CleanIns, CheckIns, SameLabel, PartOf, InsPartOf, CleanFlat;
    var c1 := CheckIns(fl.ctx, h, c).value;
    InsKeeps(fl.ctx, h, c);
    ConsParts(CleanFlat(fl), fl.ctx, fl.body, h, t, c, pc);
    LabelsStay(fl, c, c1, env, pc, pc + SizeIns(h));
    SameBottom(c, c1);
    ConsPlaced(fl, h, t, c, pc, next, env);
    TailEntry(fl, h, t, c, pc, next, env);
  }

  lemma {:induction false} ConsPlaced(fl: Flat, h: Ins, t: Body, c: Checker, pc: nat, next: nat, env: seq<Target>)
    requires CheckBody(fl.ctx, Cons(h, t), c).Some?
    requires Placed(fl, pc, LayBody(fl.ctx, Cons(h, t), c, pc, next, env), NotesBody(fl.ctx, Cons(h, t), c))
    ensures Placed(fl, pc, LayIns(fl.ctx, h, c, pc, next, env), NotesIns(fl.ctx, h, c))
    ensures
      var c1 := CheckIns(fl.ctx, h, c).value;
      Placed(fl, pc + SizeIns(h), LayBody(fl.ctx, t, c1, pc + SizeIns(h), next + LabelsIns(h), env), NotesBody(fl.ctx, t, c1))
  {
    hide Placed, LayIns, NotesIns, CheckIns;
    var c1 := CheckIns(fl.ctx, h, c).value;
    PlacedSplit(fl, pc, LayIns(fl.ctx, h, c, pc, next, env), NotesIns(fl.ctx, h, c),
      LayBody(fl.ctx, t, c1, pc + SizeIns(h), next + LabelsIns(h), env), NotesBody(fl.ctx, t, c1));
  }

  lemma SameBottom(c: Checker, d: Checker)
    requires SameLabel(c, d)
    ensures |c.labels| > 0 && |d.labels| > 0 && d.labels[0].sig == c.labels[0].sig
  {
    if |c.labels| > 1 { assert d.labels[0] == d.labels[..|c.labels| - 1][0] == c.labels[..|c.labels| - 1][0]; }
  }

  lemma {:induction false} TailEntry(fl: Flat, h: Ins, t: Body, c: Checker, pc: nat, next: nat, env: seq<Target>)
    requires Valid(c) && CheckIns(fl.ctx, h, c).Some? && CheckBody(fl.ctx, t, CheckIns(fl.ctx, h, c).value).Some?
    requires
      var c1 := CheckIns(fl.ctx, h, c).value;
      Placed(fl, pc + SizeIns(h), LayBody(fl.ctx, t, c1, pc + SizeIns(h), next + LabelsIns(h), env), NotesBody(fl.ctx, t, c1))
    requires EndHolds(fl, CheckBody(fl.ctx, t, CheckIns(fl.ctx, h, c).value).value, pc + SizeIns(h) + Size(t))
    ensures EndHolds(fl, CheckIns(fl.ctx, h, c).value, pc + SizeIns(h))
  {
    hide EndHolds, Valid, LayBody, NotesBody, CheckIns, CheckBody;
    InsKeeps(fl.ctx, h, c);
    BodyEntry(fl, t, CheckIns(fl.ctx, h, c).value, pc + SizeIns(h));
  }

  lemma {:induction false} InsRules(fl: Flat, ins: Ins, c: Checker, pc: nat, next: nat, env: seq<Target>)
    requires InsAt(fl, ins, c, pc, next, env)
    ensures RulesIn(fl, pc, pc + SizeIns(ins))
    decreases ins
  {
    hide EndHolds, Placed, ArmReady, RuleAt, LayBody, NotesBody, CleanBody, CheckBody, Check, CleanFlat, LoopIn;
    match ins
    case Plain(i) => PlainRules(fl, i, c, pc, env);
    case BlockIns(sig, b) => BlockRules(fl, BlockLabel, sig, b, c, pc, next, env);
    case LoopIns(sig, b) => BlockRules(fl, LoopLabel, sig, b, c, pc, next, env);
    case IfIns(sig, b) => IfRules(fl, sig, b, c, pc, next, env);
    case IfElseIns(sig, b1, b2) => IfElseRules(fl, sig, b1, b2, c, pc, next, env);
  }

  function Close(b: Body, pc: nat, kind: LabelKind, next: nat): Target {
    Target(next, if kind.LoopLabel? then pc else pc + Size(b))
  }

  lemma {:induction false} ArmPlaced(fl: Flat, b: Body, c: Checker, kind: LabelKind, sig: seq<ValType>, pc: nat, next: nat, inner: seq<Target>)
    requires Valid(c) && !kind.FuncLabel? && CheckBody(fl.ctx, b, PushLabel(c, kind, sig)).Some?
    requires Then(fl.ctx, CheckBody(fl.ctx, b, PushLabel(c, kind, sig)), End).Some?
    requires Placed(fl, pc, Closing(LayBody(fl.ctx, b, PushLabel(c, kind, sig), pc, next, inner), |c.types|, |sig|),
      NotesArm(fl.ctx, b, PushLabel(c, kind, sig), End))
    ensures Placed(fl, pc, LayBody(fl.ctx, b, PushLabel(c, kind, sig), pc, next, inner), NotesBody(fl.ctx, b, PushLabel(c, kind, sig)))
    ensures pc + Size(b) < |fl.code| && fl.code[pc + Size(b)] == EndRec(|c.types|, |sig|)
    ensures Bracket(fl, b, c, kind, sig, pc, End)
  {
    hide Valid, CheckBody, LayBody, NotesBody, Check, NoteOf;
    var c1 := PushLabel(c, kind, sig);
    var d := CheckBody(fl.ctx, b, c1).value;
    var lay, notes := LayBody(fl.ctx, b, c1, pc, next, inner), NotesBody(fl.ctx, b, c1);
    assert Closing(lay, |c.types|, |sig|) == lay + [EndRec(|c.types|, |sig|)];
    assert NotesArm(fl.ctx, b, c1, End) == notes + [NoteOf(d, End)];
    PlacedSplit(fl, pc, lay, notes, [EndRec(|c.types|, |sig|)], [NoteOf(d, End)]);
    PlacedOne(fl, pc + Size(b), EndRec(|c.types|, |sig|), NoteOf(d, End));
    assert fl.notes[pc..pc + Size(b)] == notes by { PlacedNotes(fl, pc, lay, notes); }
    hide Placed, PushLabel, Closing, NotesArm;
  }

  lemma PlacedNotes(fl: Flat, pc: nat, lay: seq<Rec>, notes: seq<Note>)
    requires Placed(fl, pc, lay, notes)
    ensures pc + |notes| <= |fl.notes| && fl.notes[pc..pc + |notes|] == notes
  {
  }

  /** A body and the `end` that closes it. */
  lemma {:induction false} ArmRules(fl: Flat, b: Body, c: Checker, kind: LabelKind, sig: seq<ValType>, pc: nat, next: nat, env: seq<Target>, t: Target)
    requires ArmReady(fl, c, env, pc) && c.labels[0].sig == fl.ctx.results
    requires !kind.FuncLabel? && CheckBody(fl.ctx, b, PushLabel(c, kind, sig)).Some?
    requires Then(fl.ctx, CheckBody(fl.ctx, b, PushLabel(c, kind, sig)), End).Some?
    requires Placed(fl, pc, Closing(LayBody(fl.ctx, b, PushLabel(c, kind, sig), pc, next, env + [t]), |c.types|, |sig|),
      NotesArm(fl.ctx, b, PushLabel(c, kind, sig), End))
    requires t.offset == Close(b, pc, kind, 0).offset
    requires EndHolds(fl, PushTypes(c, sig), pc + Size(b) + 1)
    requires PartOf(CleanFlat(fl), fl.ctx, fl.body, b, PushLabel(c, kind, sig), pc)
    requires kind.LoopLabel? ==> LoopIn(fl.ctx, fl.body, pc, |c.types|)
    ensures Bracket(fl, b, c, kind, sig, pc, End)
    ensures RulesIn(fl, pc, pc + Size(b) + 1)
    decreases b, 1
  {
    hide Holds, RuleAt, LayBody, NotesBody, NotesArm, CleanBody, CheckBody, Check, LabelOk, AllLive, LabelsOk, Valid, Placed, EndHolds, Bracket, PartOf, CleanFlat, LoopIn;
    var c1 := PushLabel(c, kind, sig);
    ArmPlaced(fl, b, c, kind, sig, pc, next, env + [t]);
    BracketEntry(fl, b, c, kind, sig, pc, End);
    if AllLive(c) {
      if kind.LoopLabel? { LoopLabelOpens(fl, b, c, sig, pc, next, env + [t]); } else { ForwardLabel(fl, b, c, kind, sig, pc); }
    }
    InnerLabels(fl, c, kind, sig, env, t, pc);
    BodyRules(fl, b, c1, pc, next, env + [t]);
    EndRule(fl, b, c, kind, sig, pc, PushTypes(c, sig));
  }

  lemma {:induction false} LoopLabelOpens(fl: Flat, b: Body, c: Checker, sig: seq<ValType>, pc: nat, next: nat, inner: seq<Target>)
    requires Valid(c) && AllLive(c) && LoopIn(fl.ctx, fl.body, pc, |c.types|)
    requires CheckBody(fl.ctx, b, PushLabel(c, LoopLabel, sig)).Some?
    requires Then(fl.ctx, CheckBody(fl.ctx, b, PushLabel(c, LoopLabel, sig)), End).Some?
    requires Placed(fl, pc, Closing(LayBody(fl.ctx, b, PushLabel(c, LoopLabel, sig), pc, next, inner), |c.types|, |sig|),
      NotesArm(fl.ctx, b, PushLabel(c, LoopLabel, sig), End))
    ensures LabelOk(fl, Label(LoopLabel, sig, |c.types|, false), c.types, pc, pc)
  {
    hide Valid, AllLive, Check, CheckBody, LayBody, NotesArm, LoopIn, StartNote;
    ArmStart(fl.ctx, b, c, LoopLabel, sig);
    PlacedGet(fl, pc, Closing(LayBody(fl.ctx, b, PushLabel(c, LoopLabel, sig), pc, next, inner), |c.types|, |sig|),
      NotesArm(fl.ctx, b, PushLabel(c, LoopLabel, sig), End), 0);
    assert c.types[..|c.types|] == c.types;
  }

  lemma {:induction false} BlockRules(fl: Flat, kind: LabelKind, sig: seq<ValType>, b: Body, c: Checker, pc: nat, next: nat, env: seq<Target>)
    requires kind.BlockLabel? || kind.LoopLabel?
    requires InsAt(fl, if kind.BlockLabel? then BlockIns(sig, b) else LoopIns(sig, b), c, pc, next, env)
    ensures RulesIn(fl, pc, pc + Size(b) + 1)
    decreases b, 2
  {
    hide EndHolds, Placed, LabelsOk, RuleAt, LayBody, NotesBody, CleanBody, CheckBody, Check, Valid, PartOf, InsPartOf, CleanFlat, LoopIn;
    if kind.BlockLabel? { BlockPart(CleanFlat(fl), fl.ctx, fl.body, sig, b, c, pc); }
    else { LoopPart(CleanFlat(fl), fl.ctx, fl.body, sig, b, c, pc); }
    var ins := if kind.BlockLabel? then BlockIns(sig, b) else LoopIns(sig, b);
    InsKeeps(fl.ctx, ins, c);
    ArmRules(fl, b, c, kind, sig, pc, next + 1, env, Close(b, pc, kind, next));
  }

  /** `if`: both of its successors find what the condition was taken from. */
  lemma TestRule(fl: Flat, c: Checker, sig: seq<ValType>, pc: nat, id: nat, v2: nat)
    requires Valid(c) && Check(fl.ctx, c, If(sig)).Some? && PopTypes(c, [I32]).Some?
    requires pc < |fl.code| && pc < |fl.notes| && fl.code[pc] == Jump(OpIf, id, v2) && fl.notes[pc] == NoteOf(c, If(sig))
    requires AllLive(IfBase(c)) ==> Holds(fl, v2, IfBase(c).types) && Holds(fl, pc + 1, IfBase(c).types)
    ensures RuleAt(fl, pc)
  {
    hide Holds, Valid, AllLive;
    if AllLive(c) {
      LivePopMatch(c, [I32]);
      LiveBase(c);
    }
  }

  lemma LiveBase(c: Checker)
    requires Valid(c) && PopTypes(c, [I32]).Some?
    ensures AllLive(IfBase(c)) == AllLive(c)
  {
    PopKeeps(c, [I32]);
  }

  lemma {:induction false} IfRules(fl: Flat, sig: seq<ValType>, b: Body, c: Checker, pc: nat, next: nat, env: seq<Target>)
    requires InsAt(fl, IfIns(sig, b), c, pc, next, env)
    ensures RulesIn(fl, pc, pc + Size(b) + 2)
    decreases b, 2
  {
    hide Holds, Placed, LabelsOk, RuleAt, LayBody, NotesBody, CleanBody, CheckBody, Check, Valid, AllLive, PopTypes, SameLabel, PartOf, InsPartOf, CleanFlat;
    InsKeeps(fl.ctx, IfIns(sig, b), c);
    IfPart(CleanFlat(fl), fl.ctx, fl.body, sig, b, c, pc);
    IfStarts(fl.ctx, c, sig);
    var c0 := IfBase(c);
    var t := Target(next, pc + 1 + Size(b));
    LabelsStay(fl, c, c0, env, pc, pc + 1);
    SameBottom(c, c0);
    var arm := Closing(LayBody(fl.ctx, b, PushLabel(c0, IfLabel, sig), pc + 1, next + 1, env + [t]), |c0.types|, |sig|);
    var test := Jump(OpIf, next, pc + 1 + Size(b));
    PlacedSplit(fl, pc, [test], [NoteOf(c, If(sig))], arm, NotesArm(fl.ctx, b, PushLabel(c0, IfLabel, sig), End));
    PlacedOne(fl, pc, test, NoteOf(c, If(sig)));
    ArmRules(fl, b, c0, IfLabel, sig, pc + 1, next + 1, env, t);
    BracketEntry(fl, b, c0, IfLabel, sig, pc + 1, End);
    if AllLive(c0) {
      ForwardLabel(fl, b, c0, IfLabel, sig, pc + 1);
      OneArmIsVoid(fl.ctx, sig, b, c);
      JumpToEnd(fl, c0, IfLabel, sig, pc + 1 + Size(b), pc + 1);
    }
    TestRule(fl, c, sig, pc, next, pc + 1 + Size(b));
  }

  /** An `if` without `else` has no results. */
  lemma OneArmIsVoid(ctx: Context, sig: seq<ValType>, b: Body, c: Checker)
    requires Valid(c) && CheckIns(ctx, IfIns(sig, b), c).Some?
    ensures sig == []
  {
    hide CheckBody, AnyOnlyAtDeadLimit, LimitsOrdered;
    IfStarts(ctx, c, sig);
    var c1 := PushLabel(IfBase(c), IfLabel, sig);
    BodyKeeps(ctx, b, c1);
    assert Top(CheckBody(ctx, b, c1).value).kind == IfLabel && Top(CheckBody(ctx, b, c1).value).sig == sig;
  }

  lemma JumpToEnd(fl: Flat, c: Checker, kind: LabelKind, sig: seq<ValType>, end: nat, pc: nat)
    requires !kind.LoopLabel? && LabelOk(fl, Label(kind, sig, |c.types|, false), c.types, end, pc)
    ensures Holds(fl, end, c.types + sig)
    ensures sig == [] ==> Holds(fl, end, c.types)
  {
    assert c.types[..|c.types|] == c.types;
    JoinHolds(fl, end, c.types, sig);
    assert sig == [] ==> c.types + sig == c.types;
  }

  lemma ElseRule(fl: Flat, b: Body, c: Checker, sig: seq<ValType>, pc: nat, id: nat, end: nat)
    requires Bracket(fl, b, c, IfLabel, sig, pc, Else) && pc + Size(b) < |fl.code|
    requires fl.code[pc + Size(b)] == Jump(OpElse, id, end)
    requires AllLive(c) ==> Holds(fl, end, c.types + sig)
    ensures RuleAt(fl, pc + Size(b))
  {
    hide Check, NotesBody, Valid, CheckBody, Holds, AllLive;
    var c1 := PushLabel(c, IfLabel, sig);
    PushLabelKeeps(c, IfLabel, sig);
    BodyKeeps(fl.ctx, b, c1);
    BodyFallsOff(fl.ctx, c, IfLabel, sig, CheckBody(fl.ctx, b, c1).value, Else);
  }

  /** The four pieces of an `if` with two arms. */
  lemma TwoArmsPlaced(fl: Flat, pc: nat, test: Rec, thn: seq<Rec>, turn: Rec, els: seq<Rec>,
      testNote: Note, thnNotes: seq<Note>, turnNote: Note, elsNotes: seq<Note>)
    requires |thn| == |thnNotes| && |els| == |elsNotes|
    requires Placed(fl, pc, [test] + thn + [turn] + els, [testNote] + (thnNotes + [turnNote]) + elsNotes)
    ensures Placed(fl, pc, [test], [testNote]) && Placed(fl, pc + 1, thn, thnNotes)
    ensures Placed(fl, pc + 1 + |thn|, [turn], [turnNote]) && Placed(fl, pc + 2 + |thn|, els, elsNotes)
  {
    hide Placed;
    assert [testNote] + (thnNotes + [turnNote]) + elsNotes == [testNote] + thnNotes + [turnNote] + elsNotes;
    PlacedSplit(fl, pc, [test] + thn + [turn], [testNote] + thnNotes + [turnNote], els, elsNotes);
    PlacedSplit(fl, pc, [test] + thn, [testNote] + thnNotes, [turn], [turnNote]);
    PlacedSplit(fl, pc, [test], [testNote], thn, thnNotes);
  }

  /** The pieces of a two-armed `if`, in place. */
  lemma {:induction false} IfElsePlaced(fl: Flat, sig: seq<ValType>, b1: Body, b2: Body, c: Checker, c0: Checker, pc: nat, next: nat, env: seq<Target>)
    requires CheckIns(fl.ctx, IfElseIns(sig, b1, b2), c).Some?
    requires Check(fl.ctx, c, If(sig)) == Some(PushLabel(c0, IfLabel, sig))
    requires Then(fl.ctx, CheckBody(fl.ctx, b1, PushLabel(c0, IfLabel, sig)), Else) == Some(PushLabel(c0, ElseLabel, sig))
    requires Placed(fl, pc, LayIns(fl.ctx, IfElseIns(sig, b1, b2), c, pc, next, env), NotesIns(fl.ctx, IfElseIns(sig, b1, b2), c))
    ensures
      var mid := pc + 1 + Size(b1);
      var end := mid + 1 + Size(b2);
      var inner, c1, c2 := env + [Target(next, end)], PushLabel(c0, IfLabel, sig), PushLabel(c0, ElseLabel, sig);
      && CheckBody(fl.ctx, b1, c1).Some? && CheckBody(fl.ctx, b2, c2).Some?
      && pc < mid < |fl.code| && mid < |fl.notes|
      && fl.code[pc] == Jump(OpIf, next, mid + 1) && fl.notes[pc] == NoteOf(c, If(sig))
      && fl.code[mid] == Jump(OpElse, next, end) && fl.notes[mid] == NoteOf(CheckBody(fl.ctx, b1, c1).value, Else)
      && Placed(fl, pc + 1, LayBody(fl.ctx, b1, c1, pc + 1, next + 1, inner), NotesBody(fl.ctx, b1, c1))
      && Placed(fl, mid + 1, Closing(LayBody(fl.ctx, b2, c2, mid + 1, next + 1 + Labels(b1), inner), |c0.types|, |sig|),
           NotesArm(fl.ctx, b2, c2, End))
  {
    hide Placed, LayBody, NotesBody, CheckBody, Check, NoteOf;
    var mid := pc + 1 + Size(b1);
    var end := mid + 1 + Size(b2);
    var inner, c1, c2 := env + [Target(next, end)], PushLabel(c0, IfLabel, sig), PushLabel(c0, ElseLabel, sig);
    var d1 := CheckBody(fl.ctx, b1, c1).value;
    var thn := LayBody(fl.ctx, b1, c1, pc + 1, next + 1, inner);
    var els := Closing(LayBody(fl.ctx, b2, c2, mid + 1, next + 1 + Labels(b1), inner), |c0.types|, |sig|);
    assert LayIns(fl.ctx, IfElseIns(sig, b1, b2), c, pc, next, env) ==
      [Jump(OpIf, next, mid + 1)] + thn + [Jump(OpElse, next, end)] + els;
    assert NotesIns(fl.ctx, IfElseIns(sig, b1, b2), c) ==
      [NoteOf(c, If(sig))] + (NotesBody(fl.ctx, b1, c1) + [NoteOf(d1, Else)]) + NotesArm(fl.ctx, b2, c2, End);
    TwoArmsPlaced(fl, pc, Jump(OpIf, next, mid + 1), thn, Jump(OpElse, next, end), els,
      NoteOf(c, If(sig)), NotesBody(fl.ctx, b1, c1), NoteOf(d1, Else), NotesArm(fl.ctx, b2, c2, End));
    PlacedOne(fl, pc, Jump(OpIf, next, mid + 1), NoteOf(c, If(sig)));
    PlacedOne(fl, mid, Jump(OpElse, next, end), NoteOf(d1, Else));
  }

  lemma {:induction false} IfElseRules(fl: Flat, sig: seq<ValType>, b1: Body, b2: Body, c: Checker, pc: nat, next: nat, env: seq<Target>)
    requires InsAt(fl, IfElseIns(sig, b1, b2), c, pc, next, env)
    ensures RulesIn(fl, pc, pc + Size(b1) + Size(b2) + 3)
    decreases IfElseIns(sig, b1, b2), 0
  {
    hide Holds, Placed, LabelsOk, RuleAt, LayBody, NotesBody, CleanBody, CheckBody, Check, Valid, AllLive, PopTypes, SameLabel,
      LayIns, NotesIns, Bracket, LabelOk, InsAt, ArmReady, EndHolds, NoteOf, CheckIns, PartOf, CleanFlat;
    var c0 := IfElseBase(fl, sig, b1, b2, c, pc, next, env);
    IfElsePlaced(fl, sig, b1, b2, c, c0, pc, next, env);
    ReadyLater(fl, c0, env, pc + 1, pc + 2 + Size(b1));
    SecondArmRules(fl, b2, c0, sig, pc + 1 + Size(b1), next, next + 1 + Labels(b1), env);
    ThenArmRules(fl, b1, c0, sig, pc, next, env, Target(next, pc + 2 + Size(b1) + Size(b2)));
    IfElseTest(fl, c, c0, sig, pc, next, pc + 2 + Size(b1));
  }

  lemma ReadyLater(fl: Flat, c: Checker, env: seq<Target>, pc: nat, q: nat)
    requires ArmReady(fl, c, env, pc) && |c.labels| > 0 && pc <= q
    ensures ArmReady(fl, c, env, q)
  {
    hide LabelsOk;
    LabelsStay(fl, c, c, env, pc, q);
  }

  lemma IfElseTest(fl: Flat, c: Checker, c0: Checker, sig: seq<ValType>, pc: nat, id: nat, v2: nat)
    requires Valid(c) && Check(fl.ctx, c, If(sig)).Some? && PopTypes(c, [I32]) == Some(c0)
    requires pc < |fl.code| && pc < |fl.notes| && fl.code[pc] == Jump(OpIf, id, v2) && fl.notes[pc] == NoteOf(c, If(sig))
    requires EndHolds(fl, c0, v2) && EndHolds(fl, c0, pc + 1)
    ensures RuleAt(fl, pc)
  {
    hide Holds, Valid, AllLive, PopTypes, RuleAt, NoteOf;
    TestRule(fl, c, sig, pc, id, v2);
  }

  /** The checker after the condition is popped, and what both arms rely on. */
  lemma {:induction false} IfElseBase(fl: Flat, sig: seq<ValType>, b1: Body, b2: Body, c: Checker, pc: nat, next: nat, env: seq<Target>)
    returns (c0: Checker)
    requires InsAt(fl, IfElseIns(sig, b1, b2), c, pc, next, env)
    ensures Valid(c) && PopTypes(c, [I32]) == Some(c0)
    ensures Check(fl.ctx, c, If(sig)) == Some(PushLabel(c0, IfLabel, sig)) && CheckIns(fl.ctx, IfElseIns(sig, b1, b2), c).Some?
    ensures ArmReady(fl, c0, env, pc + 1) && |c0.labels| > 0 && c0.labels[0].sig == fl.ctx.results
    ensures Then(fl.ctx, CheckBody(fl.ctx, b1, PushLabel(c0, IfLabel, sig)), Else) == Some(PushLabel(c0, ElseLabel, sig))
    ensures Then(fl.ctx, CheckBody(fl.ctx, b2, PushLabel(c0, ElseLabel, sig)), End).Some?
    ensures Placed(fl, pc, LayIns(fl.ctx, IfElseIns(sig, b1, b2), c, pc, next, env), NotesIns(fl.ctx, IfElseIns(sig, b1, b2), c))
    ensures EndHolds(fl, PushTypes(c0, sig), pc + Size(b1) + Size(b2) + 3)
    ensures PartOf(CleanFlat(fl), fl.ctx, fl.body, b1, PushLabel(c0, IfLabel, sig), pc + 1)
    ensures PartOf(CleanFlat(fl), fl.ctx, fl.body, b2, PushLabel(c0, ElseLabel, sig), pc + 2 + Size(b1))
  {
    hide Holds, Placed, LabelsOk, LayBody, NotesBody, CleanBody, CheckBody, Check, Valid, AllLive, PopTypes, SameLabel,
      LayIns, NotesIns, EndHolds, PartOf, InsPartOf, CleanFlat;
    InsKeeps(fl.ctx, IfElseIns(sig, b1, b2), c);
    ArmParts(CleanFlat(fl), fl.ctx, fl.body, sig, b1, b2, c, pc);
    IfStarts(fl.ctx, c, sig);
    c0 := IfBase(c);
    BodyKeeps(fl.ctx, b1, PushLabel(c0, IfLabel, sig));
    ElseRestarts(fl.ctx, b1, c0, sig);
    LabelsStay(fl, c, c0, env, pc, pc + 1);
    SameBottom(c, c0);
  }

  /** The second arm: its rules, and the end of the bracket that the first arm jumps to. */
  lemma {:induction false} SecondArmRules(fl: Flat, b: Body, c: Checker, sig: seq<ValType>, mid: nat, id: nat, next: nat, env: seq<Target>)
    requires ArmReady(fl, c, env, mid + 1) && c.labels[0].sig == fl.ctx.results
    requires CheckBody(fl.ctx, b, PushLabel(c, ElseLabel, sig)).Some?
    requires Then(fl.ctx, CheckBody(fl.ctx, b, PushLabel(c, ElseLabel, sig)), End).Some?
    requires
      var t := Target(id, mid + 1 + Size(b));
      Placed(fl, mid + 1, Closing(LayBody(fl.ctx, b, PushLabel(c, ElseLabel, sig), mid + 1, next, env + [t]), |c.types|, |sig|),
        NotesArm(fl.ctx, b, PushLabel(c, ElseLabel, sig), End))
    requires EndHolds(fl, PushTypes(c, sig), mid + Size(b) + 2)
    requires PartOf(CleanFlat(fl), fl.ctx, fl.body, b, PushLabel(c, ElseLabel, sig), mid + 1)
    ensures RulesIn(fl, mid + 1, mid + Size(b) + 2) && EndHolds(fl, c, mid + 1)
    ensures AllLive(c) ==> LabelOk(fl, Label(ElseLabel, sig, |c.types|, false), c.types, mid + 1 + Size(b), mid + 1 + Size(b))
    decreases b, 2
  {
    hide Holds, Placed, LabelsOk, RuleAt, LayBody, NotesBody, CleanBody, CheckBody, Check, Valid, AllLive, Bracket, LabelOk, EndHolds, PartOf, CleanFlat;
    ArmRules(fl, b, c, ElseLabel, sig, mid + 1, next, env, Target(id, mid + 1 + Size(b)));
    BracketEntry(fl, b, c, ElseLabel, sig, mid + 1, End);
    if AllLive(c) {
      ForwardLabel(fl, b, c, ElseLabel, sig, mid + 1);
      SameEnd(fl, c, ElseLabel, ElseLabel, sig, mid + 1 + Size(b), mid + 1, mid + 1 + Size(b));
    }
  }

  lemma {:induction false} ThenBracket(fl: Flat, b: Body, c: Checker, sig: seq<ValType>, pc: nat, lay: seq<Rec>)
    requires Valid(c) && CheckBody(fl.ctx, b, PushLabel(c, IfLabel, sig)).Some?
    requires Then(fl.ctx, CheckBody(fl.ctx, b, PushLabel(c, IfLabel, sig)), Else).Some?
    requires Placed(fl, pc + 1, lay, NotesBody(fl.ctx, b, PushLabel(c, IfLabel, sig)))
    requires pc + 1 + Size(b) < |fl.notes|
    requires fl.notes[pc + 1 + Size(b)] == NoteOf(CheckBody(fl.ctx, b, PushLabel(c, IfLabel, sig)).value, Else)
    ensures Bracket(fl, b, c, IfLabel, sig, pc + 1, Else)
  {
    hide Valid, CheckBody, NotesBody, Check, NoteOf;
  }

  /** Both arms of an `if` end at the same place. */
  lemma SameEnd(fl: Flat, c: Checker, kind: LabelKind, other: LabelKind, sig: seq<ValType>, end: nat, pc: nat, q: nat)
    requires !kind.LoopLabel? && !other.LoopLabel? && LabelOk(fl, Label(kind, sig, |c.types|, false), c.types, end, pc)
    ensures LabelOk(fl, Label(other, sig, |c.types|, false), c.types, end, q)
  {
  }

  lemma {:induction false} ThenArmRules(fl: Flat, b: Body, c: Checker, sig: seq<ValType>, pc: nat, next: nat, env: seq<Target>, t: Target)
    requires ArmReady(fl, c, env, pc + 1) && c.labels[0].sig == fl.ctx.results
    requires CheckBody(fl.ctx, b, PushLabel(c, IfLabel, sig)).Some?
    requires Then(fl.ctx, CheckBody(fl.ctx, b, PushLabel(c, IfLabel, sig)), Else).Some?
    requires Placed(fl, pc + 1, LayBody(fl.ctx, b, PushLabel(c, IfLabel, sig), pc + 1, next + 1, env + [t]),
      NotesBody(fl.ctx, b, PushLabel(c, IfLabel, sig)))
    requires pc + 1 + Size(b) < |fl.notes| && pc + 1 + Size(b) < |fl.code|
    requires fl.code[pc + 1 + Size(b)] == Jump(OpElse, next, t.offset)
    requires fl.notes[pc + 1 + Size(b)] == NoteOf(CheckBody(fl.ctx, b, PushLabel(c, IfLabel, sig)).value, Else)
    requires AllLive(c) ==> LabelOk(fl, Label(ElseLabel, sig, |c.types|, false), c.types, t.offset, t.offset)
    requires PartOf(CleanFlat(fl), fl.ctx, fl.body, b, PushLabel(c, IfLabel, sig), pc + 1)
    ensures RulesIn(fl, pc + 1, pc + 1 + Size(b) + 1)
    ensures EndHolds(fl, c, pc + 1)
    decreases b, 1
  {
    hide Holds, LabelsOk, RuleAt, LayBody, NotesBody, CleanBody, CheckBody, Check, AllLive, Valid, LabelOk, EndHolds, NoteOf, Bracket, Placed, PartOf, CleanFlat;
    ThenBracket(fl, b, c, sig, pc, LayBody(fl.ctx, b, PushLabel(c, IfLabel, sig), pc + 1, next + 1, env + [t]));
    BracketEntry(fl, b, c, IfLabel, sig, pc + 1, Else);
    if AllLive(c) { SameEnd(fl, c, ElseLabel, IfLabel, sig, t.offset, t.offset, pc + 1); }
    InnerLabels(fl, c, IfLabel, sig, env, t, pc + 1);
    BodyRules(fl, b, PushLabel(c, IfLabel, sig), pc + 1, next + 1, env + [t]);
    if AllLive(c) { JumpToEnd(fl, c, ElseLabel, sig, t.offset, t.offset); }
    ElseRule(fl, b, c, sig, pc + 1, next, t.offset);
  }

  /* ---- the whole function ---- */

  /** The notes of an accepted body, and the one for the position after its code. */
  function FunctionNotes(ctx: Context, code: seq<Instr>): seq<Note> {
    Notes(ctx, BeginFunction(ctx), code) + [Join([], ctx.results)]
  }

  function FlatOf(exact: bool, ctx: Context, b: Body): Flat
    requires CheckBody(ctx, b, BeginFunction(ctx)).Some?
  {
    Flat(exact, ctx, b, LayFunction(ctx, b), FunctionNotes(ctx, Flatten(b)))
  }

  /** Every record of an accepted body obeys the rule of its note, and the code may be entered
      with no operands. */
  lemma AcceptedObeysRules(exact: bool, ctx: Context, b: Body)
    requires CheckBody(ctx, b, BeginFunction(ctx)).Some?
    requires EndFunction(CheckBody(ctx, b, BeginFunction(ctx)).value).Some?
    ensures |FlatOf(exact, ctx, b).notes| == Size(b) + 1
    ensures RulesIn(FlatOf(exact, ctx, b), 0, Size(b)) && Holds(FlatOf(exact, ctx, b), 0, [])
  {
    hide Holds, LayBody, NotesBody, CleanBody, CheckBody, Notes, Valid, RuleAt, PartOf;
    var fl, c := FlatOf(exact, ctx, b), BeginFunction(ctx);
    NotesFlatten(ctx, b, c);
    BeginFunctionValid(ctx);
    BodyKeeps(ctx, b, c);
    FunctionEnd(fl, b);
    assert LabelsOk(fl, c, [Target(0, Size(b))], 0);
    WholePart(CleanFlat(fl), ctx, b);
    BodyRules(fl, b, c, 0, 1, [Target(0, Size(b))]);
    BodyEntry(fl, b, c, 0);
  }

  lemma FunctionEnd(fl: Flat, b: Body)
    requires CheckBody(fl.ctx, b, BeginFunction(fl.ctx)).Some?
    requires EndFunction(CheckBody(fl.ctx, b, BeginFunction(fl.ctx)).value).Some?
    requires Size(b) < |fl.notes| && fl.notes[Size(b)] == Join([], fl.ctx.results)
    ensures EndHolds(fl, CheckBody(fl.ctx, b, BeginFunction(fl.ctx)).value, Size(b))
  {
    hide CheckBody, AnyOnlyAtDeadLimit, LimitsOrdered;
    var c := BeginFunction(fl.ctx);
    BeginFunctionValid(fl.ctx);
    BodyKeeps(fl.ctx, b, c);
    var d := CheckBody(fl.ctx, b, c).value;
    if AllLive(d) {
      LiveEnd(fl.ctx, d);
      LiveMatch(d, Top(d).sig);
      assert Last(d.types, |d.types|) == d.types;
      JoinHolds(fl, Size(b), [], fl.ctx.results);
      assert [] + fl.ctx.results == fl.ctx.results;
    }
  }
}
