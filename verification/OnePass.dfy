/** The one-pass compiler with back-patching produces the direct layout. */
module OnePass {
  import opened Wasm
  import opened Checking
  import opened CheckerInvariants
  import opened Structure
  import opened Reading
  import opened Layout

  /* ---- the reader's labels and the checker's labels agree ---- */

  /** Each open reader label records the limit and the result count of the checker's label at
      the same depth; only loops know their position while open; an open `if` remembers the
      record that its `else` has to patch. */
  predicate Agree(r: Reader) {
    && |r.labelStack| == |r.checker.labels|
    && (forall j :: 0 <= j < |r.labelStack| ==> r.labelStack[j] < |r.labels|)
    && (forall j, k :: 0 <= j < k < |r.labelStack| ==> r.labelStack[j] < r.labelStack[k])
    && (forall j :: 0 <= j < |r.labelStack| ==> LabelAgrees(r, j))
  }

  predicate LabelAgrees(r: Reader, j: nat)
    requires j < |r.labelStack| == |r.checker.labels| && r.labelStack[j] < |r.labels|
  {
    var l, m := r.labels[r.labelStack[j]], r.checker.labels[j];
    && l.stack == m.limit
    && l.results == |m.sig|
    && (l.offset == INVALID_INDEX <==> !m.kind.LoopLabel?)
    && (m.kind.IfLabel? ==>
      l.origin < |r.opcodes| && r.opcodes[l.origin] == Jump(OpIf, r.labelStack[j], INVALID_INDEX))
  }

  lemma BeginAgrees(ctx: Context)
    ensures Agree(Begin(ctx))
  {
  }

  /** What reading a complete construct adds: nothing below is touched. */
  predicate Grown(r: Reader, s: Reader, c: Checker, labels: nat, size: nat) {
    && s.checker == c
    && s.labelStack == r.labelStack
    && |s.labels| == |r.labels| + labels
    && s.labels[..|r.labels|] == r.labels
    && |s.opcodes| == |r.opcodes| + size
    && s.opcodes[..|r.opcodes|] == r.opcodes
  }

  lemma GrownAgrees(r: Reader, s: Reader, c: Checker, labels: nat, size: nat)
    requires Agree(r) && Grown(r, s, c, labels, size) && SameLabel(r.checker, c)
    ensures Agree(s)
  {
    forall j | 0 <= j < |s.labelStack| ensures s.labelStack[j] < |s.labels| && LabelAgrees(s, j) {
      assert LabelAgrees(r, j);
      var id := r.labelStack[j];
      assert s.labels[..|r.labels|][id] == r.labels[id];
      if j < |s.labelStack| - 1 {
        assert c.labels[..|c.labels| - 1][j] == r.checker.labels[j];
      }
      var origin := r.labels[id].origin;
      if origin < |r.opcodes| {
        assert s.opcodes[..|r.opcodes|][origin] == r.opcodes[origin];
      }
    }
  }

  lemma GrownTransitive(a: Reader, b: Reader, c: Reader, cb: Checker, cc: Checker, l1: nat, n1: nat, l2: nat, n2: nat)
    requires Grown(a, b, cb, l1, n1) && Grown(b, c, cc, l2, n2)
    ensures Grown(a, c, cc, l1 + l2, n1 + n2)
  {
    assert c.labels[..|a.labels|] == c.labels[..|b.labels|][..|a.labels|];
    assert c.opcodes[..|a.opcodes|] == c.opcodes[..|b.opcodes|][..|a.opcodes|];
  }

  /** `final` is a later label table: it settles the labels `r` opened and has since closed. */
  predicate Settles(final: seq<LabelRec>, s: Reader, from: nat) {
    && |s.labels| <= |final|
    && (forall k :: from <= k < |s.labels| ==> final[k].offset == s.labels[k].offset)
  }

  function OffsetIn(final: seq<LabelRec>, id: nat): nat {
    if id < |final| then final[id].offset else 0
  }

  function EnvOf(final: seq<LabelRec>, labelStack: seq<nat>): (env: seq<Target>)
    ensures |env| == |labelStack|
  {
    seq(|labelStack|, j requires 0 <= j < |labelStack| => Target(labelStack[j], OffsetIn(final, labelStack[j])))
  }

  /** The records added since `r`, with their targets looked up in `final`. */
  function Added(r: Reader, s: Reader, final: seq<LabelRec>): seq<Rec>
    requires |r.opcodes| <= |s.opcodes|
  {
    PatchAll(final, s.opcodes[|r.opcodes|..])
  }

  lemma PatchConcat(final: seq<LabelRec>, xs: seq<Rec>, ys: seq<Rec>)
    ensures PatchAll(final, xs + ys) == PatchAll(final, xs) + PatchAll(final, ys)
  {
  }

  lemma {:induction false} ReadAllConcat(ctx: Context, r: Reader, xs: seq<Instr>, ys: seq<Instr>)
    ensures ReadAll(ctx, r, xs + ys) ==
      if ReadAll(ctx, r, xs).None? then None else ReadAll(ctx, ReadAll(ctx, r, xs).value, ys)
    decreases |xs|
  {
    if xs == [] {
      assert xs + ys == ys;
    } else {
      assert (xs + ys)[1..] == xs[1..] + ys;
      if Read(ctx, r, xs[0]).Some? {
        ReadAllConcat(ctx, Read(ctx, r, xs[0]).value, xs[1..], ys);
      }
    }
  }

  lemma ReadOne(ctx: Context, r: Reader, i: Instr)
    ensures ReadAll(ctx, r, [i]) == Read(ctx, r, i)
  {
    assert [i][1..] == [];
  }

  /** Plain instructions: targets come from the environment. */
  lemma PlainIsLaid(ctx: Context, i: Instr, labelStack: seq<nat>, final: seq<LabelRec>)
    requires forall j :: 0 <= j < |labelStack| ==> labelStack[j] < |final|
    requires i.Br? || i.BrIf? ==> i.depth < |labelStack|
    requires i.BrTable? ==> i.default < |labelStack| && forall k :: 0 <= k < |i.depths| ==> i.depths[k] < |labelStack|
    ensures |PlainRecs(ctx, i, labelStack)| == PlainSize(i)
    ensures PatchAll(final, PlainRecs(ctx, i, labelStack)) == LayPlain(ctx, i, EnvOf(final, labelStack))
  {
    if i.BrTable? {
      var rs, ls := PatchAll(final, PlainRecs(ctx, i, labelStack)), LayPlain(ctx, i, EnvOf(final, labelStack));
      assert |PlainRecs(ctx, i, labelStack)| == |ls|;
      forall k | 0 <= k < |ls| ensures rs[k] == ls[k] {
      }
    }
  }

  lemma {:induction false} DepthsInRange(c: Checker, ds: seq<nat>, s: Type)
    requires |c.labels| > 0 && OnBrTableTargets(c, ds, s).Some?
    ensures forall k :: 0 <= k < |ds| ==> ds[k] < |c.labels|
    decreases |ds|
  {
    if ds != [] {
      DepthsInRange(c, ds[1..], OnBrTableTarget(c, ds[0], s).value);
      assert forall k :: 0 < k < |ds| ==> ds[k] == ds[1..][k - 1];
    }
  }

  lemma PlainDepths(ctx: Context, c: Checker, i: Instr)
    requires Valid(c) && IsPlain(i) && Check(ctx, c, i).Some?
    ensures i.Br? || i.BrIf? ==> i.depth < |c.labels|
    ensures i.BrTable? ==> i.default < |c.labels| && forall k :: 0 <= k < |i.depths| ==> i.depths[k] < |c.labels|
  {
    if i.BrTable? {
      PopKeeps(c, [I32]);
      DepthsInRange(PopTypes(c, [I32]).value, i.depths + [i.default], Any);
      assert (i.depths + [i.default])[|i.depths|] == i.default;
      assert forall k :: 0 <= k < |i.depths| ==> (i.depths + [i.default])[k] == i.depths[k];
    } else if i.BrIf? {
      PopKeeps(c, [I32]);
    }
  }

  lemma ReadPlain(ctx: Context, i: Instr, r: Reader, final: seq<LabelRec>)
    requires Valid(r.checker) && Agree(r) && IsPlain(i) && Check(ctx, r.checker, i).Some?
    ensures Read(ctx, r, i).Some?
    ensures Grown(r, Read(ctx, r, i).value, Check(ctx, r.checker, i).value, 0, PlainSize(i))
    ensures |r.labels| <= |final| ==>
      Added(r, Read(ctx, r, i).value, final) == LayPlain(ctx, i, EnvOf(final, r.labelStack))
  {
    PlainDepths(ctx, r.checker, i);
    var s := Read(ctx, r, i).value;
    var recs := PlainRecs(ctx, i, r.labelStack);
    assert s.opcodes == r.opcodes + recs;
    assert s.opcodes[|r.opcodes|..] == recs;
    if |r.labels| <= |final| {
      PlainIsLaid(ctx, i, r.labelStack, final);
    } else {
      PlainIsLaid(ctx, i, r.labelStack, r.labels);
    }
  }

  /** `end`: the innermost label's position is fixed if it was not, and its record says where
      the stack goes. */
  lemma ReadEnd(ctx: Context, r: Reader)
    requires Valid(r.checker) && Agree(r) && |r.checker.labels| > 1 && Check(ctx, r.checker, End).Some?
    ensures Read(ctx, r, End).Some?
    ensures
      var s, n, id := Read(ctx, r, End).value, |r.labelStack| - 1, Back(r.labelStack);
      && s.checker == Check(ctx, r.checker, End).value
      && s.labelStack == r.labelStack[..n]
      && s.opcodes == r.opcodes + [EndRec(Top(r.checker).limit, |Top(r.checker).sig|)]
      && id < |r.labels|
      && s.labels == r.labels[id := r.labels[id].(
           offset := if Top(r.checker).kind.LoopLabel? then r.labels[id].offset else |r.opcodes|)]
  {
    assert LabelAgrees(r, |r.labelStack| - 1);
  }

  /** Reading a bracket without `else`: open, body, `end`. `s0` is the reader after the opening
      instruction, which emitted `head` and opened label number `id`. */
  predicate Opened(r: Reader, s0: Reader, kind: LabelKind, sig: seq<ValType>, c: Checker, head: seq<Rec>) {
    && s0.checker == PushLabel(c, kind, sig)
    && s0.opcodes == r.opcodes + head
    && s0.labelStack == r.labelStack + [|r.labels|]
    && |s0.labels| == |r.labels| + 1 && s0.labels[..|r.labels|] == r.labels
    && s0.labels[|r.labels|].stack == |c.types| && s0.labels[|r.labels|].results == |sig|
    && s0.labels[|r.labels|].offset == (if kind.LoopLabel? then |r.opcodes| else INVALID_INDEX)
    && (kind.IfLabel? ==> head == [Jump(OpIf, |r.labels|, INVALID_INDEX)] && s0.labels[|r.labels|].origin == |r.opcodes|)
  }

  lemma OpenedAgrees(r: Reader, s0: Reader, kind: LabelKind, sig: seq<ValType>, c: Checker, head: seq<Rec>)
    requires Agree(r) && SameLabel(r.checker, c) && Opened(r, s0, kind, sig, c, head)
    requires |r.opcodes| < INVALID_INDEX
    requires c.labels == r.checker.labels
    ensures Agree(s0)
  {
    forall j | 0 <= j < |s0.labelStack| ensures s0.labelStack[j] < |s0.labels| && LabelAgrees(s0, j) {
      if j < |r.labelStack| {
        assert LabelAgrees(r, j);
        assert s0.labels[..|r.labels|][r.labelStack[j]] == r.labels[r.labelStack[j]];
      }
    }
  }

  /** After a complete construct: what it added is its layout, once its labels are settled. */
  predicate Laid(r: Reader, s: Reader, final: seq<LabelRec>, lay: seq<Rec>)
    requires |r.opcodes| <= |s.opcodes|
  {
    Settles(final, s, |r.labels|) ==> Added(r, s, final) == lay
  }

  lemma AddedConcat(r: Reader, m: Reader, s: Reader, final: seq<LabelRec>)
    requires |r.opcodes| <= |m.opcodes| <= |s.opcodes| && s.opcodes[..|m.opcodes|] == m.opcodes
    ensures Added(r, s, final) == Added(r, m, final) + Added(m, s, final)
  {
    assert s.opcodes[|r.opcodes|..] == m.opcodes[|r.opcodes|..] + s.opcodes[|m.opcodes|..];
    PatchConcat(final, m.opcodes[|r.opcodes|..], s.opcodes[|m.opcodes|..]);
  }

  /** Reading `b` from `r` succeeds, adds what the checker and the layout predict, and touches
      nothing else. */
  predicate ReadsBody(ctx: Context, b: Body, r: Reader, final: seq<LabelRec>)
    requires CheckBody(ctx, b, r.checker).Some?
  {
    && ReadAll(ctx, r, Flatten(b)).Some?
    && var s := ReadAll(ctx, r, Flatten(b)).value;
      && Grown(r, s, CheckBody(ctx, b, r.checker).value, Labels(b), Size(b))
      && Laid(r, s, final, LayBody(ctx, b, r.checker, |r.opcodes|, |r.labels|, EnvOf(final, r.labelStack)))
  }

  predicate ReadsIns(ctx: Context, ins: Ins, r: Reader, final: seq<LabelRec>)
    requires CheckIns(ctx, ins, r.checker).Some?
  {
    && ReadAll(ctx, r, FlattenIns(ins)).Some?
    && var s := ReadAll(ctx, r, FlattenIns(ins)).value;
      && Grown(r, s, CheckIns(ctx, ins, r.checker).value, LabelsIns(ins), SizeIns(ins))
      && Laid(r, s, final, LayIns(ctx, ins, r.checker, |r.opcodes|, |r.labels|, EnvOf(final, r.labelStack)))
  }

  lemma {:induction false} ReadBody(ctx: Context, b: Body, r: Reader, final: seq<LabelRec>)
    requires Valid(r.checker) && Agree(r) && CheckBody(ctx, b, r.checker).Some?
    requires |r.opcodes| + Size(b) < INVALID_INDEX
    ensures ReadsBody(ctx, b, r, final)
    decreases b
  {
    match b
    case Nil =>
      assert Added(r, r, final) == [];
    case Cons(h, t) =>
      ReadIns(ctx, h, r, final);
      var m := ReadAll(ctx, r, FlattenIns(h)).value;
      InsKeeps(ctx, h, r.checker);
      GrownAgrees(r, m, m.checker, LabelsIns(h), SizeIns(h));
      ReadBody(ctx, t, m, final);
      ReadAllConcat(ctx, r, FlattenIns(h), Flatten(t));
      GlueReads(ctx, h, t, r, m, ReadAll(ctx, m, Flatten(t)).value, final);
  }

  lemma {:induction false} GlueReads(ctx: Context, h: Ins, t: Body, r: Reader, m: Reader, s: Reader, final: seq<LabelRec>)
    requires CheckBody(ctx, Cons(h, t), r.checker).Some?
    requires ReadsIns(ctx, h, r, final) && ReadAll(ctx, r, FlattenIns(h)) == Some(m)
    requires ReadsBody(ctx, t, m, final) && ReadAll(ctx, m, Flatten(t)) == Some(s)
    requires ReadAll(ctx, r, FlattenIns(h) + Flatten(t)) == Some(s)
    ensures ReadsBody(ctx, Cons(h, t), r, final)
  {
    hide Check, CheckIns, Laid, EnvOf, LayIns, Read, ReadAll, FlattenIns, SizeIns, LabelsIns;
    GrownTransitive(r, m, s, m.checker, s.checker, LabelsIns(h), SizeIns(h), Labels(t), Size(t));
    var lay1 := LayIns(ctx, h, r.checker, |r.opcodes|, |r.labels|, EnvOf(final, r.labelStack));
    var lay2 := LayBody(ctx, t, m.checker, |m.opcodes|, |m.labels|, EnvOf(final, m.labelStack));
    GlueLaid(r, m, s, LabelsIns(h), SizeIns(h), Labels(t), Size(t), final, lay1, lay2);
    assert LayBody(ctx, Cons(h, t), r.checker, |r.opcodes|, |r.labels|, EnvOf(final, r.labelStack)) == lay1 + lay2;
  }

  lemma GlueLaid(r: Reader, m: Reader, s: Reader, l1: nat, n1: nat, l2: nat, n2: nat, final: seq<LabelRec>,
      lay1: seq<Rec>, lay2: seq<Rec>)
    requires Grown(r, m, m.checker, l1, n1) && Grown(m, s, s.checker, l2, n2)
    requires Laid(r, m, final, lay1) && Laid(m, s, final, lay2)
    ensures Laid(r, s, final, lay1 + lay2)
  {
    if Settles(final, s, |r.labels|) {
      forall k | |r.labels| <= k < |m.labels| ensures final[k].offset == m.labels[k].offset {
        assert s.labels[..|m.labels|][k] == m.labels[k];
      }
      AddedConcat(r, m, s, final);
    }
  }

  lemma {:induction false} ReadIns(ctx: Context, ins: Ins, r: Reader, final: seq<LabelRec>)
    requires Valid(r.checker) && Agree(r) && CheckIns(ctx, ins, r.checker).Some?
    requires |r.opcodes| + SizeIns(ins) < INVALID_INDEX
    ensures ReadsIns(ctx, ins, r, final)
    decreases ins
  {
    hide Check, LayIns, Agree, Valid, Opened, ReadAll;
    var c := r.checker;
    match ins
    case Plain(i) => ReadPlainIns(ctx, i, r, final);
    case BlockIns(sig, b) =>
      var s0 := OpenPlain(ctx, r, Block(sig), BlockLabel);
      ReadBody(ctx, b, s0, final);
      CloseBracket(ctx, r, s0, BlockLabel, Block(sig), sig, c, [], b, final);
      LaysBlock(ctx, r, s0, ins, sig, b, final);
    case LoopIns(sig, b) =>
      var s0 := OpenPlain(ctx, r, Loop(sig), LoopLabel);
      ReadBody(ctx, b, s0, final);
      CloseBracket(ctx, r, s0, LoopLabel, Loop(sig), sig, c, [], b, final);
      LaysLoop(ctx, r, s0, ins, sig, b, final);
    case IfIns(sig, b) =>
      IfStarts(ctx, c, sig);
      OpenIf(ctx, r, sig);
      var s0 := Read(ctx, r, If(sig)).value;
      ReadBody(ctx, b, s0, final);
      PopKeeps(c, [I32]);
      CloseBracket(ctx, r, s0, IfLabel, If(sig), sig, IfBase(c), [Jump(OpIf, |r.labels|, INVALID_INDEX)], b, final);
      LaysIf(ctx, r, s0, ins, sig, b, final);
    case IfElseIns(sig, b1, b2) =>
      IfStarts(ctx, c, sig);
      OpenIf(ctx, r, sig);
      var s0 := Read(ctx, r, If(sig)).value;
      ReadBody(ctx, b1, s0, final);
      var s2 := ReadElse(ctx, r, s0, sig, b1, final);
      ReadBody(ctx, b2, s2, final);
      CloseIfElse(ctx, r, s0, s2, sig, b1, b2, final);
  }

  lemma ReadPlainIns(ctx: Context, i: PlainInstr, r: Reader, final: seq<LabelRec>)
    requires Valid(r.checker) && Agree(r) && Check(ctx, r.checker, i).Some?
    ensures ReadsIns(ctx, Plain(i), r, final)
  {
    hide Check, Agree, Valid, Grown;
    ReadOne(ctx, r, i);
    ReadPlain(ctx, i, r, final);
  }

  lemma OpenPlain(ctx: Context, r: Reader, open: Instr, kind: LabelKind) returns (s0: Reader)
    requires Valid(r.checker) && Agree(r) && |r.opcodes| < INVALID_INDEX
    requires (open.Block? && kind.BlockLabel?) || (open.Loop? && kind.LoopLabel?)
    ensures Read(ctx, r, open) == Some(s0) && Opened(r, s0, kind, open.results, r.checker, [])
    ensures Agree(s0) && Valid(s0.checker)
  {
    PushLabelKeeps(r.checker, kind, open.results);
    s0 := Read(ctx, r, open).value;
    assert s0.opcodes == r.opcodes + [];
    OpenedAgrees(r, s0, kind, open.results, r.checker, []);
  }

  /** What `CloseBracket` establishes about the reader after `end`. */
  predicate ReadsBracket(ctx: Context, r: Reader, s0: Reader, kind: LabelKind, open: Instr, sig: seq<ValType>, c: Checker,
      head: nat, b: Body, final: seq<LabelRec>)
    requires CheckBody(ctx, b, s0.checker).Some? && Check(ctx, CheckBody(ctx, b, s0.checker).value, End).Some?
  {
    && ReadAll(ctx, r, [open] + Flatten(b) + [End]).Some?
    && var s := ReadAll(ctx, r, [open] + Flatten(b) + [End]).value;
      var env := EnvOf(final, r.labelStack) + [Target(|r.labels|, CloseAt(r, kind, head, Size(b)))];
      && Grown(r, s, Check(ctx, CheckBody(ctx, b, s0.checker).value, End).value, 1 + Labels(b), head + Size(b) + 1)
      && Laid(r, s, final, LayBracket(r, kind, sig, c, LayBody(ctx, b, s0.checker, |r.opcodes| + head, |r.labels| + 1, env)))
  }

  lemma {:induction false} LaysBlock(ctx: Context, r: Reader, s0: Reader, ins: Ins, sig: seq<ValType>, b: Body, final: seq<LabelRec>)
    requires ins == BlockIns(sig, b) && CheckIns(ctx, ins, r.checker).Some? && s0.checker == PushLabel(r.checker, BlockLabel, sig)
    requires ReadsBracket(ctx, r, s0, BlockLabel, Block(sig), sig, r.checker, 0, b, final)
    ensures ReadsIns(ctx, ins, r, final)
  {
    hide Check, CheckBody, LayBody, Closing, OneArm, Grown, Laid, ReadAll, Flatten, Size, Labels, EnvOf;
    var env := EnvOf(final, r.labelStack) + [Target(|r.labels|, |r.opcodes| + Size(b))];
    assert CloseAt(r, BlockLabel, 0, Size(b)) == |r.opcodes| + Size(b);
    var arm := LayBody(ctx, b, s0.checker, |r.opcodes|, |r.labels| + 1, env);
  }

  lemma {:induction false} LaysLoop(ctx: Context, r: Reader, s0: Reader, ins: Ins, sig: seq<ValType>, b: Body, final: seq<LabelRec>)
    requires ins == LoopIns(sig, b) && CheckIns(ctx, ins, r.checker).Some? && s0.checker == PushLabel(r.checker, LoopLabel, sig)
    requires ReadsBracket(ctx, r, s0, LoopLabel, Loop(sig), sig, r.checker, 0, b, final)
    ensures ReadsIns(ctx, ins, r, final)
  {
    hide Check, CheckBody, LayBody, Closing, OneArm, Grown, Laid, ReadAll, Flatten, Size, Labels, EnvOf;
    var env := EnvOf(final, r.labelStack) + [Target(|r.labels|, |r.opcodes|)];
    assert CloseAt(r, LoopLabel, 0, Size(b)) == |r.opcodes|;
    var arm := LayBody(ctx, b, s0.checker, |r.opcodes|, |r.labels| + 1, env);
  }

  lemma {:induction false} LaysIf(ctx: Context, r: Reader, s0: Reader, ins: Ins, sig: seq<ValType>, b: Body, final: seq<LabelRec>)
    requires |r.checker.labels| > 0 && PopTypes(r.checker, [I32]).Some?
    requires ins == IfIns(sig, b) && CheckIns(ctx, ins, r.checker).Some? && s0.checker == PushLabel(IfBase(r.checker), IfLabel, sig)
    requires Check(ctx, r.checker, If(sig)) == Some(s0.checker)
    requires ReadsBracket(ctx, r, s0, IfLabel, If(sig), sig, IfBase(r.checker), 1, b, final)
    ensures ReadsIns(ctx, ins, r, final)
  {
    hide Check, CheckBody, LayBody, Closing, OneArm, Grown, Laid, ReadAll, Flatten, Size, Labels, EnvOf;
    var close := |r.opcodes| + 1 + Size(b);
    assert CloseAt(r, IfLabel, 1, Size(b)) == close;
    var env := EnvOf(final, r.labelStack) + [Target(|r.labels|, close)];
    var arm := LayBody(ctx, b, s0.checker, |r.opcodes| + 1, |r.labels| + 1, env);
  }

  lemma OpenIf(ctx: Context, r: Reader, sig: seq<ValType>)
    requires Valid(r.checker) && Agree(r) && Check(ctx, r.checker, If(sig)).Some? && |r.opcodes| < INVALID_INDEX
    ensures Read(ctx, r, If(sig)).Some? && PopTypes(r.checker, [I32]).Some?
    ensures Opened(r, Read(ctx, r, If(sig)).value, IfLabel, sig, IfBase(r.checker), [Jump(OpIf, |r.labels|, INVALID_INDEX)])
    ensures Agree(Read(ctx, r, If(sig)).value)
  {
    PopKeeps(r.checker, [I32]);
    var s0 := Read(ctx, r, If(sig)).value;
    assert Back(r.labelStack + [|r.labels|]) == |r.labels|;
    OpenedAgrees(r, s0, IfLabel, sig, IfBase(r.checker), [Jump(OpIf, |r.labels|, INVALID_INDEX)]);
  }

  /** The layout of a bracket with one arm, given the layout of the arm. */
  function LayBracket(r: Reader, kind: LabelKind, sig: seq<ValType>, c: Checker, arm: seq<Rec>): seq<Rec> {
    if kind.IfLabel? then OneArm(arm, |r.opcodes|, |r.labels|, |c.types|, |sig|) else Closing(arm, |c.types|, |sig|)
  }

  function CloseAt(r: Reader, kind: LabelKind, head: nat, size: nat): nat {
    if kind.LoopLabel? then |r.opcodes| else |r.opcodes| + head + size
  }

  lemma {:induction false} CloseBracket(ctx: Context, r: Reader, s0: Reader, kind: LabelKind, open: Instr,
      sig: seq<ValType>, c: Checker, head: seq<Rec>, b: Body, final: seq<LabelRec>)
    requires Valid(r.checker) && Agree(r) && Read(ctx, r, open) == Some(s0) && Opened(r, s0, kind, sig, c, head)
    requires !kind.IfLabel? ==> head == []
    requires Agree(s0) && Valid(s0.checker) && !kind.FuncLabel? && c.labels == r.checker.labels
    requires CheckBody(ctx, b, s0.checker).Some? && Check(ctx, CheckBody(ctx, b, s0.checker).value, End).Some?
    requires |r.opcodes| + |head| + Size(b) + 1 < INVALID_INDEX
    requires ReadsBody(ctx, b, s0, final)
    ensures ReadsBracket(ctx, r, s0, kind, open, sig, c, |head|, b, final)
  {
    hide Check, CheckBody, LayBody, LayBracket, PatchAll, Settles, Added, EnvOf, Agree, Closed, Read, ReadAll, LimitsOrdered, AnyOnlyAtDeadLimit;
    var s1 := ReadAll(ctx, s0, Flatten(b)).value;
    var s := EndBracket(ctx, r, s0, s1, kind, open, sig, c, head, b);
    BracketLaid(r, s0, s1, s, kind, sig, c, head, Labels(b), Size(b), final,
      LayBody(ctx, b, s0.checker, |s0.opcodes|, |s0.labels|, EnvOf(final, s0.labelStack)));
    if Settles(final, s, |r.labels|) {
      BracketSettles(r, s0, s1, s, kind, sig, c, head, Labels(b), Size(b), final);
    }
  }

  lemma {:induction false} EndBracket(ctx: Context, r: Reader, s0: Reader, s1: Reader, kind: LabelKind, open: Instr,
      sig: seq<ValType>, c: Checker, head: seq<Rec>, b: Body) returns (s: Reader)
    requires Agree(r) && Read(ctx, r, open) == Some(s0) && Opened(r, s0, kind, sig, c, head)
    requires Agree(s0) && Valid(s0.checker) && |r.checker.labels| > 0 && c.labels == r.checker.labels
    requires CheckBody(ctx, b, s0.checker).Some? && Check(ctx, CheckBody(ctx, b, s0.checker).value, End).Some?
    requires ReadAll(ctx, s0, Flatten(b)) == Some(s1)
    requires Grown(s0, s1, CheckBody(ctx, b, s0.checker).value, Labels(b), Size(b))
    ensures ReadAll(ctx, r, [open] + Flatten(b) + [End]) == Some(s)
    ensures s.checker == Check(ctx, CheckBody(ctx, b, s0.checker).value, End).value
    ensures Grown(r, s, s.checker, 1 + Labels(b), |head| + Size(b) + 1)
    ensures Closed(r, s0, s1, s, kind, sig, c, head, Labels(b), Size(b))
  {
    hide Check, CheckBody, Read, ReadAll, Agree, AnyOnlyAtDeadLimit, LimitsOrdered;
    BodyKeeps(ctx, b, s0.checker);
    GrownAgrees(s0, s1, s1.checker, Labels(b), Size(b));
    ReadEnd(ctx, s1);
    ReadBracket(ctx, r, s0, s1, open, b);
    s := Read(ctx, s1, End).value;
    BracketGrows(r, s0, s1, s, kind, sig, c, head, Labels(b), Size(b));
  }

  lemma BracketLaid(r: Reader, s0: Reader, s1: Reader, s: Reader, kind: LabelKind, sig: seq<ValType>, c: Checker,
      head: seq<Rec>, labels: nat, size: nat, final: seq<LabelRec>, arm: seq<Rec>)
    requires Closed(r, s0, s1, s, kind, sig, c, head, labels, size) && Laid(s0, s1, final, arm)
    requires !kind.IfLabel? ==> head == []
    requires |r.opcodes| + |head| + size < INVALID_INDEX
    ensures Laid(r, s, final, LayBracket(r, kind, sig, c, arm))
  {
    hide Added, LayBracket, EnvOf;
    if Settles(final, s, |r.labels|) {
      BracketSettles(r, s0, s1, s, kind, sig, c, head, labels, size, final);
      BracketAdds(r, s0, s1, s, kind, sig, c, head, labels, size, final);
    }
  }

  lemma {:induction false} ReadBracket(ctx: Context, r: Reader, s0: Reader, s1: Reader, open: Instr, b: Body)
    requires Read(ctx, r, open) == Some(s0) && ReadAll(ctx, s0, Flatten(b)) == Some(s1)
    ensures ReadAll(ctx, r, [open] + Flatten(b) + [End]) == Read(ctx, s1, End)
  {
    hide Read, ReadAll, Check;
    ReadOne(ctx, r, open);
    ReadOne(ctx, s1, End);
    ReadAllConcat(ctx, r, [open], Flatten(b));
    ReadAllConcat(ctx, r, [open] + Flatten(b), [End]);
  }

  /** The state after `end`, in terms of the state after the body. */
  predicate Closed(r: Reader, s0: Reader, s1: Reader, s: Reader, kind: LabelKind, sig: seq<ValType>, c: Checker,
      head: seq<Rec>, labels: nat, size: nat) {
    && Opened(r, s0, kind, sig, c, head)
    && Grown(s0, s1, s1.checker, labels, size)
    && s.labelStack == s1.labelStack[..|r.labelStack|]
    && s.opcodes == s1.opcodes + [EndRec(|c.types|, |sig|)]
    && s.labels == s1.labels[|r.labels| := s1.labels[|r.labels|].(offset := CloseAt(r, kind, |head|, size))]
  }

  lemma BracketGrows(r: Reader, s0: Reader, s1: Reader, s: Reader, kind: LabelKind, sig: seq<ValType>, c: Checker,
      head: seq<Rec>, labels: nat, size: nat)
    requires Agree(r) && Opened(r, s0, kind, sig, c, head) && Grown(s0, s1, s1.checker, labels, size)
    requires Agree(s1) && SameLabel(s0.checker, s1.checker)
    requires s.labelStack == s1.labelStack[..|s1.labelStack| - 1]
    requires s.opcodes == s1.opcodes + [EndRec(Top(s1.checker).limit, |Top(s1.checker).sig|)]
    requires Back(s1.labelStack) < |s1.labels|
    requires s.labels == s1.labels[Back(s1.labelStack) := s1.labels[Back(s1.labelStack)].(
      offset := if Top(s1.checker).kind.LoopLabel? then s1.labels[Back(s1.labelStack)].offset else |s1.opcodes|)]
    ensures Grown(r, s, s.checker, 1 + labels, |head| + size + 1)
    ensures Closed(r, s0, s1, s, kind, sig, c, head, labels, size)
  {
    assert Back(s1.labelStack) == |r.labels|;
    assert s1.labels[|r.labels|] == s1.labels[..|s0.labels|][|r.labels|] == s0.labels[|r.labels|];
    assert s1.labels[..|r.labels|] == s1.labels[..|s0.labels|][..|r.labels|] == r.labels;
    assert s1.opcodes[..|r.opcodes|] == s1.opcodes[..|s0.opcodes|][..|r.opcodes|] == r.opcodes;
    assert s.labels[..|r.labels|] == s1.labels[..|r.labels|];
    assert s.opcodes[..|r.opcodes|] == s1.opcodes[..|r.opcodes|];
    assert s.labelStack == r.labelStack;
  }

  lemma BracketSettles(r: Reader, s0: Reader, s1: Reader, s: Reader, kind: LabelKind, sig: seq<ValType>, c: Checker,
      head: seq<Rec>, labels: nat, size: nat, final: seq<LabelRec>)
    requires Closed(r, s0, s1, s, kind, sig, c, head, labels, size) && Settles(final, s, |r.labels|)
    ensures Settles(final, s1, |s0.labels|)
    ensures EnvOf(final, s0.labelStack) ==
      EnvOf(final, r.labelStack) + [Target(|r.labels|, CloseAt(r, kind, |head|, size))]
  {
    assert final[|r.labels|].offset == CloseAt(r, kind, |head|, size);
  }

  lemma BracketCode(r: seq<Rec>, head: seq<Rec>, s0: seq<Rec>, s1: seq<Rec>, last: seq<Rec>, s: seq<Rec>)
    requires s0 == r + head && |s0| <= |s1| && s1[..|s0|] == s0 && s == s1 + last
    ensures s[|r|..] == head + s1[|s0|..] + last
  {
    assert s1 == s1[..|s0|] + s1[|s0|..];
  }

  lemma BracketAdds(r: Reader, s0: Reader, s1: Reader, s: Reader, kind: LabelKind, sig: seq<ValType>, c: Checker,
      head: seq<Rec>, labels: nat, size: nat, final: seq<LabelRec>)
    requires Closed(r, s0, s1, s, kind, sig, c, head, labels, size) && Settles(final, s, |r.labels|)
    requires !kind.IfLabel? ==> head == []
    requires |r.opcodes| + |head| + size < INVALID_INDEX
    ensures Added(r, s, final) == LayBracket(r, kind, sig, c, Added(s0, s1, final))
  {
    var arm, last := s1.opcodes[|s0.opcodes|..], [EndRec(|c.types|, |sig|)];
    BracketCode(r.opcodes, head, s0.opcodes, s1.opcodes, last, s.opcodes);
    PatchConcat(final, head + arm, last);
    PatchConcat(final, head, arm);
    assert PatchAll(final, last) == last;
    assert final[|r.labels|].offset == CloseAt(r, kind, |head|, size);
    if kind.IfLabel? {
      assert PatchAll(final, head) == [Jump(OpIf, |r.labels|, |r.opcodes| + 1 + size)];
    } else {
      assert PatchAll(final, head) == [];
    }
  }

  /* ---- every callback keeps the two label stacks in agreement ---- */

  /** `else` patches the record of its own `if` and no other open one. */
  lemma ElseKeepsAgree(ctx: Context, r: Reader)
    requires Valid(r.checker) && Agree(r) && Check(ctx, r.checker, Else).Some?
    ensures Read(ctx, r, Else).Some?
    ensures
      var s, id := Read(ctx, r, Else).value, Back(r.labelStack);
      && Agree(s)
      && s.labelStack == r.labelStack && s.labels == r.labels
      && id < |r.labels| && r.labels[id].origin < |r.opcodes|
      && s.opcodes == (r.opcodes + [Jump(OpElse, id, INVALID_INDEX)])[r.labels[id].origin := Jump(OpIf, id, |r.opcodes| + 1)]
  {
    var j := |r.labelStack| - 1;
    assert LabelAgrees(r, j);
    OnElseKeeps(r.checker);
    var s := Read(ctx, r, Else).value;
    var id := Back(r.labelStack);
    forall k | 0 <= k < |s.labelStack| ensures LabelAgrees(s, k) {
      assert LabelAgrees(r, k);
      if k < j && r.checker.labels[k].kind.IfLabel? {
        assert r.opcodes[r.labels[r.labelStack[k]].origin] == Jump(OpIf, r.labelStack[k], INVALID_INDEX);
        assert r.opcodes[r.labels[id].origin] == Jump(OpIf, id, INVALID_INDEX);
        assert r.labelStack[k] < r.labelStack[j];
      }
    }
  }

  lemma EndKeepsAgree(ctx: Context, r: Reader)
    requires Valid(r.checker) && Agree(r) && |r.checker.labels| > 1 && Check(ctx, r.checker, End).Some?
    ensures Read(ctx, r, End).Some? && Agree(Read(ctx, r, End).value)
  {
    hide Check, Read;
    ReadEnd(ctx, r);
    EndChecks(ctx, r.checker);
    var s := Read(ctx, r, End).value;
    forall k | 0 <= k < |s.labelStack| ensures LabelAgrees(s, k) {
      assert LabelAgrees(r, k);
      assert r.labelStack[k] < r.labelStack[|r.labelStack| - 1];
    }
  }

  lemma EndChecks(ctx: Context, c: Checker)
    requires Valid(c) && |c.labels| > 1 && Check(ctx, c, End).Some?
    ensures Check(ctx, c, End).value.labels == c.labels[..|c.labels| - 1]
  {
    OnEndKeeps(c);
  }

  /** Throughout the compilation of a body, each open reader label holds the limit and the
      result count of the checker label at the same depth. */
  lemma ReadKeepsAgree(ctx: Context, r: Reader, i: Instr)
    requires Valid(r.checker) && Agree(r) && Check(ctx, r.checker, i).Some?
    requires |Check(ctx, r.checker, i).value.labels| > 0 && |r.opcodes| < INVALID_INDEX
    ensures Read(ctx, r, i).Some?
    ensures Agree(Read(ctx, r, i).value) && Valid(Read(ctx, r, i).value.checker)
  {
    hide Agree, Valid, SameLabel, Read;
    if IsPlain(i) {
      ReadPlain(ctx, i, r, []);
      PlainKeeps(ctx, r.checker, i);
      GrownAgrees(r, Read(ctx, r, i).value, Check(ctx, r.checker, i).value, 0, PlainSize(i));
    } else if i.Block? {
      var s0 := OpenPlain(ctx, r, i, BlockLabel);
    } else if i.Loop? {
      var s0 := OpenPlain(ctx, r, i, LoopLabel);
    } else if i.If? {
      OpenIf(ctx, r, i.results);
      IfStarts(ctx, r.checker, i.results);
    } else if i.Else? {
      ElseKeepsAgree(ctx, r);
      ElseOrEndKeepsValid(ctx, r, i);
    } else {
      ElseOrEndKeepsValid(ctx, r, i);
      EndKeepsAgree(ctx, r);
      ElseOrEndKeepsValid(ctx, r, i);
    }
  }

  lemma ElseOrEndKeepsValid(ctx: Context, r: Reader, i: Instr)
    requires Valid(r.checker) && (i.Else? || i.End?) && Check(ctx, r.checker, i).Some?
    requires |Check(ctx, r.checker, i).value.labels| > 0
    ensures i.End? ==> |r.checker.labels| > 1
    ensures Read(ctx, r, i).Some? ==> Valid(Read(ctx, r, i).value.checker)
  {
    CheckKeepsValid(ctx, r.checker, i);
    if i.End? && |r.checker.labels| == 1 {
      PopKeeps(r.checker, Top(r.checker).sig);
    }
  }

  /** After any prefix of an accepted body. */
  lemma {:induction false} LabelsAgreeThroughout(ctx: Context, r: Reader, code: seq<Instr>, n: nat)
    requires Valid(r.checker) && Agree(r) && n <= |code|
    requires CheckAll(ctx, r.checker, code).Some? && EndFunction(CheckAll(ctx, r.checker, code).value).Some?
    requires forall k, s :: 0 <= k <= n && ReadAll(ctx, r, code[..k]) == Some(s) ==> |s.opcodes| < INVALID_INDEX
    ensures ReadAll(ctx, r, code[..n]).Some?
    ensures Agree(ReadAll(ctx, r, code[..n]).value) && Valid(ReadAll(ctx, r, code[..n]).value.checker)
    decreases n
  {
    hide Check, Read, Agree, Valid;
    if n > 0 {
      assert ReadAll(ctx, r, code[..0]) == Some(r);
      var c1 := Check(ctx, r.checker, code[0]).value;
      if |c1.labels| == 0 {
        NoFuncLabelNeverAccepted(ctx, c1, code[1..]);
        assert false;
      }
      ReadKeepsAgree(ctx, r, code[0]);
      ReadChecks(ctx, r, code[0]);
      var s := Read(ctx, r, code[0]).value;
      forall k, t | 0 <= k <= n - 1 && ReadAll(ctx, s, code[1..][..k]) == Some(t) ensures |t.opcodes| < INVALID_INDEX {
        assert code[..k + 1][0] == code[0] && code[..k + 1][1..] == code[1..][..k];
        assert ReadAll(ctx, r, code[..k + 1]) == Some(t);
      }
      LabelsAgreeThroughout(ctx, s, code[1..], n - 1);
      assert code[..n][0] == code[0] && code[..n][1..] == code[1..][..n - 1];
    }
  }

  lemma ReadChecks(ctx: Context, r: Reader, i: Instr)
    requires Read(ctx, r, i).Some?
    ensures Check(ctx, r.checker, i) == Some(Read(ctx, r, i).value.checker)
  {
    hide Check;
  }

  /* ---- if … else … end ---- */

  /** The state after `else`: the record of the `if` now leads past the record of the `else`. */
  predicate Turned(r: Reader, s1: Reader, s2: Reader, id: nat) {
    && s2.labelStack == s1.labelStack
    && s2.labels == s1.labels
    && |r.opcodes| < |s1.opcodes|
    && s2.opcodes == (s1.opcodes + [Jump(OpElse, id, INVALID_INDEX)])[|r.opcodes| := Jump(OpIf, id, |s1.opcodes| + 1)]
  }

  lemma {:induction false} ReadElse(ctx: Context, r: Reader, s0: Reader, sig: seq<ValType>, b: Body, final: seq<LabelRec>)
    returns (s2: Reader)
    requires Agree(r) && Agree(s0) && Valid(s0.checker) && |r.checker.labels| > 0
    requires PopTypes(r.checker, [I32]).Some? && Valid(IfBase(r.checker)) && IfBase(r.checker).labels == r.checker.labels
    requires Opened(r, s0, IfLabel, sig, IfBase(r.checker), [Jump(OpIf, |r.labels|, INVALID_INDEX)])
    requires CheckBody(ctx, b, s0.checker).Some? && ReadsBody(ctx, b, s0, final)
    requires Then(ctx, CheckBody(ctx, b, s0.checker), Else).Some?
    requires |r.opcodes| + Size(b) + 2 < INVALID_INDEX
    ensures Read(ctx, ReadAll(ctx, s0, Flatten(b)).value, Else) == Some(s2)
    ensures s2.checker == PushLabel(IfBase(r.checker), ElseLabel, sig)
    ensures s2.checker == Then(ctx, CheckBody(ctx, b, s0.checker), Else).value
    ensures Valid(s2.checker) && Agree(s2)
    ensures Turned(r, ReadAll(ctx, s0, Flatten(b)).value, s2, |r.labels|)
  {
    var s1 := ReadAll(ctx, s0, Flatten(b)).value;
    BodyKeeps(ctx, b, s0.checker);
    ElseRestarts(ctx, b, IfBase(r.checker), sig);
    PushLabelKeeps(IfBase(r.checker), ElseLabel, sig);
    s2 := TurnIf(ctx, r, s0, s1, sig, s1.checker, Labels(b), Size(b));
  }

  lemma TurnIf(ctx: Context, r: Reader, s0: Reader, s1: Reader, sig: seq<ValType>, d: Checker, labels: nat, size: nat)
    returns (s2: Reader)
    requires Agree(r) && Agree(s0) && |r.checker.labels| > 0 && PopTypes(r.checker, [I32]).Some?
    requires Opened(r, s0, IfLabel, sig, IfBase(r.checker), [Jump(OpIf, |r.labels|, INVALID_INDEX)])
    requires IfBase(r.checker).labels == r.checker.labels
    requires Grown(s0, s1, d, labels, size) && SameLabel(s0.checker, d) && Valid(d)
    requires Check(ctx, d, Else) == Some(PushLabel(IfBase(r.checker), ElseLabel, sig))
    ensures Read(ctx, s1, Else) == Some(s2)
    ensures s2.checker == PushLabel(IfBase(r.checker), ElseLabel, sig)
    ensures Turned(r, s1, s2, |r.labels|) && Agree(s2)
  {
    GrownAgrees(s0, s1, d, labels, size);
    assert Back(s1.labelStack) == |r.labels|;
    assert s1.labels[|r.labels|] == s1.labels[..|s0.labels|][|r.labels|] == s0.labels[|r.labels|];
    ElseKeepsAgree(ctx, s1);
    s2 := Read(ctx, s1, Else).value;
  }

  lemma {:induction false} CloseIfElse(ctx: Context, r: Reader, s0: Reader, s2: Reader, sig: seq<ValType>,
      b1: Body, b2: Body, final: seq<LabelRec>)
    requires |r.checker.labels| > 0 && PopTypes(r.checker, [I32]).Some?
    requires CheckIns(ctx, IfElseIns(sig, b1, b2), r.checker).Some?
    requires Read(ctx, r, If(sig)) == Some(s0)
    requires Opened(r, s0, IfLabel, sig, IfBase(r.checker), [Jump(OpIf, |r.labels|, INVALID_INDEX)])
    requires CheckBody(ctx, b1, s0.checker).Some? && ReadsBody(ctx, b1, s0, final)
    requires Read(ctx, ReadAll(ctx, s0, Flatten(b1)).value, Else) == Some(s2) && Agree(s2) && Valid(s2.checker)
    requires Turned(r, ReadAll(ctx, s0, Flatten(b1)).value, s2, |r.labels|)
    requires s2.checker == PushLabel(IfBase(r.checker), ElseLabel, sig)
    requires s2.checker == Then(ctx, CheckBody(ctx, b1, s0.checker), Else).value
    requires CheckBody(ctx, b2, s2.checker).Some? && ReadsBody(ctx, b2, s2, final)
    requires Then(ctx, CheckBody(ctx, b2, s2.checker), End).Some?
    requires |r.opcodes| + SizeIns(IfElseIns(sig, b1, b2)) < INVALID_INDEX
    ensures ReadsIns(ctx, IfElseIns(sig, b1, b2), r, final)
  {
    hide Check, CheckBody, LayIns, LayBody, Laid, Turned, Opened, Valid, ReadAll, IfElseClosed;
    var s1 := ReadAll(ctx, s0, Flatten(b1)).value;
    var s3 := ReadAll(ctx, s2, Flatten(b2)).value;
    BodyKeeps(ctx, b2, s2.checker);
    GrownAgrees(s2, s3, s3.checker, Labels(b2), Size(b2));
    ReadEnd(ctx, s3);
    var s := Read(ctx, s3, End).value;
    ReadIfElse(ctx, r, s0, s1, s2, s3, s, sig, b1, b2);
    IfElseGrows(r, s0, s1, s2, s3, s, sig, Labels(b1), Size(b1), Labels(b2), Size(b2));
    LaysIfElse(ctx, r, s0, s1, s2, s3, s, sig, b1, b2, final);
  }

  lemma {:induction false} LaysIfElse(ctx: Context, r: Reader, s0: Reader, s1: Reader, s2: Reader, s3: Reader, s: Reader,
      sig: seq<ValType>, b1: Body, b2: Body, final: seq<LabelRec>)
    requires IfElseClosed(r, s0, s1, s2, s3, s, sig, Labels(b1), Size(b1), Labels(b2), Size(b2))
    requires CheckIns(ctx, IfElseIns(sig, b1, b2), r.checker).Some?
    requires Check(ctx, r.checker, If(sig)) == Some(s0.checker)
    requires CheckBody(ctx, b1, s0.checker).Some? && Then(ctx, CheckBody(ctx, b1, s0.checker), Else) == Some(s2.checker)
    requires Laid(s0, s1, final, LayBody(ctx, b1, s0.checker, |s0.opcodes|, |s0.labels|, EnvOf(final, s0.labelStack)))
    requires CheckBody(ctx, b2, s2.checker).Some?
    requires |s2.opcodes| <= |s3.opcodes|
    requires Laid(s2, s3, final, LayBody(ctx, b2, s2.checker, |s2.opcodes|, |s2.labels|, EnvOf(final, s2.labelStack)))
    requires |r.opcodes| + SizeIns(IfElseIns(sig, b1, b2)) < INVALID_INDEX
    ensures Laid(r, s, final, LayIns(ctx, IfElseIns(sig, b1, b2), r.checker, |r.opcodes|, |r.labels|, EnvOf(final, r.labelStack)))
  {
    hide Check, CheckBody, CheckIns, LayIns, LayBody, TwoArms, PatchAll, PopTypes;
    if Settles(final, s, |r.labels|) {
      IfElseAdds(r, s0, s1, s2, s3, s, sig, Labels(b1), Size(b1), Labels(b2), Size(b2), final);
      LayIfElse(ctx, sig, b1, b2, r.checker, s0.checker, s2.checker, |r.opcodes|, |r.labels|, EnvOf(final, r.labelStack));
    }
  }

  lemma {:induction false} LayIfElse(ctx: Context, sig: seq<ValType>, b1: Body, b2: Body, c: Checker, c1: Checker, c2: Checker,
      pc: nat, next: nat, env: seq<Target>)
    requires CheckIns(ctx, IfElseIns(sig, b1, b2), c).Some?
    requires |c.labels| > 0 && PopTypes(c, [I32]).Some?
    requires Check(ctx, c, If(sig)) == Some(c1) && CheckBody(ctx, b1, c1).Some?
    requires Then(ctx, CheckBody(ctx, b1, c1), Else) == Some(c2) && CheckBody(ctx, b2, c2).Some?
    ensures
      var mid := pc + 1 + Size(b1);
      var close := mid + 1 + Size(b2);
      var inner := env + [Target(next, close)];
      LayIns(ctx, IfElseIns(sig, b1, b2), c, pc, next, env) ==
        TwoArms(LayBody(ctx, b1, c1, pc + 1, next + 1, inner), LayBody(ctx, b2, c2, mid + 1, next + 1 + Labels(b1), inner),
          pc, next, |c1.types|, |sig|)
  {
    hide Check;
  }

  lemma {:induction false} ReadIfElse(ctx: Context, r: Reader, s0: Reader, s1: Reader, s2: Reader, s3: Reader, s: Reader,
      sig: seq<ValType>, b1: Body, b2: Body)
    requires Read(ctx, r, If(sig)) == Some(s0) && ReadAll(ctx, s0, Flatten(b1)) == Some(s1)
    requires Read(ctx, s1, Else) == Some(s2) && ReadAll(ctx, s2, Flatten(b2)) == Some(s3)
    requires Read(ctx, s3, End) == Some(s)
    ensures ReadAll(ctx, r, FlattenIns(IfElseIns(sig, b1, b2))) == Some(s)
  {
    hide Read, ReadAll, Check;
    ReadOne(ctx, r, If(sig));
    ReadOne(ctx, s1, Else);
    ReadOne(ctx, s3, End);
    ReadAllConcat(ctx, r, [If(sig)], Flatten(b1));
    ReadAllConcat(ctx, r, [If(sig)] + Flatten(b1), [Else]);
    ReadAllConcat(ctx, r, [If(sig)] + Flatten(b1) + [Else], Flatten(b2));
    ReadAllConcat(ctx, r, [If(sig)] + Flatten(b1) + [Else] + Flatten(b2), [End]);
  }

  predicate IfElseClosed(r: Reader, s0: Reader, s1: Reader, s2: Reader, s3: Reader, s: Reader, sig: seq<ValType>,
      l1: nat, n1: nat, l2: nat, n2: nat) {
    && |r.checker.labels| > 0 && PopTypes(r.checker, [I32]).Some?
    && Opened(r, s0, IfLabel, sig, IfBase(r.checker), [Jump(OpIf, |r.labels|, INVALID_INDEX)])
    && Grown(s0, s1, s1.checker, l1, n1)
    && Turned(r, s1, s2, |r.labels|)
    && Grown(s2, s3, s3.checker, l2, n2)
    && s.labelStack == r.labelStack
    && s.opcodes == s3.opcodes + [EndRec(|IfBase(r.checker).types|, |sig|)]
    && |r.labels| < |s3.labels|
    && s.labels == s3.labels[|r.labels| := s3.labels[|r.labels|].(offset := |s3.opcodes|)]
  }

  lemma IfElseGrows(r: Reader, s0: Reader, s1: Reader, s2: Reader, s3: Reader, s: Reader, sig: seq<ValType>,
      l1: nat, n1: nat, l2: nat, n2: nat)
    requires |r.checker.labels| > 0 && PopTypes(r.checker, [I32]).Some?
    requires Opened(r, s0, IfLabel, sig, IfBase(r.checker), [Jump(OpIf, |r.labels|, INVALID_INDEX)])
    requires Grown(s0, s1, s1.checker, l1, n1) && Turned(r, s1, s2, |r.labels|) && Grown(s2, s3, s3.checker, l2, n2)
    requires SameLabel(s2.checker, s3.checker) && s2.checker == PushLabel(IfBase(r.checker), ElseLabel, sig)
    requires s.labelStack == s3.labelStack[..|s3.labelStack| - 1]
    requires s.opcodes == s3.opcodes + [EndRec(Top(s3.checker).limit, |Top(s3.checker).sig|)]
    requires Back(s3.labelStack) < |s3.labels|
    requires s.labels == s3.labels[Back(s3.labelStack) := s3.labels[Back(s3.labelStack)].(
      offset := if Top(s3.checker).kind.LoopLabel? then s3.labels[Back(s3.labelStack)].offset else |s3.opcodes|)]
    ensures Grown(r, s, s.checker, 1 + l1 + l2, 1 + n1 + 1 + n2 + 1)
    ensures IfElseClosed(r, s0, s1, s2, s3, s, sig, l1, n1, l2, n2)
  {
    assert Back(s3.labelStack) == |r.labels|;
    assert s.labels[..|r.labels|] == s3.labels[..|s1.labels|][..|r.labels|] == s1.labels[..|s0.labels|][..|r.labels|] == r.labels;
    assert s2.opcodes[..|r.opcodes|] == s1.opcodes[..|s0.opcodes|][..|r.opcodes|] == r.opcodes;
    assert s.opcodes[..|r.opcodes|] == s3.opcodes[..|s2.opcodes|][..|r.opcodes|] == s2.opcodes[..|r.opcodes|];
    assert s.labelStack == r.labelStack;
  }

  lemma IfElseAdds(r: Reader, s0: Reader, s1: Reader, s2: Reader, s3: Reader, s: Reader, sig: seq<ValType>,
      l1: nat, n1: nat, l2: nat, n2: nat, final: seq<LabelRec>)
    requires IfElseClosed(r, s0, s1, s2, s3, s, sig, l1, n1, l2, n2) && Settles(final, s, |r.labels|)
    requires |r.opcodes| + n1 + n2 + 3 < INVALID_INDEX
    ensures Settles(final, s1, |s0.labels|) && Settles(final, s3, |s2.labels|)
    ensures
      var close := |r.opcodes| + 1 + n1 + 1 + n2;
      && EnvOf(final, s0.labelStack) == EnvOf(final, r.labelStack) + [Target(|r.labels|, close)]
      && s2.labelStack == s0.labelStack
      && Added(r, s, final) ==
        TwoArms(Added(s0, s1, final), Added(s2, s3, final), |r.opcodes|, |r.labels|, |IfBase(r.checker).types|, |sig|)
  {
    assert final[|r.labels|].offset == |s3.opcodes|;
    forall k | |s0.labels| <= k < |s1.labels| ensures final[k].offset == s1.labels[k].offset {
      assert s3.labels[..|s1.labels|][k] == s1.labels[k];
    }
    IfElseCode(r, s0, s1, s2, s3, s, sig, l1, n1, l2, n2);
    PatchArms(final, Jump(OpIf, |r.labels|, |s1.opcodes| + 1), s1.opcodes[|s0.opcodes|..], |r.labels|,
      s3.opcodes[|s2.opcodes|..], EndRec(|IfBase(r.checker).types|, |sig|));
  }

  lemma PatchArms(final: seq<LabelRec>, first: Rec, arm1: seq<Rec>, id: nat, arm2: seq<Rec>, last: Rec)
    requires first.Jump? && first.v2 != INVALID_INDEX && last.EndRec? && id < |final|
    ensures PatchAll(final, [first] + arm1 + [Jump(OpElse, id, INVALID_INDEX)] + arm2 + [last]) ==
      [first] + PatchAll(final, arm1) + [Jump(OpElse, id, final[id].offset)] + (PatchAll(final, arm2) + [last])
  {
    var turn := Jump(OpElse, id, INVALID_INDEX);
    PatchConcat(final, [first] + arm1 + [turn] + arm2, [last]);
    PatchConcat(final, [first] + arm1 + [turn], arm2);
    PatchConcat(final, [first] + arm1, [turn]);
    PatchConcat(final, [first], arm1);
    assert PatchAll(final, [first]) == [first] && PatchAll(final, [last]) == [last];
    assert PatchAll(final, [turn]) == [Jump(OpElse, id, final[id].offset)];
  }

  lemma IfElseCode(r: Reader, s0: Reader, s1: Reader, s2: Reader, s3: Reader, s: Reader, sig: seq<ValType>,
      l1: nat, n1: nat, l2: nat, n2: nat)
    requires IfElseClosed(r, s0, s1, s2, s3, s, sig, l1, n1, l2, n2)
    ensures s.opcodes[|r.opcodes|..] ==
      [Jump(OpIf, |r.labels|, |s1.opcodes| + 1)] + s1.opcodes[|s0.opcodes|..] + [Jump(OpElse, |r.labels|, INVALID_INDEX)]
      + s3.opcodes[|s2.opcodes|..] + [EndRec(|IfBase(r.checker).types|, |sig|)]
  {
    var first := [Jump(OpIf, |r.labels|, |s1.opcodes| + 1)];
    var turn := [Jump(OpElse, |r.labels|, INVALID_INDEX)];
    assert s2.opcodes == r.opcodes + first + s1.opcodes[|s0.opcodes|..] + turn by {
      assert s1.opcodes == s0.opcodes + s1.opcodes[|s0.opcodes|..];
    }
    assert s3.opcodes == s2.opcodes + s3.opcodes[|s2.opcodes|..];
  }

  /* ---- the whole function ---- */

  /** Reading with one pass and patching at the end gives the direct layout, for every body
      the checker accepts (a body of fewer than 2^32 - 1 records, which its 32-bit byte size
      guarantees). */
  lemma OnePassIsLayout(ctx: Context, b: Body)
    requires CheckBody(ctx, b, BeginFunction(ctx)).Some?
    requires EndFunction(CheckBody(ctx, b, BeginFunction(ctx)).value).Some?
    requires Size(b) < INVALID_INDEX
    ensures CompileBody(ctx, Flatten(b)) == Some(LayFunction(ctx, b))
  {
    var r := Begin(ctx);
    BeginFunctionValid(ctx);
    BeginAgrees(ctx);
    ReadBody(ctx, b, r, []);
    var s := ReadAll(ctx, r, Flatten(b)).value;
    BodyKeeps(ctx, b, r.checker);
    GrownAgrees(r, s, s.checker, Labels(b), Size(b));
    var final := PopLabelRec(s).labels;
    ReadBody(ctx, b, r, final);
    assert LabelAgrees(s, 0);
    assert s.labels[..1][0] == r.labels[0];
    assert final == s.labels[0 := s.labels[0].(offset := |s.opcodes|)];
    assert Settles(final, s, |r.labels|);
    assert EnvOf(final, r.labelStack) == [Target(0, Size(b))];
    assert s.opcodes[0..] == s.opcodes;
  }

  /** The reader rejects exactly what the checker rejects. */
  lemma CompiledIsAccepted(ctx: Context, code: seq<Instr>)
    ensures CompileBody(ctx, code).Some? ==> Accepts(ctx, code)
  {
    ReadAllChecks(ctx, Begin(ctx), code);
  }

  lemma {:induction false} ReadAllChecks(ctx: Context, r: Reader, code: seq<Instr>)
    ensures ReadAll(ctx, r, code).Some? ==>
      CheckAll(ctx, r.checker, code) == Some(ReadAll(ctx, r, code).value.checker)
    decreases |code|
  {
    if code != [] && Read(ctx, r, code[0]).Some? {
      ReadAllChecks(ctx, Read(ctx, r, code[0]).value, code[1..]);
    }
  }
}
