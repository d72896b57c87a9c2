/** The validation algorithm of appendix 7.3 of the WebAssembly Core Specification 1.0, one
    operand at a time, and the proof that the checker accepts exactly the same bodies.
    Where the appendix's pseudocode falls short of the typing rules of chapter 3 of the same
    document, the algorithm here follows the rules, in three places: frames keep the opcode that
    opened them, so that `else` closes only an `if`; an `if` without `else` gets an empty second
    arm, so that it may not have results; and a branch depth is in range when it is below the number
    of open frames, where the pseudocode rejects only depths above it. */
module ValidationAlgorithm {
  import opened Wasm
  import opened Checking
  import opened CheckerInvariants

  datatype Frame = Frame(
    opcode: LabelKind, labelTypes: seq<ValType>, endTypes: seq<ValType>, height: nat, unreachable: bool)

  datatype State = State(opds: seq<Type>, ctrls: seq<Frame>)

  function Innermost(v: State): Frame
    requires |v.ctrls| > 0
  {
    v.ctrls[|v.ctrls| - 1]
  }

  function FrameAt(v: State, n: nat): Frame
    requires n < |v.ctrls|
  {
    v.ctrls[|v.ctrls| - 1 - n]
  }

  function PopOpd(v: State): Option<(State, Type)>
    requires |v.ctrls| > 0
  {
    if |v.opds| == Innermost(v).height then
      if Innermost(v).unreachable then Some((v, Any)) else None
    else if |v.opds| == 0 then None
    else Some((v.(opds := v.opds[..|v.opds| - 1]), v.opds[|v.opds| - 1]))
  }

  function PopExpect(v: State, expected: Type): Option<(State, Type)>
    requires |v.ctrls| > 0
  {
    match PopOpd(v)
    case None => None
    case Some((w, actual)) =>
      if actual == Any then Some((w, expected))
      else if expected == Any || actual == expected then Some((w, actual))
      else None
  }

  function PopOpds(v: State, ts: seq<Type>): (r: Option<State>)
    requires |v.ctrls| > 0
    ensures r.Some? ==> r.value.ctrls == v.ctrls
    decreases |ts|
  {
    if ts == [] then Some(v)
    else
      match PopExpect(v, ts[|ts| - 1])
      case None => None
      case Some((w, _)) => PopOpds(w, ts[..|ts| - 1])
  }

  function PushOpds(v: State, ts: seq<Type>): State {
    v.(opds := v.opds + ts)
  }

  function PushCtrl(v: State, opcode: LabelKind, labelTypes: seq<ValType>, endTypes: seq<ValType>): State {
    v.(ctrls := v.ctrls + [Frame(opcode, labelTypes, endTypes, |v.opds|, false)])
  }

  /** Ends the innermost frame; its end types must be exactly what is left in it. */
  function PopCtrl(v: State): Option<(State, Frame)>
    requires |v.ctrls| > 0
  {
    var f := Innermost(v);
    match PopOpds(v, f.endTypes)
    case None => None
    case Some(w) =>
      if |w.opds| != f.height then None
      else Some((w.(ctrls := w.ctrls[..|w.ctrls| - 1]), f))
  }

  function MarkUnreachable(v: State): State
    requires |v.ctrls| > 0
  {
    var f := Innermost(v);
    State(
      if f.height <= |v.opds| then v.opds[..f.height] else v.opds,
      v.ctrls[|v.ctrls| - 1 := f.(unreachable := true)])
  }

  function MarkIfSome(r: Option<State>): Option<State>
    requires r.Some? ==> |r.value.ctrls| > 0
  {
    match r
    case None => None
    case Some(v) => Some(MarkUnreachable(v))
  }

  function PushIfSome(r: Option<State>, ts: seq<Type>): Option<State> {
    match r
    case None => None
    case Some(v) => Some(PushOpds(v, ts))
  }

  function ValidateElse(v: State): Option<State>
    requires |v.ctrls| > 0
  {
    if !Innermost(v).opcode.IfLabel? then None else
    match PopCtrl(v)
    case None => None
    case Some((w, f)) => Some(PushCtrl(w, ElseLabel, f.endTypes, f.endTypes))
  }

  /** An `if` that ends without `else` has an empty second arm. */
  function ValidateEnd(v: State): Option<State>
    requires |v.ctrls| > 0
  {
    var arm := if Innermost(v).opcode.IfLabel? then ValidateElse(v) else Some(v);
    if arm.None? || |arm.value.ctrls| == 0 then None else
    match PopCtrl(arm.value)
    case None => None
    case Some((w, f)) => Some(PushOpds(w, f.endTypes))
  }

  function ValidateBrTable(v: State, ns: seq<nat>, m: nat): Option<State>
    requires |v.ctrls| > 0
  {
    if m >= |v.ctrls| ||
       exists k :: 0 <= k < |ns| &&
         (ns[k] >= |v.ctrls| || FrameAt(v, ns[k]).labelTypes != FrameAt(v, m).labelTypes)
    then None
    else
      match PopExpect(v, I32)
      case None => None
      case Some((w, _)) =>
        MarkIfSome(PopOpds(w, FrameAt(v, m).labelTypes))
  }

  function ValidateSelect(v: State): Option<State>
    requires |v.ctrls| > 0
  {
    match PopExpect(v, I32)
    case None => None
    case Some((v1, _)) =>
      match PopOpd(v1)
      case None => None
      case Some((v2, t1)) =>
        match PopExpect(v2, t1)
        case None => None
        case Some((v3, t2)) => Some(PushOpds(v3, [t2]))
  }

  /* ---- the typing rules ---- */

  /** What the typing rules say of an instruction: it takes operands of the types `params` and leaves
      `results`, it is not valid in this context, or it is one whose rule looks at the stack or at
      the labels. */
  datatype Rule = Takes(params: seq<Type>, results: seq<ValType>) | NotValid | ByStack

  /** The largest alignment, as a power of two, that an access of so many bytes may state. */
  function NaturalAlignment(width: Width): nat {
    if width == 1 then 0 else if width == 2 then 1 else if width == 4 then 2 else 3
  }

  /** Variable, memory, constant, numeric and call instructions of section 3.3. */
  function RuleOf(ctx: Context, i: Instr): Rule {
    match i
    case Const(c) => Takes([], [c.ty])
    case Numeric(op) => Takes(op.params, [op.result])
    case GetLocal(x) => if x >= |ctx.locals| then NotValid else Takes([], [ctx.locals[x]])
    case SetLocal(x) => if x >= |ctx.locals| then NotValid else Takes([ctx.locals[x]], [])
    case TeeLocal(x) => if x >= |ctx.locals| then NotValid else Takes([ctx.locals[x]], [ctx.locals[x]])
    case GetGlobal(x) => if x >= |ctx.globals| then NotValid else Takes([], [ctx.globals[x].ty])
    case SetGlobal(x) =>
      if x >= |ctx.globals| || !ctx.globals[x].mut then NotValid else Takes([ctx.globals[x].ty], [])
    case Load(a, align, _) =>
      if !ctx.hasMemory || align > NaturalAlignment(a.width) then NotValid else Takes([I32], [a.ty])
    case Store(a, align, _) =>
      if !ctx.hasMemory || align > NaturalAlignment(a.width) then NotValid else Takes([I32, a.ty], [])
    case CurrentMemory => if !ctx.hasMemory then NotValid else Takes([], [I32])
    case GrowMemory => if !ctx.hasMemory then NotValid else Takes([I32], [I32])
    case Nop => Takes([], [])
    case Call(f) => if f >= |ctx.funcs| then NotValid else Takes(ctx.funcs[f].sig.params, ctx.funcs[f].sig.results)
    case CallIndirect(x) =>
      if !ctx.hasTable || x >= |ctx.types| then NotValid else Takes(ctx.types[x].params + [I32], ctx.types[x].results)
    case _ => ByStack
  }

  function Validate(ctx: Context, v: State, i: Instr): Option<State> {
    if |v.ctrls| == 0 then None
    else if RuleOf(ctx, i).NotValid? then None
    else if RuleOf(ctx, i).Takes? then PushIfSome(PopOpds(v, RuleOf(ctx, i).params), RuleOf(ctx, i).results)
    else if i.Block? then Some(PushCtrl(v, BlockLabel, i.results, i.results))
    else if i.Loop? then Some(PushCtrl(v, LoopLabel, [], i.results))
    else if i.If? then
      match PopExpect(v, I32)
      case None => None
      case Some((w, _)) => Some(PushCtrl(w, IfLabel, i.results, i.results))
    else if i.Else? then ValidateElse(v)
    else if i.End? then ValidateEnd(v)
    else if i.Br? then
      if i.depth >= |v.ctrls| then None else
      MarkIfSome(PopOpds(v, FrameAt(v, i.depth).labelTypes))
    else if i.BrIf? then
      if i.depth >= |v.ctrls| then None else
      match PopExpect(v, I32)
      case None => None
      case Some((w, _)) => PushIfSome(PopOpds(w, FrameAt(v, i.depth).labelTypes), FrameAt(v, i.depth).labelTypes)
    else if i.BrTable? then ValidateBrTable(v, i.depths, i.default)
    else if i.Return? then
      MarkIfSome(PopOpds(v, v.ctrls[0].endTypes))
    else if i.Drop? then
      match PopOpd(v)
      case None => None
      case Some((w, _)) => Some(w)
    else if i.Select? then ValidateSelect(v)
    else Some(MarkUnreachable(v))
  }

  function ValidateAll(ctx: Context, v: State, code: seq<Instr>): Option<State>
    decreases |code|
  {
    if code == [] then Some(v)
    else
      match Validate(ctx, v, code[0])
      case None => None
      case Some(w) => ValidateAll(ctx, w, code[1..])
  }

  function Start(ctx: Context): State {
    State([], [Frame(FuncLabel, ctx.results, ctx.results, 0, false)])
  }

  /** The body together with its closing `end` leaves no frame open. */
  predicate ValidBody(ctx: Context, code: seq<Instr>) {
    var r := ValidateAll(ctx, Start(ctx), code + [End]);
    r.Some? && r.value.ctrls == []
  }

  /* ---- the correspondence ---- */

  function FrameOf(l: Label): Frame {
    Frame(l.kind, if l.kind.LoopLabel? then [] else l.sig, l.sig, l.limit, l.unreachable)
  }

  function Abs(c: Checker): State {
    State(c.types, seq(|c.labels|, j requires 0 <= j < |c.labels| => FrameOf(c.labels[j])))
  }

  function AbsOption(c: Option<Checker>): Option<State> {
    match c
    case None => None
    case Some(d) => Some(Abs(d))
  }

  /** Block types hold at most one type (the reader passes `num_types` 0 or 1). */
  predicate SmallSignatures(c: Checker) {
    forall j :: 0 <= j < |c.labels| ==> |c.labels[j].sig| <= 1
  }

  predicate SmallBlockTypes(code: seq<Instr>) {
    forall k :: 0 <= k < |code| ==> SmallBlockType(code[k])
  }

  predicate SmallBlockType(i: Instr) {
    i.Block? || i.Loop? || i.If? ==> |i.results| <= 1
  }

  lemma PeekAfterDrop(c: Checker, d: nat)
    requires Valid(c) && DropTypes(c, 1).Some?
    ensures PeekType(DropTypes(c, 1).value, d) == PeekType(c, d + 1)
  {
  }

  /** Checking the whole signature and then dropping it is popping it operand by operand. */
  lemma {:induction false} PopAgrees(c: Checker, ts: seq<Type>)
    requires Valid(c)
    ensures PopOpds(Abs(c), ts) == AbsOption(PopTypes(c, ts))
    decreases |ts|
  {
    if ts == [] {
      assert c.types[..|c.types|] == c.types;
    } else {
      var n := |ts| - 1;
      assert PeekIs(c, |ts| - n - 1, ts[n]) == PeekIs(c, 0, ts[n]);
      PopOneAgrees(c, ts[n]);
      if PeekIs(c, 0, ts[n]) {
        DropKeeps(c, 1);
        var d := DropTypes(c, 1).value;
        PopAgrees(d, ts[..n]);
        forall i | 0 <= i < n
          ensures PeekIs(d, n - i - 1, ts[..n][i]) == PeekIs(c, |ts| - i - 1, ts[i])
        {
          PeekAfterDrop(c, n - i - 1);
        }
        SignatureSplits(c, d, ts);
      } else {
        assert !SignatureOk(c, ts);
      }
    }
  }

  lemma DropTwice(c: Checker, n: nat)
    requires Valid(c) && DropTypes(c, 1).Some?
    ensures DropTypes(DropTypes(c, 1).value, n) == DropTypes(c, n + 1)
  {
    var d := DropTypes(c, 1).value;
    if Top(c).limit + n + 1 <= |c.types| {
      assert c.types[..|c.types| - 1][..|c.types| - 1 - n] == c.types[..|c.types| - (n + 1)];
    } else {
      assert d.types[..Top(c).limit] == c.types[..Top(c).limit];
      assert |d.types| == Top(c).limit ==> d.types[..|d.types| - 0] == d.types;
    }
  }

  lemma PopNothing(c: Checker)
    requires |c.labels| > 0 && Top(c).limit <= |c.types|
    ensures PopTypes(c, []) == Some(c)
  {
    assert c.types[..|c.types| - 0] == c.types;
  }

  lemma SignatureSplits(c: Checker, d: Checker, ts: seq<Type>)
    requires Valid(c) && Valid(d) && |ts| > 0 && DropTypes(c, 1) == Some(d)
    requires PeekIs(c, 0, ts[|ts| - 1])
    requires forall i :: 0 <= i < |ts| - 1 ==>
      PeekIs(d, |ts| - 1 - i - 1, ts[..|ts| - 1][i]) == PeekIs(c, |ts| - i - 1, ts[i])
    ensures PopTypes(c, ts) == PopTypes(d, ts[..|ts| - 1])
  {
    var n := |ts| - 1;
    if SignatureOk(d, ts[..n]) {
      forall i | 0 <= i < |ts| ensures PeekIs(c, |ts| - i - 1, ts[i]) {
        if i < n {
          assert PeekIs(d, n - i - 1, ts[..n][i]);
        }
      }
    } else {
      var i :| 0 <= i < n && !PeekIs(d, |ts[..n]| - i - 1, ts[..n][i]);
      assert !PeekIs(c, |ts| - i - 1, ts[i]);
    }
    DropTwice(c, n);
  }

  lemma PopOneAgrees(c: Checker, t: Type)
    requires Valid(c)
    ensures PopExpect(Abs(c), t).Some? == PeekIs(c, 0, t)
    ensures PeekIs(c, 0, t) ==>
      DropTypes(c, 1).Some? && PopExpect(Abs(c), t).value.0 == Abs(DropTypes(c, 1).value)
    ensures PopOpd(Abs(c)).Some? == PeekType(c, 0).Some? == DropTypes(c, 1).Some?
    ensures PopOpd(Abs(c)).Some? ==> PopOpd(Abs(c)).value == (Abs(DropTypes(c, 1).value), PeekType(c, 0).value)
  {
    assert Innermost(Abs(c)) == FrameOf(Top(c));
  }

  /** Popping a single expected type through the signature machinery. */
  lemma PopSingleAgrees(c: Checker, t: Type)
    requires Valid(c)
    ensures PopTypes(c, [t]) == if PeekIs(c, 0, t) then DropTypes(c, 1) else None
    ensures PopTypes(c, [t]).Some? ==> Valid(PopTypes(c, [t]).value) && PopTypes(c, [t]).value.labels == c.labels
    ensures PopExpect(Abs(c), t).Some? == PopTypes(c, [t]).Some?
    ensures PopTypes(c, [t]).Some? ==> PopExpect(Abs(c), t).value.0 == Abs(PopTypes(c, [t]).value)
  {
    PopOneAgrees(c, t);
    assert [t][0] == t;
    if PeekIs(c, 0, t) {
      assert SignatureOk(c, [t]);
      PopKeeps(c, [t]);
    } else {
      assert !PeekIs(c, |[t]| - 0 - 1, [t][0]);
    }
  }

  lemma PushAgrees(c: Checker, ts: seq<Type>)
    ensures PushOpds(Abs(c), ts) == Abs(PushTypes(c, ts))
  {
  }

  lemma MarkAgrees(c: Checker)
    requires Valid(c)
    ensures MarkUnreachable(Abs(c)) == Abs(SetUnreachable(c))
  {
    assert Innermost(Abs(c)) == FrameOf(Top(c));
  }

  lemma LabelAgrees(c: Checker, d: nat)
    requires d < |c.labels|
    ensures FrameAt(Abs(c), d) == FrameOf(LabelAt(c, d))
  {
  }

  lemma PushLabelAgrees(c: Checker, kind: LabelKind, sig: seq<ValType>)
    ensures PushCtrl(Abs(c), kind, if kind.LoopLabel? then [] else sig, sig) == Abs(PushLabel(c, kind, sig))
  {
  }

  /** Only the signature check matters before the stack is made polymorphic. */
  lemma MarkAfterPop(c: Checker, ts: seq<Type>)
    requires Valid(c) && PopTypes(c, ts).Some?
    ensures SetUnreachable(PopTypes(c, ts).value) == SetUnreachable(c)
  {
    PopKeeps(c, ts);
  }

  lemma BrAgrees(c: Checker, d: nat)
    requires Valid(c) && d < |c.labels|
    ensures AbsOption(OnBr(c, d)) ==
      MarkIfSome(PopOpds(Abs(c), FrameAt(Abs(c), d).labelTypes))
  {
    LabelAgrees(c, d);
    DefaultAgrees(c, FrameAt(Abs(c), d).labelTypes);
  }

  /** A signature that checks can be dropped. */
  lemma {:induction false} SignatureIsPop(c: Checker, ts: seq<Type>)
    requires Valid(c)
    ensures SignatureOk(c, ts) <==> PopTypes(c, ts).Some?
  {
    if SignatureOk(c, ts) && |ts| > 0 {
      assert PeekIs(c, |ts| - 0 - 1, ts[0]);
    }
  }

  lemma BrIfAgrees(c: Checker, d: nat)
    requires Valid(c) && d < |c.labels| && PopTypes(c, [I32]).Some?
    ensures var c1 := PopTypes(c, [I32]).value;
      AbsOption(OnBrIf(c, d)) ==
      PushIfSome(PopOpds(Abs(c1), FrameAt(Abs(c), d).labelTypes), FrameAt(Abs(c), d).labelTypes)
  {
    PopKeeps(c, [I32]);
    var c1 := PopTypes(c, [I32]).value;
    LabelAgrees(c, d);
    if LabelAt(c1, d).kind.LoopLabel? {
      assert Abs(c1).opds + [] == Abs(c1).opds;
    } else {
      ApplyAgrees(c1, LabelAt(c1, d).sig, LabelAt(c1, d).sig);
    }
  }

  /** The chain of pairwise comparisons that `br_table` makes, unrolled. */
  lemma {:induction false} TargetsChain(c: Checker, ds: seq<nat>, s: Type)
    requires Valid(c) && s != Any
    ensures OnBrTableTargets(c, ds, s).Some? <==>
      forall k :: 0 <= k < |ds| ==>
        ds[k] < |c.labels| && TargetType(LabelAt(c, ds[k])) == s &&
        (LabelAt(c, ds[k]).kind.LoopLabel? || SignatureOk(c, LabelAt(c, ds[k]).sig))
    decreases |ds|
  {
    if ds != [] {
      if OnBrTableTarget(c, ds[0], s).Some? {
        TargetsChain(c, ds[1..], s);
        assert forall k :: 0 < k < |ds| ==> ds[k] == ds[1..][k - 1];
      }
    }
  }

  predicate TargetOk(c: Checker, d: nat) {
    d < |c.labels| && (LabelAt(c, d).kind.LoopLabel? || SignatureOk(c, LabelAt(c, d).sig))
  }

  /** A table is accepted iff every target is in range with the default's label types, and the
      default's label types can be popped. */
  lemma TableAgrees(c: Checker, ds: seq<nat>, m: nat)
    requires Valid(c) && SmallSignatures(c)
    ensures OnBrTableTargets(c, ds + [m], Any).Some? <==>
      TargetOk(c, m) &&
      forall k :: 0 <= k < |ds| ==>
        ds[k] < |c.labels| && FrameOf(LabelAt(c, ds[k])).labelTypes == FrameOf(LabelAt(c, m)).labelTypes
  {
    hide OnBrTableTargets, Valid;
    var all := ds + [m];
    assert all[|ds|] == m;
    assert forall k :: 0 <= k < |ds| ==> all[k] == ds[k];
    var s := if all[0] < |c.labels| then TargetType(LabelAt(c, all[0])) else Void;
    FirstTarget(c, all, s);
    hide SignatureOk, SmallSignatures, FrameOf, TargetType;
    TargetsChain(c, all[1..], s);
    if TargetOk(c, all[0]) {
      assert forall k :: 0 < k < |all| ==> all[k] == all[1..][k - 1];
      TableEntries(c, all, s);
    }
  }

  lemma FirstTarget(c: Checker, all: seq<nat>, s: Type)
    requires Valid(c) && |all| > 0 && (all[0] < |c.labels| ==> s == TargetType(LabelAt(c, all[0])))
    ensures OnBrTableTargets(c, all, Any).Some? <==> TargetOk(c, all[0]) && OnBrTableTargets(c, all[1..], s).Some?
    ensures all[0] < |c.labels| ==> TargetType(LabelAt(c, all[0])) != Any
  {
    hide SignatureOk, AnyOnlyAtDeadLimit, LimitsOrdered;
  }

  lemma TableEntries(c: Checker, all: seq<nat>, s: Type)
    requires Valid(c) && SmallSignatures(c) && |all| > 0 && TargetOk(c, all[0]) && s == TargetType(LabelAt(c, all[0]))
    ensures (forall k :: 0 < k < |all| ==> TargetOk(c, all[k]) && TargetType(LabelAt(c, all[k])) == s) <==>
      (forall k :: 0 <= k < |all| ==>
        (all[k] < |c.labels| && FrameOf(LabelAt(c, all[k])).labelTypes == FrameOf(LabelAt(c, all[0])).labelTypes))
  {
    forall k | 0 <= k < |all| && all[k] < |c.labels|
      ensures TargetType(LabelAt(c, all[k])) == s <==>
        FrameOf(LabelAt(c, all[k])).labelTypes == FrameOf(LabelAt(c, all[0])).labelTypes
    {
      SameTarget(LabelAt(c, all[k]), LabelAt(c, all[0]));
    }
  }

  lemma SameTarget(a: Label, b: Label)
    requires |a.sig| <= 1 && |b.sig| <= 1
    ensures TargetType(a) == TargetType(b) <==> FrameOf(a).labelTypes == FrameOf(b).labelTypes
  {
    assert |a.sig| == 1 ==> a.sig == [a.sig[0]] && IsValType(a.sig[0]);
    assert |b.sig| == 1 ==> b.sig == [b.sig[0]] && IsValType(b.sig[0]);
  }

  lemma BrTableAgrees(c: Checker, ds: seq<nat>, m: nat)
    requires Valid(c) && SmallSignatures(c)
    ensures ValidateBrTable(Abs(c), ds, m) == AbsOption(OnBrTable(c, ds, m))
  {
    PopSingleAgrees(c, I32);
    TargetsAgree(c, ds, m);
    if PopTypes(c, [I32]).Some? {
      var c1 := PopTypes(c, [I32]).value;
      TableAgrees(c1, ds, m);
      SameLabelsSameTargets(c, c1, ds, m);
      if m < |c.labels| {
        DefaultAgrees(c1, FrameOf(LabelAt(c, m)).labelTypes);
      }
    }
  }

  lemma TargetsAgree(c: Checker, ds: seq<nat>, m: nat)
    ensures forall d :: 0 <= d < |c.labels| ==> FrameAt(Abs(c), d) == FrameOf(LabelAt(c, d))
  {
    forall d | 0 <= d < |c.labels| ensures FrameAt(Abs(c), d) == FrameOf(LabelAt(c, d)) {
      LabelAgrees(c, d);
    }
  }

  lemma SameLabelsSameTargets(c: Checker, c1: Checker, ds: seq<nat>, m: nat)
    requires c1.labels == c.labels
    ensures forall d :: 0 <= d < |c.labels| ==> LabelAt(c1, d) == LabelAt(c, d)
  {
  }

  lemma DefaultAgrees(c: Checker, ts: seq<ValType>)
    requires Valid(c)
    ensures SignatureOk(c, ts) <==> PopOpds(Abs(c), ts).Some?
    ensures SignatureOk(c, ts) ==> MarkUnreachable(PopOpds(Abs(c), ts).value) == Abs(SetUnreachable(c))
    ensures ts == [] ==> SignatureOk(c, ts)
  {
    PopAgrees(c, ts);
    SignatureIsPop(c, ts);
    if PopTypes(c, ts).Some? {
      PopKeeps(c, ts);
      MarkAgrees(PopTypes(c, ts).value);
      MarkAfterPop(c, ts);
    }
  }

  /** Where the two differ in form: the checker pushes what it peeked first, the algorithm what
      it popped second. They agree because `Any` never lies above another operand. */
  lemma SelectAgrees(c: Checker)
    requires Valid(c)
    ensures ValidateSelect(Abs(c)) == AbsOption(OnSelect(c))
  {
    PopSingleAgrees(c, I32);
    if PeekIs(c, 0, I32) {
      var c1 := DropTypes(c, 1).value;
      DropKeeps(c, 1);
      PeekAfterDrop(c, 0);
      PopOneAgrees(c1, Any);
      if PeekType(c1, 0).Some? {
        SelectTail(c, c1, DropTypes(c1, 1).value, PeekType(c1, 0).value);
      }
    }
  }

  lemma SelectTail(c: Checker, c1: Checker, c2: Checker, t: Type)
    requires Valid(c) && PeekIs(c, 0, I32)
    requires DropTypes(c, 1) == Some(c1) && PeekType(c1, 0) == Some(t) && DropTypes(c1, 1) == Some(c2)
    ensures PeekType(c, 1) == Some(t)
    ensures (if PopExpect(Abs(c2), t).None? then None
             else Some(PushOpds(PopExpect(Abs(c2), t).value.0, [PopExpect(Abs(c2), t).value.1])))
            == AbsOption(OnSelect(c))
  {
    hide AnyOnlyAtDeadLimit, LimitsOrdered, DropTypes, PeekType, PushTypes, PushOpds, Abs, PopOpd;
    DropKeeps(c, 1);
    DropKeeps(c1, 1);
    PeekAfterDrop(c, 0);
    PeekAfterDrop(c, 1);
    PeekAfterDrop(c1, 0);
    PopOneAgrees(c2, t);
    if t == Any { NothingBelowAny(c1, c2); }
    if PeekIs(c2, 0, t) {
      DropTwice(c, 2);
      DropTwice(c1, 1);
      PushAgrees(DropTypes(c2, 1).value, [t]);
    }
  }

  lemma NothingBelowAny(c1: Checker, c2: Checker)
    requires Valid(c1) && DropTypes(c1, 1) == Some(c2) && PeekType(c1, 0) == Some(Any)
    ensures PeekType(c2, 0) == Some(Any)
  {
    if |c1.types| > Top(c1).limit {
      var k := |c1.types| - 1;
      assert c1.types[k] == Any && Top(c1).limit <= k < RegionEnd(c1, |c1.labels| - 1);
    }
  }

  lemma CloseAgrees(c: Checker)
    requires Valid(c)
    ensures PopCtrl(Abs(c)).Some? == CloseLabel(c).Some?
    ensures CloseLabel(c).Some? ==>
      PopCtrl(Abs(c)).value.1 == FrameOf(Top(c)) &&
      PushOpds(PopCtrl(Abs(c)).value.0, Top(c).sig) == Abs(CloseLabel(c).value) &&
      PopCtrl(Abs(c)).value.0.opds == c.types[..Top(c).limit]
  {
    assert Innermost(Abs(c)) == FrameOf(Top(c));
    PopAgrees(c, Top(c).sig);
    if PopTypes(c, Top(c).sig).Some? {
      PopKeeps(c, Top(c).sig);
      var c1 := PopTypes(c, Top(c).sig).value;
      assert |c1.types| == Top(c).limit ==> c1.types == c.types[..Top(c).limit];
    }
  }

  lemma ElseAgrees(c: Checker)
    requires Valid(c)
    ensures ValidateElse(Abs(c)) == AbsOption(OnElse(c))
  {
    assert Innermost(Abs(c)) == FrameOf(Top(c));
    CloseAgrees(c);
    if OnElse(c).Some? {
      OnElseKeeps(c);
      var d := OnElse(c).value;
      assert ValidateElse(Abs(c)).value.ctrls == Abs(d).ctrls;
    }
  }

  lemma EndAgrees(c: Checker)
    requires Valid(c)
    ensures ValidateEnd(Abs(c)) == AbsOption(OnEnd(c))
  {
    assert Innermost(Abs(c)) == FrameOf(Top(c));
    CloseAgrees(c);
    if Top(c).kind.IfLabel? {
      ElseAgrees(c);
      if OnElse(c).Some? {
        OnElseKeeps(c);
        var d := OnElse(c).value;
        CloseAgrees(d);
        EmptyArm(c, d);
      } else {
        assert CloseLabel(c).None?;
      }
    }
  }

  /** The empty second arm of an `if` closes exactly when the signature is empty. */
  lemma EmptyArm(c: Checker, d: Checker)
    requires Valid(c) && Top(c).kind.IfLabel? && OnElse(c) == Some(d) && Valid(d)
    ensures CloseLabel(d).Some? <==> |Top(c).sig| == 0
    ensures |Top(c).sig| == 0 ==> CloseLabel(c).Some? && Abs(CloseLabel(d).value) == Abs(CloseLabel(c).value)
  {
    OnElseKeeps(c);
    var sig := Top(c).sig;
    assert Top(d).sig == sig;
    if |sig| > 0 {
      assert !PeekIs(d, |sig| - 0 - 1, sig[0]);
    } else {
      assert SignatureOk(d, sig) && SignatureOk(c, sig);
      PopKeeps(c, sig);
      assert CloseLabel(c).value.labels == CloseLabel(d).value.labels;
    }
  }

  lemma ApplyAgrees(c: Checker, params: seq<Type>, results: seq<ValType>)
    requires Valid(c)
    ensures AbsOption(Apply(c, params, results)) ==
      PushIfSome(PopOpds(Abs(c), params), results)
  {
    PopAgrees(c, params);
    if PopTypes(c, params).Some? {
      PushAgrees(PopTypes(c, params).value, results);
    }
  }

  lemma PopOpdsConcat(v: State, ts: seq<Type>, t: Type)
    requires |v.ctrls| > 0
    ensures PopOpds(v, ts + [t]) ==
      if PopExpect(v, t).None? then None else PopOpds(PopExpect(v, t).value.0, ts)
  {
    assert (ts + [t])[..|ts|] == ts;
  }

  lemma {:induction false} SixteenAtLeast(n: nat)
    requires n >= 4
    ensures Pow2(n) >= 16
    decreases n
  {
    if n > 4 { SixteenAtLeast(n - 1); }
  }

  /** Comparing two to the power of the stated alignment with the width, as the reader does, is comparing
      it with the natural alignment. */
  lemma AlignIsNatural(align: nat, width: Width)
    ensures AlignOk(align, width) <==> align <= NaturalAlignment(width)
  {
    if align >= 4 { SixteenAtLeast(align); }
    assert Pow2(1) == 2 && Pow2(2) == 4 && Pow2(3) == 8;
  }

  /** The checker's table of arrows is the table of the typing rules. */
  lemma ArrowIsRule(ctx: Context, i: Instr)
    ensures RuleOf(ctx, i).ByStack? <==> !HasArrow(i)
    ensures HasArrow(i) ==>
      RuleOf(ctx, i) == match Arrow(ctx, i) case None => NotValid case Some(a) => Takes(a.params, a.results)
  {
    hide AlignOk, NaturalAlignment;
    if i.Load? { AlignIsNatural(i.align, i.access.width); }
    if i.Store? { AlignIsNatural(i.align, i.access.width); }
  }

  lemma ArrowAgrees(ctx: Context, c: Checker, i: Instr)
    requires Valid(c) && HasArrow(i)
    ensures Validate(ctx, Abs(c), i) == AbsOption(Check(ctx, c, i))
  {
    hide RuleOf;
    ArrowIsRule(ctx, i);
    if Arrow(ctx, i).Some? {
      var a := Arrow(ctx, i).value;
      ApplyAgrees(c, a.params, a.results);
      if OnlyPushes(i) {
        PopNothing(c);
        assert a.params == [];
      } else if i.CallIndirect? {
        var ps := ctx.types[i.sig].params;
        PopOpdsConcat(Abs(c), ps, I32);
        PopSingleAgrees(c, I32);
        if PopTypes(c, [I32]).Some? {
          ApplyAgrees(PopTypes(c, [I32]).value, ps, a.results);
        }
      }
    }
  }

  /** One instruction: the checker and the algorithm fail together and otherwise reach
      corresponding states. */
  lemma StepAgrees(ctx: Context, c: Checker, i: Instr)
    requires Valid(c) && SmallSignatures(c)
    ensures Validate(ctx, Abs(c), i) == AbsOption(Check(ctx, c, i))
  {
    hide RuleOf;
    ArrowIsRule(ctx, i);
    assert Innermost(Abs(c)) == FrameOf(Top(c)) && Abs(c).ctrls[0] == FrameOf(c.labels[0]);
    if HasArrow(i) {
      ArrowAgrees(ctx, c, i);
    } else if i.Block? {
      PushLabelAgrees(c, BlockLabel, i.results);
    } else if i.Loop? {
      PushLabelAgrees(c, LoopLabel, i.results);
    } else if i.If? {
      PopSingleAgrees(c, I32);
      if PopTypes(c, [I32]).Some? {
        PushLabelAgrees(PopTypes(c, [I32]).value, IfLabel, i.results);
      }
    } else if i.Else? {
      ElseAgrees(c);
    } else if i.End? {
      EndAgrees(c);
    } else if i.Br? {
      if i.depth < |c.labels| { BrAgrees(c, i.depth); }
    } else if i.BrIf? {
      PopSingleAgrees(c, I32);
      if i.depth < |c.labels| && PopTypes(c, [I32]).Some? { BrIfAgrees(c, i.depth); }
    } else if i.BrTable? {
      BrTableAgrees(c, i.depths, i.default);
    } else if i.Return? {
      var sig := c.labels[0].sig;
      PopAgrees(c, sig);
      if PopTypes(c, sig).Some? {
        PopKeeps(c, sig);
        MarkAgrees(PopTypes(c, sig).value);
      }
    } else if i.Drop? {
      PopOneAgrees(c, Any);
    } else if i.Select? {
      SelectAgrees(c);
    } else {
      MarkAgrees(c);
    }
  }

  lemma SmallSignaturesStay(ctx: Context, c: Checker, i: Instr)
    requires Valid(c) && SmallSignatures(c) && SmallBlockType(i)
    requires Check(ctx, c, i).Some?
    ensures SmallSignatures(Check(ctx, c, i).value)
  {
    if IsPlain(i) {
      PlainKeeps(ctx, c, i);
      var d := Check(ctx, c, i).value;
      forall j | 0 <= j < |d.labels| ensures |d.labels[j].sig| <= 1 {
        if j < |d.labels| - 1 {
          assert d.labels[j] == d.labels[..|c.labels| - 1][j] == c.labels[j];
        }
      }
    }
  }

  lemma {:induction false} RunAgrees(ctx: Context, c: Checker, code: seq<Instr>)
    requires Valid(c) && SmallSignatures(c) && SmallBlockTypes(code)
    ensures
      var r := CheckAll(ctx, c, code);
      var v := ValidateAll(ctx, Abs(c), code + [End]);
      (r.Some? && EndFunction(r.value).Some?) <==> (v.Some? && v.value.ctrls == [])
    decreases |code|
  {
    if code == [] {
      assert ([] + [End])[1..] == [];
      StepAgrees(ctx, c, End);
      CloseAgrees(c);
      if CloseLabel(c).Some? {
        PopKeeps(c, Top(c).sig);
        assert |Abs(CloseLabel(c).value).ctrls| == |c.labels| - 1;
      }
    } else {
      StepAgrees(ctx, c, code[0]);
      assert (code + [End])[1..] == code[1..] + [End];
      if Check(ctx, c, code[0]).Some? {
        var c1 := Check(ctx, c, code[0]).value;
        SmallSignaturesStay(ctx, c, code[0]);
        if |c1.labels| > 0 {
          CheckKeepsValid(ctx, c, code[0]);
          RunAgrees(ctx, c1, code[1..]);
        } else {
          assert Abs(c1).ctrls == [];
          if CheckAll(ctx, c1, code[1..]).Some? {
            NoFuncLabelNeverAccepted(ctx, c1, code[1..]);
          }
        }
      }
    }
  }

  /** The checker accepts exactly the bodies the specified algorithm accepts. */
  lemma CheckerIsTheAlgorithm(ctx: Context, code: seq<Instr>)
    requires |ctx.results| <= 1 && SmallBlockTypes(code)
    ensures Accepts(ctx, code) <==> ValidBody(ctx, code)
  {
    BeginFunctionValid(ctx);
    assert Abs(BeginFunction(ctx)) == Start(ctx);
    RunAgrees(ctx, BeginFunction(ctx), code);
  }
}
