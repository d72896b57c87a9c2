/** Static stack heights: in live code (no enclosing label is unreachable) the checker's type
    stack says exactly how many operands each instruction finds and leaves. */
module Heights {
  import opened Wasm
  import opened Checking
  import opened CheckerInvariants
  import opened Structure

  predicate AllLive(c: Checker) {
    forall j :: 0 <= j < |c.labels| ==> !c.labels[j].unreachable
  }

  lemma LivePop(c: Checker, ts: seq<Type>)
    requires Valid(c) && AllLive(c) && PopTypes(c, ts).Some?
    ensures Top(c).limit + |ts| <= |c.types|
    ensures PopTypes(c, ts).value == c.(types := c.types[..|c.types| - |ts|])
  {
  }

  lemma LiveArrow(ctx: Context, c: Checker, i: Instr)
    requires Valid(c) && AllLive(c) && HasArrow(i) && Check(ctx, c, i).Some?
    ensures Arrow(ctx, i).Some?
    ensures
      var a := Arrow(ctx, i).value;
      && Top(c).limit + |a.params| <= |c.types|
      && Check(ctx, c, i).value == c.(types := c.types[..|c.types| - |a.params|] + a.results)
  {
    var a := Arrow(ctx, i).value;
    if OnlyPushes(i) {
      assert c.types[..|c.types| - 0] == c.types;
    } else if i.CallIndirect? {
      PopKeeps(c, [I32]);
      LivePop(c, [I32]);
      var c1 := PopTypes(c, [I32]).value;
      LivePop(c1, ctx.types[i.sig].params);
      assert c.types[..|c.types| - 1][..|c.types| - 1 - |ctx.types[i.sig].params|] == c.types[..|c.types| - |a.params|];
    } else {
      LivePop(c, a.params);
    }
  }

  /** A branch finds its label's values above the innermost limit. */
  lemma LiveSignature(c: Checker, sig: seq<ValType>)
    requires Valid(c) && AllLive(c) && SignatureOk(c, sig)
    ensures Top(c).limit + |sig| <= |c.types|
    ensures forall i :: 0 <= i < |sig| ==> c.types[|c.types| - |sig| + i] == sig[i] || c.types[|c.types| - |sig| + i] == Any
  {
    if |sig| > 0 {
      assert PeekIs(c, |sig| - 0 - 1, sig[0]);
      forall i | 0 <= i < |sig|
        ensures c.types[|c.types| - |sig| + i] == sig[i] || c.types[|c.types| - |sig| + i] == Any
      {
        assert PeekIs(c, |sig| - i - 1, sig[i]);
        assert IsValType(sig[i]);
      }
    }
  }

  /** In live code the type stack holds no `Any`: it is a sequence of value types. */
  lemma {:induction false} LiveTypes(c: Checker, k: nat)
    requires Valid(c) && AllLive(c) && k < |c.types|
    ensures IsValType(c.types[k])
  {
    var j := OwnerOf(c, k, |c.labels| - 1);
    assert c.types[k] != Any;
  }

  lemma {:induction false} OwnerOf(c: Checker, k: nat, hi: nat) returns (j: nat)
    requires Valid(c) && k < |c.types| && hi < |c.labels| && k < RegionEnd(c, hi)
    ensures j < |c.labels| && c.labels[j].limit <= k < RegionEnd(c, j)
    decreases hi
  {
    if c.labels[hi].limit <= k {
      j := hi;
    } else {
      j := OwnerOf(c, k, hi - 1);
    }
  }

  lemma LiveEnd(ctx: Context, c: Checker)
    requires Valid(c) && AllLive(c) && CloseLabel(c).Some?
    ensures |c.types| == Top(c).limit + |Top(c).sig|
  {
    LivePop(c, Top(c).sig);
  }

  lemma LiveElse(ctx: Context, c: Checker)
    requires Valid(c) && AllLive(c) && Check(ctx, c, Else).Some?
    ensures |c.types| == Top(c).limit + |Top(c).sig|
  {
    LivePop(c, Top(c).sig);
  }

  /** Instructions that end the live code of their label. */
  predicate Ends(i: Instr) {
    i.Br? || i.BrTable? || i.Return? || i.Unreachable?
  }

  lemma LiveStays(ctx: Context, c: Checker, i: Instr)
    requires Valid(c) && AllLive(c) && IsPlain(i) && !Ends(i) && Check(ctx, c, i).Some?
    ensures AllLive(Check(ctx, c, i).value) && Check(ctx, c, i).value.labels == c.labels
  {
    if HasArrow(i) {
      ArrowKeeps(ctx, c, i);
    } else if i.BrIf? {
      BrIfKeeps(c, i.depth);
    } else if i.Drop? {
      DropKeeps(c, 1);
    } else {
      SelectKeeps(c);
    }
  }

  lemma LiveBrIf(c: Checker, d: nat)
    requires Valid(c) && AllLive(c) && OnBrIf(c, d).Some?
    ensures Top(c).limit + 1 <= |c.types| && d < |c.labels|
    ensures OnBrIf(c, d).value.labels == c.labels
    ensures !LabelAt(c, d).kind.LoopLabel? ==> Top(c).limit + |LabelAt(c, d).sig| + 1 <= |c.types|
    ensures |OnBrIf(c, d).value.types| == |c.types| - 1
  {
    LivePop(c, [I32]);
    PopKeeps(c, [I32]);
    var c1 := PopTypes(c, [I32]).value;
    if !LabelAt(c1, d).kind.LoopLabel? {
      LivePop(c1, LabelAt(c1, d).sig);
    }
  }

  lemma {:induction false} LiveTargets(c: Checker, ds: seq<nat>, s: Type, k: nat)
    requires Valid(c) && AllLive(c) && OnBrTableTargets(c, ds, s).Some? && k < |ds|
    ensures ds[k] < |c.labels|
    ensures !LabelAt(c, ds[k]).kind.LoopLabel? ==> SignatureOk(c, LabelAt(c, ds[k]).sig)
    decreases |ds|
  {
    if k > 0 {
      LiveTargets(c, ds[1..], OnBrTableTarget(c, ds[0], s).value, k - 1);
    }
  }

  /** The depth `br_table` picks for a selector. */
  function Chosen(ds: seq<nat>, d: nat, key: nat): nat {
    if key < |ds| then ds[key] else d
  }

  lemma LiveBrTable(c: Checker, ds: seq<nat>, d: nat, key: nat)
    requires Valid(c) && AllLive(c) && OnBrTable(c, ds, d).Some?
    ensures Top(c).limit + 1 <= |c.types| && Chosen(ds, d, key) < |c.labels|
    ensures var l := LabelAt(c, Chosen(ds, d, key));
      !l.kind.LoopLabel? ==> Top(c).limit + |l.sig| + 1 <= |c.types|
  {
    LivePop(c, [I32]);
    PopKeeps(c, [I32]);
    var c1 := PopTypes(c, [I32]).value;
    var k := if key < |ds| then key else |ds|;
    LiveTargets(c1, ds + [d], Any, k);
    var l := LabelAt(c1, Chosen(ds, d, key));
    if !l.kind.LoopLabel? {
      LiveSignature(c1, l.sig);
    }
  }

  /* ---- branches to loops at the height of the loop's entry ---- */

  /** With `h` operands on the type stack, a branch to depth `d` that goes to a loop leaves
      nothing behind. */
  predicate CleanBranch(c: Checker, h: int, d: nat) {
    d < |c.labels| && LabelAt(c, d).kind.LoopLabel? ==> h == LabelAt(c, d).limit
  }

  predicate CleanPlain(c: Checker, i: Instr) {
    match i
    case Br(d) => CleanBranch(c, |c.types|, d)
    case BrIf(d) => CleanBranch(c, |c.types| - 1, d)
    case BrTable(ds, d) =>
      CleanBranch(c, |c.types| - 1, d) && forall k :: 0 <= k < |ds| ==> CleanBranch(c, |c.types| - 1, ds[k])
    case _ => true
  }

  predicate CleanIns(ctx: Context, ins: Ins, c: Checker)
    requires CheckIns(ctx, ins, c).Some?
    decreases ins
  {
    match ins
    case Plain(i) => AllLive(c) ==> CleanPlain(c, i)
    case BlockIns(sig, b) => CleanBody(ctx, b, PushLabel(c, BlockLabel, sig))
    case LoopIns(sig, b) => CleanBody(ctx, b, PushLabel(c, LoopLabel, sig))
    case IfIns(sig, b) => CleanBody(ctx, b, Check(ctx, c, If(sig)).value)
    case IfElseIns(sig, b1, b2) =>
      var c1 := Check(ctx, c, If(sig)).value;
      CleanBody(ctx, b1, c1) && CleanBody(ctx, b2, Then(ctx, CheckBody(ctx, b1, c1), Else).value)
  }

  /** Every live branch to a loop is taken at the height the loop was entered with. */
  predicate CleanBody(ctx: Context, b: Body, c: Checker)
    requires CheckBody(ctx, b, c).Some?
    decreases b
  {
    match b
    case Nil => true
    case Cons(h, t) => CleanIns(ctx, h, c) && CleanBody(ctx, t, CheckIns(ctx, h, c).value)
  }
}
