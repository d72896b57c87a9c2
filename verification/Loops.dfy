/** Where the loops of a body start in its flat code, and how many operands they are entered with. */
module Loops {
  import opened Wasm
  import opened Checking
  import opened CheckerInvariants
  import opened Structure
  import opened Heights
  import opened Layout

  /** A loop inside the instruction has its first record at `pos`, and was entered with `h`
      operands on the checker's stack. */
  predicate LoopStartsIns(ctx: Context, ins: Ins, c: Checker, pc: nat, pos: nat, h: nat)
    requires CheckIns(ctx, ins, c).Some?
    decreases ins
  {
    match ins
    case Plain(_) => false
    case BlockIns(sig, b) => LoopStarts(ctx, b, PushLabel(c, BlockLabel, sig), pc, pos, h)
    case LoopIns(sig, b) =>
      (pos == pc && h == |c.types|) || LoopStarts(ctx, b, PushLabel(c, LoopLabel, sig), pc, pos, h)
    case IfIns(sig, b) => LoopStarts(ctx, b, Check(ctx, c, If(sig)).value, pc + 1, pos, h)
    case IfElseIns(sig, b1, b2) =>
      var c1 := Check(ctx, c, If(sig)).value;
      var c2 := Then(ctx, CheckBody(ctx, b1, c1), Else).value;
      LoopStarts(ctx, b1, c1, pc + 1, pos, h) || LoopStarts(ctx, b2, c2, pc + 2 + Size(b1), pos, h)
  }

  predicate LoopStarts(ctx: Context, b: Body, c: Checker, pc: nat, pos: nat, h: nat)
    requires CheckBody(ctx, b, c).Some?
    decreases b
  {
    match b
    case Nil => false
    case Cons(x, t) =>
      LoopStartsIns(ctx, x, c, pc, pos, h) || LoopStarts(ctx, t, CheckIns(ctx, x, c).value, pc + SizeIns(x), pos, h)
  }

  /** A loop of the whole function, entered with `h` operands, has its first record at `pos`. */
  predicate LoopIn(ctx: Context, whole: Body, pos: nat, h: nat) {
    CheckBody(ctx, whole, BeginFunction(ctx)).Some? && LoopStarts(ctx, whole, BeginFunction(ctx), 0, pos, h)
  }

  /** A piece of a function's body, at `pc`: its loops are loops of the function. With `clean`, its
      live branches to loops are taken at the loop's height. */
  ghost predicate PartOf(clean: bool, ctx: Context, whole: Body, b: Body, c: Checker, pc: nat)
    requires CheckBody(ctx, b, c).Some?
  {
    && (clean ==> CleanBody(ctx, b, c))
    && forall pos: nat, h: nat :: LoopStarts(ctx, b, c, pc, pos, h) ==> LoopIn(ctx, whole, pos, h)
  }

  ghost predicate InsPartOf(clean: bool, ctx: Context, whole: Body, ins: Ins, c: Checker, pc: nat)
    requires CheckIns(ctx, ins, c).Some?
  {
    && (clean ==> CleanIns(ctx, ins, c))
    && forall pos: nat, h: nat :: LoopStartsIns(ctx, ins, c, pc, pos, h) ==> LoopIn(ctx, whole, pos, h)
  }

  lemma WholePart(clean: bool, ctx: Context, whole: Body)
    requires CheckBody(ctx, whole, BeginFunction(ctx)).Some? && (clean ==> CleanBody(ctx, whole, BeginFunction(ctx)))
    ensures PartOf(clean, ctx, whole, whole, BeginFunction(ctx), 0)
  {
    hide CheckBody, CleanBody, LoopStarts;
  }

  lemma {:induction false} ConsParts(clean: bool, ctx: Context, whole: Body, h: Ins, t: Body, c: Checker, pc: nat)
    requires CheckBody(ctx, Cons(h, t), c).Some? && PartOf(clean, ctx, whole, Cons(h, t), c, pc)
    ensures InsPartOf(clean, ctx, whole, h, c, pc)
    ensures PartOf(clean, ctx, whole, t, CheckIns(ctx, h, c).value, pc + SizeIns(h))
  {
    hide LoopIn, LoopStartsIns, CheckIns, CleanIns, SizeIns;
    var c1 := CheckIns(ctx, h, c).value;
    forall pos: nat, x: nat | LoopStartsIns(ctx, h, c, pc, pos, x) ensures LoopIn(ctx, whole, pos, x) {
      assert LoopStarts(ctx, Cons(h, t), c, pc, pos, x);
    }
    forall pos: nat, x: nat | LoopStarts(ctx, t, c1, pc + SizeIns(h), pos, x) ensures LoopIn(ctx, whole, pos, x) {
      assert LoopStarts(ctx, Cons(h, t), c, pc, pos, x);
    }
  }

  lemma {:induction false} BlockPart(clean: bool, ctx: Context, whole: Body, sig: seq<ValType>, b: Body, c: Checker, pc: nat)
    requires CheckIns(ctx, BlockIns(sig, b), c).Some? && InsPartOf(clean, ctx, whole, BlockIns(sig, b), c, pc)
    ensures PartOf(clean, ctx, whole, b, PushLabel(c, BlockLabel, sig), pc)
  {
    hide LoopIn, LoopStarts, CheckBody, CleanBody;
    forall pos: nat, h: nat | LoopStarts(ctx, b, PushLabel(c, BlockLabel, sig), pc, pos, h) ensures LoopIn(ctx, whole, pos, h) {
      assert LoopStartsIns(ctx, BlockIns(sig, b), c, pc, pos, h);
    }
  }

  lemma {:induction false} LoopPart(clean: bool, ctx: Context, whole: Body, sig: seq<ValType>, b: Body, c: Checker, pc: nat)
    requires CheckIns(ctx, LoopIns(sig, b), c).Some? && InsPartOf(clean, ctx, whole, LoopIns(sig, b), c, pc)
    ensures PartOf(clean, ctx, whole, b, PushLabel(c, LoopLabel, sig), pc)
    ensures LoopIn(ctx, whole, pc, |c.types|)
  {
    hide LoopIn, LoopStarts, CheckBody, CleanBody;
    assert LoopStartsIns(ctx, LoopIns(sig, b), c, pc, pc, |c.types|);
    forall pos: nat, h: nat | LoopStarts(ctx, b, PushLabel(c, LoopLabel, sig), pc, pos, h) ensures LoopIn(ctx, whole, pos, h) {
      assert LoopStartsIns(ctx, LoopIns(sig, b), c, pc, pos, h);
    }
  }

  lemma {:induction false} IfPart(clean: bool, ctx: Context, whole: Body, sig: seq<ValType>, b: Body, c: Checker, pc: nat)
    requires CheckIns(ctx, IfIns(sig, b), c).Some? && InsPartOf(clean, ctx, whole, IfIns(sig, b), c, pc)
    ensures PartOf(clean, ctx, whole, b, Check(ctx, c, If(sig)).value, pc + 1)
  {
    hide LoopIn, LoopStarts, CheckBody, CleanBody, Check;
    var c1 := Check(ctx, c, If(sig)).value;
    forall pos: nat, h: nat | LoopStarts(ctx, b, c1, pc + 1, pos, h) ensures LoopIn(ctx, whole, pos, h) {
      assert LoopStartsIns(ctx, IfIns(sig, b), c, pc, pos, h);
    }
  }

  lemma {:induction false} ArmParts(clean: bool, ctx: Context, whole: Body, sig: seq<ValType>, b1: Body, b2: Body, c: Checker, pc: nat)
    requires CheckIns(ctx, IfElseIns(sig, b1, b2), c).Some? && InsPartOf(clean, ctx, whole, IfElseIns(sig, b1, b2), c, pc)
    ensures
      var c1 := Check(ctx, c, If(sig)).value;
      PartOf(clean, ctx, whole, b1, c1, pc + 1) &&
      PartOf(clean, ctx, whole, b2, Then(ctx, CheckBody(ctx, b1, c1), Else).value, pc + 2 + Size(b1))
  {
    hide LoopIn, LoopStarts, CheckBody, CleanBody, Check, Size;
    var c1 := Check(ctx, c, If(sig)).value;
    var c2 := Then(ctx, CheckBody(ctx, b1, c1), Else).value;
    forall pos: nat, h: nat | LoopStarts(ctx, b1, c1, pc + 1, pos, h) ensures LoopIn(ctx, whole, pos, h) {
      assert LoopStartsIns(ctx, IfElseIns(sig, b1, b2), c, pc, pos, h);
    }
    forall pos: nat, h: nat | LoopStarts(ctx, b2, c2, pc + 2 + Size(b1), pos, h) ensures LoopIn(ctx, whole, pos, h) {
      assert LoopStartsIns(ctx, IfElseIns(sig, b1, b2), c, pc, pos, h);
    }
  }
}
