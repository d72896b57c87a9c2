/** Checking a structured body, and the fact that every accepted instruction stream is one. */
module Structure {
  import opened Wasm
  import opened Checking
  import opened CheckerInvariants

  function Then(ctx: Context, c: Option<Checker>, i: Instr): Option<Checker> {
    if c.None? then None else Check(ctx, c.value, i)
  }

  function CheckIns(ctx: Context, ins: Ins, c: Checker): Option<Checker>
    decreases ins
  {
    match ins
    case Plain(i) => Check(ctx, c, i)
    case BlockIns(sig, b) => Then(ctx, CheckBody(ctx, b, PushLabel(c, BlockLabel, sig)), End)
    case LoopIns(sig, b) => Then(ctx, CheckBody(ctx, b, PushLabel(c, LoopLabel, sig)), End)
    case IfIns(sig, b) =>
      (match Check(ctx, c, If(sig))
       case None => None
       case Some(c1) => Then(ctx, CheckBody(ctx, b, c1), End))
    case IfElseIns(sig, b1, b2) =>
      match Check(ctx, c, If(sig))
      case None => None
      case Some(c1) =>
        match Then(ctx, CheckBody(ctx, b1, c1), Else)
        case None => None
        case Some(c2) => Then(ctx, CheckBody(ctx, b2, c2), End)
  }

  function CheckBody(ctx: Context, b: Body, c: Checker): Option<Checker>
    decreases b
  {
    match b
    case Nil => Some(c)
    case Cons(h, t) =>
      match CheckIns(ctx, h, c)
      case None => None
      case Some(c1) => CheckBody(ctx, t, c1)
  }

  lemma {:induction false} CheckAllConcat(ctx: Context, c: Checker, xs: seq<Instr>, ys: seq<Instr>)
    ensures CheckAll(ctx, c, xs + ys) ==
      if CheckAll(ctx, c, xs).None? then None else CheckAll(ctx, CheckAll(ctx, c, xs).value, ys)
    decreases |xs|
  {
    if xs == [] {
      assert xs + ys == ys;
    } else {
      assert (xs + ys)[1..] == xs[1..] + ys;
      if Check(ctx, c, xs[0]).Some? {
        CheckAllConcat(ctx, Check(ctx, c, xs[0]).value, xs[1..], ys);
      }
    }
  }

  lemma CheckAllOne(ctx: Context, c: Checker, i: Instr)
    ensures CheckAll(ctx, c, [i]) == Check(ctx, c, i)
  {
    assert [i][1..] == [];
  }

  /** Checking the instruction stream of a structured body is checking the body. */
  lemma {:induction false} FlattenChecks(ctx: Context, b: Body, c: Checker)
    ensures CheckAll(ctx, c, Flatten(b)) == CheckBody(ctx, b, c)
    decreases b
  {
    match b
    case Nil =>
    case Cons(h, t) =>
      FlattenInsChecks(ctx, h, c);
      CheckAllConcat(ctx, c, FlattenIns(h), Flatten(t));
      if CheckIns(ctx, h, c).Some? {
        FlattenChecks(ctx, t, CheckIns(ctx, h, c).value);
      }
  }

  lemma {:induction false} BracketChecks(ctx: Context, c: Checker, open: Instr, b: Body, close: Instr, c1: Checker)
    requires Check(ctx, c, open) == Some(c1)
    requires CheckAll(ctx, c1, Flatten(b)) == CheckBody(ctx, b, c1)
    ensures CheckAll(ctx, c, [open] + Flatten(b) + [close]) == Then(ctx, CheckBody(ctx, b, c1), close)
  {
    CheckAllConcat(ctx, c, [open], Flatten(b));
    CheckAllOne(ctx, c, open);
    CheckAllConcat(ctx, c, [open] + Flatten(b), [close]);
    if CheckBody(ctx, b, c1).Some? {
      CheckAllOne(ctx, CheckBody(ctx, b, c1).value, close);
    }
  }

  lemma {:induction false} FlattenInsChecks(ctx: Context, ins: Ins, c: Checker)
    ensures CheckAll(ctx, c, FlattenIns(ins)) == CheckIns(ctx, ins, c)
    decreases ins
  {
    match ins
    case Plain(i) => CheckAllOne(ctx, c, i);
    case BlockIns(sig, b) =>
      FlattenChecks(ctx, b, PushLabel(c, BlockLabel, sig));
      BracketChecks(ctx, c, Block(sig), b, End, PushLabel(c, BlockLabel, sig));
    case LoopIns(sig, b) =>
      FlattenChecks(ctx, b, PushLabel(c, LoopLabel, sig));
      BracketChecks(ctx, c, Loop(sig), b, End, PushLabel(c, LoopLabel, sig));
    case IfIns(sig, b) =>
      if Check(ctx, c, If(sig)).Some? {
        var c1 := Check(ctx, c, If(sig)).value;
        FlattenChecks(ctx, b, c1);
        BracketChecks(ctx, c, If(sig), b, End, c1);
      } else {
        assert ([If(sig)] + Flatten(b) + [End])[0] == If(sig);
      }
    case IfElseIns(sig, b1, b2) =>
      if Check(ctx, c, If(sig)).Some? {
        var c1 := Check(ctx, c, If(sig)).value;
        FlattenChecks(ctx, b1, c1);
        BracketChecks(ctx, c, If(sig), b1, Else, c1);
        var front := [If(sig)] + Flatten(b1) + [Else];
        CheckAllConcat(ctx, c, front, Flatten(b2) + [End]);
        assert front + (Flatten(b2) + [End]) == FlattenIns(ins);
        if Then(ctx, CheckBody(ctx, b1, c1), Else).Some? {
          var c2 := Then(ctx, CheckBody(ctx, b1, c1), Else).value;
          FlattenChecks(ctx, b2, c2);
          CheckAllConcat(ctx, c2, Flatten(b2), [End]);
          if CheckBody(ctx, b2, c2).Some? {
            CheckAllOne(ctx, CheckBody(ctx, b2, c2).value, End);
          }
        }
      } else {
        assert FlattenIns(ins)[0] == If(sig);
      }
  }

  /* ---- what a structured instruction does to the checker ---- */

  lemma {:induction false} BodyKeeps(ctx: Context, b: Body, c: Checker)
    requires Valid(c) && CheckBody(ctx, b, c).Some?
    ensures Valid(CheckBody(ctx, b, c).value) && SameLabel(c, CheckBody(ctx, b, c).value)
    decreases b
  {
    match b
    case Nil =>
    case Cons(h, t) =>
      InsKeeps(ctx, h, c);
      var c1 := CheckIns(ctx, h, c).value;
      BodyKeeps(ctx, t, c1);
      SameLabelTransitive(c, c1, CheckBody(ctx, t, c1).value);
  }

  /** A bracketed instruction leaves the enclosing labels alone and adds its results to the
      stack it found (less the condition, for `if`). */
  lemma {:induction false} BracketKeeps(ctx: Context, b: Body, c: Checker, kind: LabelKind, sig: seq<ValType>)
    requires Valid(c) && !kind.FuncLabel?
    requires CheckBody(ctx, b, PushLabel(c, kind, sig)).Some?
    requires Valid(CheckBody(ctx, b, PushLabel(c, kind, sig)).value)
    requires SameLabel(PushLabel(c, kind, sig), CheckBody(ctx, b, PushLabel(c, kind, sig)).value)
    requires Check(ctx, CheckBody(ctx, b, PushLabel(c, kind, sig)).value, End).Some?
    ensures Check(ctx, CheckBody(ctx, b, PushLabel(c, kind, sig)).value, End).value == PushTypes(c, sig)
    ensures Valid(PushTypes(c, sig)) && SameLabel(c, PushTypes(c, sig))
  {
    var d := CheckBody(ctx, b, PushLabel(c, kind, sig)).value;
    OnEndKeeps(d);
    PushKeeps(c, sig);
    assert d.types[..|c.types|] == PushLabel(c, kind, sig).types[..|c.types|] == c.types;
    assert PushLabel(c, kind, sig).labels[..|c.labels|] == c.labels;
  }

  /** Where the arms of an `if` start. */
  function IfBase(c: Checker): Checker
    requires |c.labels| > 0 && PopTypes(c, [I32]).Some?
  {
    PopTypes(c, [I32]).value
  }

  lemma {:induction false} InsKeeps(ctx: Context, ins: Ins, c: Checker)
    requires Valid(c) && CheckIns(ctx, ins, c).Some?
    ensures Valid(CheckIns(ctx, ins, c).value) && SameLabel(c, CheckIns(ctx, ins, c).value)
    ensures ins.BlockIns? || ins.LoopIns? ==> CheckIns(ctx, ins, c).value == PushTypes(c, ins.sig)
    ensures ins.IfIns? || ins.IfElseIns? ==>
      PopTypes(c, [I32]).Some? && CheckIns(ctx, ins, c).value == PushTypes(IfBase(c), ins.sig)
    decreases ins
  {
    hide Check, PopTypes, Valid, SameLabel;
    match ins
    case Plain(i) => PlainKeeps(ctx, c, i);
    case BlockIns(sig, b) =>
      PushLabelKeeps(c, BlockLabel, sig);
      BodyKeeps(ctx, b, PushLabel(c, BlockLabel, sig));
      BracketKeeps(ctx, b, c, BlockLabel, sig);
    case LoopIns(sig, b) =>
      PushLabelKeeps(c, LoopLabel, sig);
      BodyKeeps(ctx, b, PushLabel(c, LoopLabel, sig));
      BracketKeeps(ctx, b, c, LoopLabel, sig);
    case IfIns(sig, b) =>
      IfStarts(ctx, c, sig);
      BodyKeeps(ctx, b, PushLabel(IfBase(c), IfLabel, sig));
      BracketKeeps(ctx, b, IfBase(c), IfLabel, sig);
      SameLabelTransitive(c, IfBase(c), PushTypes(IfBase(c), sig));
    case IfElseIns(sig, b1, b2) =>
      IfStarts(ctx, c, sig);
      BodyKeeps(ctx, b1, PushLabel(IfBase(c), IfLabel, sig));
      ElseRestarts(ctx, b1, IfBase(c), sig);
      BodyKeeps(ctx, b2, PushLabel(IfBase(c), ElseLabel, sig));
      BracketKeeps(ctx, b2, IfBase(c), ElseLabel, sig);
      SameLabelTransitive(c, IfBase(c), PushTypes(IfBase(c), sig));
  }

  lemma IfStarts(ctx: Context, c: Checker, sig: seq<ValType>)
    requires Valid(c) && Check(ctx, c, If(sig)).Some?
    ensures PopTypes(c, [I32]).Some?
    ensures Check(ctx, c, If(sig)).value == PushLabel(IfBase(c), IfLabel, sig)
    ensures Valid(IfBase(c)) && SameLabel(c, IfBase(c))
    ensures Valid(PushLabel(IfBase(c), IfLabel, sig)) && Valid(PushLabel(IfBase(c), ElseLabel, sig))
  {
    PopKeeps(c, [I32]);
    PushLabelKeeps(IfBase(c), IfLabel, sig);
    PushLabelKeeps(IfBase(c), ElseLabel, sig);
  }

  /** The second arm starts from the same stack as the first. */
  lemma {:induction false} ElseRestarts(ctx: Context, b: Body, c: Checker, sig: seq<ValType>)
    requires Valid(c) && CheckBody(ctx, b, PushLabel(c, IfLabel, sig)).Some?
    requires Valid(CheckBody(ctx, b, PushLabel(c, IfLabel, sig)).value)
    requires SameLabel(PushLabel(c, IfLabel, sig), CheckBody(ctx, b, PushLabel(c, IfLabel, sig)).value)
    requires Then(ctx, CheckBody(ctx, b, PushLabel(c, IfLabel, sig)), Else).Some?
    ensures Then(ctx, CheckBody(ctx, b, PushLabel(c, IfLabel, sig)), Else).value == PushLabel(c, ElseLabel, sig)
  {
    var c1 := PushLabel(c, IfLabel, sig);
    var d := CheckBody(ctx, b, c1).value;
    OnElseKeeps(d);
    var e := OnElse(d).value;
    assert d.types[..|c.types|] == c1.types[..|c.types|] == c.types;
    assert d.labels[..|c.labels|] == c1.labels[..|c.labels|] == c.labels;
    assert e.labels == PushLabel(c, ElseLabel, sig).labels;
  }

  /* ---- every accepted stream is the flattening of a structured body ---- */

  /** `code` is a structured body followed by a bracket that closes a label open at its start. */
  predicate SplitsAs(ctx: Context, c: Checker, code: seq<Instr>, b: Body, rest: seq<Instr>) {
    && code == Flatten(b) + rest
    && CheckBody(ctx, b, c).Some?
    && (rest == [] || rest[0].End? || rest[0].Else?)
    && CheckAll(ctx, CheckBody(ctx, b, c).value, rest) == CheckAll(ctx, c, code)
  }

  predicate Unfinished(c: Option<Checker>) {
    c.Some? && |c.value.labels| > 1 && !Top(c.value).kind.FuncLabel?
  }

  /** Splits a stream at the first bracket that closes a label open at its start, unless it
      stops inside a construct that it opened itself. */
  lemma {:induction false} Split(ctx: Context, c: Checker, code: seq<Instr>)
    returns (b: Body, rest: seq<Instr>, closed: bool)
    requires Valid(c) && CheckAll(ctx, c, code).Some?
    ensures closed ==> SplitsAs(ctx, c, code, b, rest)
    ensures !closed ==> Unfinished(CheckAll(ctx, c, code))
    decreases |code|, 1
  {
    if code == [] || code[0].End? || code[0].Else? {
      b, rest, closed := Nil, code, true;
      assert code == [] + code;
    } else if IsPlain(code[0]) {
      PlainKeeps(ctx, c, code[0]);
      assert code == FlattenIns(Plain(code[0])) + code[1..];
      b, rest, closed := Prepend(ctx, c, Plain(code[0]), code, code[1..]);
    } else {
      CheckKeepsValid(ctx, c, code[0]);
      b, rest, closed := SplitBracket(ctx, c, code);
    }
  }

  lemma {:induction false} Prepend(ctx: Context, c: Checker, ins: Ins, code: seq<Instr>, tail: seq<Instr>)
    returns (b: Body, rest: seq<Instr>, closed: bool)
    requires CheckIns(ctx, ins, c).Some? && Valid(CheckIns(ctx, ins, c).value)
    requires code == FlattenIns(ins) + tail && |tail| < |code| && CheckAll(ctx, c, code).Some?
    requires CheckAll(ctx, CheckIns(ctx, ins, c).value, tail) == CheckAll(ctx, c, code)
    ensures closed ==> SplitsAs(ctx, c, code, b, rest)
    ensures !closed ==> Unfinished(CheckAll(ctx, c, code))
    decreases |tail|, 2
  {
    hide Check, CheckIns, Valid;
    var t;
    t, rest, closed := Split(ctx, CheckIns(ctx, ins, c).value, tail);
    b := Cons(ins, t);
    if closed {
      assert code == FlattenIns(ins) + (Flatten(t) + rest) == Flatten(b) + rest;
    }
  }

  /** A bracket that opens: split inside it, then after the bracket that ends it. */
  lemma {:induction false} SplitBracket(ctx: Context, c: Checker, code: seq<Instr>)
    returns (b: Body, rest: seq<Instr>, closed: bool)
    requires Valid(c) && CheckAll(ctx, c, code).Some? && code != []
    requires code[0].Block? || code[0].Loop? || code[0].If?
    requires Valid(Check(ctx, c, code[0]).value)
    ensures closed ==> SplitsAs(ctx, c, code, b, rest)
    ensures !closed ==> Unfinished(CheckAll(ctx, c, code))
    decreases |code|, 0
  {
    b, rest, closed := Nil, [], false;
    var c1 := Check(ctx, c, code[0]).value;
    var inner, rest1, closed1 := Split(ctx, c1, code[1..]);
    if closed1 {
      OpenLabel(ctx, c, code[0]);
      BodyKeeps(ctx, inner, c1);
      if rest1 != [] {
        if rest1[0].End? {
          var ins := CloseBlock(ctx, c, code, inner, rest1);
          b, rest, closed := Prepend(ctx, c, ins, code, rest1[1..]);
        } else {
          b, rest, closed := SplitElse(ctx, c, code, inner, rest1);
        }
      }
    }
  }

  lemma Regroup(code: seq<Instr>, inner: seq<Instr>, rest: seq<Instr>)
    requires code != [] && rest != [] && code[1..] == inner + rest
    ensures code == [code[0]] + inner + [rest[0]] + rest[1..] && |rest| < |code|
    ensures code == ([code[0]] + inner) + rest
  {
    assert code == [code[0]] + code[1..] && rest == [rest[0]] + rest[1..];
  }

  lemma RegroupTwice(x: seq<Instr>, y: seq<Instr>, z: seq<Instr>, t: seq<Instr>)
    requires y == z + t
    ensures x + y == (x + z) + t
  {
  }

  lemma IfElseStream(code: seq<Instr>, thn: Body, rest1: seq<Instr>, els: Body, rest2: seq<Instr>)
    requires code != [] && code[0].If? && code[1..] == Flatten(thn) + rest1
    requires rest1 != [] && rest1[0].Else? && rest1[1..] == Flatten(els) + rest2
    requires rest2 != [] && rest2[0].End?
    ensures code == FlattenIns(IfElseIns(code[0].results, thn, els)) + rest2[1..] && |rest2| < |code|
  {
    Regroup(code, Flatten(thn), rest1);
    Regroup(rest1, Flatten(els), rest2);
    var front, back := [code[0]] + Flatten(thn), [rest1[0]] + Flatten(els) + [rest2[0]];
    RegroupTwice(front, rest1, back, rest2[1..]);
    Reassociate(front, [rest1[0]], Flatten(els), [rest2[0]]);
  }

  lemma Reassociate(w: seq<Instr>, x: seq<Instr>, y: seq<Instr>, z: seq<Instr>)
    ensures w + (x + y + z) == w + x + y + z
  {
  }

  lemma OpenLabel(ctx: Context, c: Checker, i: Instr)
    requires Valid(c) && Check(ctx, c, i).Some? && (i.Block? || i.Loop? || i.If?)
    ensures var c1 := Check(ctx, c, i).value;
      |c1.labels| == |c.labels| + 1 && (Top(c1).kind.IfLabel? <==> i.If?) && !Top(c1).kind.FuncLabel? && !Top(c1).kind.ElseLabel?
  {
    if i.If? { PopKeeps(c, [I32]); }
  }

  lemma {:induction false} CloseBlock(ctx: Context, c: Checker, code: seq<Instr>, inner: Body, rest1: seq<Instr>)
    returns (ins: Ins)
    requires Valid(c) && CheckAll(ctx, c, code).Some? && code != []
    requires code[0].Block? || code[0].Loop? || code[0].If?
    requires SplitsAs(ctx, Check(ctx, c, code[0]).value, code[1..], inner, rest1)
    requires rest1 != [] && rest1[0].End?
    ensures CheckIns(ctx, ins, c).Some? && Valid(CheckIns(ctx, ins, c).value)
    ensures code == FlattenIns(ins) + rest1[1..] && |rest1| < |code|
    ensures CheckAll(ctx, CheckIns(ctx, ins, c).value, rest1[1..]) == CheckAll(ctx, c, code)
  {
    ins := if code[0].Block? then BlockIns(code[0].results, inner)
           else if code[0].Loop? then LoopIns(code[0].results, inner)
           else IfIns(code[0].results, inner);
    Regroup(code, Flatten(inner), rest1);
    assert CheckIns(ctx, ins, c) == Then(ctx, CheckBody(ctx, inner, Check(ctx, c, code[0]).value), End);
    InsKeeps(ctx, ins, c);
  }

  lemma {:induction false} SplitElse(ctx: Context, c: Checker, code: seq<Instr>, thn: Body, rest1: seq<Instr>)
    returns (b: Body, rest: seq<Instr>, closed: bool)
    requires Valid(c) && CheckAll(ctx, c, code).Some? && code != []
    requires code[0].Block? || code[0].Loop? || code[0].If?
    requires Valid(Check(ctx, c, code[0]).value)
    requires SplitsAs(ctx, Check(ctx, c, code[0]).value, code[1..], thn, rest1)
    requires rest1 != [] && rest1[0].Else?
    ensures closed ==> SplitsAs(ctx, c, code, b, rest)
    ensures !closed ==> Unfinished(CheckAll(ctx, c, code))
    decreases |rest1|, 0
  {
    b, rest, closed := Nil, [], false;
    var c1 := Check(ctx, c, code[0]).value;
    ElseOpens(ctx, c, code, thn, rest1);
    var d := CheckBody(ctx, thn, c1).value;
    var c2 := Check(ctx, d, Else).value;
    var els, rest2, closed2 := Split(ctx, c2, rest1[1..]);
    if closed2 {
      ElseCloses(ctx, c2, rest1[1..], els, rest2);
      if rest2 != [] {
        var ins := CloseIfElse(ctx, c, code, thn, rest1, els, rest2);
        b, rest, closed := Prepend(ctx, c, ins, code, rest2[1..]);
      }
    }
  }

  /** An `else` is accepted only inside an `if`, and opens the second arm. */
  lemma ElseOpens(ctx: Context, c: Checker, code: seq<Instr>, thn: Body, rest1: seq<Instr>)
    requires Valid(c) && CheckAll(ctx, c, code).Some? && code != []
    requires code[0].Block? || code[0].Loop? || code[0].If?
    requires Valid(Check(ctx, c, code[0]).value)
    requires SplitsAs(ctx, Check(ctx, c, code[0]).value, code[1..], thn, rest1)
    requires rest1 != [] && rest1[0].Else?
    ensures code[0].If?
    ensures
      var d := CheckBody(ctx, thn, Check(ctx, c, code[0]).value).value;
      && Check(ctx, d, Else).Some? && Valid(Check(ctx, d, Else).value) && |Check(ctx, d, Else).value.labels| > 1
      && Top(Check(ctx, d, Else).value).kind.ElseLabel?
      && CheckAll(ctx, Check(ctx, d, Else).value, rest1[1..]) == CheckAll(ctx, c, code)
  {
    hide CheckBody, Flatten, Valid, OnElse;
    var c1 := Check(ctx, c, code[0]).value;
    OpenLabel(ctx, c, code[0]);
    BodyKeeps(ctx, thn, c1);
    var d := CheckBody(ctx, thn, c1).value;
    SameKind(c1, d);
    AfterElse(ctx, d, rest1);
    ElseTop(ctx, d);
  }

  lemma SameKind(c: Checker, d: Checker)
    requires SameLabel(c, d)
    ensures |c.labels| > 0 && |d.labels| == |c.labels| && Top(d).kind == Top(c).kind
  {
  }

  lemma AfterElse(ctx: Context, d: Checker, rest: seq<Instr>)
    requires rest != [] && rest[0].Else? && CheckAll(ctx, d, rest).Some?
    ensures Check(ctx, d, Else).Some? && CheckAll(ctx, Check(ctx, d, Else).value, rest[1..]) == CheckAll(ctx, d, rest)
  {
    hide Check;
  }

  lemma ElseTop(ctx: Context, d: Checker)
    requires Valid(d) && Check(ctx, d, Else).Some?
    ensures
      var e := Check(ctx, d, Else).value;
      && Valid(e) && |e.labels| == |d.labels| && Top(d).kind.IfLabel? && Top(e).kind.ElseLabel?
  {
    OnElseKeeps(d);
  }

  /** The second arm never ends in another `else`. */
  lemma ElseCloses(ctx: Context, c2: Checker, code: seq<Instr>, els: Body, rest2: seq<Instr>)
    requires Valid(c2) && |c2.labels| > 1 && Top(c2).kind.ElseLabel? && SplitsAs(ctx, c2, code, els, rest2)
    requires CheckAll(ctx, c2, code).Some?
    ensures rest2 != [] ==> rest2[0].End?
    ensures rest2 == [] ==> Unfinished(CheckAll(ctx, c2, code))
  {
    BodyKeeps(ctx, els, c2);
    assert Top(CheckBody(ctx, els, c2).value).kind.ElseLabel?;
    hide CheckBody, Flatten;
  }

  lemma {:induction false} CloseIfElse(ctx: Context, c: Checker, code: seq<Instr>,
                    thn: Body, rest1: seq<Instr>, els: Body, rest2: seq<Instr>)
    returns (ins: Ins)
    requires Valid(c) && CheckAll(ctx, c, code).Some? && code != [] && code[0].If?
    requires SplitsAs(ctx, Check(ctx, c, code[0]).value, code[1..], thn, rest1)
    requires rest1 != [] && rest1[0].Else?
    requires Then(ctx, CheckBody(ctx, thn, Check(ctx, c, code[0]).value), Else).Some?
    requires SplitsAs(ctx, Then(ctx, CheckBody(ctx, thn, Check(ctx, c, code[0]).value), Else).value, rest1[1..], els, rest2)
    requires rest2 != [] && rest2[0].End?
    ensures CheckIns(ctx, ins, c).Some? && Valid(CheckIns(ctx, ins, c).value)
    ensures code == FlattenIns(ins) + rest2[1..] && |rest2| < |code|
    ensures CheckAll(ctx, CheckIns(ctx, ins, c).value, rest2[1..]) == CheckAll(ctx, c, code)
  {
    ins := IfElseIns(code[0].results, thn, els);
    IfElseStream(code, thn, rest1, els, rest2);
    InsKeeps(ctx, ins, c);
  }

  lemma NothingAfterFunctionEnd(ctx: Context, d: Checker, rest: seq<Instr>)
    requires Valid(d) && |d.labels| == 1 && rest != [] && (rest[0].End? || rest[0].Else?)
    requires CheckAll(ctx, d, rest).Some?
    ensures EndFunction(CheckAll(ctx, d, rest).value).None?
  {
    var e := Check(ctx, d, rest[0]).value;
    assert NoFuncLabel(e);
    NoFuncLabelNeverAccepted(ctx, e, rest[1..]);
  }

  /** Every accepted instruction stream is the flattening of a structured body that checks. */
  lemma AcceptedIsStructured(ctx: Context, code: seq<Instr>) returns (b: Body)
    requires Accepts(ctx, code)
    ensures code == Flatten(b)
    ensures CheckBody(ctx, b, BeginFunction(ctx)).Some? &&
      EndFunction(CheckBody(ctx, b, BeginFunction(ctx)).value).Some?
  {
    hide Check;
    var c := BeginFunction(ctx);
    BeginFunctionValid(ctx);
    var rest, closed;
    b, rest, closed := Split(ctx, c, code);
    assert closed;
    BodyKeeps(ctx, b, c);
    var d := CheckBody(ctx, b, c).value;
    if rest != [] {
      NothingAfterFunctionEnd(ctx, d, rest);
      assert false;
    }
    assert Flatten(b) + [] == Flatten(b);
  }
}
