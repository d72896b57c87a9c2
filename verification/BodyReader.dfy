/** The binary reader of function bodies as the object it is: a cursor that moves over the bytes of
    the module and hands every instruction to the module reader's callbacks. */
module BodyReaderObject {
  import opened Wasm
  import opened LinearMemory
  import opened Reading
  import opened BodyDecoding
  import opened ModuleReaderObject
  import Leb128

  class BinaryReader {
    const t: Table
    const data: seq<byte>
    var offset: nat
    var readEnd: nat

    constructor (t: Table, data: seq<byte>)
      ensures Valid() && this.t == t && this.data == data && offset == 0 && readEnd == |data|
    {
      this.t, this.data := t, data;
      offset, readEnd := 0, |data|;
    }

    predicate Valid()
      reads this
    {
      offset <= readEnd <= |data|
    }

    /** The bytes from the cursor to the end of the section. */
    function Ahead(): seq<byte>
      requires Valid()
      reads this
    {
      data[offset..readEnd]
    }

    method ReadU8() returns (r: Option<byte>)
      requires Valid()
      modifies this`offset
      ensures Valid()
      ensures r == if old(Ahead()) == [] then None else Some(old(Ahead())[0])
      ensures r.Some? ==> offset == old(offset) + 1
    {
      if offset + 1 > readEnd { return None; }
      r := Some(data[offset]);
      offset := offset + 1;
    }

    /** Fixed-width little-endian floats. */
    method ReadFixed(width: nat) returns (r: Option<nat>)
      requires Valid()
      modifies this`offset
      ensures Valid()
      ensures r == if |old(Ahead())| < width then None else Some(Decode(old(Ahead())[..width]))
      ensures r.Some? ==> offset == old(offset) + width
    {
      if offset + width > readEnd { return None; }
      assert data[offset..offset + width] == Ahead()[..width];
      r := Some(Decode(data[offset..offset + width]));
      offset := offset + width;
    }

    method ReadU32Leb128() returns (r: Option<nat>)
      requires Valid()
      modifies this`offset
      ensures Valid()
      ensures
        match Leb128.ReadU32(old(Ahead()))
        case Bad => r.None?
        case Got(k, v) => r == Some(v) && k <= |old(Ahead())| && offset == old(offset) + k
    {
      ReadFront(Ahead());
      match Leb128.ReadU32(Ahead())
      case Bad => return None;
      case Got(k, v) =>
        offset := offset + k;
        return Some(v);
    }

    method ReadS32Leb128() returns (r: Option<nat>)
      requires Valid()
      modifies this`offset
      ensures Valid()
      ensures
        match Leb128.ReadS32(old(Ahead()))
        case Bad => r.None?
        case Got(k, v) => r == Some(v) && offset == old(offset) + k
    {
      match Leb128.ReadS32(Ahead())
      case Bad => return None;
      case Got(k, v) =>
        Leb128.ReadS32Exact(Ahead(), k, v);
        offset := offset + k;
        return Some(v);
    }

    method ReadS64Leb128() returns (r: Option<nat>)
      requires Valid()
      modifies this`offset
      ensures Valid()
      ensures
        match Leb128.ReadS64(old(Ahead()))
        case Bad => r.None?
        case Got(k, v) => r == Some(v) && offset == old(offset) + k
    {
      match Leb128.ReadS64(Ahead())
      case Bad => return None;
      case Got(k, v) =>
        Leb128.ReadS64Exact(Ahead(), k, v);
        offset := offset + k;
        return Some(v);
    }

    /** `n` indices, one after the other. */
    method ReadIndices(n: nat) returns (r: Option<seq<nat>>)
      requires Valid()
      modifies this`offset
      ensures Valid()
      ensures
        match ReadVector(old(Ahead()), n)
        case None => r.None?
        case Some(v) => r == Some(v.0) && offset == old(offset) + v.1
    {
      hide Leb128.ReadU32;
      ghost var p := Ahead();
      var got: seq<nat> := [];
      for i := 0 to n
        invariant Valid() && |got| == i && old(offset) <= offset && readEnd == old(readEnd)
        invariant Continues(p, n, got, offset - old(offset), Ahead())
      {
        ghost var before := Ahead();
        ContinuesStep(p, n, got, offset - old(offset), before);
        var v := ReadU32Leb128();
        if v.None? { return None; }
        ghost var k := Leb128.ReadU32(before).length;
        assert Ahead() == before[k..];
        got := got + [v.value];
      }
      assert got + [] == got;
      return Some(got);
    }

    /** `ReadOpcode`. */
    method ReadOpcode() returns (r: Option<(nat, nat)>)
      requires Valid()
      modifies this`offset
      ensures Valid()
      ensures
        match BodyDecoding.ReadOpcode(old(Ahead()))
        case None => r.None?
        case Some((prefix, code, h)) => r == Some((prefix, code)) && h <= |old(Ahead())| && offset == old(offset) + h
    {
      hide Leb128.ReadU32;
      ghost var p := Ahead();
      var first := ReadU8();
      if first.None? { return None; }
      if !IsPrefixByte(first.value) { return Some((0, first.value)); }
      assert Ahead() == p[1..];
      var code := ReadU32Leb128();
      if code.None? { return None; }
      return Some((first.value, code.value));
    }

    method ReadImmediates(kind: Kind) returns (r: Option<Imm>)
      requires Valid()
      modifies this`offset
      ensures Valid()
      ensures
        match ReadImm(kind, old(Ahead()))
        case None => r.None?
        case Some((imm, k)) => r == Some(imm) && offset == old(offset) + k
    {
      hide Leb128.ReadU32, Leb128.ReadS32, Leb128.ReadS64, ReadVector, Decode;
      ghost var p := Ahead();
      match kind
      case NoKind => return Some(NoImm);
      case IndexKind =>
        var v := ReadU32Leb128();
        return if v.Some? then Some(Number(v.value)) else None;
      case PairKind =>
        VectorLength(p, 2);
        var v := ReadIndices(2);
        return if v.Some? then Some(Two(v.value[0], v.value[1])) else None;
      case TypeKind =>
        var v := ReadS32Leb128();
        if v.None? { return None; }
        var ts := BlockResults(AsInt32(v.value));
        return if ts.Some? then Some(Results(ts.value)) else None;
      case TargetsKind =>
        var n := ReadU32Leb128();
        if n.None? { return None; }
        ghost var q := Ahead();
        assert q == p[Leb128.ReadU32(p).length..];
        VectorLength(q, n.value + 1);
        var v := ReadIndices(n.value + 1);
        return if v.Some? then Some(Targets(v.value[..n.value], v.value[n.value])) else None;
      case S32Kind =>
        var v := ReadS32Leb128();
        return if v.Some? then Some(Number(v.value)) else None;
      case S64Kind =>
        var v := ReadS64Leb128();
        return if v.Some? then Some(Number(v.value)) else None;
      case F32Kind =>
        var v := ReadFixed(4);
        return if v.Some? then Some(Number(v.value)) else None;
      case F64Kind =>
        var v := ReadFixed(8);
        return if v.Some? then Some(Number(v.value)) else None;
    }

    /** One opcode and its immediates. */
    method ReadInstruction() returns (r: Option<Instr>)
      requires Valid()
      modifies this`offset
      ensures Valid()
      ensures
        match ReadInstr(t, old(Ahead()))
        case None => r.None?
        case Some((i, n)) => r == Some(i) && offset == old(offset) + n
    {
      hide KindOf, Build, ReadImm, BodyDecoding.ReadOpcode;
      ghost var p := Ahead();
      var op := ReadOpcode();
      if op.None? { return None; }
      var kind := KindOf(t, op.value.0, op.value.1);
      if kind.None? { return None; }
      assert Ahead() == p[offset - old(offset)..];
      var imm := ReadImmediates(kind.value);
      if imm.None? { return None; }
      return Build(t, op.value.0, op.value.1, imm.value);
    }

    /** `ReadFunctionBody`: instruction after instruction until `end`, each handed to the module reader;
        an `end` that stops exactly there closes the body and is not handed on. It succeeds exactly
        when the bytes up to `end` encode a body within the section whose every callback succeeds. */
    method ReadFunctionBody(end: nat, r: ModuleReader) returns (ok: bool)
      requires Valid() && NoVoid(r.checker.State())
      modifies this`offset, r, r.checker
      ensures Valid() && (ok ==> offset == end)
      ensures ok <==>
        old(offset) < end <= readEnd && exists s :: ReadsTo(t, r.ctx, old(r.State()), data[old(offset)..end], s)
      ensures ok ==> ReadsTo(t, r.ctx, old(r.State()), data[old(offset)..end], r.State())
    {
      hide ReadInstr, Read, ReadsTo, NoVoid;
      ghost var ctx, s0 := r.ctx, r.State();
      ghost var begin := offset;
      var seenEnd := false;
      while offset < end
        invariant Valid() && begin <= offset && NoVoid(r.checker.State())
        invariant seenEnd ==> offset == end
        invariant begin < end <= readEnd && offset > end ==> forall s :: !ReadsTo(t, ctx, s0, data[begin..end], s)
        invariant begin < end <= readEnd && offset <= end && !seenEnd ==>
          forall s :: ReadsTo(t, ctx, s0, data[begin..end], s) <==> ReadsTo(t, ctx, r.State(), data[offset..end], s)
        invariant begin < end <= readEnd && seenEnd ==>
          forall s :: ReadsTo(t, ctx, s0, data[begin..end], s) <==> s == r.State()
        invariant offset > begin || !seenEnd
        decreases end - offset
      {
        ghost var p, s1, from := Ahead(), r.State(), offset;
        InstrTakesBytes(t, p);
        if end <= readEnd { RoundOfBody(t, ctx, s1, p, end - offset); assert p[..end - offset] == data[offset..end]; }
        var i := ReadInstruction();
        if i.None? {
          assert end <= readEnd ==> forall s :: !ReadsTo(t, ctx, s0, data[begin..end], s);
          return false;
        }
        assert end <= readEnd && offset <= end ==> p[offset - from..][..end - offset] == data[offset..end];
        if i.value == End && offset == end {
          seenEnd := true;
        } else {
          ok := r.OnInstr(i.value);
          if !ok {
            assert end <= readEnd ==> forall s :: !ReadsTo(t, ctx, s0, data[begin..end], s);
            return;
          }
          ReadKeepsNoVoid(ctx, s1, i.value);
          if offset == end { NothingToRead(t, ctx, r.State(), data[offset..end]); }
        }
      }
      if begin < end == offset && !seenEnd { NothingToRead(t, ctx, r.State(), data[offset..end]); }
      ok := offset == end && seenEnd;
      assert ok ==> ReadsTo(t, ctx, s0, data[begin..end], r.State());
      assert !ok && begin < end <= readEnd ==> forall s :: !ReadsTo(t, ctx, s0, data[begin..end], s);
    }

    /** The body of one function: the bytes are accepted and compiled exactly when they encode, within
        the section, instructions that the one-pass compiler accepts, and then give its code. */
    method ReadBody(end: nat, r: ModuleReader) returns (ok: bool, flat: seq<Rec>)
      requires Valid()
      modifies this`offset, r, r.checker
      ensures Valid()
      ensures ok <==>
        old(offset) < end <= readEnd &&
        exists code :: IsBody(t, data[old(offset)..end], code) && CompileBody(r.ctx, code).Some?
      ensures ok ==> forall code :: IsBody(t, data[old(offset)..end], code) ==> CompileBody(r.ctx, code) == Some(flat)
    {
      hide IsBody, Finish, ReadAll;
      flat := [];
      r.BeginFunctionBody();
      ghost var ctx, bs := r.ctx, if offset < end <= readEnd then data[offset..end] else [];
      ok := ReadFunctionBody(end, r);
      if !ok {
        if old(offset) < end <= readEnd { NoCompiledBody(t, ctx, bs); }
        return;
      }
      ghost var s := r.State();
      CompiledBody(t, ctx, bs, s);
      ok, flat := r.EndFunctionBody();
    }
  }

  /** The bytes encode instructions that take the module reader from `s0` to `s`. */
  ghost predicate ReadsTo(t: Table, ctx: Context, s0: Reader, bs: seq<byte>, s: Reader) {
    exists code :: IsBody(t, bs, code) && ReadAll(ctx, s0, code) == Some(s)
  }

  lemma RoundOfBody(t: Table, ctx: Context, s0: Reader, p: seq<byte>, len: nat)
    requires 0 < len <= |p|
    ensures forall s ::
      ReadsTo(t, ctx, s0, p[..len], s) <==>
      match ReadInstr(t, p)
      case None => false
      case Some((i, n)) =>
        if n > len then false
        else if n == len then i == End && s == s0
        else Read(ctx, s0, i).Some? && ReadsTo(t, ctx, Read(ctx, s0, i).value, p[n..][..len - n], s)
  {
    hide ReadInstr, Read;
    forall s ensures
      ReadsTo(t, ctx, s0, p[..len], s) <==>
      match ReadInstr(t, p)
      case None => false
      case Some((i, n)) =>
        if n > len then false
        else if n == len then i == End && s == s0
        else Read(ctx, s0, i).Some? && ReadsTo(t, ctx, Read(ctx, s0, i).value, p[n..][..len - n], s)
    {
      RoundTo(t, ctx, s0, p, len, s);
    }
  }

  lemma RoundTo(t: Table, ctx: Context, s0: Reader, p: seq<byte>, len: nat, s: Reader)
    requires 0 < len <= |p|
    ensures
      ReadsTo(t, ctx, s0, p[..len], s) <==>
      match ReadInstr(t, p)
      case None => false
      case Some((i, n)) =>
        if n > len then false
        else if n == len then i == End && s == s0
        else Read(ctx, s0, i).Some? && ReadsTo(t, ctx, Read(ctx, s0, i).value, p[n..][..len - n], s)
  {
    hide ReadInstr, Read, IsBody;
    if ReadsTo(t, ctx, s0, p[..len], s) {
      var code :| IsBody(t, p[..len], code) && ReadAll(ctx, s0, code) == Some(s);
      BodyStep(t, p, len, code);
    }
    if ReadInstr(t, p).Some? {
      var (i, n) := ReadInstr(t, p).value;
      if n == len && i == End {
        BodyStep(t, p, len, []);
      } else if n < len && Read(ctx, s0, i).Some? && ReadsTo(t, ctx, Read(ctx, s0, i).value, p[n..][..len - n], s) {
        var rest :| IsBody(t, p[n..][..len - n], rest) && ReadAll(ctx, Read(ctx, s0, i).value, rest) == Some(s);
        assert ([i] + rest)[1..] == rest;
        BodyStep(t, p, len, [i] + rest);
      }
    }
  }

  lemma NothingToRead(t: Table, ctx: Context, s0: Reader, bs: seq<byte>)
    requires bs == []
    ensures forall s :: !ReadsTo(t, ctx, s0, bs, s)
  {
    forall code ensures !IsBody(t, bs, code) {
      if IsBody(t, bs, code) { NoEmptyBody(t, bs, code); }
    }
  }

  lemma NoCompiledBody(t: Table, ctx: Context, bs: seq<byte>)
    requires forall s :: !ReadsTo(t, ctx, Begin(ctx), bs, s)
    ensures forall code :: IsBody(t, bs, code) ==> CompileBody(ctx, code).None?
  {
    hide IsBody, ReadAll;
    forall code | IsBody(t, bs, code) ensures CompileBody(ctx, code).None? {
      if ReadAll(ctx, Begin(ctx), code).Some? { assert ReadsTo(t, ctx, Begin(ctx), bs, ReadAll(ctx, Begin(ctx), code).value); }
    }
  }

  lemma CompiledBody(t: Table, ctx: Context, bs: seq<byte>, s: Reader)
    requires ReadsTo(t, ctx, Begin(ctx), bs, s)
    ensures exists code :: IsBody(t, bs, code) && CompileBody(ctx, code) == Finish(s)
    ensures forall code :: IsBody(t, bs, code) ==> CompileBody(ctx, code) == Finish(s)
  {
    hide IsBody, ReadAll, Finish;
    var code :| IsBody(t, bs, code) && ReadAll(ctx, Begin(ctx), code) == Some(s);
    forall other | IsBody(t, bs, other) ensures CompileBody(ctx, other) == Finish(s) { BodyUnique(t, bs, code, other); }
  }

  /** The indices got so far, and the bytes they took, are the front of the whole vector. */
  predicate Continues(p: seq<byte>, n: nat, got: seq<nat>, taken: nat, ahead: seq<byte>) {
    |got| <= n &&
    match (ReadVector(ahead, n - |got|), ReadVector(p, n))
    case (None, None) => true
    case (Some(rest), Some(all)) => all.0 == got + rest.0 && all.1 == taken + rest.1
    case _ => false
  }

  lemma ContinuesStep(p: seq<byte>, n: nat, got: seq<nat>, taken: nat, ahead: seq<byte>)
    requires Continues(p, n, got, taken, ahead) && |got| < n
    ensures Leb128.ReadU32(ahead).Bad? ==> ReadVector(p, n).None?
    ensures
      match Leb128.ReadU32(ahead)
      case Bad => true
      case Got(k, v) => k <= |ahead| && Continues(p, n, got + [v], taken + k, ahead[k..])
  {
    ReadFront(ahead);
    hide Leb128.ReadU32, Leb128.IsUnsigned;
    if Leb128.ReadU32(ahead).Got? {
      var k, v := Leb128.ReadU32(ahead).length, Leb128.ReadU32(ahead).value;
      var rest := ReadVector(ahead[k..], n - |got| - 1);
      if rest.Some? { assert got + ([v] + rest.value.0) == got + [v] + rest.value.0; }
    }
  }

  lemma VectorLength(p: seq<byte>, n: nat)
    ensures ReadVector(p, n).Some? ==> |ReadVector(p, n).value.0| == n
  {
    if ReadVector(p, n).Some? { VectorRead(p, n); }
  }
}
