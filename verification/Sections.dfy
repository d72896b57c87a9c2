/** The frame of a binary module: magic number, version and sections, against section 5.5 of the
    WebAssembly Core Specification 1.0. What is inside a section is a parameter: given the state built
    so far, the section's number and its bytes, the reader of its contents fails or gives the new state
    and how many bytes it consumed. */
module Sections {
  import opened Wasm
  import opened LinearMemory
  import Leb128
  import BodyDecoding
  import FloatToInt
  import MemoryLaws

  const SECTION_COUNT: nat := 12
  const CUSTOM: nat := 0
  const NO_SECTION: nat := 12  // `BinarySection::Invalid`: none of the known ones seen yet

  const MAGIC: nat := 0x6d73_6100
  const VERSION: nat := 1

  /** `\0asm`, then version 1, least significant byte first. */
  const PREAMBLE: seq<byte> := [0x00, 0x61, 0x73, 0x6d, 0x01, 0x00, 0x00, 0x00]

  type Contents<!S> = (S, nat, seq<byte>) -> Option<(S, nat)>

  /** `bs` starts with a section's number in `a` bytes and its size in `b` bytes, and `size` bytes of
      contents follow. */
  predicate Framed(bs: seq<byte>, a: nat, b: nat, code: nat, size: nat) {
    && a + b + size <= |bs|
    && Leb128.IsUnsigned(32, bs[..a], code) && Leb128.IsUnsigned(32, bs[a..a + b], size)
  }

  /** Sections are numbered 0 to 11. Those but 0, the custom ones, come in the order of their numbers,
      each at most once; `last` is 12 as long as none of them has come. */
  predicate InOrder(last: nat, code: nat) {
    code <= 11 && (code == 0 || last == 12 || code > last)
  }

  function LastAfter(last: nat, code: nat): nat {
    if code == 0 then last else code
  }

  /** `bs` is a sequence of sections, and reading their contents one after the other leads from `st`
      to `out`. */
  ghost predicate IsSections<S>(rd: Contents<S>, st: S, last: nat, bs: seq<byte>, out: S)
    decreases |bs|, 1
  {
    if bs == [] then out == st
    else exists a: nat, b: nat, code: nat, size: nat :: StartsWith(rd, st, last, bs, out, a, b, code, size)
  }

  /** The first section of `bs` is the one of this frame. */
  ghost predicate StartsWith<S>(rd: Contents<S>, st: S, last: nat, bs: seq<byte>, out: S, a: nat, b: nat, code: nat, size: nat)
    decreases |bs|, 0
  {
    && Framed(bs, a, b, code, size) && a + b + size > 0 && InOrder(last, code)
    && match rd(st, code, bs[a + b..a + b + size])
       case None => false
       case Some((next, used)) => used == size && IsSections(rd, next, LastAfter(last, code), bs[a + b + size..], out)
  }

  /** … and every section's contents can be read. */
  ghost predicate AreSections<S(!new)>(rd: Contents<S>, st: S, last: nat, bs: seq<byte>) {
    exists out :: IsSections(rd, st, last, bs, out)
  }

  /** A frame can be read in one way only. */
  lemma FrameUnique(bs: seq<byte>, a: nat, b: nat, code: nat, size: nat)
    requires Framed(bs, a, b, code, size)
    ensures Leb128.ReadU32(bs) == Leb128.Got(a, code) && Leb128.ReadU32(bs[a..]) == Leb128.Got(b, size)
    ensures a > 0 && b > 0
  {
    hide Leb128.ReadU32, Leb128.IsUnsigned;
    BodyDecoding.FrontU32(bs, a, code);
    assert bs[a..][..b] == bs[a..a + b];
    BodyDecoding.FrontU32(bs[a..], b, size);
    BodyDecoding.UnsignedNotEmpty(32, bs[..a], code);
    BodyDecoding.UnsignedNotEmpty(32, bs[a..a + b], size);
  }

  /** One round of the loop. */
  lemma SectionStep<S(!new)>(rd: Contents<S>, st: S, last: nat, bs: seq<byte>, a: nat, b: nat, code: nat, size: nat, out: S)
    requires bs != [] && Framed(bs, a, b, code, size)
    ensures IsSections(rd, st, last, bs, out) <==>
      && InOrder(last, code)
      && match rd(st, code, bs[a + b..a + b + size])
         case None => false
         case Some((next, used)) => used == size && IsSections(rd, next, LastAfter(last, code), bs[a + b + size..], out)
  {
    FrameUnique(bs, a, b, code, size);
    if IsSections(rd, st, last, bs, out) { OnlyStart(rd, st, last, bs, out, a, b, code, size); }
    if StartsWith(rd, st, last, bs, out, a, b, code, size) { SomeStart(rd, st, last, bs, out, a, b, code, size); }
    hide Leb128.ReadU32, Leb128.IsUnsigned, InOrder, LastAfter, IsSections;
  }

  lemma SomeStart<S(!new)>(rd: Contents<S>, st: S, last: nat, bs: seq<byte>, out: S, a: nat, b: nat, code: nat, size: nat)
    requires bs != [] && StartsWith(rd, st, last, bs, out, a, b, code, size)
    ensures IsSections(rd, st, last, bs, out)
  {
  }

  lemma OnlyStart<S(!new)>(rd: Contents<S>, st: S, last: nat, bs: seq<byte>, out: S, a: nat, b: nat, code: nat, size: nat)
    requires bs != [] && IsSections(rd, st, last, bs, out) && Framed(bs, a, b, code, size)
    ensures StartsWith(rd, st, last, bs, out, a, b, code, size)
  {
    FrameUnique(bs, a, b, code, size);
    var a2: nat, b2: nat, code2: nat, size2: nat :| StartsWith(rd, st, last, bs, out, a2, b2, code2, size2);
    FrameUnique(bs, a2, b2, code2, size2);
  }

  lemma NoFrame<S(!new)>(rd: Contents<S>, st: S, last: nat, bs: seq<byte>, out: S)
    requires bs != [] && forall a: nat, b: nat, code: nat, size: nat :: !Framed(bs, a, b, code, size)
    ensures !IsSections(rd, st, last, bs, out)
  {
  }

  class SectionReader<!S(!new)> {
    const rd: Contents<S>
    const data: seq<byte>
    var offset: nat
    var readEnd: nat
    var lastKnown: nat
    var state: S

    constructor (rd: Contents<S>, data: seq<byte>, state: S)
      ensures this.rd == rd && this.data == data && this.state == state
      ensures offset == 0 && readEnd == |data| && lastKnown == NO_SECTION
    {
      this.rd, this.data, this.state := rd, data, state;
      offset, readEnd, lastKnown := 0, |data|, NO_SECTION;
    }

    method ReadU32Leb128() returns (r: Option<nat>)
      requires offset <= readEnd <= |data|
      modifies this`offset
      ensures offset <= readEnd && (r.Some? ==> old(offset) < offset)
      ensures
        match Leb128.ReadU32(data[old(offset)..readEnd])
        case Bad => r.None?
        case Got(k, v) => r == Some(v) && offset == old(offset) + k
    {
      BodyDecoding.ReadFront(data[offset..readEnd]);
      match Leb128.ReadU32(data[offset..readEnd])
      case Bad => return None;
      case Got(k, v) =>
        offset := offset + k;
        return Some(v);
    }

    /** `ReadSections`: succeeds exactly when the rest of the module is a sequence of sections, and then
        has read all of it. */
    method ReadSections() returns (ok: bool)
      requires offset <= |data|
      modifies this
      ensures ok <==> AreSections(rd, old(state), old(lastKnown), data[old(offset)..])
      ensures ok ==> offset == |data| && IsSections(rd, old(state), old(lastKnown), data[old(offset)..], state)
    {
      hide Leb128.ReadU32, Leb128.IsUnsigned, IsSections, InOrder;
      ghost var whole := data[offset..];
      while offset < |data|
        invariant offset <= |data|
        invariant forall out ::
          IsSections(rd, old(state), old(lastKnown), whole, out) <==> IsSections(rd, state, lastKnown, data[offset..], out)
        decreases |data| - offset
      {
        ghost var bs, from := data[offset..], offset;
        readEnd := |data|;
        assert data[offset..readEnd] == bs;
        var sectionCode := ReadU32Leb128();
        if sectionCode.None? { NoSections(rd, state, lastKnown, bs); return false; }
        ghost var a := offset - from;
        assert data[offset..readEnd] == bs[a..];
        var sectionSize := ReadU32Leb128();
        if sectionSize.None? { NoSections(rd, state, lastKnown, bs); return false; }
        ghost var b := offset - from - a;
        var code, size := sectionCode.value, sectionSize.value;
        readEnd := offset + size;
        if readEnd > |data| { NoSections(rd, state, lastKnown, bs); return false; }
        FrameRead(bs, a, b, code, size);
        Steps(rd, state, lastKnown, bs, a, b, code, size);
        if code >= SECTION_COUNT { NotInOrder(lastKnown, code); return false; }
        if !(lastKnown == NO_SECTION || code == CUSTOM || code > lastKnown) { NotInOrder(lastKnown, code); return false; }
        assert InOrder(lastKnown, code) by { KnownOrder(lastKnown, code); }
        assert data[offset..readEnd] == bs[a + b..a + b + size] && data[readEnd..] == bs[a + b + size..];
        var read := rd(state, code, data[offset..readEnd]);
        if read.None? { return false; }
        state := read.value.0;
        offset := offset + read.value.1;
        if offset != readEnd { return false; }
        if code != CUSTOM { lastKnown := code; }
      }
      assert data[offset..] == [];
      NoMore(rd, state, lastKnown);
      assert IsSections(rd, old(state), old(lastKnown), whole, state);
      return true;
    }

    /** `ReadModule`: magic number, version, sections. */
    method ReadModule() returns (ok: bool)
      requires offset == 0 && readEnd == |data| && lastKnown == NO_SECTION
      modifies this
      ensures ok <==> PREAMBLE <= data && AreSections(rd, old(state), NO_SECTION, data[8..])
      ensures ok ==> IsSections(rd, old(state), NO_SECTION, data[8..], state)
    {
      hide IsSections;
      PreambleBytes(data);
      if 4 > readEnd { return false; }
      var magic := Decode(data[..4]);
      offset := 4;
      if magic != MAGIC { return false; }
      if offset + 4 > readEnd { return false; }
      var version := Decode(data[4..8]);
      offset := 8;
      if version != VERSION { return false; }
      ok := ReadSections();
    }
  }

  lemma FrameRead(bs: seq<byte>, a: nat, b: nat, code: nat, size: nat)
    requires a <= |bs| && Leb128.ReadU32(bs) == Leb128.Got(a, code) && Leb128.ReadU32(bs[a..]) == Leb128.Got(b, size)
    requires a + b + size <= |bs|
    ensures Framed(bs, a, b, code, size)
  {
    hide Leb128.ReadU32, Leb128.IsUnsigned;
    BodyDecoding.ReadFront(bs);
    BodyDecoding.ReadFront(bs[a..]);
    assert bs[a..][..b] == bs[a..a + b];
  }

  lemma NoSections<S(!new)>(rd: Contents<S>, st: S, last: nat, bs: seq<byte>)
    requires bs != []
    requires
      match Leb128.ReadU32(bs)
      case Bad => true
      case Got(a, _) =>
        a <= |bs| &&
        match Leb128.ReadU32(bs[a..])
        case Bad => true
        case Got(b, size) => a + b + size > |bs|
    ensures forall out :: !IsSections(rd, st, last, bs, out)
  {
    hide Leb128.ReadU32, Leb128.IsUnsigned;
    forall a: nat, b: nat, code: nat, size: nat ensures !Framed(bs, a, b, code, size) {
      if Framed(bs, a, b, code, size) { FrameUnique(bs, a, b, code, size); }
    }
    forall out ensures !IsSections(rd, st, last, bs, out) { NoFrame(rd, st, last, bs, out); }
  }

  lemma Steps<S(!new)>(rd: Contents<S>, st: S, last: nat, bs: seq<byte>, a: nat, b: nat, code: nat, size: nat)
    requires bs != [] && Framed(bs, a, b, code, size)
    ensures forall out :: IsSections(rd, st, last, bs, out) <==>
      && InOrder(last, code)
      && match rd(st, code, bs[a + b..a + b + size])
         case None => false
         case Some((next, used)) => used == size && IsSections(rd, next, LastAfter(last, code), bs[a + b + size..], out)
  {
    hide IsSections;
    forall out ensures IsSections(rd, st, last, bs, out) <==>
      && InOrder(last, code)
      && match rd(st, code, bs[a + b..a + b + size])
         case None => false
         case Some((next, used)) => used == size && IsSections(rd, next, LastAfter(last, code), bs[a + b + size..], out)
    {
      SectionStep(rd, st, last, bs, a, b, code, size, out);
    }
  }

  lemma NotInOrder(last: nat, code: nat)
    requires code >= SECTION_COUNT || !(last == NO_SECTION || code == CUSTOM || code > last)
    ensures !InOrder(last, code)
  {
  }

  lemma KnownOrder(last: nat, code: nat)
    requires code < SECTION_COUNT && (last == NO_SECTION || code == CUSTOM || code > last)
    ensures InOrder(last, code)
  {
  }

  lemma NoMore<S(!new)>(rd: Contents<S>, st: S, last: nat)
    ensures forall out :: IsSections(rd, st, last, [], out) <==> out == st
  {
  }

  lemma WordIs(bs: seq<byte>, n: nat)
    requires |bs| == 4 && n < TWO32
    ensures Decode(bs) == n <==> bs == Encode(n, 4)
  {
    FloatToInt.Powers();
    hide Encode, Decode, Pow2;
    MemoryLaws.DecodeEncode(n, 4);
    MemoryLaws.EncodeDecode(bs);
    Leb128.SmallMod(n, TWO32);
  }

  lemma PrefixOf(p: seq<byte>, data: seq<byte>)
    requires |p| == 8 <= |data|
    ensures p <= data <==> data[..4] == p[..4] && data[4..8] == p[4..]
  {
    assert data[..8] == data[..4] + data[4..8] && p == p[..4] + p[4..];
    assert data[..8][..4] == data[..4] && data[..8][4..] == data[4..8];
  }

  lemma PreambleBytes(data: seq<byte>)
    ensures PREAMBLE <= data <==> |data| >= 8 && Decode(data[..4]) == MAGIC && Decode(data[4..8]) == VERSION
  {
    hide Encode, Decode;
    Digits();
    assert PREAMBLE[..4] == [0x00, 0x61, 0x73, 0x6d] && PREAMBLE[4..] == [0x01, 0x00, 0x00, 0x00];
    if |data| >= 8 {
      WordIs(data[..4], MAGIC);
      WordIs(data[4..8], VERSION);
      PrefixOf(PREAMBLE, data);
    }
  }

  lemma Digits()
    ensures Encode(MAGIC, 4) == [0x00, 0x61, 0x73, 0x6d] && Encode(VERSION, 4) == [0x01, 0x00, 0x00, 0x00]
  {
    assert Encode(0x6d, 1) == [0x6d] && Encode(0x6d73, 2) == [0x73, 0x6d] && Encode(0x6d_7361, 3) == [0x61, 0x73, 0x6d];
    assert Encode(0, 1) == [0] && Encode(0, 2) == [0, 0] && Encode(0, 3) == [0, 0, 0];
  }

  /* ---- conformance ---- */

  lemma FirstSection<S(!new)>(rd: Contents<S>, st: S, last: nat, bs: seq<byte>, out: S)
    returns (a: nat, b: nat, code: nat, size: nat)
    requires bs != [] && IsSections(rd, st, last, bs, out)
    ensures StartsWith(rd, st, last, bs, out, a, b, code, size) && Framed(bs, a, b, code, size)
  {
    a, b, code, size :| StartsWith(rd, st, last, bs, out, a, b, code, size);
  }

  lemma NumberIs(bs: seq<byte>, k: nat, n: nat, a: nat, b: nat, code: nat, size: nat)
    requires k <= |bs| && Leb128.IsUnsigned(32, bs[..k], n) && Framed(bs, a, b, code, size)
    ensures a == k && code == n
  {
    FrameUnique(bs, a, b, code, size);
    BodyDecoding.FrontU32(bs, k, n);
  }

  lemma SameFrame(n1: seq<byte>, n2: seq<byte>, code: nat, rest: seq<byte>, b: nat, size: nat)
    requires Leb128.IsUnsigned(32, n1, code) && Leb128.IsUnsigned(32, n2, code)
    ensures Framed(n1 + rest, |n1|, b, code, size) <==> Framed(n2 + rest, |n2|, b, code, size)
  {
    hide Leb128.IsUnsigned;
    assert (n1 + rest)[..|n1|] == n1 && (n2 + rest)[..|n2|] == n2;
    if b + size <= |rest| {
      assert (n1 + rest)[|n1|..|n1| + b] == rest[..b] == (n2 + rest)[|n2|..|n2| + b];
    }
  }

  lemma SameStart<S(!new)>(rd: Contents<S>, st: S, last: nat, n1: seq<byte>, n2: seq<byte>, code: nat, rest: seq<byte>, out: S, b: nat, size: nat)
    requires Leb128.IsUnsigned(32, n1, code) && Leb128.IsUnsigned(32, n2, code)
    requires StartsWith(rd, st, last, n1 + rest, out, |n1|, b, code, size)
    ensures StartsWith(rd, st, last, n2 + rest, out, |n2|, b, code, size)
  {
    hide Leb128.IsUnsigned, IsSections, InOrder, LastAfter;
    assert b + size <= |rest|;
    SameFrame(n1, n2, code, rest, b, size);
    BodyDecoding.UnsignedNotEmpty(32, n2, code);
    Beyond(n1, rest, b, b + size);
    Beyond(n2, rest, b, b + size);
    hide Framed;
  }

  lemma Beyond(n: seq<byte>, rest: seq<byte>, x: nat, y: nat)
    requires x <= y <= |rest|
    ensures (n + rest)[|n| + x..|n| + y] == rest[x..y] && (n + rest)[|n| + y..] == rest[y..]
  {
  }

  /** The number of a section is read like any u32: whatever encoding of it comes first, the bytes are
      accepted or not all the same. */
  lemma AnyNumber<S(!new)>(rd: Contents<S>, st: S, last: nat, n1: seq<byte>, n2: seq<byte>, code: nat, rest: seq<byte>)
    requires Leb128.IsUnsigned(32, n1, code) && Leb128.IsUnsigned(32, n2, code)
    ensures AreSections(rd, st, last, n1 + rest) ==> AreSections(rd, st, last, n2 + rest)
  {
    hide IsSections, StartsWith, Framed, Leb128.IsUnsigned;
    BodyDecoding.UnsignedNotEmpty(32, n1, code);
    BodyDecoding.UnsignedNotEmpty(32, n2, code);
    if AreSections(rd, st, last, n1 + rest) {
      var out :| IsSections(rd, st, last, n1 + rest, out);
      var a, b, c, size := FirstSection(rd, st, last, n1 + rest, out);
      assert (n1 + rest)[..|n1|] == n1;
      NumberIs(n1 + rest, |n1|, code, a, b, c, size);
      SameStart(rd, st, last, n1, n2, code, rest, out, b, size);
      SomeStart(rd, st, last, n2 + rest, out, |n2|, b, code, size);
    }
  }

  /** The WebAssembly Core Specification gives a section's number one byte; up to five are accepted, to the same effect. */
  lemma PaddedNumber<S(!new)>(rd: Contents<S>, st: S, last: nat, code: byte, rest: seq<byte>, length: nat)
    requires code < SECTION_COUNT && 1 <= length <= 5
    ensures AreSections(rd, st, last, [code] + rest) <==> AreSections(rd, st, last, Leb128.Padded(code, length) + rest)
    ensures |Leb128.Padded(code, length)| == length
  {
    hide AreSections;
    Leb128.Sizes();
    Leb128.WeightGrows(1, length);
    assert Leb128.Weight(1) == 128 && Leb128.Padded(code, 1) == [code];
    hide Leb128.Weight, Leb128.Padded, Pow2;
    Leb128.PaddedEncodes(32, code, 1);
    Leb128.PaddedEncodes(32, code, length);
    AnyNumber(rd, st, last, [code], Leb128.Padded(code, length), code, rest);
    AnyNumber(rd, st, last, Leb128.Padded(code, length), [code], code, rest);
  }

  /** The sections of section 5.5.2 of the WebAssembly Core Specification 1.0, with the number of each in
      a single byte. */
  ghost predicate StrictSections<S>(rd: Contents<S>, st: S, last: nat, bs: seq<byte>, out: S)
    decreases |bs|, 1
  {
    if bs == [] then out == st
    else exists b: nat, size: nat :: StrictStart(rd, st, last, bs, out, b, size)
  }

  ghost predicate StrictStart<S>(rd: Contents<S>, st: S, last: nat, bs: seq<byte>, out: S, b: nat, size: nat)
    decreases |bs|, 0
  {
    && bs != [] && 1 + b + size <= |bs| && Leb128.IsUnsigned(32, bs[1..1 + b], size) && InOrder(last, bs[0])
    && match rd(st, bs[0], bs[1 + b..1 + b + size])
       case None => false
       case Some((next, used)) => used == size && StrictSections(rd, next, LastAfter(last, bs[0]), bs[1 + b + size..], out)
  }

  /** Every section's number takes one byte: what a caller can see by going from frame to frame. */
  predicate ShortNumbers(bs: seq<byte>)
    decreases |bs|
  {
    if bs == [] then true
    else
      match Leb128.ReadU32(bs)
      case Bad => true
      case Got(a, _) =>
        a == 1 &&
        match Leb128.ReadU32(bs[1..])
        case Bad => true
        case Got(b, size) => 1 + b + size <= |bs| ==> ShortNumbers(bs[1 + b + size..])
  }

  lemma ShortStart(bs: seq<byte>, a: nat, b: nat, code: nat, size: nat)
    requires bs != [] && Framed(bs, a, b, code, size)
    ensures ShortNumbers(bs) <==> a == 1 && ShortNumbers(bs[a + b + size..])
  {
    FrameUnique(bs, a, b, code, size);
    hide Leb128.ReadU32, Leb128.IsUnsigned;
  }

  lemma OneByteNumber(bs: seq<byte>, code: nat)
    requires |bs| >= 1
    ensures code < SECTION_COUNT ==> (Leb128.IsUnsigned(32, bs[..1], code) <==> bs[0] == code)
  {
    assert bs[..1][0] == bs[0];
    if code < SECTION_COUNT { Leb128.WideEnough(32, code); }
  }

  lemma StrictAgrees<S(!new)>(rd: Contents<S>, st: S, last: nat, bs: seq<byte>, out: S, b: nat, size: nat, next: S)
    requires bs != [] && StrictStart(rd, st, last, bs, out, b, size)
    requires 1 + b + size <= |bs| && rd(st, bs[0], bs[1 + b..1 + b + size]) == Some((next, size))
    requires IsSections(rd, next, LastAfter(last, bs[0]), bs[1 + b + size..], out)
    ensures StartsWith(rd, st, last, bs, out, 1, b, bs[0], size)
  {
    OneByteNumber(bs, bs[0]);
    hide Leb128.IsUnsigned, IsSections, StrictSections;
  }

  lemma StrictlyStarts<S(!new)>(rd: Contents<S>, st: S, last: nat, bs: seq<byte>, out: S, b: nat, code: nat, size: nat)
    requires bs != [] && StartsWith(rd, st, last, bs, out, 1, b, code, size)
    requires match rd(st, code, bs[1 + b..1 + b + size]) case None => true
             case Some((next, _)) => StrictSections(rd, next, LastAfter(last, code), bs[1 + b + size..], out)
    ensures StrictStart(rd, st, last, bs, out, b, size)
  {
    OneByteNumber(bs, code);
    hide Leb128.IsUnsigned, IsSections, StrictSections;
  }

  lemma SomeStrict<S(!new)>(rd: Contents<S>, st: S, last: nat, bs: seq<byte>, out: S, b: nat, size: nat)
    requires bs != [] && StrictStart(rd, st, last, bs, out, b, size)
    ensures StrictSections(rd, st, last, bs, out)
  {
  }

  lemma FirstStrict<S(!new)>(rd: Contents<S>, st: S, last: nat, bs: seq<byte>, out: S) returns (b: nat, size: nat, next: S)
    requires bs != [] && StrictSections(rd, st, last, bs, out)
    ensures StrictStart(rd, st, last, bs, out, b, size) && 1 + b + size <= |bs|
    ensures rd(st, bs[0], bs[1 + b..1 + b + size]) == Some((next, size))
    ensures StrictSections(rd, next, LastAfter(last, bs[0]), bs[1 + b + size..], out)
  {
    b, size :| StrictStart(rd, st, last, bs, out, b, size);
    next := rd(st, bs[0], bs[1 + b..1 + b + size]).value.0;
  }

  lemma FrameOf<S(!new)>(rd: Contents<S>, st: S, last: nat, bs: seq<byte>, out: S, a: nat, b: nat, code: nat, size: nat)
    requires StartsWith(rd, st, last, bs, out, a, b, code, size)
    ensures Framed(bs, a, b, code, size)
  {
  }

  lemma {:induction false} StrictAreSections<S(!new)>(rd: Contents<S>, st: S, last: nat, bs: seq<byte>, out: S)
    requires StrictSections(rd, st, last, bs, out)
    ensures IsSections(rd, st, last, bs, out) && ShortNumbers(bs)
    decreases |bs|
  {
    if bs != [] {
      hide IsSections, StrictSections, StrictStart, Leb128.IsUnsigned, Leb128.ReadU32, InOrder, ShortNumbers;
      var b, size, next := FirstStrict(rd, st, last, bs, out);
      StrictAreSections(rd, next, LastAfter(last, bs[0]), bs[1 + b + size..], out);
      StrictAgrees(rd, st, last, bs, out, b, size, next);
      SomeStart(rd, st, last, bs, out, 1, b, bs[0], size);
      FrameOf(rd, st, last, bs, out, 1, b, bs[0], size);
      ShortStart(bs, 1, b, bs[0], size);
    }
  }

  lemma {:induction false} ShortAreStrict<S(!new)>(rd: Contents<S>, st: S, last: nat, bs: seq<byte>, out: S)
    requires IsSections(rd, st, last, bs, out) && ShortNumbers(bs)
    ensures StrictSections(rd, st, last, bs, out)
    decreases |bs|
  {
    if bs != [] {
      hide IsSections, StrictSections, Leb128.IsUnsigned, Leb128.ReadU32, InOrder, ShortNumbers;
      var a, b, code, size := FirstSection(rd, st, last, bs, out);
      ShortStart(bs, a, b, code, size);
      ShortAreStrict(rd, rd(st, code, bs[a + b..a + b + size]).value.0, LastAfter(last, code), bs[a + b + size..], out);
      StrictlyStarts(rd, st, last, bs, out, b, code, size);
      SomeStrict(rd, st, last, bs, out, b, size);
    }
  }

  /** Bytes are sections in the sense of section 5.5.2 of the WebAssembly Core Specification 1.0 exactly when they are accepted and every
      section's number takes one byte. */
  lemma Conformance<S(!new)>(rd: Contents<S>, st: S, last: nat, bs: seq<byte>, out: S)
    ensures StrictSections(rd, st, last, bs, out) <==> IsSections(rd, st, last, bs, out) && ShortNumbers(bs)
  {
    if StrictSections(rd, st, last, bs, out) { StrictAreSections(rd, st, last, bs, out); }
    if IsSections(rd, st, last, bs, out) && ShortNumbers(bs) { ShortAreStrict(rd, st, last, bs, out); }
  }
}
