/** The UTF-8 check on names, against the encodings of Unicode scalar values in sections 3 and 4
    of RFC 3629. */
module Utf8 {
  import opened LinearMemory

  /* ---- the encoding ---- */

  /** A code point that is not a surrogate half. */
  type Scalar = c: nat | c < 0xd800 || 0xe000 <= c < 0x11_0000

  /** The shortest form, six bits to a continuation byte. */
  function EncodeChar(c: Scalar): (bs: seq<byte>)
    ensures 1 <= |bs| <= 4
  {
    if c < 0x80 then [c]
    else if c < 0x800 then [Lead(0xc0, c / 64), Tail(c)]
    else if c < 0x1_0000 then [Lead(0xe0, c / 64 / 64), Tail(c / 64), Tail(c)]
    else [Lead(0xf0, c / 64 / 64 / 64), Tail(c / 64 / 64), Tail(c / 64), Tail(c)]
  }

  function Lead(mark: nat, high: nat): byte
    requires mark + high < 256
  {
    mark + high
  }

  /** A continuation byte: the lowest six bits. */
  function Tail(n: nat): byte {
    0x80 + n % 64
  }

  function EncodeString(cs: seq<Scalar>): seq<byte> {
    if cs == [] then [] else EncodeChar(cs[0]) + EncodeString(cs[1..])
  }

  /** A concatenation of encodings of scalar values. */
  ghost predicate WellFormed(s: seq<byte>) {
    exists cs: seq<Scalar> :: EncodeString(cs) == s
  }

  /* ---- the code ---- */

  /** The table `s_utf8_length`. */
  function LengthFrom(lead: byte): nat {
    if lead < 0x80 then 1
    else if lead < 0xc2 then 0
    else if lead < 0xe0 then 2
    else if lead < 0xf0 then 3
    else if lead < 0xf5 then 4
    else 0
  }

  predicate IsCont(b: byte) {
    b / 64 == 2
  }

  method IsValidUtf8(s: seq<byte>) returns (valid: bool)
    ensures valid <==> WellFormed(s)
  {
    var p := 0;
    assert s[0..] == s;
    while p < |s|
      invariant p <= |s| && (WellFormed(s[p..]) <==> WellFormed(s))
      decreases |s| - p
    {
      ghost var rest := s[p..];
      FirstChar(rest);
      var cu0 := s[p];
      var length := LengthFrom(cu0);
      if p + length > |s| { return false; }
      if length == 0 {
        return false;
      } else if length == 2 {
        if !IsCont(s[p + 1]) { return false; }
      } else if length == 3 {
        var cu1, cu2 := s[p + 1], s[p + 2];
        if !(IsCont(cu1) && IsCont(cu2)) || (cu0 == 0xe0 && cu1 < 0xa0) || (cu0 == 0xed && cu1 >= 0xa0) {
          return false;
        }
      } else if length == 4 {
        var cu1, cu2, cu3 := s[p + 1], s[p + 2], s[p + 3];
        if !(IsCont(cu1) && IsCont(cu2) && IsCont(cu3)) || (cu0 == 0xf0 && cu1 < 0x90) || (cu0 == 0xf4 && cu1 >= 0x90) {
          return false;
        }
      }
      assert rest[length..] == s[p + length..];
      p := p + length;
    }
    assert s[p..] == [];
    assert EncodeString([]) == [];
    return true;
  }

  /* ---- one character ---- */

  /** What one round of the loop asks of the bytes ahead. */
  predicate Accepts(t: seq<byte>)
    requires t != []
  {
    var n := LengthFrom(t[0]);
    && 1 <= n <= |t|
    && (forall i :: 1 <= i < n ==> IsCont(t[i]))
    && (t[0] == 0xe0 ==> t[1] >= 0xa0) && (t[0] == 0xed ==> t[1] < 0xa0)
    && (t[0] == 0xf0 ==> t[1] >= 0x90) && (t[0] == 0xf4 ==> t[1] < 0x90)
  }

  function Minus(b: byte, mark: nat): nat
    requires b >= mark
  {
    b - mark
  }

  /** Six more bits at the low end. */
  function Push(high: nat, b: byte): (n: nat)
    requires IsCont(b)
    ensures n / 64 == high && Tail(n) == b
  {
    64 * high + Minus(b, 0x80)
  }

  /** The scalar value of an accepted character. */
  function DecodeChar(t: seq<byte>): (c: Scalar)
    requires t != [] && Accepts(t)
  {
    var n := LengthFrom(t[0]);
    if n == 1 then t[0]
    else if n == 2 then Push(Minus(t[0], 0xc0), t[1])
    else if n == 3 then Push(Push(Minus(t[0], 0xe0), t[1]), t[2])
    else Push(Push(Push(Minus(t[0], 0xf0), t[1]), t[2]), t[3])
  }

  lemma EncodeDecoded(t: seq<byte>)
    requires t != [] && Accepts(t)
    ensures EncodeChar(DecodeChar(t)) == t[..LengthFrom(t[0])]
  {
  }

  lemma EncodedAccepted(c: Scalar, rest: seq<byte>)
    ensures
      var t := EncodeChar(c) + rest;
      Accepts(t) && LengthFrom(t[0]) == |EncodeChar(c)|
  {
  }

  /** The bytes ahead are well formed exactly when the first character is accepted and the bytes
      behind it are well formed. */
  lemma FirstChar(t: seq<byte>)
    requires t != []
    ensures WellFormed(t) <==> Accepts(t) && WellFormed(t[LengthFrom(t[0])..])
  {
    if WellFormed(t) {
      var cs: seq<Scalar> :| EncodeString(cs) == t;
      EncodedAccepted(cs[0], EncodeString(cs[1..]));
      assert t[|EncodeChar(cs[0])|..] == EncodeString(cs[1..]);
    }
    if Accepts(t) {
      var n := LengthFrom(t[0]);
      if WellFormed(t[n..]) {
        var cs: seq<Scalar> :| EncodeString(cs) == t[n..];
        var all := [DecodeChar(t)] + cs;
        EncodeDecoded(t);
        assert all[1..] == cs;
        assert EncodeString(all) == t[..n] + t[n..];
      }
    }
  }
}
