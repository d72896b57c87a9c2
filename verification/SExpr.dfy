/** The S-expression reader and printer. A cursor is a view of the text not read yet; the readers
    take it and give back the view they leave. The byte behind the text reads as NUL, so that
    looking at the next character of an exhausted view ends the list. */
module SExpr {
  datatype Token = Word(token: string) | List(token: string, vec: seq<Token>)

  /** `Type::Whitespace | Type::LineEnding`. */
  predicate IsSpace(c: char) {
    c == ' ' || c == '\t' || IsLineEnding(c)
  }

  predicate IsLineEnding(c: char) {
    c == '\n' || c == '\r' || c == '\0'
  }

  /** What ends a normal token. */
  predicate IsBreak(c: char) {
    IsSpace(c) || c == ')' || c == '('
  }

  predicate IsComment(s: string) {
    |s| > 1 && s[0] == ';' && s[1] == ';'
  }

  /* ---- what the readers compute ---- */

  function AfterSpaces(s: string): (r: string)
    ensures |r| <= |s| && (r != "" ==> !IsSpace(r[0]))
  {
    if s != "" && IsSpace(s[0]) then AfterSpaces(s[1..]) else s
  }

  function AfterLine(s: string): (r: string)
    ensures |r| <= |s|
  {
    if s != "" && !IsLineEnding(s[0]) then AfterLine(s[1..]) else AfterLineEndings(s)
  }

  function AfterLineEndings(s: string): (r: string)
    ensures |r| <= |s| && (s != "" && IsLineEnding(s[0]) ==> |r| < |s|)
  {
    if s != "" && IsLineEnding(s[0]) then AfterLineEndings(s[1..]) else s
  }

  lemma {:induction false} LineShrinks(s: string)
    requires s != ""
    ensures |AfterLine(s)| < |s|
  {
    if !IsLineEnding(s[0]) && s[1..] != "" { LineShrinks(s[1..]); }
  }

  /** Past any mix of white space and `;;` comments. */
  function AfterBlank(s: string): (r: string)
    ensures |r| <= |s| && !IsComment(r) && (r != "" ==> !IsSpace(r[0]))
    decreases |s|
  {
    var t := AfterSpaces(s);
    if IsComment(t) then LineShrinks(t); AfterBlank(AfterLine(t)) else t
  }

  /** The length of the normal token at the cursor. */
  function NormalLength(s: string): (n: nat)
    ensures n <= |s| && (forall i :: 0 <= i < n ==> !IsBreak(s[i])) && (n < |s| ==> IsBreak(s[n]))
  {
    if s != "" && !IsBreak(s[0]) then 1 + NormalLength(s[1..]) else 0
  }

  /** The length of the text up to the closing quote `q`, or to the end. */
  function QuotedLength(s: string, q: char): (n: nat)
    ensures n <= |s| && (forall i :: 0 <= i < n ==> s[i] != q) && (n < |s| ==> s[n] == q)
  {
    if s != "" && s[0] != q then 1 + QuotedLength(s[1..], q) else 0
  }

  /** `pushToken`: the first element of a list, when it is a word, is also the list's head. */
  function Pushed(list: Token, word: string): (r: Token)
    requires list.List?
    ensures r.List?
  {
    List(if list.vec == [] then word else list.token, list.vec + [Word(word)])
  }

  /** `readBracedExpr` behind its opening parenthesis: the completed list, and what is left. */
  function ReadItems(s: string, target: Token): (r: (Token, string))
    requires target.List?
    ensures r.0.List? && |r.1| <= |s|
    decreases |s|
  {
    var t := AfterBlank(s);
    if t == "" then (target, t)
    else if t[0] == '(' then
      var (inner, rest) := ReadItems(t[1..], List("", []));
      ReadItems(rest, target.(vec := target.vec + [inner]))
    else if t[0] == '"' then
      var n := QuotedLength(t[1..], '"');
      ReadItems(t[if n + 1 < |t| then n + 2 else n + 1..], Pushed(target, t[1..n + 1]))
    else if t[0] == ')' then (target, t[1..])
    else
      var n := NormalLength(t);
      ReadItems(t[n..], Pushed(target, t[..n]))
  }

  function ReadAll(s: string): seq<Token>
    decreases |s|
  {
    var t := AfterBlank(s);
    if t != "" && t[0] == '(' then
      var (list, rest) := ReadItems(t[1..], List("", []));
      [list] + ReadAll(rest)
    else []
  }

  /* ---- the readers ---- */

  /** `smart_char_type` up to the blank, of which the readers look at two bits: 1 is white space, 16 a line
      ending. No character behind the blank has either. */
  const CHAR_TYPES: seq<nat> := [
    16, 0, 0, 0, 0, 0, 0, 0, 0, 1, 16, 0, 0, 16, 0, 0,
    0, 0, 0, 0, 0, 0, 0, 0, 0, 0, 0, 0, 0, 0, 0, 0,
    1]

  const WHITESPACE: nat := 1
  const LINE_ENDING: nat := 16

  function CharType(c: char): nat {
    if c as int < |CHAR_TYPES| then CHAR_TYPES[c as int] else 0
  }

  /** The table marks exactly the blank and the tab, and the three line endings. */
  lemma TableIsSpaces(c: char)
    ensures CharType(c) == WHITESPACE || CharType(c) == LINE_ENDING <==> c == ' ' || c == '\t' || c == '\n' || c == '\r' || c == '\0'
    ensures CharType(c) == LINE_ENDING <==> c == '\n' || c == '\r' || c == '\0'
  {
    assert ' ' as int == 32 && '\t' as int == 9 && '\n' as int == 10 && '\r' as int == 13 && '\0' as int == 0;
    if c as int < 33 { assert c == (c as int) as char; }
  }

  method SkipWhitespace(r: string) returns (left: string)
    ensures left == AfterSpaces(r)
  {
    left := r;
    forall c: char ensures CharType(c) == WHITESPACE || CharType(c) == LINE_ENDING <==> IsSpace(c) { TableIsSpaces(c); }
    while |left| > 0 && (CharType(left[0]) == WHITESPACE || CharType(left[0]) == LINE_ENDING)
      invariant AfterSpaces(left) == AfterSpaces(r)
      decreases |left|
    {
      left := left[1..];
    }
  }

  method SkipUntilNewLine(r: string) returns (left: string)
    ensures left == AfterLine(r)
  {
    left := r;
    forall c: char ensures CharType(c) == LINE_ENDING <==> IsLineEnding(c) { TableIsSpaces(c); }
    while |left| > 0 && CharType(left[0]) != LINE_ENDING
      invariant AfterLine(left) == AfterLine(r)
      decreases |left|
    {
      left := left[1..];
    }
    while |left| > 0 && CharType(left[0]) == LINE_ENDING
      invariant AfterLineEndings(left) == AfterLine(r)
      decreases |left|
    {
      left := left[1..];
    }
  }

  method SkipWhitespaceAndComments(r: string) returns (left: string)
    ensures left == AfterBlank(r)
  {
    left := SkipWhitespace(r);
    while |left| > 1 && left[0] == ';' && left[1] == ';'
      invariant left == AfterSpaces(left)
      invariant AfterBlank(left) == AfterBlank(r)
      decreases |left|
    {
      LineShrinks(left);
      SpacesTwice(AfterLine(left));
      left := SkipUntilNewLine(left);
      left := SkipWhitespace(left);
    }
  }

  lemma {:induction false} SpacesTwice(s: string)
    ensures AfterSpaces(AfterSpaces(s)) == AfterSpaces(s)
  {
    if s != "" && IsSpace(s[0]) { SpacesTwice(s[1..]); }
  }

  method ReadNormalToken(r: string) returns (token: string, left: string)
    ensures token == r[..NormalLength(r)] && left == r[NormalLength(r)..]
  {
    left := r;
    ghost var n := 0;
    forall c: char ensures CharType(c) == WHITESPACE || CharType(c) == LINE_ENDING <==> IsSpace(c) { TableIsSpaces(c); }
    while |left| > 0 && CharType(left[0]) != WHITESPACE && CharType(left[0]) != LINE_ENDING && left[0] != ')' && left[0] != '('
      invariant n <= |r| && left == r[n..]
      invariant n + NormalLength(left) == NormalLength(r)
      decreases |left|
    {
      left := left[1..];
      n := n + 1;
    }
    token := r[..|r| - |left|];
  }

  /** A view that does not start with a quote gives the empty token and is left alone. */
  method ReadQuotedToken(r: string) returns (token: string, left: string)
    requires r != ""
    ensures r[0] != '"' && r[0] != '\'' ==> token == "" && left == r
    ensures r[0] == '"' || r[0] == '\'' ==>
      var n := QuotedLength(r[1..], r[0]);
      token == r[1..n + 1] && left == r[if n + 1 < |r| then n + 2 else n + 1..]
  {
    var q := r[0];
    if q != '"' && q != '\'' { return "", r; }
    var origin := r[1..];
    left := origin;
    ghost var n := 0;
    while |left| > 0 && left[0] != q
      invariant n <= |origin| && left == origin[n..]
      invariant n + QuotedLength(left, q) == QuotedLength(origin, q)
      decreases |left|
    {
      left := left[1..];
      n := n + 1;
    }
    token := origin[..|origin| - |left|];
    if |left| > 0 && left[0] == q { left := left[1..]; }
  }

  /** `readBracedExpr`; the caller has seen the opening parenthesis. */
  method ReadBracedExpr(r: string) returns (target: Token, left: string)
    requires r != "" && r[0] == '('
    ensures (target, left) == ReadItems(r[1..], List("", []))
    decreases |r|
  {
    left := r[1..];
    target := List("", []);
    while left != ""
      invariant target.List? && |left| < |r|
      invariant ReadItems(left, target) == ReadItems(r[1..], List("", []))
      decreases |left|
    {
      left := SkipWhitespaceAndComments(left);
      if left == "" {
        break;
      } else if left[0] == '(' {
        var inner;
        inner, left := ReadBracedExpr(left);
        target := target.(vec := target.vec + [inner]);
      } else if left[0] == '"' {
        var word;
        word, left := ReadQuotedToken(left);
        target := Pushed(target, word);
      } else if left[0] == ')' {
        left := left[1..];
        return;
      } else {
        var word;
        word, left := ReadNormalToken(left);
        if word != "" { target := Pushed(target, word); }
      }
    }
  }

  lemma BlankTwice(s: string)
    ensures AfterBlank(AfterBlank(s)) == AfterBlank(s)
    ensures ReadAll(AfterBlank(s)) == ReadAll(s)
  {
    var t := AfterBlank(s);
    assert AfterSpaces(t) == t;
  }

  method Parse(source: string) returns (ret: seq<Token>)
    ensures ret == ReadAll(source)
  {
    ret := [];
    var r := SkipWhitespaceAndComments(source);
    BlankTwice(source);
    while r != "" && r[0] == '('
      invariant AfterBlank(r) == r
      invariant ret + ReadAll(r) == ReadAll(source)
      decreases |r|
    {
      ghost var done, ahead := ret, ReadAll(r);
      var list;
      list, r := ReadBracedExpr(r);
      assert ahead == [list] + ReadAll(r);
      ret := ret + [list];
      assert ret + ReadAll(r) == done + ahead;
      BlankTwice(r);
      r := SkipWhitespaceAndComments(r);
    }
  }

  /* ---- the printer ---- */

  function Print(t: Token): string {
    match t
    case Word(token) => token
    case List(_, vec) => "( " + PrintItems(vec) + ")"
  }

  function PrintItems(vec: seq<Token>): string {
    if vec == [] then "" else Print(vec[0]) + " " + PrintItems(vec[1..])
  }

  function PrintAll(ts: seq<Token>): string {
    if ts == [] then "" else Print(ts[0]) + "\n" + PrintAll(ts[1..])
  }

  /** `print` of a token appends to the stream, item by item. */
  method PrintToken(stream: string, token: Token) returns (s: string)
    ensures s == stream + Print(token)
    decreases token
  {
    s := stream;
    match token
    case Word(word) => s := s + word;
    case List(_, vec) =>
      s := s + "( ";
      for k := 0 to |vec|
        invariant s + (PrintItems(vec[k..]) + ")") == stream + Print(token)
      {
        ghost var before, rest := s, PrintItems(vec[k + 1..]);
        assert vec[k..][0] == vec[k] && vec[k..][1..] == vec[k + 1..];
        s := PrintToken(s, vec[k]);
        s := s + " ";
        assert s + (rest + ")") == before + (Print(vec[k]) + " " + rest + ")");
      }
      s := s + ")";
  }

  /** `print` of a list of tokens: each on a line of its own. */
  method PrintTokens(stream: string, tokens: seq<Token>) returns (s: string)
    ensures s == stream + PrintAll(tokens)
  {
    s := stream;
    for k := 0 to |tokens|
      invariant s + PrintAll(tokens[k..]) == stream + PrintAll(tokens)
    {
      ghost var before, rest := s, PrintAll(tokens[k + 1..]);
      assert tokens[k..][0] == tokens[k] && tokens[k..][1..] == tokens[k + 1..];
      s := PrintToken(s, tokens[k]);
      s := s + "\n";
      assert s + rest == before + (Print(tokens[k]) + "\n" + rest);
    }
  }

  /* ---- reading what was printed ---- */

  /** A word that needs no quotes. */
  predicate IsPlainWord(w: string) {
    && w != "" && w[0] != '"' && !IsComment(w)
    && forall i :: 0 <= i < |w| ==> !IsBreak(w[i])
  }

  /** Plain words throughout, and every list headed by its first element when that is a word. */
  predicate IsPlain(t: Token) {
    match t
    case Word(w) => IsPlainWord(w)
    case List(head, vec) => head == HeadOf(vec) && ArePlain(vec)
  }

  predicate ArePlain(ts: seq<Token>) {
    ts != [] ==> IsPlain(ts[0]) && ArePlain(ts[1..])
  }

  function HeadOf(vec: seq<Token>): string {
    if vec != [] && vec[0].Word? then vec[0].token else ""
  }

  predicate AreLists(ts: seq<Token>) {
    forall i :: 0 <= i < |ts| ==> ts[i].List?
  }

  lemma BlankBefore(s: string)
    requires s != "" && !IsSpace(s[0]) && !IsComment(s)
    ensures AfterBlank(" " + s) == s && AfterBlank("\n" + s) == s && AfterBlank(s) == s
  {
    assert (" " + s)[1..] == s && ("\n" + s)[1..] == s;
    assert AfterSpaces(s) == s;
  }

  lemma WordIsToken(w: string, s: string)
    requires IsPlainWord(w) && s != "" && IsBreak(s[0])
    ensures NormalLength(w + s) == |w| && (w + s)[..|w|] == w && (w + s)[|w|..] == s
    ensures !IsComment(w + s)
  {
    assert (w + s)[|w|] == s[0];
    assert forall i :: 0 <= i < |w| ==> (w + s)[i] == w[i];
  }

  /** The target of a list whose elements so far are `done`. */
  function Target(done: seq<Token>): Token {
    List(HeadOf(done), done)
  }

  /** One round of the reader over a printed word, list or end of list. */
  lemma ReadsWord(target: Token, w: string, after: string)
    requires target.List? && IsPlainWord(w) && after != "" && IsBreak(after[0])
    ensures ReadItems(" " + (w + after), target) == ReadItems(after, Pushed(target, w))
  {
    hide AfterBlank, NormalLength;
    WordIsToken(w, after);
    BlankBefore(w + after);
  }

  lemma ReadsList(target: Token, inside: string, inner: Token, after: string)
    requires target.List? && ReadItems(inside, List("", [])) == (inner, after)
    ensures ReadItems(" " + ("(" + inside), target) == ReadItems(after, target.(vec := target.vec + [inner]))
  {
    BlankBefore("(" + inside);
    hide AfterBlank;
    assert ("(" + inside)[1..] == inside;
  }

  lemma ReadsClose(target: Token, rest: string)
    requires target.List?
    ensures ReadItems(" " + (")" + rest), target) == (target, rest)
  {
    BlankBefore(")" + rest);
    hide AfterBlank;
    assert (")" + rest)[1..] == rest;
  }

  /** The text ahead of the reader inside a printed list. */
  function Ahead(vec: seq<Token>, rest: string): string {
    " " + PrintItems(vec) + ")" + rest
  }

  lemma AheadSplits(vec: seq<Token>, rest: string)
    ensures vec == [] ==> Ahead(vec, rest) == " " + (")" + rest)
    ensures vec != [] ==> Ahead(vec, rest) == " " + (Print(vec[0]) + Ahead(vec[1..], rest))
    ensures vec != [] && vec[0].List? ==>
      Ahead(vec, rest) == " " + ("(" + Ahead(vec[0].vec, Ahead(vec[1..], rest)))
    ensures Ahead(vec, rest) != "" && Ahead(vec, rest)[0] == ' '
  {
    if vec != [] {
      assert Ahead(vec, rest) == " " + (Print(vec[0]) + Ahead(vec[1..], rest));
      if vec[0].List? { PrintedList(vec[0], Ahead(vec[1..], rest)); }
    }
  }

  lemma PrintedList(t: Token, after: string)
    requires t.List?
    ensures Print(t) + after == "(" + Ahead(t.vec, after)
  {
    hide PrintItems;
    assert Print(t) == "( " + PrintItems(t.vec) + ")";
    assert "( " == "(" + " ";
  }

  /** From inside a printed list, with `vec` still ahead, the reader completes the list and stops
      behind its closing parenthesis. */
  lemma {:induction false} ReadsItems(done: seq<Token>, vec: seq<Token>, rest: string)
    requires ArePlain(vec)
    ensures ReadItems(Ahead(vec, rest), Target(done)) == (Target(done + vec), rest)
    decreases vec
  {
    hide ReadItems, Ahead, Print, IsPlainWord;
    AheadSplits(vec, rest);
    if vec == [] {
      ReadsClose(Target(done), rest);
      assert done + vec == done;
    } else {
      var after := Ahead(vec[1..], rest);
      AheadSplits(vec[1..], rest);
      assert done + vec == (done + [vec[0]]) + vec[1..];
      ReadsItems(done + [vec[0]], vec[1..], rest);
      if vec[0].Word? {
        PrintedWord(vec[0]);
        ReadsWord(Target(done), vec[0].token, after);
      } else {
        ReadsItems([], vec[0].vec, after);
        assert [] + vec[0].vec == vec[0].vec && Target(vec[0].vec) == vec[0];
        ReadsList(Target(done), Ahead(vec[0].vec, after), vec[0], after);
      }
      Extended(done, vec[0]);
    }
  }

  lemma PrintedWord(t: Token)
    requires t.Word?
    ensures Print(t) == t.token
  {
  }

  lemma Extended(done: seq<Token>, t: Token)
    ensures Target(done + [t]) == if t.Word? then Pushed(Target(done), t.token) else List(HeadOf(done), done + [t])
  {
    if t.Word? { assert t == Word(t.token); }
  }

  lemma {:induction false} ReadsAll(ts: seq<Token>)
    requires AreLists(ts) && ArePlain(ts)
    ensures ReadAll(PrintAll(ts)) == ts && ReadAll("\n" + PrintAll(ts)) == ts
    decreases ts
  {
    if ts == [] {
      assert AfterSpaces("\n") == "" by { assert "\n"[1..] == ""; }
    } else {
      var after := "\n" + PrintAll(ts[1..]);
      var vec := ts[0].vec;
      assert PrintAll(ts) == Print(ts[0]) + after;
      PrintedList(ts[0], after);
      hide PrintAll, PrintItems, Print, Ahead, ReadItems, ReadAll;
      ReadsItems([], vec, after);
      assert [] + vec == vec && Target(vec) == ts[0];
      ReadsAll(ts[1..]);
      ReadsFirst(Ahead(vec, after), ts[0], after);
      assert ts == [ts[0]] + ts[1..];
    }
  }

  lemma ReadsFirst(inside: string, list: Token, after: string)
    requires ReadItems(inside, List("", [])) == (list, after)
    ensures ReadAll("(" + inside) == [list] + ReadAll(after)
    ensures ReadAll("\n" + ("(" + inside)) == [list] + ReadAll(after)
  {
    BlankBefore("(" + inside);
    hide AfterBlank;
    assert ("(" + inside)[1..] == inside;
  }

  /* ---- nothing is read for free ---- */

  /** The characters of a text that are neither white space nor closing parentheses. */
  function Ink(s: string): nat {
    if s == "" then 0 else (if IsSpace(s[0]) || s[0] == ')' then 0 else 1) + Ink(s[1..])
  }

  /** The ink of a token as the printer spends it: one for a list's opening parenthesis. */
  function InkOf(t: Token): nat {
    match t
    case Word(w) => Ink(w)
    case List(_, vec) => 1 + InkOfAll(vec)
  }

  function InkOfAll(ts: seq<Token>): nat {
    if ts == [] then 0 else InkOf(ts[0]) + InkOfAll(ts[1..])
  }

  lemma {:induction false} InkAppends(a: string, b: string)
    ensures Ink(a + b) == Ink(a) + Ink(b)
    decreases |a|
  {
    if a == "" {
      assert a + b == b;
    } else {
      assert (a + b)[1..] == a[1..] + b;
      InkAppends(a[1..], b);
    }
  }

  lemma {:induction false} InkOfAppended(ts: seq<Token>, t: Token)
    ensures InkOfAll(ts + [t]) == InkOfAll(ts) + InkOf(t)
    ensures ArePlain(ts + [t]) <==> ArePlain(ts) && IsPlain(t)
    decreases |ts|
  {
    if ts == [] {
      assert ts + [t] == [t] && [t][1..] == [];
    } else {
      assert (ts + [t])[1..] == ts[1..] + [t];
      InkOfAppended(ts[1..], t);
    }
  }

  /** Printing spends exactly the ink of what it prints. */
  lemma {:induction false} PrintedInk(t: Token)
    ensures Ink(Print(t)) == InkOf(t)
    decreases t, 0
  {
    if t.List? {
      PrintedInks(t.vec);
      InkAppends("( " + PrintItems(t.vec), ")");
      InkAppends("( ", PrintItems(t.vec));
      assert "( "[1..] == " " && " "[1..] == "" && ")"[1..] == "";
    }
  }

  lemma {:induction false} PrintedInks(ts: seq<Token>)
    ensures Ink(PrintItems(ts)) == InkOfAll(ts) && Ink(PrintAll(ts)) == InkOfAll(ts)
    decreases ts
  {
    if ts != [] {
      PrintedInk(ts[0]);
      PrintedInks(ts[1..]);
      InkAppends(Print(ts[0]) + " ", PrintItems(ts[1..]));
      InkAppends(Print(ts[0]), " ");
      InkAppends(Print(ts[0]) + "\n", PrintAll(ts[1..]));
      InkAppends(Print(ts[0]), "\n");
      assert " "[1..] == "" && "\n"[1..] == "";
    }
  }

  lemma {:induction false} SpacesInk(s: string)
    ensures Ink(AfterSpaces(s)) == Ink(s)
  {
    if s != "" && IsSpace(s[0]) { SpacesInk(s[1..]); }
  }

  lemma {:induction false} LineInk(s: string)
    ensures Ink(AfterLine(s)) <= Ink(s)
  {
    if s != "" && !IsLineEnding(s[0]) {
      LineInk(s[1..]);
    } else {
      LineEndingsInk(s);
    }
  }

  lemma {:induction false} LineEndingsInk(s: string)
    ensures Ink(AfterLineEndings(s)) == Ink(s)
  {
    if s != "" && IsLineEnding(s[0]) { LineEndingsInk(s[1..]); }
  }

  lemma {:induction false} BlankInk(s: string)
    ensures Ink(AfterBlank(s)) <= Ink(s)
    decreases |s|
  {
    var t := AfterSpaces(s);
    SpacesInk(s);
    if IsComment(t) {
      LineShrinks(t);
      LineInk(t);
      BlankInk(AfterLine(t));
    }
  }

  /** Headed and plain so far. */
  predicate IsGood(target: Token)
    requires target.List?
  {
    target.token == HeadOf(target.vec) && ArePlain(target.vec)
  }

  /** Ink of a target and of the text still ahead, and whether the target is good. */
  predicate NoGain(before: Token, s: string, after: Token, rest: string)
    requires before.List? && after.List?
  {
    && InkOf(after) + Ink(rest) <= InkOf(before) + Ink(s)
    && (InkOf(after) + Ink(rest) == InkOf(before) + Ink(s) && IsGood(before) ==> IsGood(after))
  }

  lemma ListCost(t: string, target: Token, inner: Token, rest: string)
    requires target.List? && t != "" && t[0] == '(' && inner.List?
    requires NoGain(List("", []), t[1..], inner, rest)
    ensures NoGain(target, t, target.(vec := target.vec + [inner]), rest)
  {
    InkOfAppended(target.vec, inner);
    assert IsGood(List("", [])) && InkOf(List("", [])) == 1;
    hide InkOfAll, ArePlain;
    assert Ink(t) == 1 + Ink(t[1..]);
  }

  lemma QuotedCost(t: string, target: Token, n: nat)
    requires target.List? && t != "" && t[0] == '"' && n == QuotedLength(t[1..], '"')
    ensures NoGain(target, t, Pushed(target, t[1..n + 1]), t[if n + 1 < |t| then n + 2 else n + 1..])
  {
    QuotedInk(t, n);
    InkOfAppended(target.vec, Word(t[1..n + 1]));
    hide InkOfAll, ArePlain, Ink;
  }

  lemma NormalCost(t: string, target: Token, n: nat)
    requires target.List? && t != "" && !IsComment(t) && !IsBreak(t[0]) && t[0] != '"' && n == NormalLength(t)
    ensures NoGain(target, t, Pushed(target, t[..n]), t[n..])
  {
    assert t == t[..n] + t[n..];
    InkAppends(t[..n], t[n..]);
    InkOfAppended(target.vec, Word(t[..n]));
    hide InkOfAll, ArePlain, Ink;
  }

  lemma NoGainChain(a: Token, s: string, b: Token, t: string, c: Token, u: string)
    requires a.List? && b.List? && c.List? && NoGain(a, s, b, t) && NoGain(b, t, c, u)
    ensures NoGain(a, s, c, u)
  {
  }

  /** What the reader adds to its target it takes from the text, and when the text's ink went into
      tokens to the last drop, every word that was added is plain. */
  lemma {:induction false} ReadingInk(s: string, target: Token)
    requires target.List?
    ensures NoGain(target, s, ReadItems(s, target).0, ReadItems(s, target).1)
    decreases |s|
  {
    var t := AfterBlank(s);
    BlankInk(s);
    assert NoGain(target, s, target, t);
    assert t != "" && t[0] == ')' ==> NoGain(target, t, target, t[1..]);
    var (end, last) := ReadItems(s, target);
    hide NoGain, AfterBlank, Ink, InkOf;
    if t == "" {
    } else if t[0] == '(' {
      var (inner, rest) := ReadItems(t[1..], List("", []));
      ReadingInk(t[1..], List("", []));
      ListCost(t, target, inner, rest);
      var next := target.(vec := target.vec + [inner]);
      ReadingInk(rest, next);
      NoGainChain(target, t, next, rest, end, last);
      NoGainChain(target, s, target, t, end, last);
    } else if t[0] == '"' {
      var n := QuotedLength(t[1..], '"');
      var left := t[if n + 1 < |t| then n + 2 else n + 1..];
      var next := Pushed(target, t[1..n + 1]);
      QuotedCost(t, target, n);
      ReadingInk(left, next);
      NoGainChain(target, t, next, left, end, last);
      NoGainChain(target, s, target, t, end, last);
    } else if t[0] == ')' {
      NoGainChain(target, s, target, t, end, last);
    } else {
      var n := NormalLength(t);
      var next := Pushed(target, t[..n]);
      NormalCost(t, target, n);
      ReadingInk(t[n..], next);
      NoGainChain(target, t, next, t[n..], end, last);
      NoGainChain(target, s, target, t, end, last);
    }
  }

  /** A quoted token costs its quotes. */
  lemma QuotedInk(t: string, n: nat)
    requires t != "" && t[0] == '"' && n == QuotedLength(t[1..], '"')
    ensures Ink(t[1..n + 1]) + Ink(t[if n + 1 < |t| then n + 2 else n + 1..]) < Ink(t)
  {
    hide QuotedLength;
    var word, tail := t[1..n + 1], t[n + 1..];
    assert t == "\"" + (word + tail);
    QuoteCosts(word, tail);
    hide Ink;
    TailInk(tail);
    if n + 1 < |t| { assert t[n + 2..] == tail[1..]; }
  }

  lemma QuoteCosts(word: string, tail: string)
    ensures Ink("\"" + (word + tail)) == 1 + Ink(word) + Ink(tail)
  {
    InkAppends(word, tail);
    assert ("\"" + (word + tail))[1..] == word + tail;
  }

  lemma TailInk(s: string)
    ensures s != "" ==> Ink(s[1..]) <= Ink(s)
  {
  }

  lemma {:induction false} ReadingAllInk(s: string)
    ensures InkOfAll(ReadAll(s)) <= Ink(s) && AreLists(ReadAll(s))
    ensures InkOfAll(ReadAll(s)) == Ink(s) ==> ArePlain(ReadAll(s))
    decreases |s|
  {
    var t := AfterBlank(s);
    BlankInk(s);
    if t != "" && t[0] == '(' {
      var (list, rest) := ReadItems(t[1..], List("", []));
      ReadingInk(t[1..], List("", []));
      ReadingAllInk(rest);
      assert ReadAll(s) == [list] + ReadAll(rest);
    }
  }

  /** Reading back a printed list of tokens gives the tokens again exactly when they are all lists,
      every list is headed by its first element when that is a word, and no word needs quotes: it is
      not empty, holds no white space, line ending or parenthesis, and does not start with a double
      quote or `;;`. */
  lemma PrintThenParse(ts: seq<Token>)
    ensures ReadAll(PrintAll(ts)) == ts <==> AreLists(ts) && ArePlain(ts)
  {
    if AreLists(ts) && ArePlain(ts) { ReadsAll(ts); }
    ReadingAllInk(PrintAll(ts));
    PrintedInks(ts);
  }
}
