/** The bucket allocator of the script runtime, on values: what `alloc` and `free` do to the
    buckets, and what they keep over any sequence of calls. */
module Allocation {
  import opened Wasm

  const BOUNDARY: nat := 4096
  const MIN_ALLOC: nat := 2 * BOUNDARY
  const MAX_INDEX: nat := 20
  const NODE_SIZE: nat := 32  // `sizeof(MemNode)` rounded up to 16
  const PAGE: nat := 65536
  const NULL: nat := 0xFFFF_FFFF
  const LIMIT: nat := 0x1_0000_0000

  /** `ALIGN` to 4096 on 32 bits: the addition wraps, the mask rounds down. */
  function AlignBoundary(n: nat): nat {
    (n % LIMIT + BOUNDARY - 1) % LIMIT / BOUNDARY * BOUNDARY
  }

  /** `ALIGN_DEFAULT`: the same to 16. */
  function AlignDefault(n: nat): nat {
    (n % LIMIT + 15) % LIMIT / 16 * 16
  }

  /** Node size for a request, or nothing when the rounding wrapped. */
  function RequestSize(inSize: nat): (r: Option<nat>)
    ensures r.Some? ==> r.value >= MIN_ALLOC
  {
    var size := AlignBoundary(inSize + NODE_SIZE);
    if size < inSize then None else Some(if size < MIN_ALLOC then MIN_ALLOC else size)
  }

  lemma RequestSizeOk(inSize: nat)
    requires inSize < LIMIT
    ensures RequestSize(inSize).Some? <==> inSize + 32 + 4095 < 0x1_0000_0000
    ensures RequestSize(inSize).Some? ==>
      var size := RequestSize(inSize).value;
      && size % 4096 == 0 && 8192 <= size < 0x1_0000_0000
      && inSize + 32 <= size && (size == 8192 || size < inSize + 32 + 4096)
  {
  }

  /** The extent of a node of index `index`. */
  function Extent(index: nat): nat {
    (index + 1) * BOUNDARY
  }

  /** `buckets` are the free lists (the sink is number 0), `index` gives every node ever made its
      size, `layout` lists them in address order and `live` are the ones handed out. */
  datatype Arena = Arena(buckets: seq<seq<nat>>, index: map<nat, nat>, layout: seq<nat>, live: set<nat>, last: nat, origin: nat)

  datatype AllocResult = Got(node: nat, a: Arena, memSize: nat) | NoMemory

  /** The first non-empty bucket from `i` on, or `last`. */
  function Seek(buckets: seq<seq<nat>>, i: nat, last: nat): (j: nat)
    requires i <= last < |buckets|
    ensures i <= j <= last
    ensures forall k :: i <= k < j ==> buckets[k] == []
    ensures buckets[j] != [] || j == last
    decreases last - i
  {
    if buckets[i] == [] && i < last then Seek(buckets, i + 1, last) else i
  }

  /** The highest non-empty bucket below `m`, or 0. */
  function Below(buckets: seq<seq<nat>>, m: nat): (j: nat)
    requires 0 < m <= |buckets|
    ensures j < m
    ensures forall k :: j < k < m ==> buckets[k] == []
    ensures buckets[j] != [] || j == 0
    decreases m
  {
    if buckets[m - 1] == [] && m - 1 > 0 then Below(buckets, m - 1) else m - 1
  }

  /** The first node of the sink that is big enough, or the sink's length. */
  function FirstFit(sink: seq<nat>, index: map<nat, nat>, want: nat): (k: nat)
    requires forall n :: n in sink ==> n in index
    ensures k <= |sink| && (forall j :: 0 <= j < k ==> index[sink[j]] < want)
    ensures k < |sink| ==> index[sink[k]] >= want
    decreases |sink|
  {
    if sink == [] || index[sink[0]] >= want then 0 else 1 + FirstFit(sink[1..], index, want)
  }

  function Without(s: seq<nat>, k: nat): seq<nat>
    requires k < |s|
  {
    s[..k] + s[k + 1..]
  }

  /** Take the head of bucket `i`; when that empties the last bucket, `last` moves down. */
  function Take(a: Arena, i: nat): Arena
    requires i < |a.buckets| && a.buckets[i] != []
  {
    var buckets := a.buckets[i := a.buckets[i][1..]];
    a.(buckets := buckets, live := a.live + {a.buckets[i][0]},
       last := if buckets[i] == [] && i >= a.last && i > 0 then Below(buckets, i) else a.last)
  }

  function TakeFromSink(a: Arena, k: nat): Arena
    requires |a.buckets| > 0 && k < |a.buckets[0]|
  {
    a.(buckets := a.buckets[0 := Without(a.buckets[0], k)], live := a.live + {a.buckets[0][k]})
  }

  /** A new node at the origin. The bound is compared after a 32-bit addition. */
  function Bump(a: Arena, size: nat, memSize: nat, granted: bool): AllocResult
    requires size >= BOUNDARY
  {
    var end := (a.origin + size) % LIMIT;
    if end > memSize && !granted then NoMemory
    else
      Got(a.origin,
        a.(index := a.index[a.origin := size / BOUNDARY - 1], layout := a.layout + [a.origin], live := a.live + {a.origin}, origin := end),
        if end > memSize then memSize + (size / PAGE + 1) * PAGE else memSize)
  }

  /** `alloc`: `granted` is the answer of `GrowMemory`, if it is asked. */
  function Alloc(a: Arena, inSize: nat, memSize: nat, granted: bool): AllocResult
    requires Shaped(a)
  {
    match RequestSize(inSize)
    case None => NoMemory
    case Some(size) =>
      var want := size / BOUNDARY - 1;
      if want <= a.last then
        var i := Seek(a.buckets, want, a.last);
        if a.buckets[i] != [] then Got(a.buckets[i][0], Take(a, i), memSize) else Bump(a, size, memSize, granted)
      else
        var k := FirstFit(a.buckets[0], a.index, want);
        if k < |a.buckets[0]| then Got(a.buckets[0][k], TakeFromSink(a, k), memSize) else Bump(a, size, memSize, granted)
  }

  predicate Shaped(a: Arena) {
    |a.buckets| == MAX_INDEX && a.last < MAX_INDEX &&
    forall i, n :: 0 <= i < MAX_INDEX && n in a.buckets[i] ==> n in a.index
  }

  /** One node goes back to its bucket, or to the sink. */
  function Release(a: Arena, n: nat): Arena
    requires Shaped(a) && n in a.index
  {
    var index := a.index[n];
    var i := if index < MAX_INDEX then index else 0;
    a.(buckets := a.buckets[i := [n] + a.buckets[i]], live := a.live - {n},
       last := if index < MAX_INDEX && a.buckets[i] == [] && index > a.last then index else a.last)
  }

  function Free(a: Arena, nodes: seq<nat>): Arena
    requires Shaped(a) && forall n :: n in nodes ==> n in a.index
    decreases |nodes|
  {
    if nodes == [] then a else Free(Release(a, nodes[0]), nodes[1..])
  }

  /* ---- what every call keeps ---- */

  /** Bucket i (1 to 19) holds only nodes of index i, the sink only nodes of index 20 and up. */
  predicate Sorted(a: Arena) {
    forall i, n :: 0 <= i < |a.buckets| && n in a.buckets[i] ==>
      n in a.index && if i == 0 then a.index[n] >= 20 else a.index[n] == i
  }

  /** `last` is the highest non-empty ordinary bucket, or 0. */
  predicate LastExact(a: Arena) {
    && (forall i :: a.last < i < |a.buckets| ==> a.buckets[i] == [])
    && (a.last > 0 ==> a.last < |a.buckets| && a.buckets[a.last] != [])
  }

  /** The nodes lie end to end from `start` to `origin`, each at its own extent. */
  predicate Tiles(layout: seq<nat>, index: map<nat, nat>, start: nat, origin: nat)
    decreases |layout|
  {
    if layout == [] then origin == start
    else
      var n := layout[|layout| - 1];
      n in index && n + (index[n] + 1) * 4096 == origin && Tiles(layout[..|layout| - 1], index, start, n)
  }

  function Flat(buckets: seq<seq<nat>>): seq<nat> {
    if buckets == [] then [] else buckets[0] + Flat(buckets[1..])
  }

  /** Free nodes and live nodes together are all the nodes, each once. */
  predicate Conserved(a: Arena) {
    multiset(Flat(a.buckets)) + multiset(a.live) == multiset(a.layout)
  }

  predicate Inv(a: Arena, start: nat) {
    && |a.buckets| == 20 && a.last < 20
    && Sorted(a) && LastExact(a) && Conserved(a)
    && Tiles(a.layout, a.index, start, a.origin)
    && (forall n :: n in a.layout ==> n in a.index && a.index[n] >= 1)
    && start % 16 == 0
  }

  lemma InvShaped(a: Arena, start: nat)
    requires Inv(a, start)
    ensures Shaped(a)
  {
  }

  /** All buckets empty, nothing handed out. */
  function NewArena(origin: nat): Arena {
    Arena(seq(MAX_INDEX, _ => []), map[], [], {}, 0, origin)
  }

  lemma {:induction false} FlatEmpty(buckets: seq<seq<nat>>)
    requires forall i :: 0 <= i < |buckets| ==> buckets[i] == []
    ensures Flat(buckets) == []
    decreases |buckets|
  {
    if buckets != [] { FlatEmpty(buckets[1..]); }
  }

  lemma NewArenaInv(origin: nat)
    requires origin % 16 == 0
    ensures Inv(NewArena(origin), origin)
  {
    FlatEmpty(NewArena(origin).buckets);
  }

  lemma Exchange(x: multiset<nat>, before: multiset<nat>, after: multiset<nat>, out: multiset<nat>, put: multiset<nat>)
    requires after + out == before + put
    ensures (x + after) + out == (x + before) + put
  {
    assert (x + after) + out == x + (after + out);
    assert (x + before) + put == x + (before + put);
  }

  lemma {:induction false} FlatUpdate(buckets: seq<seq<nat>>, i: nat, s: seq<nat>)
    requires i < |buckets|
    ensures multiset(Flat(buckets[i := s])) + multiset(buckets[i]) == multiset(Flat(buckets)) + multiset(s)
    decreases |buckets|
  {
    assert Flat(buckets) == buckets[0] + Flat(buckets[1..]);
    if i == 0 {
      assert buckets[0 := s][1..] == buckets[1..];
    } else {
      assert buckets[1..][i - 1] == buckets[i];
      assert buckets[i := s][1..] == buckets[1..][i - 1 := s] && buckets[i := s][0] == buckets[0];
      assert Flat(buckets[i := s]) == buckets[0] + Flat(buckets[1..][i - 1 := s]);
      FlatUpdate(buckets[1..], i - 1, s);
      var before, after := Flat(buckets[1..]), Flat(buckets[1..][i - 1 := s]);
      Exchange(multiset(buckets[0]), multiset(before), multiset(after), multiset(buckets[i]), multiset(s));
      assert multiset(buckets[0] + after) == multiset(buckets[0]) + multiset(after);
    }
  }

  lemma {:induction false} InFlat(buckets: seq<seq<nat>>, i: nat, n: nat)
    requires i < |buckets| && n in buckets[i]
    ensures n in Flat(buckets)
    decreases |buckets|
  {
    if i > 0 { InFlat(buckets[1..], i - 1, n); }
  }

  lemma {:induction false} FlatIn(buckets: seq<seq<nat>>, n: nat) returns (i: nat)
    requires n in Flat(buckets)
    ensures i < |buckets| && n in buckets[i]
    decreases |buckets|
  {
    if n in buckets[0] {
      i := 0;
    } else {
      i := FlatIn(buckets[1..], n);
      i := i + 1;
    }
  }

  /** Nodes end where the next one starts, and none lies past the origin. */
  lemma {:induction false} TilesOrdered(layout: seq<nat>, index: map<nat, nat>, start: nat, origin: nat, j: nat, k: nat)
    requires Tiles(layout, index, start, origin) && j < k <= |layout|
    ensures layout[j] in index && layout[j] + Extent(index[layout[j]]) <= (if k < |layout| then layout[k] else origin)
    ensures start <= layout[j]
    decreases |layout|
  {
    var n := |layout| - 1;
    if j < n {
      TilesOrdered(layout[..n], index, start, layout[n], j, if k < n then k else n);
    } else {
      StartBelow(layout[..n], index, start, layout[n]);
    }
  }

  lemma {:induction false} StartBelow(layout: seq<nat>, index: map<nat, nat>, start: nat, origin: nat)
    requires Tiles(layout, index, start, origin)
    ensures start <= origin
    decreases |layout|
  {
    if layout != [] { StartBelow(layout[..|layout| - 1], index, start, layout[|layout| - 1]); }
  }

  /** No node is listed twice. */
  lemma LayoutDistinct(a: Arena, start: nat, n: nat)
    requires Tiles(a.layout, a.index, start, a.origin)
    ensures multiset(a.layout)[n] <= 1
    ensures n in a.layout ==> n in a.index && n % 16 == start % 16 && n < a.origin
  {
    hide Tiles;
    CountAtMostOne(a.layout, a.index, start, a.origin, n);
    if n in a.layout {
      var j :| 0 <= j < |a.layout| && a.layout[j] == n;
      TilesOrdered(a.layout, a.index, start, a.origin, j, |a.layout|);
      AlignedAt(a.layout, a.index, start, a.origin, j);
    }
  }

  lemma {:induction false} CountAtMostOne(layout: seq<nat>, index: map<nat, nat>, start: nat, origin: nat, n: nat)
    requires Tiles(layout, index, start, origin)
    ensures multiset(layout)[n] <= 1 && (n in layout ==> n < origin)
    decreases |layout|
  {
    if layout != [] {
      var m := |layout| - 1;
      CountAtMostOne(layout[..m], index, start, layout[m], n);
      assert layout == layout[..m] + [layout[m]];
    }
  }

  lemma {:induction false} AlignedAt(layout: seq<nat>, index: map<nat, nat>, start: nat, origin: nat, j: nat)
    requires Tiles(layout, index, start, origin) && j < |layout|
    ensures layout[j] % 16 == start % 16
    decreases |layout|
  {
    var m := |layout| - 1;
    if j < m { AlignedAt(layout[..m], index, start, layout[m], j); }
    else { SameResidue(layout[..m], index, start, layout[m]); }
  }

  lemma {:induction false} SameResidue(layout: seq<nat>, index: map<nat, nat>, start: nat, origin: nat)
    requires Tiles(layout, index, start, origin)
    ensures origin % 16 == start % 16
    decreases |layout|
  {
    if layout != [] {
      var n := layout[|layout| - 1];
      SameResidue(layout[..|layout| - 1], index, start, n);
      hide Tiles;
      ExtentAligned(n, index[n]);
    }
  }

  lemma ExtentAligned(n: nat, index: nat)
    ensures (n + Extent(index)) % 16 == n % 16
  {
    assert n + Extent(index) == n + 16 * (256 * (index + 1));
  }

  /* ---- alloc ---- */

  lemma Counts(a: Arena, start: nat, n: nat)
    requires Inv(a, start)
    ensures multiset(Flat(a.buckets))[n] + multiset(a.live)[n] == multiset(a.layout)[n] <= 1
    ensures n in Flat(a.buckets) || n in a.live <==> n in a.layout
  {
    LayoutDistinct(a, start, n);
    assert (multiset(Flat(a.buckets)) + multiset(a.live))[n] == multiset(a.layout)[n];
  }

  /** A node in a bucket is not live. */
  lemma FreeIsNotLive(a: Arena, start: nat, i: nat, n: nat)
    requires Inv(a, start) && i < |a.buckets| && n in a.buckets[i]
    ensures n !in a.live && n in a.layout
  {
    hide Inv;
    InFlat(a.buckets, i, n);
    Counts(a, start, n);
  }

  lemma Cancel(x: multiset<nat>, y: multiset<nat>, z: multiset<nat>)
    requires x + z == y + z
    ensures x == y
  {
    forall n: nat ensures x[n] == y[n] { assert (x + z)[n] == (y + z)[n]; }
  }

  /** Moving a node from a bucket to the live ones conserves. */
  lemma MoveConserves(a: Arena, i: nat, n: nat, rest: seq<nat>)
    requires Conserved(a) && i < |a.buckets| && n !in a.live
    requires multiset(a.buckets[i]) == multiset(rest) + multiset{n}
    ensures multiset(Flat(a.buckets[i := rest])) + multiset(a.live + {n}) == multiset(a.layout)
  {
    FlatUpdate(a.buckets, i, rest);
    var flat, after, live := multiset(Flat(a.buckets)), multiset(Flat(a.buckets[i := rest])), multiset(a.live);
    assert (after + multiset{n}) + multiset(rest) == flat + multiset(rest) by {
      assert after + (multiset(rest) + multiset{n}) == flat + multiset(rest);
    }
    Cancel(after + multiset{n}, flat, multiset(rest));
    assert multiset(a.live + {n}) == live + multiset{n};
    assert after + (live + multiset{n}) == (after + multiset{n}) + live;
  }

  lemma TakeKeeps(a: Arena, start: nat, i: nat)
    requires Inv(a, start) && 0 < i <= a.last && a.buckets[i] != []
    ensures Inv(Take(a, i), start) && a.buckets[i][0] !in a.live && a.index[a.buckets[i][0]] == i
  {
    hide Tiles;
    var n, rest := a.buckets[i][0], a.buckets[i][1..];
    FreeIsNotLive(a, start, i, n);
    assert a.buckets[i] == [n] + rest;
    MoveConserves(a, i, n, rest);
    TakeSorted(a, i);
    TakeLast(a, i);
  }

  lemma TakeSorted(a: Arena, i: nat)
    requires Sorted(a) && i < |a.buckets| && a.buckets[i] != []
    ensures Sorted(Take(a, i))
  {
    var b := Take(a, i);
    forall j, n | 0 <= j < |b.buckets| && n in b.buckets[j]
      ensures n in b.index && if j == 0 then b.index[n] >= MAX_INDEX else b.index[n] == j
    {
      assert n in a.buckets[j];
    }
  }

  lemma TakeLast(a: Arena, i: nat)
    requires LastExact(a) && 0 < i <= a.last < |a.buckets| && a.buckets[i] != []
    ensures LastExact(Take(a, i)) && Take(a, i).last <= a.last
  {
  }

  lemma TakeFromSinkKeeps(a: Arena, start: nat, k: nat)
    requires Inv(a, start) && k < |a.buckets[0]|
    ensures Inv(TakeFromSink(a, k), start) && a.buckets[0][k] !in a.live
  {
    hide Tiles;
    var n, rest := a.buckets[0][k], Without(a.buckets[0], k);
    FreeIsNotLive(a, start, 0, n);
    WithoutOne(a.buckets[0], k);
    MoveConserves(a, 0, n, rest);
    var b := TakeFromSink(a, k);
    forall j, m | 0 <= j < |b.buckets| && m in b.buckets[j]
      ensures m in b.index && if j == 0 then b.index[m] >= MAX_INDEX else b.index[m] == j
    {
      assert m in a.buckets[j];
    }
  }

  lemma WithoutOne(s: seq<nat>, k: nat)
    requires k < |s|
    ensures multiset(s) == multiset(Without(s, k)) + multiset{s[k]}
    ensures forall n :: n in Without(s, k) ==> n in s
  {
    assert s == s[..k] + [s[k]] + s[k + 1..];
  }

  lemma {:induction false} TilesFrame(layout: seq<nat>, index: map<nat, nat>, index2: map<nat, nat>, start: nat, origin: nat)
    requires Tiles(layout, index, start, origin)
    requires forall n :: n in index && n < origin ==> n in index2 && index2[n] == index[n]
    ensures Tiles(layout, index2, start, origin)
    decreases |layout|
  {
    if layout != [] {
      var m := |layout| - 1;
      TilesFrame(layout[..m], index, index2, start, layout[m]);
    }
  }

  lemma BumpKeeps(a: Arena, start: nat, size: nat, memSize: nat, granted: bool)
    requires Inv(a, start) && MIN_ALLOC <= size && size % BOUNDARY == 0 && a.origin + size < LIMIT
    ensures
      var r := Bump(a, size, memSize, granted);
      r.Got? ==> Inv(r.a, start) && r.node !in a.live && r.node !in a.layout && r.a.origin == a.origin + size
  {
    hide Tiles, Conserved, Sorted, LastExact;
    var r := Bump(a, size, memSize, granted);
    if r.Got? {
      OriginIsNew(a, start);
      BumpTiles(a, start, size, r.a);
      BumpSorted(a, start, r.a);
      BumpConserves(a, r.a);
      BumpLast(a, r.a);
    }
  }

  lemma OriginIsNew(a: Arena, start: nat)
    requires Inv(a, start)
    ensures a.origin !in a.live && a.origin !in a.layout
  {
    Counts(a, start, a.origin);
    LayoutDistinct(a, start, a.origin);
    hide Tiles, Conserved, Sorted, LastExact, Flat;
  }

  lemma BumpConserves(a: Arena, b: Arena)
    requires Conserved(a) && b.buckets == a.buckets && a.origin !in a.live
    requires b.layout == a.layout + [a.origin] && b.live == a.live + {a.origin}
    ensures Conserved(b)
  {
    hide Flat;
    var one := multiset{a.origin};
    assert multiset(b.live) == multiset(a.live) + one && multiset(b.layout) == multiset(a.layout) + one;
    assert multiset(Flat(a.buckets)) + (multiset(a.live) + one) == (multiset(Flat(a.buckets)) + multiset(a.live)) + one;
  }

  lemma BumpLast(a: Arena, b: Arena)
    requires LastExact(a) && b.buckets == a.buckets && b.last == a.last
    ensures LastExact(b)
  {
  }

  lemma BumpTiles(a: Arena, start: nat, size: nat, b: Arena)
    requires Tiles(a.layout, a.index, start, a.origin) && size % BOUNDARY == 0 && size >= BOUNDARY
    requires b.layout == a.layout + [a.origin] && b.index == a.index[a.origin := size / BOUNDARY - 1] && b.origin == a.origin + size
    ensures Tiles(b.layout, b.index, start, b.origin)
  {
    TilesFrame(a.layout, a.index, b.index, start, a.origin);
    assert b.layout[..|a.layout|] == a.layout;
    assert Extent(size / BOUNDARY - 1) == size;
  }

  lemma BumpSorted(a: Arena, start: nat, b: Arena)
    requires Inv(a, start) && b.buckets == a.buckets && a.origin !in a.layout
    requires forall n :: n in a.index && n != a.origin ==> n in b.index && b.index[n] == a.index[n]
    ensures Sorted(b)
  {
    forall j, n | 0 <= j < |b.buckets| && n in b.buckets[j]
      ensures n in b.index && if j == 0 then b.index[n] >= MAX_INDEX else b.index[n] == j
    {
      FreeIsNotLive(a, start, j, n);
    }
  }

  /** Some free node is big enough. */
  predicate HasFit(a: Arena, want: nat) {
    exists i, n :: 0 <= i < |a.buckets| && n in a.buckets[i] && n in a.index && a.index[n] >= want
  }

  /** The request finds a free node, or a new one fits below 2^32. */
  predicate NoWrap(a: Arena, inSize: nat) {
    RequestSize(inSize).Some? && !HasFit(a, RequestSize(inSize).value / 4096 - 1) ==>
      a.origin + RequestSize(inSize).value < 0x1_0000_0000
  }

  /** The node handed out: it was not live, it has at least `inSize` bytes behind its header, and the
      arena is as well-formed as before. A new node is made exactly when no free node is big
      enough; and every node made keeps its place and size for ever. */
  lemma AllocKeeps(a: Arena, start: nat, inSize: nat, memSize: nat, granted: bool)
    requires Inv(a, start) && inSize < LIMIT && Shaped(a) && NoWrap(a, inSize)
    ensures
      var r := Alloc(a, inSize, memSize, granted);
      r.Got? ==>
        && Inv(r.a, start) && r.node !in a.live && r.a.live == a.live + {r.node}
        && r.node in r.a.index && (r.a.index[r.node] + 1) * 4096 - 32 >= inSize
        && a.layout <= r.a.layout
        && (forall n :: n in a.layout ==> n in r.a.index && n in a.index && r.a.index[n] == a.index[n])
        && RequestSize(inSize).Some?
        && (r.a.layout != a.layout <==> !HasFit(a, RequestSize(inSize).value / 4096 - 1))
  {
    hide Tiles, Conserved, Sorted, Take, TakeFromSink, HasFit, LastExact;
    RequestSizeOk(inSize);
    if RequestSize(inSize).Some? {
      var size := RequestSize(inSize).value;
      var want := size / BOUNDARY - 1;
      forall n | n in a.layout ensures n in a.index && n < a.origin { LayoutDistinct(a, start, n); }
      assert Extent(want) == size;
      if want <= a.last {
        FromBucket(a, start, want);
      } else {
        var k := FirstFit(a.buckets[0], a.index, want);
        if k < |a.buckets[0]| { FromSink(a, start, want, k); }
        else {
          NoFit(a, start, want);
          BumpKeeps(a, start, size, memSize, granted);
        }
      }
    }
  }

  /** A new node whose end wraps leaves nothing well-formed: its end is not the new origin. */
  lemma BumpWraps(a: Arena, start: nat, size: nat, memSize: nat, granted: bool)
    requires MIN_ALLOC <= size < LIMIT && size % BOUNDARY == 0 && a.origin < LIMIT <= a.origin + size
    ensures var r := Bump(a, size, memSize, granted); r.Got? ==> !Inv(r.a, start)
  {
    hide Conserved, Sorted, LastExact;
    assert Extent(size / BOUNDARY - 1) == size;
    var r := Bump(a, size, memSize, granted);
    if r.Got? {
      assert r.a.layout[|r.a.layout| - 1] == a.origin && r.a.index[a.origin] == size / BOUNDARY - 1;
      assert r.a.origin == a.origin + size - LIMIT;
    }
  }

  /** Every request, whatever its size: the arena stays well-formed exactly when the request finds a free
      node or the end of the new one does not wrap. */
  lemma AllocExact(a: Arena, start: nat, inSize: nat, memSize: nat, granted: bool)
    requires Inv(a, start) && inSize < LIMIT && Shaped(a) && a.origin < LIMIT
    ensures
      var r := Alloc(a, inSize, memSize, granted);
      r.Got? ==> (Inv(r.a, start) <==> NoWrap(a, inSize))
  {
    hide Inv, Tiles, Conserved, Sorted, Take, TakeFromSink, HasFit, LastExact;
    RequestSizeOk(inSize);
    if NoWrap(a, inSize) {
      AllocKeeps(a, start, inSize, memSize, granted);
    } else {
      var size := RequestSize(inSize).value;
      NewWhenNoFit(a, start, inSize, memSize, granted);
      BumpWraps(a, start, size, memSize, granted);
    }
  }

  /** Without a free node that fits, the allocator makes a new one. */
  lemma NewWhenNoFit(a: Arena, start: nat, inSize: nat, memSize: nat, granted: bool)
    requires Inv(a, start) && inSize < LIMIT && Shaped(a)
    ensures
      RequestSize(inSize).Some? ==>
        RequestSize(inSize).value >= MIN_ALLOC &&
        var size := RequestSize(inSize).value;
        (if HasFit(a, size / BOUNDARY - 1) then
           Alloc(a, inSize, memSize, granted).Got? && Alloc(a, inSize, memSize, granted).a.origin == a.origin &&
           Alloc(a, inSize, memSize, granted).memSize == memSize
         else Alloc(a, inSize, memSize, granted) == Bump(a, size, memSize, granted))
  {
    hide Tiles, Conserved, Sorted, HasFit, LastExact, Bump;
    RequestSizeOk(inSize);
    if RequestSize(inSize).Some? {
      var want := RequestSize(inSize).value / BOUNDARY - 1;
      if want <= a.last {
        FromBucket(a, start, want);
      } else {
        var k := FirstFit(a.buckets[0], a.index, want);
        if k < |a.buckets[0]| { FromSink(a, start, want, k); } else { NoFit(a, start, want); }
      }
    }
  }

  /** `last` bounds the search, so it always ends at a node that fits. */
  lemma FromBucket(a: Arena, start: nat, want: nat)
    requires Inv(a, start) && 0 < want <= a.last
    ensures
      var i := Seek(a.buckets, want, a.last);
      && a.buckets[i] != []
      && Inv(Take(a, i), start) && a.buckets[i][0] !in a.live && a.buckets[i][0] in a.index && a.index[a.buckets[i][0]] >= want
      && Take(a, i).layout == a.layout && Take(a, i).index == a.index && Take(a, i).live == a.live + {a.buckets[i][0]}
      && HasFit(a, want)
  {
    hide Tiles, Conserved;
    var i := Seek(a.buckets, want, a.last);
    TakeKeeps(a, start, i);
    assert a.buckets[i][0] in a.buckets[i];
  }

  lemma FromSink(a: Arena, start: nat, want: nat, k: nat)
    requires Inv(a, start) && k < |a.buckets[0]| && a.buckets[0][k] in a.index && a.index[a.buckets[0][k]] >= want
    ensures
      var b := TakeFromSink(a, k);
      && Inv(b, start) && a.buckets[0][k] !in a.live && HasFit(a, want)
      && b.layout == a.layout && b.index == a.index && b.live == a.live + {a.buckets[0][k]}
  {
    hide Tiles, Conserved;
    TakeFromSinkKeeps(a, start, k);
    assert a.buckets[0][k] in a.buckets[0];
  }

  lemma NoFit(a: Arena, start: nat, want: nat)
    requires Inv(a, start) && Shaped(a) && want > a.last && FirstFit(a.buckets[0], a.index, want) == |a.buckets[0]|
    ensures !HasFit(a, want)
  {
    hide Tiles, Conserved;
    forall i, n | 0 <= i < |a.buckets| && n in a.buckets[i] && n in a.index ensures a.index[n] < want {
      if i == 0 {
        var j :| 0 <= j < |a.buckets[0]| && a.buckets[0][j] == n;
      }
    }
  }

  /* ---- free ---- */

  lemma ReleaseKeeps(a: Arena, start: nat, n: nat)
    requires Inv(a, start) && n in a.live && Shaped(a)
    ensures n in a.index && Inv(Release(a, n), start)
    ensures Release(a, n).live == a.live - {n} && Release(a, n).layout == a.layout && Release(a, n).index == a.index
  {
    hide Tiles;
    Counts(a, start, n);
    LayoutDistinct(a, start, n);
    var b, i := Release(a, n), if a.index[n] < MAX_INDEX then a.index[n] else 0;
    FlatUpdate(a.buckets, i, [n] + a.buckets[i]);
    PutConserves(a, i, n);
    ReleaseSorted(a, n);
  }

  lemma PutConserves(a: Arena, i: nat, n: nat)
    requires Conserved(a) && i < |a.buckets| && n in a.live
    ensures multiset(Flat(a.buckets[i := [n] + a.buckets[i]])) + multiset(a.live - {n}) == multiset(a.layout)
  {
    var put := [n] + a.buckets[i];
    FlatUpdate(a.buckets, i, put);
    var flat, after := multiset(Flat(a.buckets)), multiset(Flat(a.buckets[i := put]));
    assert multiset(put) == multiset{n} + multiset(a.buckets[i]);
    assert after + multiset(a.buckets[i]) == (flat + multiset{n}) + multiset(a.buckets[i]) by {
      assert after + multiset(a.buckets[i]) == flat + (multiset{n} + multiset(a.buckets[i]));
    }
    Cancel(after, flat + multiset{n}, multiset(a.buckets[i]));
    assert multiset(a.live) == multiset(a.live - {n}) + multiset{n};
  }

  lemma ReleaseSorted(a: Arena, n: nat)
    requires Sorted(a) && LastExact(a) && Shaped(a) && n in a.index && a.index[n] > 0
    ensures Sorted(Release(a, n)) && LastExact(Release(a, n))
  {
    var b := Release(a, n);
    forall j, m | 0 <= j < |b.buckets| && m in b.buckets[j]
      ensures m in b.index && if j == 0 then b.index[m] >= MAX_INDEX else b.index[m] == j
    {
      assert m == n || m in a.buckets[j];
    }
  }

  predicate Distinct(s: seq<nat>) {
    forall i, j :: 0 <= i < j < |s| ==> s[i] != s[j]
  }

  lemma ReleaseShaped(a: Arena, n: nat)
    requires Shaped(a) && n in a.index
    ensures Shaped(Release(a, n)) && Release(a, n).index == a.index
  {
    var b := Release(a, n);
    forall i, m | 0 <= i < MAX_INDEX && m in b.buckets[i] ensures m in b.index {
      assert m == n || m in a.buckets[i];
    }
  }

  /** Freeing distinct live nodes makes exactly those no longer live and keeps the invariant. */
  lemma {:induction false} FreeKeeps(a: Arena, start: nat, nodes: seq<nat>)
    requires Inv(a, start) && Distinct(nodes) && (forall n :: n in nodes ==> n in a.live)
    ensures Shaped(a) && forall n :: n in nodes ==> n in a.index
    ensures
      var b := Free(a, nodes);
      Inv(b, start) && b.live == a.live - (set n | n in nodes) && b.layout == a.layout && b.index == a.index && b.origin == a.origin
    decreases |nodes|
  {
    hide Tiles, Conserved, Sorted, LastExact;
    InvShaped(a, start);
    forall n | n in nodes ensures n in a.index { ReleaseKeeps(a, start, n); }
    if nodes != [] {
      ReleaseKeeps(a, start, nodes[0]);
      var b := Release(a, nodes[0]);
      hide Inv, Release;
      assert forall n :: n in nodes[1..] ==> n in b.live;
      FreeKeeps(b, start, nodes[1..]);
      assert (set n | n in nodes) == {nodes[0]} + (set n | n in nodes[1..]);
    }
  }

  /* ---- histories ---- */

  datatype Call = AllocCall(inSize: nat, granted: bool) | FreeCall(nodes: seq<nat>)

  datatype Heap = Heap(a: Arena, memSize: nat)

  /** A call the allocator has to serve: a request that finds a free node or fits in 32 bits above the
      origin, or distinct nodes that are live. */
  predicate Proper(h: Heap, c: Call) {
    Shaped(h.a) &&
    match c
    case AllocCall(inSize, _) =>
      inSize < LIMIT && NoWrap(h.a, inSize)
    case FreeCall(nodes) => Distinct(nodes) && forall n :: n in nodes ==> n in h.a.live && n in h.a.index
  }

  function Perform(h: Heap, c: Call): Heap
    requires Proper(h, c)
  {
    match c
    case FreeCall(nodes) => h.(a := Free(h.a, nodes))
    case AllocCall(inSize, granted) =>
      match Alloc(h.a, inSize, h.memSize, granted)
      case NoMemory => h
      case Got(_, b, memSize) => Heap(b, memSize)
  }

  function PerformAll(h: Heap, calls: seq<Call>): Option<Heap>
    decreases |calls|
  {
    if calls == [] then Some(h)
    else if !Proper(h, calls[0]) then None
    else PerformAll(Perform(h, calls[0]), calls[1..])
  }

  predicate HeapInv(h: Heap, start: nat) {
    Inv(h.a, start) && h.a.origin <= h.memSize
  }

  /** Nothing is split, merged or lost: the nodes made so far stay where they are with their size. */
  predicate Extends(a: Arena, b: Arena) {
    a.layout <= b.layout && forall n :: n in a.layout ==> n in a.index && n in b.index && b.index[n] == a.index[n]
  }

  lemma PerformKeeps(h: Heap, start: nat, c: Call)
    requires HeapInv(h, start) && Proper(h, c)
    ensures HeapInv(Perform(h, c), start) && Extends(h.a, Perform(h, c).a)
  {
    hide Tiles, Conserved, Sorted, LastExact, Bump;
    match c
    case FreeCall(nodes) =>
      FreeKeeps(h.a, start, nodes);
      forall n | n in h.a.layout ensures n in h.a.index { LayoutDistinct(h.a, start, n); }
    case AllocCall(inSize, granted) =>
      AllocKeeps(h.a, start, inSize, h.memSize, granted);
      AllocInMemory(h, start, inSize, granted);
      forall n | n in h.a.layout ensures n in h.a.index { LayoutDistinct(h.a, start, n); }
  }

  lemma AllocInMemory(h: Heap, start: nat, inSize: nat, granted: bool)
    requires HeapInv(h, start) && Proper(h, AllocCall(inSize, granted))
    ensures
      var r := Alloc(h.a, inSize, h.memSize, granted);
      r.Got? ==> r.a.origin <= r.memSize
  {
    hide Inv, Alloc, HasFit;
    NewWhenNoFit(h.a, start, inSize, h.memSize, granted);
    if RequestSize(inSize).None? { NothingWhenRefused(h.a, inSize, h.memSize, granted); }
  }

  lemma NothingWhenRefused(a: Arena, inSize: nat, memSize: nat, granted: bool)
    requires Shaped(a) && inSize < LIMIT && RequestSize(inSize).None?
    ensures Alloc(a, inSize, memSize, granted).NoMemory?
  {
  }

  /** Over any history of proper calls the free nodes and the live ones tile the arena from its first
      origin to the current one, each node ever made at its own place and extent, the buckets say
      truly what is free, and the arena lies within memory. */
  lemma {:induction false} HistoryKeeps(h: Heap, start: nat, calls: seq<Call>)
    requires HeapInv(h, start) && PerformAll(h, calls).Some?
    ensures HeapInv(PerformAll(h, calls).value, start) && Extends(h.a, PerformAll(h, calls).value.a)
    decreases |calls|
  {
    if calls == [] {
      forall n | n in h.a.layout ensures n in h.a.index { LayoutDistinct(h.a, start, n); }
    } else {
      PerformKeeps(h, start, calls[0]);
      hide HeapInv;
      HistoryKeeps(Perform(h, calls[0]), start, calls[1..]);
    }
  }

  /** Any two nodes ever made are disjoint, inside the arena and 16-aligned. */
  lemma NodesDisjoint(a: Arena, start: nat, n: nat, m: nat)
    requires Inv(a, start) && n in a.layout && m in a.layout && n != m
    ensures n in a.index && m in a.index && n % 16 == 0
    ensures n + (a.index[n] + 1) * 4096 <= m || m + (a.index[m] + 1) * 4096 <= n
    ensures start <= n && n + (a.index[n] + 1) * 4096 <= a.origin
  {
    var i :| 0 <= i < |a.layout| && a.layout[i] == n;
    var j :| 0 <= j < |a.layout| && a.layout[j] == m;
    LayoutDistinct(a, start, n);
    hide Tiles, Conserved, Sorted, LastExact;
    TilesOrdered(a.layout, a.index, start, a.origin, i, |a.layout|);
    if i < j { TilesOrdered(a.layout, a.index, start, a.origin, i, j); }
    else { TilesOrdered(a.layout, a.index, start, a.origin, j, i); }
    LayoutDistinct(a, start, m);
  }

  /** A new node is at the origin, and memory grows for it, when it must, by the fewest whole pages that
      are more than its size. The bound does not catch one request: when the 32-bit sum of origin and
      size wraps, the allocator hands out a node that does not lie in memory, whatever `GrowMemory` would
      answer. */
  lemma NewNodeInMemory(a: Arena, size: nat, memSize: nat, granted: bool)
    requires MIN_ALLOC <= size < 0x1_0000_0000 && a.origin <= memSize < 0x1_0000_0000
    ensures
      var r := Bump(a, size, memSize, granted);
      && (r.Got? ==> r.node == a.origin && (r.node + size <= r.memSize <==> a.origin + size < 0x1_0000_0000))
      && (a.origin + size >= 0x1_0000_0000 ==> r.Got? && r.memSize == memSize)
      && (a.origin + size < 0x1_0000_0000 ==>
           if a.origin + size <= memSize then r.Got? && r.memSize == memSize
           else
             && (r.Got? <==> granted)
             && (r.Got? ==> (r.memSize - memSize) % 65536 == 0 && size < r.memSize - memSize <= size + 65536))
  {
  }
}
