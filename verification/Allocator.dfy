/** The allocator as the object it is: linked nodes in linear memory (pointers are offsets), an
    array of list heads, and loops that walk and unlink. Proved against the allocator on values. */
module AllocatorObject {
  import opened Wasm
  import opened Allocation

  /** `next` is the first field, so the address of a node is also that of its `next` pointer, and a
      `ref` (the place that points here) names the node whose `next` it is. */
  datatype MemNode = MemNode(next: nat, ref: nat, index: nat, freeIndex: nat, firstAvail: nat, endp: nat)

  /** What follows position `k` of a list. */
  function Following(s: seq<nat>, k: nat): nat {
    if k + 1 < |s| then s[k + 1] else NULL
  }

  predicate Linked(nodes: map<nat, MemNode>, s: seq<nat>, k: nat)
    requires k < |s|
  {
    s[k] in nodes && nodes[s[k]].next == Following(s, k)
  }

  /** The list that starts at `head` runs through exactly `s`. */
  predicate Chain(nodes: map<nat, MemNode>, head: nat, s: seq<nat>) {
    head == (if s == [] then NULL else s[0]) && forall k :: 0 <= k < |s| ==> Linked(nodes, s, k)
  }

  lemma ChainFrame(nodes: map<nat, MemNode>, nodes2: map<nat, MemNode>, head: nat, s: seq<nat>)
    requires Chain(nodes, head, s)
    requires forall n :: n in s && n in nodes ==> n in nodes2 && nodes2[n].next == nodes[n].next
    ensures Chain(nodes2, head, s)
  {
    forall k | 0 <= k < |s| ensures Linked(nodes2, s, k) { assert Linked(nodes, s, k) && s[k] in s; }
  }

  lemma ChainTail(nodes: map<nat, MemNode>, head: nat, s: seq<nat>)
    requires Chain(nodes, head, s) && s != []
    ensures head in nodes && Chain(nodes, nodes[head].next, s[1..])
  {
    assert Linked(nodes, s, 0);
    forall k | 0 <= k < |s[1..]| ensures Linked(nodes, s[1..], k) { assert Linked(nodes, s, k + 1); }
  }

  lemma ChainPush(nodes: map<nat, MemNode>, head: nat, s: seq<nat>, n: nat)
    requires Chain(nodes, head, s) && n in nodes && nodes[n].next == head
    ensures Chain(nodes, n, [n] + s)
  {
    forall k | 0 <= k < |[n] + s| ensures Linked(nodes, [n] + s, k) {
      if k > 0 { assert Linked(nodes, s, k - 1); }
    }
  }

  /** Unlinking the node after `s[k - 1]`. */
  lemma ChainUnlink(nodes: map<nat, MemNode>, nodes2: map<nat, MemNode>, head: nat, s: seq<nat>, k: nat)
    requires Chain(nodes, head, s) && 0 < k < |s| && Distinct(s)
    requires forall n :: n in s && n in nodes && n != s[k - 1] && n != s[k] ==> n in nodes2 && nodes2[n].next == nodes[n].next
    requires s[k - 1] in nodes2 && nodes2[s[k - 1]].next == Following(s, k)
    ensures Chain(nodes2, head, Without(s, k))
  {
    var r := Without(s, k);
    forall j | 0 <= j < |r| ensures Linked(nodes2, r, j) {
      if j < k - 1 { assert Linked(nodes, s, j) && s[j] in s && r[j] == s[j]; }
      else if j >= k { assert Linked(nodes, s, j + 1) && s[j + 1] in s && r[j] == s[j + 1]; }
    }
  }

  lemma {:induction false} FlatCounts(buckets: seq<seq<nat>>, i: nat, n: nat)
    requires i < |buckets|
    ensures multiset(buckets[i])[n] <= multiset(Flat(buckets))[n]
    decreases |buckets|
  {
    assert Flat(buckets) == buckets[0] + Flat(buckets[1..]);
    if i > 0 { FlatCounts(buckets[1..], i - 1, n); }
  }

  lemma {:induction false} FlatCountsTwo(buckets: seq<seq<nat>>, i: nat, j: nat, n: nat)
    requires i < j < |buckets|
    ensures multiset(buckets[i])[n] + multiset(buckets[j])[n] <= multiset(Flat(buckets))[n]
    decreases |buckets|
  {
    assert Flat(buckets) == buckets[0] + Flat(buckets[1..]);
    if i > 0 { FlatCountsTwo(buckets[1..], i - 1, j - 1, n); }
    else { FlatCounts(buckets[1..], j - 1, n); }
  }

  /** A free node is in one bucket, once, and is not live. */
  lemma BucketsApart(a: Arena, start: nat)
    requires Inv(a, start)
    ensures forall i, j, n :: 0 <= i < |a.buckets| && 0 <= j < |a.buckets| && n in a.buckets[i] && n in a.buckets[j] ==> i == j
    ensures forall i :: 0 <= i < |a.buckets| ==> Distinct(a.buckets[i])
    ensures forall i, n :: 0 <= i < |a.buckets| && n in a.buckets[i] ==> n !in a.live
  {
    hide Inv;
    forall i, j, n | 0 <= i < |a.buckets| && 0 <= j < |a.buckets| && n in a.buckets[i] && n in a.buckets[j] ensures i == j {
      Counts(a, start, n);
      if i < j { FlatCountsTwo(a.buckets, i, j, n); }
      if j < i { FlatCountsTwo(a.buckets, j, i, n); }
    }
    forall i | 0 <= i < |a.buckets| ensures Distinct(a.buckets[i]) {
      forall n: nat ensures multiset(a.buckets[i])[n] <= 1 {
        Counts(a, start, n);
        FlatCounts(a.buckets, i, n);
      }
      OnceIsDistinct(a.buckets[i]);
    }
    forall i, n | 0 <= i < |a.buckets| && n in a.buckets[i] ensures n !in a.live { FreeIsNotLive(a, start, i, n); }
  }

  lemma OnceIsDistinct(s: seq<nat>)
    requires forall n: nat :: multiset(s)[n] <= 1
    ensures Distinct(s)
  {
    forall i, j | 0 <= i < j < |s| ensures s[i] != s[j] { TwicePresent(s, i, j); }
  }

  lemma TwicePresent(s: seq<nat>, i: nat, j: nat)
    requires i < j < |s|
    ensures s[i] == s[j] ==> multiset(s)[s[i]] >= 2
  {
    assert s == s[..i] + [s[i]] + s[i + 1..j] + [s[j]] + s[j + 1..];
  }

  class Allocator {
    var nodes: map<nat, MemNode>
    const buf: array<nat>
    var last: nat
    var origin: nat
    var memSize: nat
    ghost var a: Arena
    ghost var start: nat

    /** The list heads, the node records and the ghost arena say the same. */
    ghost predicate Valid()
      reads this, buf
    {
      && Inv(a, start) && Shaped(a)
      && last == a.last && origin == a.origin
      && NULL !in nodes && origin <= memSize < LIMIT
      && Heads(nodes, buf[..], a.buckets)
      && Records(nodes, a)
    }

    constructor (base: nat, memSize: nat)
      requires base + 111 < LIMIT && AlignDefault(base) + 96 <= memSize < LIMIT
      ensures Valid() && a == NewArena(AlignDefault(base) + 96) && this.memSize == memSize
      ensures fresh(buf) && buf.Length == 20 && forall k :: 0 <= k < 20 ==> buf[k] == 0xFFFF_FFFF
    {
      this.nodes := map[];
      this.buf := new nat[MAX_INDEX](_ => NULL);
      this.last := 0;
      this.origin := AlignDefault(base) + 96;
      this.memSize := memSize;
      this.a := NewArena(AlignDefault(base) + 96);
      this.start := AlignDefault(base) + 96;
      new;
      NewArenaInv(AlignDefault(base) + 96);
    }

    /** The node is ready for use: on no list, all of it free. */
    ghost predicate Fresh(node: nat)
      reads this
    {
      node in nodes && nodes[node].next == NULL && nodes[node].firstAvail == node + 32
    }

    /** Walk up from the bucket of the requested size. */
    method SeekBucket(want: nat) returns (i: nat)
      requires Valid() && want <= last
      ensures i == Seek(a.buckets, want, a.last)
    {
      i := want;
      while buf[i] == NULL && i < last
        invariant want <= i <= last && Seek(a.buckets, want, last) == Seek(a.buckets, i, last)
      {
        HeadEmpty(nodes, buf[..], a.buckets, i);
        i := i + 1;
      }
      HeadEmpty(nodes, buf[..], a.buckets, i);
    }

    /** Walk down from an emptied bucket to the next one that is not empty. */
    method LowerLast(i: nat, ghost buckets: seq<seq<nat>>) returns (max: nat)
      requires 0 < i < buf.Length && Heads(nodes, buf[..], buckets) && NULL !in nodes
      ensures max == Below(buckets, i)
    {
      max := i - 1;
      while buf[max] == NULL && max > 0
        invariant 0 <= max < i && Below(buckets, i) == Below(buckets, max + 1)
      {
        HeadEmpty(nodes, buf[..], buckets, max);
        max := max - 1;
      }
      HeadEmpty(nodes, buf[..], buckets, max);
    }

    /** From the ordinary buckets. */
    method AllocFromBucket(want: nat) returns (node: nat)
      requires Valid() && 0 < want <= last
      modifies this, buf
      ensures Valid() && start == old(start) && memSize == old(memSize)
      ensures
        var i := Seek(old(a).buckets, want, old(a).last);
        old(a).buckets[i] != [] && node == old(a).buckets[i][0] && a == Take(old(a), i)
      ensures Fresh(node) && Untouched(old(nodes), nodes, old(a).live)
    {
      hide Inv, Records, Chain, Shaped;
      LastInRange(a, start);
      var i := SeekBucket(want);
      FromBucket(a, start, want);
      HeadEmpty(nodes, buf[..], a.buckets, i);
      node := buf[i];
      TakeHeads(nodes, buf[..], a, start, i);
      TakeRecords(nodes, a, start, i);
      ghost var b := Take(a, i);
      buf[i] := nodes[node].next;
      nodes := nodes[node := nodes[node].(next := NULL, firstAvail := node + NODE_SIZE)];
      assert buf[..] == old(buf[..])[i := buf[i]];
      HeadEmpty(nodes, buf[..], b.buckets, i);
      if buf[i] == NULL && i >= last {
        last := LowerLast(i, b.buckets);
      }
      a := b;
      InvShaped(a, start);
    }

    /** First fit along the sink; `prev` is the node before the one found. */
    method WalkSink(want: nat) returns (prev: nat, node: nat, ghost k: nat)
      requires Valid()
      ensures k == FirstFit(a.buckets[0], a.index, want)
      ensures
        var sink, found := a.buckets[0], FirstFit(a.buckets[0], a.index, want);
        && node == (if found < |sink| then sink[found] else NULL)
        && (found < |sink| ==> prev == if found == 0 then NULL else sink[found - 1])
    {
      hide Inv, Heads, Records, FirstFit, Shaped;
      SinkKnown(a);
      ghost var sink := a.buckets[0];
      k := 0;
      prev := NULL;
      HeadsLength(nodes, buf[..], a.buckets);
      HeadEmpty(nodes, buf[..], a.buckets, 0);
      node := buf[0];
      if sink != [] { SinkStep(nodes, buf[..], a, start, 0); }
      assert sink[0..] == sink;
      while node != NULL && want > nodes[node].index
        invariant k <= |sink| && node == (if k < |sink| then sink[k] else NULL)
        invariant prev == if k == 0 then NULL else sink[k - 1]
        invariant k < |sink| ==> node != NULL && node in nodes && node in a.index && nodes[node].index == a.index[node]
        invariant FirstFit(sink, a.index, want) == k + FirstFit(sink[k..], a.index, want)
        decreases |sink| - k
      {
        SinkStep(nodes, buf[..], a, start, k);
        FirstFitStep(sink, a.index, want, k);
        prev := node;
        node := nodes[node].next;
        k := k + 1;
        if k < |sink| { SinkStep(nodes, buf[..], a, start, k); }
      }
      if k < |sink| { FirstFitStep(sink, a.index, want, k); }
    }

    /** Unlinking behind the previous node, or the head. */
    method AllocFromSink(want: nat) returns (node: nat)
      requires Valid() && want > last
      modifies this, buf
      ensures Valid() && start == old(start) && memSize == old(memSize)
      ensures
        var k := FirstFit(old(a).buckets[0], old(a).index, want);
        if k < |old(a).buckets[0]| then node == old(a).buckets[0][k] && a == TakeFromSink(old(a), k) && Fresh(node)
        else node == NULL && a == old(a)
      ensures Untouched(old(nodes), nodes, old(a).live)
    {
      hide Inv, Heads, Records, FirstFit, TakeFromSink;
      var prev;
      ghost var k;
      prev, node, k := WalkSink(want);
      if node != NULL {
        HeadsLength(nodes, buf[..], a.buckets);
        SinkNotNull(node, k);
        Unlink(prev, node, k);
      } else if k < |a.buckets[0]| {
        SinkStep(nodes, buf[..], a, start, k);
      }
    }

    lemma SinkNotNull(node: nat, k: nat)
      requires Valid() && node != NULL && |a.buckets| > 0 && node == if k < |a.buckets[0]| then a.buckets[0][k] else NULL
      ensures k < |a.buckets[0]|
    {
    }

    method Unlink(prev: nat, node: nat, ghost k: nat)
      requires Valid() && |a.buckets| > 0 && k < |a.buckets[0]| && node == a.buckets[0][k]
      requires prev == if k == 0 then NULL else a.buckets[0][k - 1]
      modifies this, buf
      ensures Valid() && start == old(start) && memSize == old(memSize)
      ensures a == TakeFromSink(old(a), k) && Fresh(node) && Untouched(old(nodes), nodes, old(a).live)
    {
      hide Inv, Heads, Records;
      HeadsLength(nodes, buf[..], a.buckets);
      ghost var sink := a.buckets[0];
      SinkStep(nodes, buf[..], a, start, k);
      if k > 0 { SinkStep(nodes, buf[..], a, start, k - 1); }
      TakeFromSinkKeeps(a, start, k);
      UnlinkSink(nodes, buf[..], a, start, k);
      UnlinkedOthers(nodes, a, start, k);
      ghost var target := Unlinked(nodes, sink, k);
      if prev == NULL {
        buf[0] := nodes[node].next;
      } else {
        nodes := nodes[prev := nodes[prev].(next := nodes[node].next)];
      }
      nodes := nodes[node := nodes[node].(next := NULL, firstAvail := node + NODE_SIZE)];
      assert nodes == target;
      assert buf[..] == if k == 0 then old(buf[..])[0 := old(nodes)[node].next] else old(buf[..]);
      a := TakeFromSink(a, k);
      InvShaped(a, start);
    }

    /** A new node at the origin, after growing the memory if it does not fit. `granted` is the answer of
        `GrowMemory`, if it is asked. */
    method NewNode(size: nat, granted: bool) returns (node: nat)
      requires Valid() && MIN_ALLOC <= size && size % BOUNDARY == 0 && origin + size < LIMIT
      requires granted ==> memSize + (size / PAGE + 1) * PAGE < LIMIT
      modifies this
      ensures Valid() && start == old(start)
      ensures
        match Bump(old(a), size, old(memSize), granted)
        case NoMemory => node == NULL && a == old(a) && memSize == old(memSize)
        case Got(n, b, m) => node == n && a == b && memSize == m && Fresh(node)
      ensures Untouched(old(nodes), nodes, old(a).live)
    {
      hide Inv, Shaped;
      BumpKeeps(a, start, size, memSize, granted);
      ghost var r := Bump(a, size, memSize, granted);
      if origin + size > memSize {
        if !granted { return NULL; }
        memSize := memSize + (size / PAGE + 1) * PAGE;
      }
      node := origin;
      NewHeads(nodes, buf[..], a, start, MemNode(NULL, NULL, size / BOUNDARY - 1, 0, node + NODE_SIZE, node + size));
      nodes := nodes[node := MemNode(NULL, NULL, size / BOUNDARY - 1, 0, node + NODE_SIZE, node + size)];
      origin := origin + size;
      a := r.a;
      InvShaped(a, start);
    }

    /** `alloc`. A request that finds no free node must not wrap the 32-bit sum of origin and size;
        `AllocExact` and `NewNodeInMemory` say what happens when it does. */
    method Alloc(inSize: nat, granted: bool) returns (node: nat)
      requires Valid() && inSize < LIMIT && NoWrap(a, inSize)
      requires RequestSize(inSize).Some? && granted ==> memSize + (RequestSize(inSize).value / PAGE + 1) * PAGE < LIMIT
      modifies this, buf
      ensures Valid() && start == old(start)
      ensures
        match Allocation.Alloc(old(a), inSize, old(memSize), granted)
        case NoMemory => node == NULL && a == old(a) && memSize == old(memSize)
        case Got(n, b, m) => node == n && a == b && memSize == m && Fresh(node)
      ensures Untouched(old(nodes), nodes, old(a).live)
    {
      hide Inv, Heads, Records, Take, TakeFromSink, Bump, HasFit;
      RequestSizeOk(inSize);
      var size := RequestSize(inSize);
      if size.None? { return NULL; }
      var want := size.value / BOUNDARY - 1;
      if want <= last {
        node := AllocFromBucket(want);
      } else {
        node := AllocFromSink(want);
        if node == NULL {
          NoFit(a, start, want);
          node := NewNode(size.value, granted);
        }
      }
    }

    /** `free`: every node of the list that starts at `head` goes back to its bucket. */
    method Free(head: nat, ghost list: seq<nat>)
      requires Valid() && list != [] && Chain(nodes, head, list) && Distinct(list)
      requires forall n :: n in list ==> n in a.live
      modifies this, buf
      ensures Valid() && start == old(start) && memSize == old(memSize)
      ensures Shaped(old(a)) && (forall n :: n in list ==> n in old(a).index) && a == Allocation.Free(old(a), list)
      ensures Untouched(old(nodes), nodes, a.live)
    {
      hide Valid, Inv, Shaped, Release, Chain;
      KeptOf(list);
      var node := head;
      ghost var k := 0;
      ghost var whole := Allocation.Free(a, list);
      assert list[0..] == list;
      while node != NULL
        invariant Valid() && start == old(start) && memSize == old(memSize) && Shaped(a)
        invariant k <= |list| && Chain(nodes, node, list[k..])
        invariant forall n :: n in list[k..] ==> n in a.live && n in a.index
        invariant Allocation.Free(a, list[k..]) == whole
        invariant a.live <= old(a).live
        invariant Untouched(old(nodes), nodes, a.live)
        decreases |list| - k
      {
        ghost var rest := list[k..];
        HeadNotNull(nodes, node, rest);
        assert rest[0] == node && rest[1..] == list[k + 1..];
        DistinctDrop(list, k);
        var next := nodes[node].next;
        ghost var before := nodes;
        ReleaseNode(node);
        ChainAfter(before, rest, nodes[node]);
        assert nodes == before[node := nodes[node]];
        node := next;
        k := k + 1;
      }
      if k < |list| { NullEndsList(list[k..]); }
      assert list[k..] == [];
    }

    lemma KeptOf(list: seq<nat>)
      requires Valid() && Distinct(list) && forall n :: n in list ==> n in a.live
      ensures Shaped(a) && forall n :: n in list ==> n in a.index
    {
      LiveKnown(a, start, list);
    }

    lemma NullEndsList(rest: seq<nat>)
      requires Valid() && Chain(nodes, NULL, rest)
      ensures rest == []
    {
      if rest != [] { ChainTail(nodes, NULL, rest); }
    }

    /** One turn of the loop of `free`. */
    method ReleaseNode(node: nat)
      requires Valid() && Shaped(a) && node in a.live && node in a.index
      modifies this, buf
      ensures Valid() && start == old(start) && memSize == old(memSize) && Shaped(a)
      ensures a == Release(old(a), node) && a.live == old(a).live - {node} && a.index == old(a).index
      ensures node in nodes && node in old(nodes) && nodes == old(nodes)[node := nodes[node]]
    {
      hide Inv, Shaped, Records, Heads, Release;
      ReleaseKeeps(a, start, node);
      ReleaseShaped(a, node);
      KnownIndex(nodes, a, start, node);
      LastInRange(a, start);
      HeadsLength(nodes, buf[..], a.buckets);
      var index := nodes[node].index;
      var slot := if index < MAX_INDEX then index else 0;
      HeadEmpty(nodes, buf[..], a.buckets, slot);
      ReleaseHeads(nodes, buf[..], a, start, node);
      ReleaseParts(a, node);
      if buf[slot] == NULL && index < MAX_INDEX && index > last { last := index; }
      nodes := nodes[node := nodes[node].(next := buf[slot])];
      buf[slot] := node;
      assert buf[..] == old(buf[..])[slot := node];
      a := Release(a, node);
    }
  }

  lemma SinkKnown(a: Arena)
    requires Shaped(a)
    ensures |a.buckets| == MAX_INDEX && forall n :: n in a.buckets[0] ==> n in a.index
  {
  }

  lemma FirstFitStep(sink: seq<nat>, index: map<nat, nat>, want: nat, k: nat)
    requires k < |sink| && forall n :: n in sink ==> n in index
    ensures forall n :: n in sink[k..] ==> n in sink
    ensures FirstFit(sink[k..], index, want) ==
      if index[sink[k]] >= want then 0 else 1 + FirstFit(sink[k + 1..], index, want)
  {
    assert sink[k..][0] == sink[k] && sink[k..][1..] == sink[k + 1..];
  }

  lemma HeadNotNull(nodes: map<nat, MemNode>, head: nat, s: seq<nat>)
    requires Chain(nodes, head, s) && head != NULL
    ensures s != [] && head == s[0] && head in nodes
  {
    assert s != [] ==> Linked(nodes, s, 0);
  }

  /** The unlinked nodes were not live. */
  lemma UnlinkedOthers(nodes: map<nat, MemNode>, a: Arena, start: nat, k: nat)
    requires Inv(a, start) && |a.buckets| > 0 && k < |a.buckets[0]| && a.buckets[0][k] in nodes
    requires k > 0 ==> a.buckets[0][k - 1] in nodes
    ensures Untouched(nodes, Unlinked(nodes, a.buckets[0], k), a.live)
  {
    FreeIsNotLive(a, start, 0, a.buckets[0][k]);
    if k > 0 { FreeIsNotLive(a, start, 0, a.buckets[0][k - 1]); }
  }

  /** All list heads. */
  predicate Heads(nodes: map<nat, MemNode>, heads: seq<nat>, buckets: seq<seq<nat>>) {
    |heads| == |buckets| == MAX_INDEX && forall i :: 0 <= i < |heads| ==> Chain(nodes, heads[i], buckets[i])
  }

  /** Node records carry the sizes of the arena. */
  predicate Records(nodes: map<nat, MemNode>, a: Arena) {
    forall n :: n in a.layout ==>
      n in nodes && n in a.index && nodes[n].index == a.index[n] && nodes[n].endp == n + Extent(a.index[n])
  }

  predicate Untouched(before: map<nat, MemNode>, after: map<nat, MemNode>, live: set<nat>) {
    forall n :: n in live && n in before ==> n in after && after[n] == before[n]
  }

  lemma HeadEmpty(nodes: map<nat, MemNode>, heads: seq<nat>, buckets: seq<seq<nat>>, i: nat)
    requires Heads(nodes, heads, buckets) && NULL !in nodes && i < |buckets|
    ensures heads[i] == NULL <==> buckets[i] == []
    ensures buckets[i] != [] ==> heads[i] == buckets[i][0] && heads[i] in nodes && Chain(nodes, nodes[heads[i]].next, buckets[i][1..])
  {
    assert Chain(nodes, heads[i], buckets[i]);
    if buckets[i] != [] { ChainTail(nodes, heads[i], buckets[i]); }
  }

  lemma HeadsLength(nodes: map<nat, MemNode>, heads: seq<nat>, buckets: seq<seq<nat>>)
    requires Heads(nodes, heads, buckets)
    ensures |heads| == |buckets| == MAX_INDEX
  {
  }

  lemma LastInRange(a: Arena, start: nat)
    requires Inv(a, start)
    ensures |a.buckets| == MAX_INDEX && a.last < MAX_INDEX
  {
  }

  lemma TakeHeads(nodes: map<nat, MemNode>, heads: seq<nat>, a: Arena, start: nat, i: nat)
    requires Inv(a, start) && Heads(nodes, heads, a.buckets) && NULL !in nodes && i < |a.buckets| && a.buckets[i] != []
    ensures heads[i] in nodes
    ensures
      var n := heads[i];
      Heads(nodes[n := nodes[n].(next := NULL, firstAvail := n + NODE_SIZE)], heads[i := nodes[n].next], Take(a, i).buckets)
  {
    hide Inv;
    HeadEmpty(nodes, heads, a.buckets, i);
    var n := heads[i];
    var nodes2, b := nodes[n := nodes[n].(next := NULL, firstAvail := n + NODE_SIZE)], Take(a, i);
    forall j | 0 <= j < |b.buckets| ensures Chain(nodes2, heads[i := nodes[n].next][j], b.buckets[j]) {
      TakenIsGone(a, start, i, j);
      ChainFrame(nodes, nodes2, heads[i := nodes[n].next][j], b.buckets[j]);
    }
  }

  lemma TakeRecords(nodes: map<nat, MemNode>, a: Arena, start: nat, i: nat)
    requires Inv(a, start) && Records(nodes, a) && i < |a.buckets| && a.buckets[i] != [] && a.buckets[i][0] in nodes
    ensures
      var n := a.buckets[i][0];
      var nodes2 := nodes[n := nodes[n].(next := NULL, firstAvail := n + NODE_SIZE)];
      Records(nodes2, Take(a, i)) && Untouched(nodes, nodes2, a.live)
  {
    FreeIsNotLive(a, start, i, a.buckets[i][0]);
    hide Inv;
  }

  lemma TakenIsGone(a: Arena, start: nat, i: nat, j: nat)
    requires Inv(a, start) && i < |a.buckets| && a.buckets[i] != [] && j < |a.buckets|
    ensures a.buckets[i][0] !in Take(a, i).buckets[j]
  {
    BucketsApart(a, start);
    hide Inv;
    if j == i { assert Distinct(a.buckets[i]); }
  }

  lemma SinkStep(nodes: map<nat, MemNode>, heads: seq<nat>, a: Arena, start: nat, k: nat)
    requires Inv(a, start) && Heads(nodes, heads, a.buckets) && Records(nodes, a) && NULL !in nodes && k < |a.buckets[0]|
    ensures var n := a.buckets[0][k];
      n in nodes && n != NULL && n in a.index && nodes[n].index == a.index[n] && nodes[n].next == Following(a.buckets[0], k)
  {
    assert Chain(nodes, heads[0], a.buckets[0]);
    assert Linked(nodes, a.buckets[0], k);
    FreeIsNotLive(a, start, 0, a.buckets[0][k]);
  }

  /** The records after unlinking position `k` of the sink. */
  function Unlinked(nodes: map<nat, MemNode>, sink: seq<nat>, k: nat): map<nat, MemNode>
    requires k < |sink| && sink[k] in nodes && (k > 0 ==> sink[k - 1] in nodes)
  {
    var n := sink[k];
    var nodes1 := if k == 0 then nodes else nodes[sink[k - 1] := nodes[sink[k - 1]].(next := nodes[n].next)];
    nodes1[n := nodes1[n].(next := NULL, firstAvail := n + NODE_SIZE)]
  }

  lemma UnlinkSink(nodes: map<nat, MemNode>, heads: seq<nat>, a: Arena, start: nat, k: nat)
    requires Inv(a, start) && Heads(nodes, heads, a.buckets) && Records(nodes, a) && NULL !in nodes && k < |a.buckets[0]|
    ensures a.buckets[0][k] in nodes && (k > 0 ==> a.buckets[0][k - 1] in nodes && a.buckets[0][k - 1] != a.buckets[0][k])
    ensures
      var nodes2 := Unlinked(nodes, a.buckets[0], k);
      var heads2 := if k == 0 then heads[0 := nodes[a.buckets[0][k]].next] else heads;
      Heads(nodes2, heads2, TakeFromSink(a, k).buckets) && Records(nodes2, TakeFromSink(a, k)) && NULL !in nodes2
  {
    BucketsApart(a, start);
    var sink := a.buckets[0];
    SinkStep(nodes, heads, a, start, k);
    if k > 0 { SinkStep(nodes, heads, a, start, k - 1); }
    hide Inv;
    var nodes2, b := Unlinked(nodes, sink, k), TakeFromSink(a, k);
    assert sink[k] in sink && (k > 0 ==> sink[k - 1] in sink);
    forall j | 0 < j < |b.buckets| ensures Chain(nodes2, heads[j], b.buckets[j]) {
      assert sink[k] !in a.buckets[j] && (k > 0 ==> sink[k - 1] !in a.buckets[j]);
      ChainFrame(nodes, nodes2, heads[j], a.buckets[j]);
    }
    SinkUnlinked(nodes, heads[0], sink, k);
  }

  lemma SinkUnlinked(nodes: map<nat, MemNode>, head: nat, sink: seq<nat>, k: nat)
    requires Chain(nodes, head, sink) && Distinct(sink) && k < |sink| && sink[k] in nodes && (k > 0 ==> sink[k - 1] in nodes)
    requires nodes[sink[k]].next == Following(sink, k)
    ensures Chain(Unlinked(nodes, sink, k), if k == 0 then nodes[sink[0]].next else head, Without(sink, k))
  {
    var nodes2 := Unlinked(nodes, sink, k);
    if k == 0 {
      ChainTail(nodes, head, sink);
      assert Without(sink, 0) == sink[1..];
      assert forall n :: n in sink[1..] ==> n != sink[0];
      ChainFrame(nodes, nodes2, nodes[sink[0]].next, sink[1..]);
    } else {
      ChainUnlink(nodes, nodes2, head, sink, k);
    }
  }

  lemma NewHeads(nodes: map<nat, MemNode>, heads: seq<nat>, a: Arena, start: nat, rec: MemNode)
    requires Inv(a, start) && Heads(nodes, heads, a.buckets) && Records(nodes, a) && NULL !in nodes && a.origin != NULL
    requires rec.endp == a.origin + Extent(rec.index)
    ensures
      var nodes2 := nodes[a.origin := rec];
      && Heads(nodes2, heads, a.buckets) && NULL !in nodes2 && Untouched(nodes, nodes2, a.live)
      && forall b: Arena :: b.layout == a.layout + [a.origin] && b.index == a.index[a.origin := rec.index] ==> Records(nodes2, b)
  {
    var nodes2 := nodes[a.origin := rec];
    LayoutDistinct(a, start, a.origin);
    Counts(a, start, a.origin);
    forall i | 0 <= i < |heads| ensures Chain(nodes2, heads[i], a.buckets[i]) {
      forall n | n in a.buckets[i] ensures n != a.origin { FreeIsNotLive(a, start, i, n); LayoutDistinct(a, start, n); }
      ChainFrame(nodes, nodes2, heads[i], a.buckets[i]);
    }
  }

  lemma LiveKnown(a: Arena, start: nat, list: seq<nat>)
    requires Inv(a, start) && Distinct(list) && forall n :: n in list ==> n in a.live
    ensures Shaped(a) && forall n :: n in list ==> n in a.index
  {
    FreeKeeps(a, start, list);
  }

  lemma KnownIndex(nodes: map<nat, MemNode>, a: Arena, start: nat, n: nat)
    requires Inv(a, start) && Records(nodes, a) && n in a.live
    ensures n in nodes && n in a.index && nodes[n].index == a.index[n]
  {
    Counts(a, start, n);
  }

  lemma ReleaseHeads(nodes: map<nat, MemNode>, heads: seq<nat>, a: Arena, start: nat, n: nat)
    requires Inv(a, start) && Shaped(a) && Heads(nodes, heads, a.buckets) && Records(nodes, a) && NULL !in nodes
    requires n in a.live && n in a.index && n in nodes
    ensures
      var slot := if a.index[n] < MAX_INDEX then a.index[n] else 0;
      var nodes2 := nodes[n := nodes[n].(next := heads[slot])];
      Heads(nodes2, heads[slot := n], Release(a, n).buckets) && Records(nodes2, Release(a, n)) && NULL !in nodes2
  {
    BucketsApart(a, start);
    hide Inv;
    var slot := if a.index[n] < MAX_INDEX then a.index[n] else 0;
    var nodes2, b := nodes[n := nodes[n].(next := heads[slot])], Release(a, n);
    forall j | 0 <= j < |b.buckets| ensures Chain(nodes2, heads[slot := n][j], b.buckets[j]) {
      ChainFrame(nodes, nodes2, heads[j], a.buckets[j]);
      if j == slot { ChainPush(nodes2, heads[slot], a.buckets[slot], n); }
    }
  }

  lemma ReleaseParts(a: Arena, n: nat)
    requires Shaped(a) && n in a.index
    ensures
      var slot := if a.index[n] < MAX_INDEX then a.index[n] else 0;
      var b := Release(a, n);
      && b.live == a.live - {n} && b.index == a.index && b.origin == a.origin && b.layout == a.layout
      && b.last == if a.buckets[slot] == [] && a.index[n] < MAX_INDEX && a.index[n] > a.last then a.index[n] else a.last
  {
  }

  lemma DistinctDrop(s: seq<nat>, k: nat)
    requires Distinct(s) && k < |s|
    ensures Distinct(s[k..]) && s[k] !in s[k + 1..]
  {
  }

  lemma ChainAfter(nodes: map<nat, MemNode>, s: seq<nat>, rec: MemNode)
    requires s != [] && Chain(nodes, s[0], s) && Distinct(s)
    ensures s[0] in nodes && Chain(nodes[s[0] := rec], nodes[s[0]].next, s[1..])
  {
    ChainTail(nodes, s[0], s);
    assert forall n :: n in s[1..] ==> n != s[0];
    ChainFrame(nodes, nodes[s[0] := rec], nodes[s[0]].next, s[1..]);
  }
}
