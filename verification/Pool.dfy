/** A memory pool: a ring of nodes, doubly linked through `next` and `ref`, kept in order of free
    space behind the active one. Blocks are cut from the active node. */
module PoolObject {
  import opened Allocation
  import opened AllocatorObject

  const POOL_SIZE: nat := 48  // `sizeof(Pool)` rounded up to 16

  function After(k: nat, n: nat): nat
    requires k < n
  {
    if k + 1 == n then 0 else k + 1
  }

  predicate Joined(nodes: map<nat, MemNode>, s: seq<nat>, k: nat)
    requires k < |s|
  {
    var m := s[After(k, |s|)];
    s[k] in nodes && m in nodes && nodes[s[k]].next == m && nodes[m].ref == s[k]
  }

  /** The nodes of `s`, in this order, form a cycle; every `ref` names the node before. */
  predicate Ring(nodes: map<nat, MemNode>, s: seq<nat>) {
    s != [] && Distinct(s) && forall k :: 0 <= k < |s| ==> Joined(nodes, s, k)
  }

  lemma RingFrame(nodes: map<nat, MemNode>, nodes2: map<nat, MemNode>, s: seq<nat>)
    requires Ring(nodes, s)
    requires forall n :: n in s && n in nodes ==> n in nodes2 && nodes2[n].next == nodes[n].next && nodes2[n].ref == nodes[n].ref
    ensures Ring(nodes2, s)
  {
    forall k | 0 <= k < |s| ensures Joined(nodes2, s, k) {
      assert Joined(nodes, s, k) && s[k] in s && s[After(k, |s|)] in s;
    }
  }

  function Rotated(s: seq<nat>, j: nat): seq<nat>
    requires j < |s|
  {
    s[j..] + s[..j]
  }

  lemma RotatedAt(s: seq<nat>, j: nat, k: nat)
    requires j < |s| && k < |s|
    ensures |Rotated(s, j)| == |s| && Rotated(s, j)[k] == s[if k < |s| - j then j + k else k - (|s| - j)]
  {
  }

  lemma RotatedMembers(s: seq<nat>, j: nat)
    requires j < |s|
    ensures forall n :: n in Rotated(s, j) <==> n in s
  {
    assert s == s[..j] + s[j..];
  }

  lemma RotatedDistinct(s: seq<nat>, j: nat)
    requires j < |s| && Distinct(s)
    ensures Distinct(Rotated(s, j))
  {
    var r := Rotated(s, j);
    forall x, y | 0 <= x < y < |r| ensures r[x] != r[y] {
      RotatedAt(s, j, x);
      RotatedAt(s, j, y);
    }
  }

  /** A ring may be read from any of its nodes. */
  lemma RingRotates(nodes: map<nat, MemNode>, s: seq<nat>, j: nat)
    requires Ring(nodes, s) && j < |s|
    ensures Ring(nodes, Rotated(s, j))
    ensures forall n :: n in Rotated(s, j) <==> n in s
  {
    RotatedDistinct(s, j);
    RotatedMembers(s, j);
    var r := Rotated(s, j);
    hide Rotated;
    forall k | 0 <= k < |r| ensures Joined(nodes, r, k) {
      RotatedAt(s, j, k);
      RotatedAt(s, j, After(k, |r|));
      assert Joined(nodes, s, if k < |s| - j then j + k else k - (|s| - j));
    }
  }

  /** `MemNode::insert`, write by write. */
  function InsertBefore(nodes: map<nat, MemNode>, n: nat, point: nat): map<nat, MemNode>
    requires n in nodes && point in nodes && nodes[point].ref in nodes && n != point && nodes[point].ref != n
  {
    var before := nodes[point].ref;
    var nodes1 := nodes[n := nodes[n].(ref := before)];
    var nodes2 := nodes1[before := nodes1[before].(next := n)];
    var nodes3 := nodes2[n := nodes2[n].(next := point)];
    nodes3[point := nodes3[point].(ref := n)]
  }

  /** `MemNode::remove`. */
  function Unhook(nodes: map<nat, MemNode>, n: nat): map<nat, MemNode>
    requires n in nodes && nodes[n].ref in nodes && nodes[n].next in nodes
  {
    var nodes1 := nodes[nodes[n].ref := nodes[nodes[n].ref].(next := nodes[n].next)];
    nodes1[nodes[n].next := nodes1[nodes[n].next].(ref := nodes[n].ref)]
  }

  /** Inserting before the first node puts the new one at the end, or in front: it is the same ring. */
  lemma RingInsert(nodes: map<nat, MemNode>, s: seq<nat>, n: nat)
    requires Ring(nodes, s) && n in nodes && n !in s
    ensures s[0] in nodes && nodes[s[0]].ref in nodes && nodes[s[0]].ref in s && nodes[s[0]].ref != n
    ensures Ring(InsertBefore(nodes, n, s[0]), [n] + s)
  {
    var last := |s| - 1;
    assert Joined(nodes, s, last);
    var nodes2, r := InsertBefore(nodes, n, s[0]), [n] + s;
    forall k | 0 <= k < |r| ensures Joined(nodes2, r, k) {
      if 0 < k <= last { assert Joined(nodes, s, k - 1) && s[k - 1] != s[last]; }
      if k == |r| - 1 { assert r[k] == s[last] && r[After(k, |r|)] == n; }
    }
  }

  lemma RingRemove(nodes: map<nat, MemNode>, n: nat, s: seq<nat>)
    requires Ring(nodes, [n] + s) && s != []
    ensures n in nodes && nodes[n].ref in nodes && nodes[n].next in nodes && nodes[n].ref in s && nodes[n].next in s
    ensures Ring(Unhook(nodes, n), s)
  {
    var w := [n] + s;
    var last := |s| - 1;
    assert Joined(nodes, w, 0) && Joined(nodes, w, |w| - 1);
    assert w[|w| - 1] == s[last] && w[1] == s[0];
    var nodes2 := Unhook(nodes, n);
    assert Distinct(s) by {
      forall i, j | 0 <= i < j < |s| ensures s[i] != s[j] { assert w[i + 1] != w[j + 1]; }
    }
    forall k | 0 <= k < |s| ensures Joined(nodes2, s, k) {
      if k < last { assert Joined(nodes, w, k + 1); }
    }
  }

  /** Only `next` and `ref` of nodes of the ring (and of the node moved) change. */
  predicate OnlyLinks(nodes: map<nat, MemNode>, nodes2: map<nat, MemNode>, touched: seq<nat>) {
    nodes2.Keys == nodes.Keys &&
    forall n :: n in nodes ==>
      && (n !in touched ==> nodes2[n] == nodes[n])
      && nodes2[n].index == nodes[n].index && nodes2[n].freeIndex == nodes[n].freeIndex
      && nodes2[n].firstAvail == nodes[n].firstAvail && nodes2[n].endp == nodes[n].endp
  }

  lemma InsertLinks(nodes: map<nat, MemNode>, s: seq<nat>, n: nat)
    requires Ring(nodes, s) && n in nodes && n !in s
    ensures s[0] in nodes && nodes[s[0]].ref in nodes && nodes[s[0]].ref != n
    ensures OnlyLinks(nodes, InsertBefore(nodes, n, s[0]), [n] + s)
  {
    RingInsert(nodes, s, n);
  }

  lemma UnhookLinks(nodes: map<nat, MemNode>, n: nat, s: seq<nat>)
    requires Ring(nodes, [n] + s) && s != []
    ensures n in nodes && nodes[n].ref in nodes && nodes[n].next in nodes
    ensures OnlyLinks(nodes, Unhook(nodes, n), [n] + s)
  {
    RingRemove(nodes, n, s);
  }

  /* ---- nodes, blocks and order ---- */

  datatype Block = Block(node: nat, addr: nat, size: nat)

  /** The free bytes of a node lie between two marks, the lower one 16-aligned. */
  predicate NodeOk(nodes: map<nat, MemNode>, a: Arena, n: nat) {
    && n in nodes && n in a.live && n in a.layout && n in a.index
    && nodes[n].endp == n + (a.index[n] + 1) * 4096 < 0x1_0000_0000
    && n + 32 <= nodes[n].firstAvail <= nodes[n].endp && nodes[n].firstAvail % 16 == 0
  }

  predicate NodesOk(nodes: map<nat, MemNode>, a: Arena, ring: seq<nat>) {
    forall n :: n in ring ==> NodeOk(nodes, a, n)
  }

  function FreeSpace(r: MemNode): int {
    r.endp - r.firstAvail
  }

  /** `(ALIGN(free + 1, 4096) - 4096) >> 12`. */
  function ComputedIndex(free: nat): int {
    (AlignBoundary(free + 1) - BOUNDARY) / BOUNDARY
  }

  lemma ComputedIsFloor(free: nat)
    requires free + BOUNDARY < LIMIT
    ensures ComputedIndex(free) == free / BOUNDARY
  {
  }

  function IndexAt(nodes: map<nat, MemNode>, ring: seq<nat>, k: nat): nat
    requires k < |ring| && ring[k] in nodes
  {
    nodes[ring[k]].freeIndex
  }

  /** From position `from` on, free indices are exact and do not increase. */
  predicate Ordered(nodes: map<nat, MemNode>, ring: seq<nat>, from: nat) {
    && (forall k :: from <= k < |ring| ==> ring[k] in nodes && IndexAt(nodes, ring, k) == FreeSpace(nodes[ring[k]]) / BOUNDARY)
    && (forall j, k :: from <= j < k < |ring| ==> IndexAt(nodes, ring, j) >= IndexAt(nodes, ring, k))
  }

  predicate BlockOk(nodes: map<nat, MemNode>, ring: seq<nat>, self: nat, selfFirst: nat, b: Block) {
    && b.node in ring && b.node in nodes && b.addr % 16 == 0
    && b.node + 32 <= b.addr && (b.node == self ==> selfFirst <= b.addr)
    && b.addr + b.size <= nodes[b.node].firstAvail
  }

  predicate Disjoint(b: Block, c: Block) {
    b.addr + b.size <= c.addr || c.addr + c.size <= b.addr
  }

  /** Every block lies in the used part of its node, and no two overlap. */
  predicate BlocksOk(nodes: map<nat, MemNode>, ring: seq<nat>, self: nat, selfFirst: nat, blocks: seq<Block>) {
    && (forall k :: 0 <= k < |blocks| ==> BlockOk(nodes, ring, self, selfFirst, blocks[k]))
    && (forall j, k :: 0 <= j < k < |blocks| ==> Disjoint(blocks[j], blocks[k]))
  }

  /** A block cut at the lower mark of a node is clear of all earlier ones. */
  lemma CutIsDisjoint(nodes: map<nat, MemNode>, a: Arena, start: nat, ring: seq<nat>, self: nat, selfFirst: nat,
      blocks: seq<Block>, n: nat, size: nat)
    requires Inv(a, start) && NodesOk(nodes, a, ring) && BlocksOk(nodes, ring, self, selfFirst, blocks)
    requires NodeOk(nodes, a, n) && size <= FreeSpace(nodes[n])
    requires n !in ring ==> forall m :: m in ring ==> m != n
    ensures forall k :: 0 <= k < |blocks| ==> Disjoint(blocks[k], Block(n, nodes[n].firstAvail, size))
  {
    forall k | 0 <= k < |blocks| ensures Disjoint(blocks[k], Block(n, nodes[n].firstAvail, size)) {
      var b := blocks[k];
      assert BlockOk(nodes, ring, self, selfFirst, b) && NodeOk(nodes, a, b.node);
      if b.node != n { NodesDisjoint(a, start, b.node, n); }
    }
  }

  /** Changing only links and free indices of live nodes leaves the allocator as it was. */
  lemma AllocatorKept(nodes: map<nat, MemNode>, nodes2: map<nat, MemNode>, heads: seq<nat>, a: Arena, start: nat)
    requires Inv(a, start) && Heads(nodes, heads, a.buckets) && Records(nodes, a) && NULL !in nodes
    requires nodes2.Keys == nodes.Keys
    requires forall n :: n in nodes ==> nodes2[n].index == nodes[n].index && nodes2[n].endp == nodes[n].endp
    requires forall n :: n in nodes && n !in a.live ==> nodes2[n] == nodes[n]
    ensures Heads(nodes2, heads, a.buckets) && Records(nodes2, a) && NULL !in nodes2
  {
    BucketsApart(a, start);
    hide Inv;
    forall i | 0 <= i < |heads| ensures Chain(nodes2, heads[i], a.buckets[i]) {
      ChainFrame(nodes, nodes2, heads[i], a.buckets[i]);
    }
  }

  /** The ring and everything cut from its nodes; `members` are the nodes of the pool. */
  predicate PoolOk(nodes: map<nat, MemNode>, a: Arena, ring: seq<nat>, members: seq<nat>, self: nat, selfFirst: nat, blocks: seq<Block>) {
    && Ring(nodes, ring) && ring <= members && self in members
    && NodesOk(nodes, a, members)
    && self in nodes && self + 80 == selfFirst <= nodes[self].firstAvail
    && BlocksOk(nodes, members, self, selfFirst, blocks)
  }

  predicate ArenaOk(nodes: map<nat, MemNode>, heads: seq<nat>, a: Arena, start: nat) {
    Inv(a, start) && Heads(nodes, heads, a.buckets) && Records(nodes, a) && NULL !in nodes
  }

  /** The record of a pool's own node: alone in its ring, the pool's own bytes taken. */
  function WithPool(nodes: map<nat, MemNode>, node: nat): map<nat, MemNode>
    requires node in nodes
  {
    nodes[node := nodes[node].(next := node, ref := node, firstAvail := node + NODE_SIZE + POOL_SIZE)]
  }

  lemma NewPoolOk(nodes: map<nat, MemNode>, heads: seq<nat>, a: Arena, start: nat, node: nat)
    requires ArenaOk(nodes, heads, a, start) && a.origin < LIMIT && node in nodes && node in a.live && nodes[node].index >= 1
    ensures
      var nodes2 := WithPool(nodes, node);
      && Heads(nodes2, heads, a.buckets) && Records(nodes2, a) && NULL !in nodes2 && nodes2.Keys == nodes.Keys
      && PoolOk(nodes2, a, [node], [node], node, node + NODE_SIZE + POOL_SIZE, []) && Ordered(nodes2, [node], 1)
  {
    hide Inv, Heads, Records;
    NodeFacts(nodes, a, start, node);
    AllocatorKept(nodes, WithPool(nodes, node), heads, a, start);
    assert Joined(WithPool(nodes, node), [node], 0);
  }

  class Pool {
    const alloc: Allocator
    const self: nat
    const selfFirst: nat
    var active: nat
    ghost var ring: seq<nat>
    ghost var blocks: seq<Block>

    /** What every step of `palloc` keeps; `members` are the nodes of the pool, one of which may be
        off the ring for a moment. */
    ghost predicate Base(members: seq<nat>)
      reads this, alloc, alloc.buf
    {
      alloc.Valid() && PoolOk(alloc.nodes, alloc.a, ring, members, self, selfFirst, blocks)
      && ring != [] && ring[0] == active
    }

    /** The nodes from the one after the active round to the active one do not increase in free index;
        each index but the active node's is exact, and the active node's is 0 unless it is alone. */
    ghost predicate Valid()
      reads this, alloc, alloc.buf
    {
      Base(ring) && Ordered(alloc.nodes, ring, 1) && (|ring| > 1 ==> ring[0] in alloc.nodes && IndexAt(alloc.nodes, ring, 0) == 0)
    }

    /** `Pool::create`, once the allocator has given it a node. */
    constructor (alloc: Allocator, node: nat)
      requires alloc.Valid() && alloc.Fresh(node) && node in alloc.a.live && alloc.nodes[node].index >= 1
      modifies alloc
      ensures Valid() && this.alloc == alloc && ring == [node] && blocks == [] && self == node
      ensures node in alloc.nodes && selfFirst == alloc.nodes[node].firstAvail == node + 80
      ensures alloc.a == old(alloc.a) && alloc.start == old(alloc.start)
      ensures Untouched(old(alloc.nodes), alloc.nodes, alloc.a.live - {node})
    {
      this.alloc := alloc;
      this.self := node;
      this.selfFirst := node + NODE_SIZE + POOL_SIZE;
      this.active := node;
      this.ring := [node];
      this.blocks := [];
      new;
      hide Inv, Heads, Records, PoolOk, Ordered;
      NewPoolOk(alloc.nodes, alloc.buf[..], alloc.a, alloc.start, node);
      alloc.nodes := WithPool(alloc.nodes, node);
    }

    /** The active node has room: the block is its lowest free bytes. */
    method CutActive(size: nat) returns (block: nat)
      requires Valid() && size % 16 == 0 && active in alloc.nodes && size <= FreeSpace(alloc.nodes[active])
      modifies this`blocks, alloc`nodes
      ensures Valid() && ring == old(ring) && alloc.a == old(alloc.a) && alloc.start == old(alloc.start)
      ensures block == old(alloc.nodes)[active].firstAvail && blocks == old(blocks) + [Block(active, block, size)]
    {
      hide Inv, Heads, Records, Ordered, PoolOk;
      block := alloc.nodes[active].firstAvail;
      CutActiveOk(alloc.nodes, alloc.buf[..], alloc.a, alloc.start, ring, self, selfFirst, blocks, size);
      alloc.nodes := alloc.nodes[active := alloc.nodes[active].(firstAvail := block + size)];
      blocks := blocks + [Block(active, block, size)];
    }

    /** The next node has the most free space of those behind the active one: off the ring with it. */
    method TakeNext() returns (node: nat)
      requires Valid() && |ring| > 1
      modifies this`ring, alloc`nodes
      ensures node == old(ring)[1] && ring == [active] + old(ring)[2..] && Base(ring + [node]) && node !in ring
      ensures Ordered(alloc.nodes, ring, 1)
      ensures alloc.a == old(alloc.a) && alloc.start == old(alloc.start)
      ensures alloc.nodes.Keys == old(alloc.nodes).Keys && FreeSpace(alloc.nodes[node]) == FreeSpace(old(alloc.nodes)[node])
      ensures alloc.nodes[node].firstAvail == old(alloc.nodes)[node].firstAvail
    {
      hide Inv, Heads, Records, Ordered, PoolOk;
      TakeNextOk(alloc.nodes, alloc.buf[..], alloc.a, alloc.start, ring, self, selfFirst, blocks);
      node := alloc.nodes[active].next;
      alloc.nodes := Unhook(alloc.nodes, node);
      ring := [active] + ring[2..];
    }

    /** A node from the allocator. */
    method TakeFresh(size: nat, granted: bool) returns (node: nat)
      requires Valid() && Servable(size, granted)
      modifies alloc, alloc.buf
      ensures alloc.start == old(alloc.start) && alloc.Valid()
      ensures node == NULL <==> Shaped(old(alloc.a)) && Allocation.Alloc(old(alloc.a), size, old(alloc.memSize), granted).NoMemory?
      ensures node == NULL ==> Valid() && alloc.a == old(alloc.a)
      ensures node != NULL ==>
        && Base(ring + [node]) && node !in ring && Ordered(alloc.nodes, ring, 1)
        && node in alloc.nodes && size <= FreeSpace(alloc.nodes[node]) && alloc.a.live == old(alloc.a).live + {node}
    {
      hide Inv, Heads, Records, Ordered, Ring, BlocksOk, NoWrap;
      ghost var before, arena := alloc.nodes, alloc.a;
      ServableShaped();
      AllocKeeps(alloc.a, alloc.start, size, alloc.memSize, granted);
      AllocNotNull(alloc.a, alloc.start, size, alloc.memSize, granted);
      MembersLive(before, arena, ring);
      node := alloc.Alloc(size, granted);
      if node != NULL {
        NodeFacts(alloc.nodes, alloc.a, alloc.start, node);
        FreshNode(alloc.nodes, alloc.a, node, size);
        FreshKept(before, alloc.nodes, arena, alloc.a, ring, node, self, selfFirst, blocks);
      } else {
        FreshKept(before, alloc.nodes, arena, alloc.a, ring, active, self, selfFirst, blocks);
      }
    }

    /** A request the allocator has to serve: it does not wrap the 32-bit sum with the origin. */
    ghost predicate Servable(size: nat, granted: bool)
      reads alloc
    {
      && size < LIMIT && NoWrap(alloc.a, size)
      && (RequestSize(size).Some? && granted ==> alloc.memSize + (RequestSize(size).value / PAGE + 1) * PAGE < LIMIT)
    }

    ghost predicate Fits(node: nat, size: nat)
      reads alloc
    {
      node in alloc.nodes && size <= FreeSpace(alloc.nodes[node])
    }

    ghost predicate NextFits(size: nat)
      reads this, alloc
    {
      active in alloc.nodes && Fits(alloc.nodes[active].next, size)
    }

    /** Neither the active node nor the next one has room. */
    ghost predicate NeedsNode(size: nat)
      reads this, alloc
    {
      && active in alloc.nodes && alloc.nodes[active].next in alloc.nodes
      && size > FreeSpace(alloc.nodes[active]) && size > FreeSpace(alloc.nodes[alloc.nodes[active].next])
    }

    lemma ServableShaped()
      requires alloc.Valid()
      ensures Shaped(alloc.a) && Inv(alloc.a, alloc.start) && alloc.origin == alloc.a.origin
    {
    }

    /** The node taken becomes the active one; the block is cut from it. */
    method Activate(node: nat, size: nat) returns (block: nat)
      requires Base(ring + [node]) && node !in ring && Ordered(alloc.nodes, ring, 1) && size % 16 == 0
      requires node in alloc.nodes && size <= FreeSpace(alloc.nodes[node])
      modifies this, alloc`nodes
      ensures alloc.a == old(alloc.a) && alloc.start == old(alloc.start)
      ensures active == node && ring == [node] + old(ring) && Base(ring)
      ensures Ordered(alloc.nodes, ring, 2) && node in alloc.nodes && IndexAt(alloc.nodes, ring, 0) == 0
      ensures blocks == old(blocks) + [Block(node, block, size)] && block == old(alloc.nodes)[node].firstAvail
    {
      hide Inv, Heads, Records, Ordered, PoolOk;
      block := alloc.nodes[node].firstAvail;
      var rec := alloc.nodes[node].(freeIndex := 0, firstAvail := block + size);
      ActivateOk(alloc.nodes, alloc.buf[..], alloc.a, alloc.start, ring, self, selfFirst, blocks, node, size);
      alloc.nodes := alloc.nodes[node := rec];
      alloc.nodes := InsertBefore(alloc.nodes, node, active);
      active := node;
      ring := [node] + ring;
      blocks := blocks + [Block(node, block, size)];
    }

    /** The node that was active finds its place by its free space, after those that have more. */
    method Settle(was: nat)
      requires Base(ring) && |ring| >= 2 && was == ring[1]
      requires Ordered(alloc.nodes, ring, 2) && ring[0] in alloc.nodes && IndexAt(alloc.nodes, ring, 0) == 0
      modifies this`ring, alloc`nodes
      ensures Valid() && alloc.a == old(alloc.a) && alloc.start == old(alloc.start)
      ensures |ring| == |old(ring)| && forall n :: n in ring <==> n in old(ring)
    {
      hide Inv, Heads, Records, Ordered, PoolOk;
      MemberFacts(alloc.nodes, alloc.a, ring, self, selfFirst, blocks, was);
      ComputedIsFloor(FreeSpace(alloc.nodes[was]));
      var index := ComputedIndex(FreeSpace(alloc.nodes[was]));
      MeasureOk(alloc.nodes, alloc.buf[..], alloc.a, alloc.start, ring, self, selfFirst, blocks, index);
      alloc.nodes := alloc.nodes[was := alloc.nodes[was].(freeIndex := index)];
      ghost var j := 2;
      FollowRing(alloc.nodes, ring, 1);
      var node := alloc.nodes[was].next;
      if index >= alloc.nodes[node].freeIndex {
        InPlace(alloc.nodes, ring);
        return;
      }
      BelowIndex(alloc.nodes, ring, 2, index);
      FollowRing(alloc.nodes, ring, 2);
      node := alloc.nodes[node].next;
      j := 3;
      while index < alloc.nodes[node].freeIndex
        invariant 3 <= j <= |ring| && node == (if j < |ring| then ring[j] else ring[0]) && node in alloc.nodes
        invariant Greater(alloc.nodes, ring, 2, j, index)
        modifies {}
        decreases |ring| - j
      {
        BelowIndex(alloc.nodes, ring, j, index);
        FollowRing(alloc.nodes, ring, j);
        node := alloc.nodes[node].next;
        j := j + 1;
      }
      SettleOk(alloc.nodes, alloc.buf[..], alloc.a, alloc.start, ring, self, selfFirst, blocks, j);
      alloc.nodes := Unhook(alloc.nodes, was);
      alloc.nodes := InsertBefore(alloc.nodes, was, node);
      ring := Moved(ring, j);
    }

    /** `palloc`: from the active node, else from the next one, else from a new one. Every block is
        16-aligned, inside its node and clear of all earlier blocks (`Valid` says so of all of them). */
    method Palloc(inSize: nat, granted: bool) returns (block: nat)
      requires Valid() && inSize < LIMIT
      requires NeedsNode(AlignDefault(inSize)) ==> Servable(AlignDefault(inSize), granted)
      modifies this, alloc, alloc.buf
      ensures Valid() && alloc.start == old(alloc.start)
      ensures block == NULL ==> blocks == old(blocks) && ring == old(ring) && alloc.a == old(alloc.a)
      ensures block == NULL <==>
        inSize + 15 >= 0x1_0000_0000 ||
        (old(NeedsNode(AlignDefault(inSize))) && Shaped(old(alloc.a)) &&
         Allocation.Alloc(old(alloc.a), AlignDefault(inSize), old(alloc.memSize), granted).NoMemory?)
      ensures block != NULL ==>
        var size := AlignDefault(inSize);
        && inSize <= size < inSize + 16 && size % 16 == 0
        && blocks == old(blocks) + [Block(active, block, size)]
        && (if old(Fits(active, size)) then active == old(active) && ring == old(ring)
            else if old(NextFits(size)) then |old(ring)| > 1 && active == old(ring)[1]
            else active !in old(ring))
        && (active in old(ring) ==> active in old(alloc.nodes) && block == old(alloc.nodes)[active].firstAvail)
      ensures forall n :: n in ring <==> n in old(ring) || (block != NULL && n == active)
    {
      hide Inv, Heads, Records, Ordered, PoolOk;
      var size := AlignDefault(inSize);
      if size < inSize { return NULL; }
      AlignedSize(inSize);
      var act := active;
      MemberFacts(alloc.nodes, alloc.a, ring, self, selfFirst, blocks, act);
      NextOfActive(alloc.nodes, alloc.a, ring, self, selfFirst, blocks);
      if size <= FreeSpace(alloc.nodes[act]) {
        block := CutActive(size);
        NotNull(alloc.nodes, alloc.a, ring, self, selfFirst, blocks);
        return;
      }
      var node := alloc.nodes[act].next;
      if size <= FreeSpace(alloc.nodes[node]) {
        node := TakeNext();
      } else {
        node := TakeFresh(size, granted);
        if node == NULL { return NULL; }
      }
      block := Activate(node, size);
      NotNull(alloc.nodes, alloc.a, ring, self, selfFirst, blocks);
      Settle(act);
    }

    /** `clear` (no child pools): the pool's own node is reset and made active, all others are freed. */
    method Clear()
      requires Valid()
      modifies this, alloc, alloc.buf
      ensures Valid() && ring == [self] && blocks == [] && alloc.start == old(alloc.start)
      ensures self in alloc.nodes && alloc.nodes[self].firstAvail == selfFirst
      ensures
        var list := FromSelf(old(ring), self)[1..];
        Shaped(old(alloc.a)) && (forall n :: n in list ==> n in old(alloc.a).index) && alloc.a == Allocation.Free(old(alloc.a), list)
      ensures alloc.a.live == old(alloc.a).live - (set n | n in old(ring) && n != self)
    {
      hide Inv, Heads, Records, Ordered, PoolOk, FromSelf;
      ServableShaped();
      ghost var was := ring;
      Reset();
      assert forall n :: n in was <==> n in ring;
      if alloc.nodes[self].next == self {
        assert ring[1..] == [];
        AloneOrdered(alloc.nodes, ring);
        assert (set n | n in was && n != self) == {};
        return;
      }
      FreeOthers();
    }

    /** The own node is the active one again, as it was when the pool was made. */
    method Reset()
      requires Valid()
      modifies this, alloc`nodes
      ensures Base(ring) && blocks == [] && ring == FromSelf(old(ring), self) && ring[0] == self && Distinct(ring)
      ensures (forall n :: n in ring <==> n in old(ring)) && alloc.a == old(alloc.a) && alloc.start == old(alloc.start)
      ensures self in alloc.nodes && (alloc.nodes[self].next == self <==> ring == [self])
      ensures alloc.nodes[self].firstAvail == selfFirst
    {
      hide Inv, Heads, Records, Ordered, PoolOk;
      ghost var w := FromSelf(ring, self);
      ResetOk(alloc.nodes, alloc.buf[..], alloc.a, alloc.start, ring, self, selfFirst, blocks);
      active := self;
      alloc.nodes := alloc.nodes[self := alloc.nodes[self].(firstAvail := selfFirst)];
      ring, blocks := w, [];
      PoolParts(alloc.nodes, alloc.a, ring, self, selfFirst, blocks);
      RingDistinct(alloc.nodes, ring);
    }

    method FreeOthers()
      requires Base(ring) && blocks == [] && ring[0] == self && |ring| > 1
      modifies this, alloc, alloc.buf
      ensures Valid() && ring == [self] && blocks == [] && alloc.start == old(alloc.start)
      ensures self in alloc.nodes && self in old(alloc.nodes)
      ensures alloc.nodes[self].firstAvail == old(alloc.nodes)[self].firstAvail
      ensures
        var list := old(ring)[1..];
        Shaped(old(alloc.a)) && (forall n :: n in list ==> n in old(alloc.a).index) && alloc.a == Allocation.Free(old(alloc.a), list)
      ensures alloc.a.live == old(alloc.a).live - (set n | n in old(ring) && n != self)
    {
      hide Inv, Heads, Records, Ordered, PoolOk;
      ServableShaped();
      ghost var w := ring;
      CutOk(alloc.nodes, alloc.buf[..], alloc.a, alloc.start, w, self, selfFirst);
      var prev := alloc.nodes[self].ref;
      alloc.nodes := alloc.nodes[prev := alloc.nodes[prev].(next := NULL)];
      FreeKeeps(alloc.a, alloc.start, w[1..]);
      ghost var before, arena := alloc.nodes, alloc.a;
      alloc.Free(alloc.nodes[self].next, w[1..]);
      OthersOf(w, self);
      AloneOk(before, alloc.nodes, alloc.buf[..], arena, alloc.a, alloc.start, w, self, selfFirst);
      alloc.nodes := alloc.nodes[self := alloc.nodes[self].(next := self, ref := self)];
      ring := [self];
      AloneOrdered(alloc.nodes, ring);
    }

    /** `do_destroy` (no child pools): every node of the pool is freed. */
    method Destroy()
      requires Valid()
      modifies this, alloc, alloc.buf
      ensures alloc.Valid() && alloc.start == old(alloc.start)
      ensures
        var list := FromSelf(old(ring), self);
        Shaped(old(alloc.a)) && (forall n :: n in list ==> n in old(alloc.a).index) && alloc.a == Allocation.Free(old(alloc.a), list)
      ensures alloc.a.live == old(alloc.a).live - (set n | n in old(ring))
    {
      hide Inv, Heads, Records, Ordered, PoolOk;
      ServableShaped();
      ghost var w := FromSelf(ring, self);
      WholeCutOk(alloc.nodes, alloc.buf[..], alloc.a, alloc.start, ring, self, selfFirst, blocks);
      var prev := alloc.nodes[self].ref;
      alloc.nodes := alloc.nodes[prev := alloc.nodes[prev].(next := NULL)];
      FreeKeeps(alloc.a, alloc.start, w);
      assert (set n | n in old(ring)) == (set n | n in w);
      alloc.Free(self, w);
    }
  }

  /** Where a node stands in a ring. */
  function Position(ring: seq<nat>, n: nat): (k: nat)
    requires n in ring
    ensures k < |ring| && ring[k] == n
  {
    if ring[0] == n then 0 else 1 + Position(ring[1..], n)
  }

  /** The ring read from the pool's own node. */
  function FromSelf(ring: seq<nat>, self: nat): seq<nat> {
    if self in ring then Rotated(ring, Position(ring, self)) else []
  }

  lemma FromSelfOk(nodes: map<nat, MemNode>, ring: seq<nat>, self: nat)
    requires Ring(nodes, ring) && self in ring
    ensures var w := FromSelf(ring, self);
      w != [] && w[0] == self && Ring(nodes, w) && |w| == |ring| && forall n :: n in w <==> n in ring
  {
    RingRotates(nodes, ring, Position(ring, self));
  }

  lemma PoolParts(nodes: map<nat, MemNode>, a: Arena, ring: seq<nat>, self: nat, selfFirst: nat, blocks: seq<Block>)
    requires PoolOk(nodes, a, ring, ring, self, selfFirst, blocks)
    ensures Ring(nodes, ring) && self in ring && NodesOk(nodes, a, ring) && self in nodes && NodeOk(nodes, a, self)
    ensures selfFirst == self + NODE_SIZE + POOL_SIZE <= nodes[self].firstAvail && self % 16 == selfFirst % 16
  {
  }

  /** Giving the own node its first mark back: the ring and the allocator stand, no blocks are left. */
  lemma ResetOk(nodes: map<nat, MemNode>, heads: seq<nat>, a: Arena, start: nat, ring: seq<nat>, self: nat, selfFirst: nat, blocks: seq<Block>)
    requires ArenaOk(nodes, heads, a, start) && PoolOk(nodes, a, ring, ring, self, selfFirst, blocks)
    ensures self in nodes && self in ring
    ensures
      var nodes1, w := nodes[self := nodes[self].(firstAvail := selfFirst)], FromSelf(ring, self);
      && ArenaOk(nodes1, heads, a, start) && PoolOk(nodes1, a, w, w, self, selfFirst, []) && w != [] && w[0] == self
      && (forall n :: n in w <==> n in ring) && nodes1[self].ref in nodes1
      && (nodes1[self].next == self <==> w == [self])
  {
    hide Inv, Heads, Records;
    PoolParts(nodes, a, ring, self, selfFirst, blocks);
    MembersLive(nodes, a, ring);
    var nodes1, w := nodes[self := nodes[self].(firstAvail := selfFirst)], FromSelf(ring, self);
    AllocatorKept(nodes, nodes1, heads, a, start);
    RingKept(nodes, nodes1, ring);
    FromSelfOk(nodes1, ring, self);
    SixteenAligned(nodes, a, start, self);
    forall n | n in w ensures NodeOk(nodes1, a, n) { assert NodeOk(nodes, a, n); }
    FollowRing(nodes1, w, 0);
    FollowRing(nodes1, w, |w| - 1);
    assert Joined(nodes1, w, |w| - 1);
  }

  lemma SixteenAligned(nodes: map<nat, MemNode>, a: Arena, start: nat, n: nat)
    requires Inv(a, start) && NodeOk(nodes, a, n)
    ensures n % 16 == 0
  {
    LayoutDistinct(a, start, n);
  }

  lemma OthersOf(w: seq<nat>, self: nat)
    requires w != [] && w[0] == self && self !in w[1..]
    ensures (set n | n in w && n != self) == (set n | n in w[1..])
  {
    assert w == [self] + w[1..];
  }

  lemma AloneOrdered(nodes: map<nat, MemNode>, ring: seq<nat>)
    requires |ring| == 1
    ensures Ordered(nodes, ring, 1)
  {
  }

  /** Cut before the own node, the rest of the ring is a list. */
  lemma CutOk(nodes: map<nat, MemNode>, heads: seq<nat>, a: Arena, start: nat, w: seq<nat>, self: nat, selfFirst: nat)
    requires ArenaOk(nodes, heads, a, start) && PoolOk(nodes, a, w, w, self, selfFirst, []) && w[0] == self && |w| > 1
    ensures self in nodes && nodes[self].ref in nodes && nodes[self].ref != self
    ensures
      var nodes1 := nodes[nodes[self].ref := nodes[nodes[self].ref].(next := NULL)];
      && ArenaOk(nodes1, heads, a, start) && Chain(nodes1, nodes1[self].next, w[1..]) && nodes1[self] == nodes[self]
      && NodesOk(nodes1, a, w) && selfFirst == self + NODE_SIZE + POOL_SIZE <= nodes1[self].firstAvail
    ensures Distinct(w) && Distinct(w[1..]) && (forall n :: n in w ==> n in a.live) && self !in w[1..]
  {
    hide Inv, Heads, Records;
    PoolParts(nodes, a, w, self, selfFirst, []);
    MembersLive(nodes, a, w);
    RingDistinct(nodes, w);
    CutChain(nodes, w);
    var nodes1 := nodes[nodes[self].ref := nodes[nodes[self].ref].(next := NULL)];
    assert w[|w| - 1] in w;
    AllocatorKept(nodes, nodes1, heads, a, start);
    forall n | n in w ensures NodeOk(nodes1, a, n) { assert NodeOk(nodes, a, n); }
    ChainTail(nodes1, self, w);
  }

  /** Read from its first node, a ring whose last link is cut is a list. */
  lemma CutChain(nodes: map<nat, MemNode>, w: seq<nat>)
    requires Ring(nodes, w)
    ensures w[0] in nodes && nodes[w[0]].ref == w[|w| - 1] && nodes[w[0]].ref in nodes
    ensures Chain(nodes[nodes[w[0]].ref := nodes[nodes[w[0]].ref].(next := NULL)], w[0], w)
  {
    assert Joined(nodes, w, |w| - 1);
    var nodes1 := nodes[nodes[w[0]].ref := nodes[nodes[w[0]].ref].(next := NULL)];
    forall k | 0 <= k < |w| ensures Linked(nodes1, w, k) {
      assert Joined(nodes, w, k);
      if k < |w| - 1 { assert w[k] != w[|w| - 1]; }
    }
  }

  lemma WholeCutOk(nodes: map<nat, MemNode>, heads: seq<nat>, a: Arena, start: nat, ring: seq<nat>, self: nat, selfFirst: nat, blocks: seq<Block>)
    requires ArenaOk(nodes, heads, a, start) && PoolOk(nodes, a, ring, ring, self, selfFirst, blocks)
    ensures self in nodes && nodes[self].ref in nodes
    ensures
      var nodes1, w := nodes[nodes[self].ref := nodes[nodes[self].ref].(next := NULL)], FromSelf(ring, self);
      && ArenaOk(nodes1, heads, a, start) && Chain(nodes1, self, w) && w != [] && Distinct(w)
      && (forall n :: n in w ==> n in a.live) && forall n :: n in w <==> n in ring
  {
    hide Inv, Heads, Records;
    PoolParts(nodes, a, ring, self, selfFirst, blocks);
    MembersLive(nodes, a, ring);
    FromSelfOk(nodes, ring, self);
    var w := FromSelf(ring, self);
    RingDistinct(nodes, w);
    CutChain(nodes, w);
    assert w[|w| - 1] in w;
    AllocatorKept(nodes, nodes[nodes[self].ref := nodes[nodes[self].ref].(next := NULL)], heads, a, start);
  }

  /** After the rest is freed, the own node alone is a ring again. */
  lemma AloneOk(nodes: map<nat, MemNode>, nodes2: map<nat, MemNode>, heads: seq<nat>, a: Arena, b: Arena, start: nat, w: seq<nat>, self: nat, selfFirst: nat)
    requires ArenaOk(nodes2, heads, b, start) && NodesOk(nodes, a, w) && self in w && self !in w[1..] && w != []
    requires self in nodes && selfFirst == self + NODE_SIZE + POOL_SIZE <= nodes[self].firstAvail
    requires b.live == a.live - (set n | n in w[1..]) && b.layout == a.layout && b.index == a.index
    requires Untouched(nodes, nodes2, b.live)
    ensures self in nodes2
    ensures
      var nodes3 := nodes2[self := nodes2[self].(next := self, ref := self)];
      ArenaOk(nodes3, heads, b, start) && PoolOk(nodes3, b, [self], [self], self, selfFirst, [])
  {
    hide Inv, Heads, Records;
    assert NodeOk(nodes, a, self);
    assert self in b.live;
    var nodes3 := nodes2[self := nodes2[self].(next := self, ref := self)];
    AllocatorKept(nodes2, nodes3, heads, b, start);
    assert Joined(nodes3, [self], 0);
    assert NodeOk(nodes3, b, self);
  }


  lemma AlignedSize(inSize: nat)
    requires inSize < LIMIT && AlignDefault(inSize) >= inSize
    ensures AlignDefault(inSize) % 16 == 0 && AlignDefault(inSize) < LIMIT && AlignDefault(inSize) < inSize + 16
  {
  }

  /** The last block's address is 16-aligned, so it is not the null mark. */
  lemma NotNull(nodes: map<nat, MemNode>, a: Arena, ring: seq<nat>, self: nat, selfFirst: nat, blocks: seq<Block>)
    requires blocks != [] && PoolOk(nodes, a, ring, ring, self, selfFirst, blocks)
    ensures blocks[|blocks| - 1].addr != NULL
  {
    assert BlockOk(nodes, ring, self, selfFirst, blocks[|blocks| - 1]);
  }

  lemma NextOfActive(nodes: map<nat, MemNode>, a: Arena, ring: seq<nat>, self: nat, selfFirst: nat, blocks: seq<Block>)
    requires PoolOk(nodes, a, ring, ring, self, selfFirst, blocks)
    ensures |ring| > 0 && ring[0] in nodes && nodes[ring[0]].next == (if |ring| > 1 then ring[1] else ring[0])
    ensures nodes[ring[0]].next in nodes
  {
    FollowRing(nodes, ring, 0);
  }

  /** The ring with its second node moved to before position `j`. */
  function Moved(ring: seq<nat>, j: nat): seq<nat>
    requires 2 <= j <= |ring|
  {
    [ring[0]] + ring[2..j] + [ring[1]] + ring[j..]
  }

  predicate Greater(nodes: map<nat, MemNode>, ring: seq<nat>, from: nat, to: nat, index: nat) {
    to <= |ring| && forall k :: from <= k < to ==> ring[k] in nodes && IndexAt(nodes, ring, k) > index
  }

  lemma BelowIndex(nodes: map<nat, MemNode>, ring: seq<nat>, j: nat, index: nat)
    requires 2 <= j <= |ring| && ring[0] in nodes && IndexAt(nodes, ring, 0) == 0
    requires var node := if j < |ring| then ring[j] else ring[0]; node in nodes && nodes[node].freeIndex > index
    ensures j < |ring| && Greater(nodes, ring, j, j + 1, index)
    ensures Greater(nodes, ring, 2, j, index) ==> Greater(nodes, ring, 2, j + 1, index)
  {
  }

  lemma FollowRing(nodes: map<nat, MemNode>, ring: seq<nat>, k: nat)
    requires Ring(nodes, ring) && k < |ring|
    ensures ring[k] in nodes && nodes[ring[k]].next == (if k + 1 < |ring| then ring[k + 1] else ring[0]) && nodes[ring[k]].next in nodes
  {
    assert Joined(nodes, ring, k);
  }

  lemma MemberFacts(nodes: map<nat, MemNode>, a: Arena, ring: seq<nat>, self: nat, selfFirst: nat, blocks: seq<Block>, n: nat)
    requires PoolOk(nodes, a, ring, ring, self, selfFirst, blocks) && n in ring
    ensures n in nodes && 0 <= FreeSpace(nodes[n]) && FreeSpace(nodes[n]) + BOUNDARY < LIMIT
  {
    assert NodeOk(nodes, a, n);
    assert Extent(a.index[n]) == (a.index[n] + 1) * BOUNDARY;
  }


  lemma CutActiveOk(nodes: map<nat, MemNode>, heads: seq<nat>, a: Arena, start: nat, ring: seq<nat>, self: nat, selfFirst: nat,
      blocks: seq<Block>, size: nat)
    requires ArenaOk(nodes, heads, a, start) && PoolOk(nodes, a, ring, ring, self, selfFirst, blocks) && Ordered(nodes, ring, 1)
    requires ring != [] && ring[0] in nodes && size % 16 == 0 && size <= FreeSpace(nodes[ring[0]])
    ensures
      var n := ring[0];
      var nodes1 := nodes[n := nodes[n].(firstAvail := nodes[n].firstAvail + size)];
      && ArenaOk(nodes1, heads, a, start) && Ordered(nodes1, ring, 1)
      && PoolOk(nodes1, a, ring, ring, self, selfFirst, blocks + [Block(n, nodes[n].firstAvail, size)])
      && IndexAt(nodes1, ring, 0) == IndexAt(nodes, ring, 0)
  {
    hide Inv, Heads, Records, Ordered, Ring, BlocksOk, NodesOk;
    var n, b := ring[0], Block(ring[0], nodes[ring[0]].firstAvail, size);
    var rec := nodes[n].(firstAvail := nodes[n].firstAvail + size);
    var nodes1 := nodes[n := rec];
    assert n in ring;
    MembersLive(nodes, a, ring);
    SameNode(nodes, a, ring, n);
    CutIsDisjoint(nodes, a, start, ring, self, selfFirst, blocks, n, size);
    AllocatorKept(nodes, nodes1, heads, a, start);
    RingKept(nodes, nodes1, ring);
    ActiveCut(nodes, rec, ring);
    CutNodes(nodes, a, ring, n, size);
    BlockHere(nodes, nodes1, a, ring, self, selfFirst, n, size);
    BlocksGrow(nodes, nodes1, ring, self, selfFirst, blocks, b);
  }

  lemma CutNodes(nodes: map<nat, MemNode>, a: Arena, ring: seq<nat>, n: nat, size: nat)
    requires NodesOk(nodes, a, ring) && n in ring && n in nodes && size <= FreeSpace(nodes[n]) && size % 16 == 0
    ensures NodesOk(nodes[n := nodes[n].(firstAvail := nodes[n].firstAvail + size)], a, ring)
  {
    var nodes1 := nodes[n := nodes[n].(firstAvail := nodes[n].firstAvail + size)];
    forall m | m in ring ensures NodeOk(nodes1, a, m) { assert NodeOk(nodes, a, m); }
  }

  lemma ActivateOk(nodes: map<nat, MemNode>, heads: seq<nat>, a: Arena, start: nat, ring: seq<nat>, self: nat, selfFirst: nat,
      blocks: seq<Block>, node: nat, size: nat)
    requires ArenaOk(nodes, heads, a, start) && PoolOk(nodes, a, ring, ring + [node], self, selfFirst, blocks) && node !in ring
    requires Ordered(nodes, ring, 1) && size % 16 == 0 && node in nodes && size <= FreeSpace(nodes[node]) && ring != []
    ensures
      var nodes1 := nodes[node := nodes[node].(freeIndex := 0, firstAvail := nodes[node].firstAvail + size)];
      && ring[0] in nodes1 && nodes1[ring[0]].ref in nodes1 && node != ring[0] && nodes1[ring[0]].ref != node
      && var nodes2, ring2 := InsertBefore(nodes1, node, ring[0]), [node] + ring;
        && ArenaOk(nodes2, heads, a, start)
        && PoolOk(nodes2, a, ring2, ring2, self, selfFirst, blocks + [Block(node, nodes[node].firstAvail, size)])
        && Ordered(nodes2, ring2, 2) && node in nodes2 && IndexAt(nodes2, ring2, 0) == 0
  {
    hide Inv, Heads, Records, Ordered, Ring, InsertBefore, BlocksOk, NodesOk;
    var members, b := ring + [node], Block(node, nodes[node].firstAvail, size);
    var nodes1 := nodes[node := nodes[node].(freeIndex := 0, firstAvail := nodes[node].firstAvail + size)];
    assert node in members;
    MembersLive(nodes, a, members);
    SameNode(nodes, a, members, node);
    CutIsDisjoint(nodes, a, start, members, self, selfFirst, blocks, node, size);
    AllocatorKept(nodes, nodes1, heads, a, start);
    RingKept(nodes, nodes1, ring);
    CutKeeps(nodes, a, members, node, size);
    BlockHere(nodes, nodes1, a, members, self, selfFirst, node, size);
    BlocksGrow(nodes, nodes1, members, self, selfFirst, blocks, b);
    CutOrdered(nodes, nodes1, ring, node);
    RingInsert(nodes1, ring, node);
    InsertLinks(nodes1, ring, node);
    var nodes2, ring2 := InsertBefore(nodes1, node, ring[0]), [node] + ring;
    LinksAreMarks(nodes1, nodes2, ring2);
    LinksKeepAllocator(nodes1, nodes2, heads, a, start, ring2, members);
    NodesKept(nodes1, nodes2, a, members, ring2);
    BlocksKept(nodes1, nodes2, members, ring2, self, selfFirst, blocks + [b]);
    OrderedShift(nodes1, nodes2, ring, node);
  }

  lemma SameNode(nodes: map<nat, MemNode>, a: Arena, members: seq<nat>, n: nat)
    requires NodesOk(nodes, a, members) && n in members
    ensures NodeOk(nodes, a, n)
  {
  }

  lemma CutKeeps(nodes: map<nat, MemNode>, a: Arena, members: seq<nat>, node: nat, size: nat)
    requires NodesOk(nodes, a, members) && node in members && node in nodes && size <= FreeSpace(nodes[node]) && size % 16 == 0
    ensures NodesOk(nodes[node := nodes[node].(freeIndex := 0, firstAvail := nodes[node].firstAvail + size)], a, members)
  {
    var nodes1 := nodes[node := nodes[node].(freeIndex := 0, firstAvail := nodes[node].firstAvail + size)];
    forall n | n in members ensures NodeOk(nodes1, a, n) { assert NodeOk(nodes, a, n); }
  }

  lemma BlockHere(nodes: map<nat, MemNode>, nodes1: map<nat, MemNode>, a: Arena, members: seq<nat>, self: nat, selfFirst: nat,
      node: nat, size: nat)
    requires node in members && NodeOk(nodes, a, node) && self in nodes && selfFirst <= nodes[self].firstAvail
    requires node in nodes1 && nodes1[node].firstAvail == nodes[node].firstAvail + size
    ensures BlockOk(nodes1, members, self, selfFirst, Block(node, nodes[node].firstAvail, size))
  {
  }

  lemma CutOrdered(nodes: map<nat, MemNode>, nodes1: map<nat, MemNode>, ring: seq<nat>, node: nat)
    requires Ordered(nodes, ring, 1) && node !in ring && nodes1.Keys == nodes.Keys
    requires forall n :: n in nodes && n != node ==> nodes1[n] == nodes[n]
    ensures Ordered(nodes1, ring, 1)
  {
    forall k | 1 <= k < |ring| ensures ring[k] in nodes1 && nodes1[ring[k]] == nodes[ring[k]] { assert ring[k] in ring; }
  }

  lemma OrderedShift(nodes: map<nat, MemNode>, nodes2: map<nat, MemNode>, ring: seq<nat>, node: nat)
    requires Ordered(nodes, ring, 1) && SameMarks(nodes, nodes2)
    ensures Ordered(nodes2, [node] + ring, 2)
  {
    var r := [node] + ring;
    forall k | 2 <= k < |r| ensures r[k] in nodes2 && IndexAt(nodes2, r, k) == FreeSpace(nodes2[r[k]]) / BOUNDARY {
      assert IndexAt(nodes, ring, k - 1) == FreeSpace(nodes[ring[k - 1]]) / BOUNDARY;
    }
    forall j, k | 2 <= j < k < |r| ensures IndexAt(nodes2, r, j) >= IndexAt(nodes2, r, k) {
      assert IndexAt(nodes, ring, j - 1) >= IndexAt(nodes, ring, k - 1);
    }
  }

  /** Writing down the free index of the node that was active. */
  lemma MeasureOk(nodes: map<nat, MemNode>, heads: seq<nat>, a: Arena, start: nat, ring: seq<nat>, self: nat, selfFirst: nat,
      blocks: seq<Block>, index: nat)
    requires ArenaOk(nodes, heads, a, start) && PoolOk(nodes, a, ring, ring, self, selfFirst, blocks) && |ring| >= 2
    requires Ordered(nodes, ring, 2) && ring[0] in nodes && IndexAt(nodes, ring, 0) == 0 && ring[1] in nodes
    requires index == FreeSpace(nodes[ring[1]]) / BOUNDARY
    ensures
      var nodes1 := nodes[ring[1] := nodes[ring[1]].(freeIndex := index)];
      && ArenaOk(nodes1, heads, a, start) && PoolOk(nodes1, a, ring, ring, self, selfFirst, blocks) && Ring(nodes1, ring)
      && Ordered(nodes1, ring, 2) && IndexAt(nodes1, ring, 0) == 0 && IndexAt(nodes1, ring, 1) == index
      && FreeSpace(nodes1[ring[1]]) / BOUNDARY == index
  {
    hide Inv, Heads, Records;
    var was := ring[1];
    var nodes1 := nodes[was := nodes[was].(freeIndex := index)];
    assert was in ring;
    MembersLive(nodes, a, ring);
    AllocatorKept(nodes, nodes1, heads, a, start);
    RingKept(nodes, nodes1, ring);
    forall n | n in ring ensures NodeOk(nodes1, a, n) { assert NodeOk(nodes, a, n); }
    forall k | 0 <= k < |blocks| ensures BlockOk(nodes1, ring, self, selfFirst, blocks[k]) {
      assert BlockOk(nodes, ring, self, selfFirst, blocks[k]);
    }
    assert forall k :: 2 <= k < |ring| ==> ring[k] != ring[1];
    assert ring[0] != ring[1];
  }

  /** It has at least as much as the first of the others: its place is where it is. */
  lemma InPlace(nodes: map<nat, MemNode>, ring: seq<nat>)
    requires Ordered(nodes, ring, 2) && |ring| >= 2 && ring[0] in nodes && ring[1] in nodes
    requires IndexAt(nodes, ring, 1) == FreeSpace(nodes[ring[1]]) / BOUNDARY
    requires var next := if 2 < |ring| then ring[2] else ring[0]; next in nodes && IndexAt(nodes, ring, 1) >= nodes[next].freeIndex
    ensures Ordered(nodes, ring, 1)
  {
    forall j, k | 1 <= j < k < |ring| ensures IndexAt(nodes, ring, j) >= IndexAt(nodes, ring, k) {
      if j == 1 && k > 2 { assert IndexAt(nodes, ring, 2) >= IndexAt(nodes, ring, k); }
    }
  }

  lemma SettleOk(nodes: map<nat, MemNode>, heads: seq<nat>, a: Arena, start: nat, ring: seq<nat>, self: nat, selfFirst: nat,
      blocks: seq<Block>, j: nat)
    requires ArenaOk(nodes, heads, a, start) && PoolOk(nodes, a, ring, ring, self, selfFirst, blocks) && 3 <= j <= |ring|
    requires Ordered(nodes, ring, 2) && ring[0] in nodes && IndexAt(nodes, ring, 0) == 0 && ring[1] in nodes
    requires IndexAt(nodes, ring, 1) == FreeSpace(nodes[ring[1]]) / BOUNDARY
    requires Greater(nodes, ring, 2, j, IndexAt(nodes, ring, 1))
    requires j < |ring| ==> ring[j] in nodes && IndexAt(nodes, ring, j) <= IndexAt(nodes, ring, 1)
    ensures
      var was, node, ring2 := ring[1], if j < |ring| then ring[j] else ring[0], Moved(ring, j);
      && |ring2| == |ring| && (forall n :: n in ring2 <==> n in ring)
      && nodes[was].ref in nodes && nodes[was].next in nodes
      && var nodes1 := Unhook(nodes, was);
        && was in nodes1 && node in nodes1 && nodes1[node].ref in nodes1 && was != node && nodes1[node].ref != was
        && var nodes2 := InsertBefore(nodes1, was, node);
          && ArenaOk(nodes2, heads, a, start) && PoolOk(nodes2, a, ring2, ring2, self, selfFirst, blocks)
          && Ordered(nodes2, ring2, 1) && ring2[0] in nodes2 && IndexAt(nodes2, ring2, 0) == 0
  {
    hide Inv, Heads, Records, Ordered, Ring, InsertBefore, Unhook, BlocksOk, NodesOk, Greater;
    var was, node, ring2 := ring[1], if j < |ring| then ring[j] else ring[0], Moved(ring, j);
    var nodes1 := HopOff(nodes, ring, j);
    var nodes2 := HopOn(nodes1, ring, j);
    MovedMembers(ring, j);
    MembersLive(nodes, a, ring);
    LinksKeepAllocator(nodes, nodes1, heads, a, start, ring, ring);
    LinksKeepAllocator(nodes1, nodes2, heads, a, start, ring, ring);
    LinksAreMarks(nodes, nodes1, ring);
    LinksAreMarks(nodes1, nodes2, ring);
    NodesKept(nodes, nodes1, a, ring, ring);
    NodesKept(nodes1, nodes2, a, ring, ring2);
    BlocksKept(nodes, nodes1, ring, ring, self, selfFirst, blocks);
    BlocksKept(nodes1, nodes2, ring, ring2, self, selfFirst, blocks);
    MovedOrdered(nodes, nodes2, ring, j);
  }

  lemma MovedMembers(ring: seq<nat>, j: nat)
    requires 2 <= j <= |ring|
    ensures |Moved(ring, j)| == |ring| && forall n :: n in Moved(ring, j) <==> n in ring
  {
    assert ring == [ring[0]] + [ring[1]] + ring[2..j] + ring[j..];
  }

  /** Off the ring, which is then read from the node before which it will go back. */
  lemma HopOff(nodes: map<nat, MemNode>, ring: seq<nat>, j: nat) returns (nodes1: map<nat, MemNode>)
    requires Ring(nodes, ring) && 3 <= j <= |ring|
    ensures ring[1] in nodes && nodes[ring[1]].ref in nodes && nodes[ring[1]].next in nodes && nodes1 == Unhook(nodes, ring[1])
    ensures OnlyLinks(nodes, nodes1, ring) && ring[1] !in ring[j..] + [ring[0]] + ring[2..j]
    ensures Ring(nodes1, ring[j..] + [ring[0]] + ring[2..j])
  {
    var was, rest := ring[1], ring[2..] + [ring[0]];
    RotatePair(nodes, ring);
    RingRemove(nodes, was, rest);
    UnhookLinks(nodes, was, rest);
    RingDistinct(nodes, ring);
    nodes1 := Unhook(nodes, was);
    hide Ring, Unhook;
    RestOf(ring, j);
    LinksWithin(nodes, nodes1, [was] + rest, ring);
    RingRotates(nodes1, rest, j - 2);
  }

  lemma RestOf(ring: seq<nat>, j: nat)
    requires 3 <= j <= |ring| && Distinct(ring)
    ensures
      var rest := ring[2..] + [ring[0]];
      && j - 2 < |rest| && Rotated(rest, j - 2) == ring[j..] + [ring[0]] + ring[2..j]
      && (forall n :: n in [ring[1]] + rest ==> n in ring) && ring[1] !in ring[j..] + [ring[0]] + ring[2..j]
  {
    var rest := ring[2..] + [ring[0]];
    assert rest[j - 2..] == ring[j..] + [ring[0]] && rest[..j - 2] == ring[2..j];
  }

  lemma HopOn(nodes1: map<nat, MemNode>, ring: seq<nat>, j: nat) returns (nodes2: map<nat, MemNode>)
    requires 3 <= j <= |ring| && ring[1] in nodes1 && ring[1] !in ring[j..] + [ring[0]] + ring[2..j]
    requires Ring(nodes1, ring[j..] + [ring[0]] + ring[2..j])
    ensures var node := if j < |ring| then ring[j] else ring[0];
      && node in nodes1 && nodes1[node].ref in nodes1 && ring[1] != node && nodes1[node].ref != ring[1]
      && nodes2 == InsertBefore(nodes1, ring[1], node)
    ensures OnlyLinks(nodes1, nodes2, ring) && Ring(nodes2, Moved(ring, j))
  {
    var was, s := ring[1], ring[j..] + [ring[0]] + ring[2..j];
    MovedRotation(ring, j);
    RingInsert(nodes1, s, was);
    InsertLinks(nodes1, s, was);
    nodes2 := InsertBefore(nodes1, was, s[0]);
    hide Ring, InsertBefore;
    LinksWithin(nodes1, nodes2, [was] + s, ring);
    RingRotates(nodes2, [was] + s, 1 + |ring| - j);
  }

  lemma LinksWithin(nodes: map<nat, MemNode>, nodes2: map<nat, MemNode>, touched: seq<nat>, ring: seq<nat>)
    requires OnlyLinks(nodes, nodes2, touched) && forall n :: n in touched ==> n in ring
    ensures OnlyLinks(nodes, nodes2, ring)
  {
  }

  lemma MovedRotation(ring: seq<nat>, j: nat)
    requires 3 <= j <= |ring|
    ensures
      var w := [ring[1]] + (ring[j..] + [ring[0]] + ring[2..j]);
      && w[1] == (if j < |ring| then ring[j] else ring[0]) && 1 + |ring| - j < |w|
      && Rotated(w, 1 + |ring| - j) == Moved(ring, j)
      && forall n :: n in w ==> n in ring
  {
    var w := [ring[1]] + (ring[j..] + [ring[0]] + ring[2..j]);
    assert w[1 + |ring| - j..] == [ring[0]] + ring[2..j];
    assert w[..1 + |ring| - j] == [ring[1]] + ring[j..];
  }

  lemma MovedOrdered(nodes: map<nat, MemNode>, nodes2: map<nat, MemNode>, ring: seq<nat>, j: nat)
    requires SameMarks(nodes, nodes2) && 3 <= j <= |ring| && Ordered(nodes, ring, 2) && ring[0] in nodes && ring[1] in nodes
    requires IndexAt(nodes, ring, 1) == FreeSpace(nodes[ring[1]]) / BOUNDARY && IndexAt(nodes, ring, 0) == 0
    requires Greater(nodes, ring, 2, j, IndexAt(nodes, ring, 1))
    requires j < |ring| ==> ring[j] in nodes && IndexAt(nodes, ring, j) <= IndexAt(nodes, ring, 1)
    ensures Ordered(nodes2, Moved(ring, j), 1) && IndexAt(nodes2, Moved(ring, j), 0) == 0
  {
    var r := Moved(ring, j);
    forall k | 1 <= k < |r| ensures r[k] == ring[Source(j, k)] { }
    forall k | 1 <= k < |r| ensures r[k] in nodes2 && IndexAt(nodes2, r, k) == FreeSpace(nodes2[r[k]]) / BOUNDARY {
      assert Source(j, k) == 1 || IndexAt(nodes, ring, Source(j, k)) == FreeSpace(nodes[ring[Source(j, k)]]) / BOUNDARY;
    }
    forall x, y | 1 <= x < y < |r| ensures IndexAt(nodes2, r, x) >= IndexAt(nodes2, r, y) {
      var u, v := Source(j, x), Source(j, y);
      assert ring[u] in nodes && ring[v] in nodes;
      if u == 1 {
        assert IndexAt(nodes, ring, 1) >= IndexAt(nodes, ring, j) >= IndexAt(nodes, ring, v);
      } else if v == 1 {
        assert IndexAt(nodes, ring, u) > IndexAt(nodes, ring, 1);
      } else {
        assert IndexAt(nodes, ring, u) >= IndexAt(nodes, ring, v);
      }
    }
  }

  /** Where the node at position `k` of the new ring was in the old one. */
  function Source(j: nat, k: nat): nat
    requires 1 <= k && 3 <= j
  {
    if k < j - 1 then k + 1 else if k == j - 1 then 1 else k
  }

  lemma AllocNotNull(a: Arena, start: nat, size: nat, memSize: nat, granted: bool)
    requires Inv(a, start) && Shaped(a) && size < LIMIT && NoWrap(a, size) && a.origin < LIMIT
    ensures var r := Alloc(a, size, memSize, granted); r.Got? ==> r.node != NULL
  {
    hide HasFit;
    AllocKeeps(a, start, size, memSize, granted);
    var r := Alloc(a, size, memSize, granted);
    if r.Got? {
      Counts(r.a, start, r.node);
      LayoutDistinct(r.a, start, r.node);
      hide Inv, Take, TakeFromSink;
      OriginBound(a, start, size, memSize, granted);
    }
  }

  lemma OriginBound(a: Arena, start: nat, size: nat, memSize: nat, granted: bool)
    requires Inv(a, start) && Shaped(a) && size < LIMIT && a.origin < LIMIT
    ensures var r := Alloc(a, size, memSize, granted); r.Got? ==> r.a.origin < LIMIT
  {
    hide Inv, HasFit, Alloc;
    NewWhenNoFit(a, start, size, memSize, granted);
    if RequestSize(size).None? { NothingWhenRefused(a, size, memSize, granted); }
  }

  lemma FreshNode(nodes: map<nat, MemNode>, a: Arena, node: nat, size: nat)
    requires node in nodes && node in a.live && node in a.layout && node in a.index && node % 16 == 0
    requires nodes[node].endp == node + Extent(a.index[node]) < LIMIT && nodes[node].firstAvail == node + NODE_SIZE
    requires Extent(a.index[node]) - NODE_SIZE >= size
    ensures NodeOk(nodes, a, node) && size <= FreeSpace(nodes[node])
  {
  }

  /** What the allocator does to other nodes does not concern a pool. */
  lemma FreshKept(nodes: map<nat, MemNode>, nodes2: map<nat, MemNode>, a: Arena, b: Arena, ring: seq<nat>, node: nat,
      self: nat, selfFirst: nat, blocks: seq<Block>)
    requires PoolOk(nodes, a, ring, ring, self, selfFirst, blocks) && Untouched(nodes, nodes2, a.live)
    requires a.live <= b.live && a.layout <= b.layout && forall n :: n in a.layout ==> n in a.index && n in b.index && b.index[n] == a.index[n]
    ensures Ordered(nodes, ring, 1) ==> Ordered(nodes2, ring, 1)
    ensures PoolOk(nodes2, b, ring, ring, self, selfFirst, blocks)
    ensures NodeOk(nodes2, b, node) ==> PoolOk(nodes2, b, ring, ring + [node], self, selfFirst, blocks)
    ensures |ring| > 0 && ring[0] in nodes && ring[0] in nodes2 && nodes2[ring[0]] == nodes[ring[0]]
  {
    MembersLive(nodes, a, ring);
    forall n | n in ring ensures NodeOk(nodes2, b, n) { assert NodeOk(nodes, a, n); }
    RingFrame(nodes, nodes2, ring);
    forall k | 0 <= k < |blocks|
      ensures BlockOk(nodes2, ring, self, selfFirst, blocks[k]) && BlockOk(nodes2, ring + [node], self, selfFirst, blocks[k])
    {
      assert BlockOk(nodes, ring, self, selfFirst, blocks[k]);
    }
    assert ring[0] in ring;
  }


  lemma TakeNextOk(nodes: map<nat, MemNode>, heads: seq<nat>, a: Arena, start: nat, ring: seq<nat>, self: nat, selfFirst: nat, blocks: seq<Block>)
    requires ArenaOk(nodes, heads, a, start) && PoolOk(nodes, a, ring, ring, self, selfFirst, blocks)
    requires Ordered(nodes, ring, 1) && |ring| > 1
    ensures
      var node, ring2 := ring[1], [ring[0]] + ring[2..];
      && ring[0] in nodes && nodes[ring[0]].next == node && node in nodes && nodes[node].ref in nodes && nodes[node].next in nodes
      && var nodes2 := Unhook(nodes, node);
        && ArenaOk(nodes2, heads, a, start) && PoolOk(nodes2, a, ring2, ring2 + [node], self, selfFirst, blocks)
        && Ordered(nodes2, ring2, 1) && node !in ring2 && SameMarks(nodes, nodes2)
  {
    hide Inv, Heads, Records, Ordered, Ring, NodesOk, BlocksOk, Unhook;
    var node, ring2, others := ring[1], [ring[0]] + ring[2..], ring[2..] + [ring[0]];
    RotatePair(nodes, ring);
    NextIs(nodes, ring);
    RingRemove(nodes, node, others);
    UnhookLinks(nodes, node, others);
    var nodes2 := Unhook(nodes, node);
    LinksAreMarks(nodes, nodes2, [node] + others);
    MembersLive(nodes, a, ring);
    RingDistinct(nodes, ring);
    MembersSame(ring, node, ring2);
    LinksKeepAllocator(nodes, nodes2, heads, a, start, [node] + others, ring);
    RotateBack(nodes2, ring[0], ring[2..]);
    NodesKept(nodes, nodes2, a, ring, ring2 + [node]);
    BlocksKept(nodes, nodes2, ring, ring2 + [node], self, selfFirst, blocks);
    OrderedDrop(nodes, nodes2, ring, ring2);
  }

  lemma RingDistinct(nodes: map<nat, MemNode>, ring: seq<nat>)
    requires Ring(nodes, ring)
    ensures Distinct(ring) && ring != []
  {
  }

  lemma LinksAreMarks(nodes: map<nat, MemNode>, nodes2: map<nat, MemNode>, touched: seq<nat>)
    requires OnlyLinks(nodes, nodes2, touched)
    ensures SameMarks(nodes, nodes2)
  {
  }

  lemma MembersLive(nodes: map<nat, MemNode>, a: Arena, ring: seq<nat>)
    requires NodesOk(nodes, a, ring)
    ensures forall n :: n in ring ==> n in a.live && n in nodes
  {
    forall n | n in ring ensures n in a.live && n in nodes { assert NodeOk(nodes, a, n); }
  }

  /** The ring read from the node after the active one. */
  lemma RotatePair(nodes: map<nat, MemNode>, ring: seq<nat>)
    requires Ring(nodes, ring) && |ring| > 1
    ensures Ring(nodes, [ring[1]] + (ring[2..] + [ring[0]]))
  {
    RingRotates(nodes, ring, 1);
    assert Rotated(ring, 1) == [ring[1]] + (ring[2..] + [ring[0]]);
  }

  lemma NextIs(nodes: map<nat, MemNode>, ring: seq<nat>)
    requires Ring(nodes, ring)
    ensures ring[0] in nodes && nodes[ring[0]].next == ring[After(0, |ring|)] && nodes[ring[0]].next in nodes
  {
    assert Joined(nodes, ring, 0);
  }

  lemma RotateBack(nodes: map<nat, MemNode>, active: nat, rest: seq<nat>)
    requires Ring(nodes, rest + [active])
    ensures Ring(nodes, [active] + rest)
  {
    RingRotates(nodes, rest + [active], |rest|);
    assert Rotated(rest + [active], |rest|) == [active] + rest;
  }

  lemma LinksKeepAllocator(nodes: map<nat, MemNode>, nodes2: map<nat, MemNode>, heads: seq<nat>, a: Arena, start: nat,
      touched: seq<nat>, live: seq<nat>)
    requires Inv(a, start) && Heads(nodes, heads, a.buckets) && Records(nodes, a) && NULL !in nodes
    requires OnlyLinks(nodes, nodes2, touched) && (forall n :: n in touched ==> n in live) && forall n :: n in live ==> n in a.live
    ensures Heads(nodes2, heads, a.buckets) && Records(nodes2, a) && NULL !in nodes2
  {
    AllocatorKept(nodes, nodes2, heads, a, start);
  }

  lemma MembersSame(was: seq<nat>, node: nat, ring: seq<nat>)
    requires Distinct(was) && |was| > 1 && node == was[1] && ring == [was[0]] + was[2..]
    ensures node !in ring && forall n :: n in ring + [node] <==> n in was
  {
    assert was == [was[0]] + [was[1]] + was[2..];
  }

  /** Links aside, the records are the same. */
  predicate SameMarks(nodes: map<nat, MemNode>, nodes2: map<nat, MemNode>) {
    nodes2.Keys == nodes.Keys &&
    forall n :: n in nodes ==>
      && nodes2[n].index == nodes[n].index && nodes2[n].freeIndex == nodes[n].freeIndex
      && nodes2[n].firstAvail == nodes[n].firstAvail && nodes2[n].endp == nodes[n].endp
  }

  lemma NodesKept(nodes: map<nat, MemNode>, nodes2: map<nat, MemNode>, a: Arena, ring: seq<nat>, ring2: seq<nat>)
    requires NodesOk(nodes, a, ring) && SameMarks(nodes, nodes2) && forall n :: n in ring2 ==> n in ring
    ensures NodesOk(nodes2, a, ring2)
  {
    forall n | n in ring2 ensures NodeOk(nodes2, a, n) { assert NodeOk(nodes, a, n); }
  }

  lemma BlocksKept(nodes: map<nat, MemNode>, nodes2: map<nat, MemNode>, ring: seq<nat>, ring2: seq<nat>, self: nat, selfFirst: nat,
      blocks: seq<Block>)
    requires BlocksOk(nodes, ring, self, selfFirst, blocks) && SameMarks(nodes, nodes2) && forall n :: n in ring ==> n in ring2
    ensures BlocksOk(nodes2, ring2, self, selfFirst, blocks)
  {
    forall k | 0 <= k < |blocks| ensures BlockOk(nodes2, ring2, self, selfFirst, blocks[k]) {
      assert BlockOk(nodes, ring, self, selfFirst, blocks[k]);
    }
  }

  lemma OrderedDrop(nodes: map<nat, MemNode>, nodes2: map<nat, MemNode>, was: seq<nat>, ring: seq<nat>)
    requires Ordered(nodes, was, 1) && SameMarks(nodes, nodes2) && |was| > 1 && ring == [was[0]] + was[2..]
    ensures Ordered(nodes2, ring, 1)
  {
    assert forall k :: 1 <= k < |ring| ==> ring[k] == was[k + 1];
    forall k | 1 <= k < |ring| ensures ring[k] in nodes2 && IndexAt(nodes2, ring, k) == FreeSpace(nodes2[ring[k]]) / BOUNDARY {
      assert IndexAt(nodes, was, k + 1) == FreeSpace(nodes[was[k + 1]]) / BOUNDARY;
    }
    forall j, k | 1 <= j < k < |ring| ensures IndexAt(nodes2, ring, j) >= IndexAt(nodes2, ring, k) {
      assert IndexAt(nodes, was, j + 1) >= IndexAt(nodes, was, k + 1);
    }
  }

  lemma RingKept(nodes: map<nat, MemNode>, nodes2: map<nat, MemNode>, ring: seq<nat>)
    requires Ring(nodes, ring) && nodes2.Keys == nodes.Keys
    requires forall n :: n in nodes ==> nodes2[n].next == nodes[n].next && nodes2[n].ref == nodes[n].ref
    ensures Ring(nodes2, ring)
  {
    RingFrame(nodes, nodes2, ring);
  }

  /** Cutting from the active node does not concern the order behind it. */
  lemma ActiveCut(nodes: map<nat, MemNode>, rec: MemNode, ring: seq<nat>)
    requires Ring(nodes, ring) && Ordered(nodes, ring, 1) && ring[0] in nodes && rec.freeIndex == nodes[ring[0]].freeIndex
    ensures Ordered(nodes[ring[0] := rec], ring, 1)
  {
    assert forall k :: 1 <= k < |ring| ==> ring[k] != ring[0];
  }

  /** One more block, the marks of the nodes not lowered. */
  lemma BlocksGrow(nodes: map<nat, MemNode>, nodes2: map<nat, MemNode>, ring: seq<nat>, self: nat, selfFirst: nat,
      blocks: seq<Block>, b: Block)
    requires BlocksOk(nodes, ring, self, selfFirst, blocks)
    requires forall n :: n in nodes ==> n in nodes2 && nodes2[n].firstAvail >= nodes[n].firstAvail
    requires BlockOk(nodes2, ring, self, selfFirst, b)
    requires forall k :: 0 <= k < |blocks| ==> Disjoint(blocks[k], b)
    ensures BlocksOk(nodes2, ring, self, selfFirst, blocks + [b])
  {
    var all := blocks + [b];
    forall k | 0 <= k < |all| ensures BlockOk(nodes2, ring, self, selfFirst, all[k]) {
      if k < |blocks| { assert BlockOk(nodes, ring, self, selfFirst, blocks[k]); }
    }
  }

  lemma NodeFacts(nodes: map<nat, MemNode>, a: Arena, start: nat, n: nat)
    requires Inv(a, start) && Records(nodes, a) && n in a.live && a.origin < LIMIT
    ensures n in nodes && n in a.layout && n in a.index && n % 16 == 0 && n + Extent(a.index[n]) < LIMIT && a.index[n] >= 1
    ensures nodes[n].endp == n + Extent(a.index[n])
  {
    Counts(a, start, n);
    LayoutDistinct(a, start, n);
    var i :| 0 <= i < |a.layout| && a.layout[i] == n;
    TilesOrdered(a.layout, a.index, start, a.origin, i, |a.layout|);
  }
}
