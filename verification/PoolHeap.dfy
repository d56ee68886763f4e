/**
 The arena of lib/apex_apr/src/apr_pools.c: blocks cut from a bump pointer, recycled by
 first fit, each filled from its start. Sizes are those of a 64-bit target: pointers and
 apr_size_t of 8 bytes, a block header of 32.
 */
module PoolHeap {
  import opened Common

  const HEADER: nat := 32
  const BLOCK_DEFAULT: nat := 4096
  const SIZE_MAX: nat := 0xFFFF_FFFF_FFFF_FFFF

  /** `begin` is the offset of the first data byte from the arena base; the header lies before it. */
  datatype Block = Block(begin: nat, capacity: nat, used: nat)

  /** Blocks in arena order; the free list holds their numbers, head first. */
  datatype Heap = Heap(size: nat, arenaUsed: nat, blocks: seq<Block>, free: seq<nat>)

  predicate Multiple(n: nat) {
    n % 8 == 0
  }

  lemma MultipleSum(a: nat, b: nat)
    requires Multiple(a) && Multiple(b)
    ensures Multiple(a + b)
  {
  }

  /** apex_apr_pool_align: 0 when rounding up would wrap. */
  function AlignUp(n: nat): (r: nat)
    ensures n <= SIZE_MAX - 7 ==> n <= r < n + 8 && Multiple(r)
    ensures n <= SIZE_MAX - 7 && Multiple(n) ==> r == n
    ensures n > SIZE_MAX - 7 ==> r == 0
  {
    if n > SIZE_MAX - 7 then 0 else (n + 7) / 8 * 8
  }

  /** Position in the free list of the first block of at least `capacity` bytes. */
  function FirstFit(h: Heap, capacity: nat, from: nat): (r: Option<nat>)
    requires from <= |h.free| && forall k :: 0 <= k < |h.free| ==> h.free[k] < |h.blocks|
    ensures r.Some? ==> from <= r.value < |h.free| && h.blocks[h.free[r.value]].capacity >= capacity
    ensures r.Some? ==> forall k :: from <= k < r.value ==> h.blocks[h.free[k]].capacity < capacity
    ensures r.None? ==> forall k :: from <= k < |h.free| ==> h.blocks[h.free[k]].capacity < capacity
    decreases |h.free| - from
  {
    if from == |h.free| then None
    else if h.blocks[h.free[from]].capacity >= capacity then Some(from)
    else FirstFit(h, capacity, from + 1)
  }

  predicate FreeInRange(h: Heap) {
    forall k :: 0 <= k < |h.free| ==> h.free[k] < |h.blocks|
  }

  function Capacity(minimum: nat): nat {
    if minimum > BLOCK_DEFAULT then minimum else BLOCK_DEFAULT
  }

  /** apex_apr_pool_block_acquire_unlocked */
  function Acquire(h: Heap, minimum: nat): (r: (Heap, Option<nat>))
    requires FreeInRange(h) && h.arenaUsed <= h.size <= SIZE_MAX
    ensures r.1.Some? ==> r.1.value < |r.0.blocks|
    ensures r.1.None? ==> r.0 == h
  {
    var capacity := Capacity(minimum);
    var fit := FirstFit(h, capacity, 0);
    if fit.Some? then
      var b := h.free[fit.value];
      (h.(free := h.free[..fit.value] + h.free[fit.value + 1..], blocks := h.blocks[b := h.blocks[b].(used := 0)]), Some(b))
    else if capacity > SIZE_MAX - HEADER then (h, None)
    else if HEADER + capacity > h.size - h.arenaUsed then (h, None)
    else
      (h.(arenaUsed := h.arenaUsed + HEADER + capacity, blocks := h.blocks + [Block(h.arenaUsed + HEADER, capacity, 0)]),
       Some(|h.blocks|))
  }

  predicate ListInRange(h: Heap, list: seq<nat>) {
    forall k :: 0 <= k < |list| ==> list[k] < |h.blocks|
  }

  /** Result of an allocation: heap, block list of the pool, and where the memory begins. */
  datatype Allocation = Allocation(heap: Heap, list: seq<nat>, at: Option<nat>)

  /** Bytes set aside for a request. */
  function Padded(requested: nat): nat {
    AlignUp(if requested == 0 then 1 else requested)
  }

  predicate FitsHead(h: Heap, list: seq<nat>, size: nat)
    requires ListInRange(h, list)
  {
    list != [] && size <= h.blocks[list[0]].capacity - h.blocks[list[0]].used
  }

  /** apex_apr_pool_allocate_unlocked */
  function Allocate(h: Heap, list: seq<nat>, requested: nat): Allocation
    requires FreeInRange(h) && ListInRange(h, list) && h.arenaUsed <= h.size <= SIZE_MAX
  {
    var size := Padded(requested);
    if size == 0 then Allocation(h, list, None)
    else if FitsHead(h, list, size) then Cut(h, list, size)
    else
      var (h', b) := Acquire(h, size);
      if b.None? then Allocation(h, list, None)
      else Cut(h', [b.value] + list, size)
  }

  /** The end of the allocation, in the head block. */
  function Cut(h: Heap, list: seq<nat>, size: nat): Allocation
    requires list != [] && list[0] < |h.blocks|
  {
    var b := h.blocks[list[0]];
    var offset := AlignUp(b.used);
    if size > b.capacity - offset then Allocation(h, list, None)
    else Allocation(h.(blocks := h.blocks[list[0] := b.(used := offset + size)]), list, Some(b.begin + offset))
  }

  /** apex_apr_pool_blocks_release_unlocked: the blocks go, one by one, to the front of the free list. */
  function ReleaseList(h: Heap, list: seq<nat>): (r: Heap)
    requires ListInRange(h, list)
    ensures |r.blocks| == |h.blocks|
    decreases |list|
  {
    if list == [] then h
    else
      var b := list[0];
      ReleaseList(h.(free := [b] + h.free, blocks := h.blocks[b := h.blocks[b].(used := 0)]), list[1..])
  }

  // ----- the arena is tiled, and each block has one owner -----

  ghost predicate BlockOk(b: Block) {
    Multiple(b.begin) && Multiple(b.capacity) && Multiple(b.used) && b.used <= b.capacity && b.capacity >= BLOCK_DEFAULT
  }

  function EndOf(b: Block): nat {
    b.begin + b.capacity
  }

  ghost predicate Tiled(h: Heap) {
    && h.arenaUsed <= h.size <= SIZE_MAX
    && h.arenaUsed == (if h.blocks == [] then 0 else EndOf(h.blocks[|h.blocks| - 1]))
    && forall i :: 0 <= i < |h.blocks| ==> TileOk(h.blocks, i)
  }

  /** Block `i` is sound and its header begins where block `i - 1` ends. */
  ghost predicate TileOk(blocks: seq<Block>, i: nat) {
    i < |blocks| && BlockOk(blocks[i]) && blocks[i].begin == (if i == 0 then 0 else EndOf(blocks[i - 1])) + HEADER
  }

  lemma UsedTiled(h: Heap, b: nat, used: nat, free: seq<nat>)
    requires Tiled(h) && b < |h.blocks| && Multiple(used) && used <= h.blocks[b].capacity
    ensures Tiled(h.(blocks := h.blocks[b := h.blocks[b].(used := used)], free := free))
  {
    var blocks := h.blocks[b := h.blocks[b].(used := used)];
    forall i | 0 <= i < |blocks| ensures TileOk(blocks, i) {
      assert TileOk(h.blocks, i);
    }
  }

  lemma GrownTiled(h: Heap, capacity: nat)
    requires Tiled(h) && Multiple(capacity) && capacity >= BLOCK_DEFAULT && HEADER + capacity <= h.size - h.arenaUsed
    ensures Tiled(h.(arenaUsed := h.arenaUsed + HEADER + capacity, blocks := h.blocks + [Block(h.arenaUsed + HEADER, capacity, 0)]))
  {
    var blocks := h.blocks + [Block(h.arenaUsed + HEADER, capacity, 0)];
    if h.blocks != [] {
      assert TileOk(h.blocks, |h.blocks| - 1);
      MultipleSum(h.blocks[|h.blocks| - 1].begin, h.blocks[|h.blocks| - 1].capacity);
    }
    MultipleSum(h.arenaUsed, HEADER);
    forall i | 0 <= i < |blocks| ensures TileOk(blocks, i) {
      if i < |h.blocks| { assert TileOk(h.blocks, i); }
    }
  }

  /** Block `b` is free and on no list, or on exactly the list of one pool. */
  ghost predicate OneOwner(h: Heap, lists: seq<seq<nat>>, b: nat) {
    && (b in h.free || exists p :: 0 <= p < |lists| && b in lists[p])
    && (forall p :: 0 <= p < |lists| && b in lists[p] ==> b !in h.free)
    && forall p, q :: 0 <= p < q < |lists| ==> !(b in lists[p] && b in lists[q])
  }

  ghost predicate Owned(h: Heap, lists: seq<seq<nat>>) {
    && FreeInRange(h) && Distinct(h.free)
    && (forall p :: 0 <= p < |lists| ==> ListInRange(h, lists[p]) && Distinct(lists[p]))
    && (forall k :: 0 <= k < |h.free| ==> h.blocks[h.free[k]].used == 0)
    && forall b :: 0 <= b < |h.blocks| ==> OneOwner(h, lists, b)
  }

  ghost predicate HeapInv(h: Heap, lists: seq<seq<nat>>) {
    Tiled(h) && Owned(h, lists)
  }

  lemma AcquireTiled(h: Heap, minimum: nat)
    requires Tiled(h) && FreeInRange(h) && Multiple(minimum)
    ensures Tiled(Acquire(h, minimum).0)
  {
    var fit := FirstFit(h, Capacity(minimum), 0);
    if fit.Some? {
      assert TileOk(h.blocks, h.free[fit.value]);
      UsedTiled(h, h.free[fit.value], 0, h.free[..fit.value] + h.free[fit.value + 1..]);
    } else if Acquire(h, minimum).0 != h {
      GrownTiled(h, Capacity(minimum));
    }
  }

  lemma {:induction false} Apart(h: Heap, i: nat, j: nat)
    requires Tiled(h) && i < j < |h.blocks|
    ensures EndOf(h.blocks[i]) + HEADER <= h.blocks[j].begin
  {
    assert TileOk(h.blocks, j);
    if i < j - 1 {
      assert TileOk(h.blocks, j - 1);
      Apart(h, i, j - 1);
    }
  }

  lemma InArena(h: Heap, b: nat)
    requires Tiled(h) && b < |h.blocks|
    ensures HEADER <= h.blocks[b].begin && EndOf(h.blocks[b]) <= h.arenaUsed
  {
    assert TileOk(h.blocks, b);
    if b < |h.blocks| - 1 { Apart(h, b, |h.blocks| - 1); }
  }

  // ----- ownership -----

  lemma UsedOwned(h: Heap, lists: seq<seq<nat>>, b: nat, used: nat)
    requires Owned(h, lists) && b < |h.blocks| && b !in h.free
    ensures Owned(h.(blocks := h.blocks[b := h.blocks[b].(used := used)]), lists)
  {
    var h' := h.(blocks := h.blocks[b := h.blocks[b].(used := used)]);
    forall x | 0 <= x < |h'.blocks| ensures OneOwner(h', lists, x) {
      assert OneOwner(h, lists, x);
    }
  }

  /** What acquiring block `b` does to the heap. */
  lemma AcquireEffect(h: Heap, lists: seq<seq<nat>>, minimum: nat)
    requires Owned(h, lists) && h.arenaUsed <= h.size <= SIZE_MAX && Acquire(h, minimum).1.Some?
    ensures var (h', b) := (Acquire(h, minimum).0, Acquire(h, minimum).1.value);
            && |h.blocks| <= |h'.blocks| && b < |h'.blocks| && (b < |h.blocks| ==> b in h.free) && |h'.blocks| <= |h.blocks| + 1
            && (forall x :: x in h'.free <==> x in h.free && x != b) && Distinct(h'.free)
            && (|h'.blocks| > |h.blocks| ==> b == |h.blocks|)
            && h'.blocks[b].used == 0 && h'.blocks[b].capacity >= Capacity(minimum)
            && (forall x :: 0 <= x < |h.blocks| && x != b ==> h'.blocks[x] == h.blocks[x])
            && (b < |h.blocks| ==> h'.blocks[b] == h.blocks[b].(used := 0))
  {
    var fit := FirstFit(h, Capacity(minimum), 0);
    if fit.Some? {
      var b := h.free[fit.value];
      var free := h.free[..fit.value] + h.free[fit.value + 1..];
      assert forall x :: x in h.free <==> x == b || x in free;
      assert b !in free;
    } else {
      assert |h.blocks| !in h.free;
    }
  }

  /** The block acquired belongs to nobody until it heads the pool's list. */
  lemma AcquiredOwned(h: Heap, lists: seq<seq<nat>>, p: nat, minimum: nat)
    requires Owned(h, lists) && p < |lists| && h.arenaUsed <= h.size <= SIZE_MAX && Acquire(h, minimum).1.Some?
    ensures var (h', b) := (Acquire(h, minimum).0, Acquire(h, minimum).1.value);
            && Owned(h', lists[p := [b] + lists[p]])
            && b !in h'.free && h'.blocks[b].used == 0 && h'.blocks[b].capacity >= Capacity(minimum)
            && (forall q :: 0 <= q < |lists| ==> b !in lists[q])
            && (forall x :: 0 <= x < |h.blocks| && x != b ==> h'.blocks[x] == h.blocks[x])
            && |h.blocks| <= |h'.blocks|
            && (b < |h.blocks| ==> h'.blocks[b] == h.blocks[b].(used := 0))
  {
    hide Acquire, FirstFit, Capacity;
    AcquireEffect(h, lists, minimum);
    var (h', b) := (Acquire(h, minimum).0, Acquire(h, minimum).1.value);
    forall q | 0 <= q < |lists| ensures b !in lists[q] {
      assert ListInRange(h, lists[q]);
      if b < |h.blocks| { assert OneOwner(h, lists, b); }
    }
    var after := lists[p := [b] + lists[p]];
    forall x | 0 <= x < |h'.blocks| ensures OneOwner(h', after, x) {
      JoinedOwner(h, lists, p, h', b, x);
    }
    forall k | 0 <= k < |h'.free| ensures h'.free[k] < |h'.blocks| && h'.blocks[h'.free[k]].used == 0 {
      assert h'.free[k] in h'.free && h'.free[k] in h.free;
    }
    forall q | 0 <= q < |after| ensures ListInRange(h', after[q]) && Distinct(after[q]) {
      assert ListInRange(h, lists[q]) && Distinct(lists[q]);
    }
  }

  lemma JoinedOwner(h: Heap, lists: seq<seq<nat>>, p: nat, h': Heap, b: nat, x: nat)
    requires p < |lists| && (x != b ==> OneOwner(h, lists, x)) && forall q :: 0 <= q < |lists| ==> b !in lists[q]
    requires forall y :: y in h'.free <==> y in h.free && y != b
    ensures OneOwner(h', lists[p := [b] + lists[p]], x)
  {
    var after := lists[p := [b] + lists[p]];
    assert forall q :: 0 <= q < |lists| ==> (x in after[q] <==> x in lists[q] || (q == p && x == b));
    if x == b {
      assert x in after[p];
    } else if x !in h.free {
      var q :| 0 <= q < |lists| && x in lists[q];
      assert x in after[q];
    }
  }

  lemma ReleaseOneOwned(h: Heap, lists: seq<seq<nat>>, p: nat)
    requires Owned(h, lists) && p < |lists| && lists[p] != []
    ensures var b := lists[p][0];
            Owned(h.(free := [b] + h.free, blocks := h.blocks[b := h.blocks[b].(used := 0)]), lists[p := lists[p][1..]])
  {
    var b := lists[p][0];
    var h' := h.(free := [b] + h.free, blocks := h.blocks[b := h.blocks[b].(used := 0)]);
    var after := lists[p := lists[p][1..]];
    assert OneOwner(h, lists, b) && Distinct(lists[p]) && b !in h.free;
    assert b !in lists[p][1..];
    forall x | 0 <= x < |h'.blocks| ensures OneOwner(h', after, x) {
      assert OneOwner(h, lists, x);
      assert forall q :: 0 <= q < |lists| ==> (x in after[q] <==> x in lists[q] && !(q == p && x == b));
      if x != b && x !in h.free {
        var q :| 0 <= q < |lists| && x in lists[q];
        assert x in after[q];
      }
    }
  }

  /** Releasing a pool gives all its blocks back and leaves every other pool alone. */
  lemma {:induction false} ReleaseInv(h: Heap, lists: seq<seq<nat>>, p: nat)
    requires HeapInv(h, lists) && p < |lists|
    ensures HeapInv(ReleaseList(h, lists[p]), lists[p := []])
    ensures |ReleaseList(h, lists[p]).blocks| == |h.blocks|
    ensures forall x :: 0 <= x < |h.blocks| && x !in lists[p] ==> ReleaseList(h, lists[p]).blocks[x] == h.blocks[x]
    ensures forall x :: 0 <= x < |h.blocks| ==> ReleaseList(h, lists[p]).blocks[x].begin == h.blocks[x].begin
    decreases |lists[p]|
  {
    if lists[p] == [] {
      assert lists[p := []] == lists;
    } else {
      var b := lists[p][0];
      var h' := h.(free := [b] + h.free, blocks := h.blocks[b := h.blocks[b].(used := 0)]);
      var after := lists[p := lists[p][1..]];
      ReleaseOneOwned(h, lists, p);
      UsedTiled(h, b, 0, [b] + h.free);
      assert after[p := []] == lists[p := []] && after[p] == lists[p][1..];
      ReleaseInv(h', after, p);
    }
  }

  /** The free list grows by the pool's blocks in reverse, ahead of what was free before. */
  lemma {:induction false} ReleaseOrder(h: Heap, list: seq<nat>)
    requires ListInRange(h, list)
    ensures ReleaseList(h, list).free == Backwards(list) + h.free
    decreases |list|
  {
    if list != [] {
      var b := list[0];
      ReleaseOrder(h.(free := [b] + h.free, blocks := h.blocks[b := h.blocks[b].(used := 0)]), list[1..]);
    }
  }

  function Backwards(s: seq<nat>): (r: seq<nat>)
    ensures |r| == |s|
  {
    if s == [] then [] else Backwards(s[1..]) + [s[0]]
  }

  // ----- live memory -----

  /** `size` bytes at `at`, given to `pool` out of `block`. */
  datatype Alloc = Alloc(pool: nat, block: nat, at: nat, size: nat)

  ghost predicate LiveOk(h: Heap, lists: seq<seq<nat>>, a: Alloc) {
    && a.pool < |lists| && a.block in lists[a.pool] && a.block < |h.blocks|
    && h.blocks[a.block].begin <= a.at && a.at + a.size <= h.blocks[a.block].begin + h.blocks[a.block].used
    && Multiple(a.at) && a.size > 0
  }

  ghost predicate Clear(a: Alloc, c: Alloc) {
    a.at + a.size <= c.at || c.at + c.size <= a.at
  }

  predicate Holds(a: Alloc, x: nat) {
    a.at <= x < a.at + a.size
  }

  /** The used part of block `b` is made of live memory of pool `p`. */
  ghost predicate Covered(h: Heap, live: set<Alloc>, p: nat, b: nat)
    requires b < |h.blocks|
  {
    forall x :: h.blocks[b].begin <= x < h.blocks[b].begin + h.blocks[b].used ==> HeldBy(live, p, x)
  }

  /** Byte `x` is live memory of pool `p`. */
  ghost predicate HeldBy(live: set<Alloc>, p: nat, x: nat) {
    exists a :: a in live && a.pool == p && Holds(a, x)
  }

  ghost predicate LiveInv(h: Heap, lists: seq<seq<nat>>, live: set<Alloc>) {
    && (forall a :: a in live ==> LiveOk(h, lists, a))
    && (forall a, c :: a in live && c in live && a != c && a.block == c.block ==> Clear(a, c))
    && forall p, b :: 0 <= p < |lists| && b in lists[p] ==> b < |h.blocks| && Covered(h, live, p, b)
  }

  /** Live memory never overlaps, whichever pools it belongs to. */
  lemma LiveDisjoint(h: Heap, lists: seq<seq<nat>>, live: set<Alloc>, a: Alloc, c: Alloc)
    requires HeapInv(h, lists) && LiveInv(h, lists, live) && a in live && c in live && a != c
    ensures Clear(a, c)
  {
    assert LiveOk(h, lists, a) && LiveOk(h, lists, c);
    assert TileOk(h.blocks, a.block) && TileOk(h.blocks, c.block);
    if a.block < c.block {
      Apart(h, a.block, c.block);
    } else if c.block < a.block {
      Apart(h, c.block, a.block);
    }
  }

  // ----- what an allocation keeps -----

  /** A freshly acquired block holds nothing yet. */
  lemma AcquiredLive(h: Heap, lists: seq<seq<nat>>, live: set<Alloc>, p: nat, minimum: nat)
    requires Owned(h, lists) && p < |lists| && h.arenaUsed <= h.size <= SIZE_MAX && Acquire(h, minimum).1.Some?
    requires LiveInv(h, lists, live)
    ensures var (h', b) := (Acquire(h, minimum).0, Acquire(h, minimum).1.value);
            LiveInv(h', lists[p := [b] + lists[p]], live) && forall a :: a in live ==> a.block != b
  {
    AcquiredOwned(h, lists, p, minimum);
    var (h', b) := (Acquire(h, minimum).0, Acquire(h, minimum).1.value);
    var after := lists[p := [b] + lists[p]];
    forall a | a in live ensures LiveOk(h', after, a) && a.block != b {
      assert LiveOk(h, lists, a);
    }
    forall q, x | 0 <= q < |after| && x in after[q] ensures x < |h'.blocks| && Covered(h', live, q, x) {
      if x != b {
        assert x in lists[q];
        assert Covered(h, live, q, x);
      }
    }
  }

  lemma CutInv(h: Heap, lists: seq<seq<nat>>, live: set<Alloc>, p: nat, size: nat)
    requires HeapInv(h, lists) && LiveInv(h, lists, live) && p < |lists| && ListInRange(h, lists[p])
    requires FitsHead(h, lists[p], size) && Multiple(size) && size > 0
    ensures var r := Cut(h, lists[p], size);
            var b := lists[p][0];
            && r.list == lists[p] && r.at == Some(h.blocks[b].begin + h.blocks[b].used) && Multiple(r.at.value)
            && HeapInv(r.heap, lists)
            && Alloc(p, b, r.at.value, size) !in live
            && LiveInv(r.heap, lists, live + {Alloc(p, b, r.at.value, size)})
  {
    var b := lists[p][0];
    assert TileOk(h.blocks, b) && OneOwner(h, lists, b);
    var r := Cut(h, lists[p], size);
    var used := h.blocks[b].used + size;
    InArena(h, b);
    MultipleSum(h.blocks[b].used, size);
    MultipleSum(h.blocks[b].begin, h.blocks[b].used);
    UsedTiled(h, b, used, h.free);
    UsedOwned(h, lists, b, used);
    CutLive(h, lists, live, p, size);
  }

  lemma CutLive(h: Heap, lists: seq<seq<nat>>, live: set<Alloc>, p: nat, size: nat)
    requires LiveInv(h, lists, live) && p < |lists| && lists[p] != [] && lists[p][0] < |h.blocks|
    requires OneOwner(h, lists, lists[p][0]) && size > 0 && Multiple(h.blocks[lists[p][0]].begin + h.blocks[lists[p][0]].used)
    ensures var b := lists[p][0];
            var a0 := Alloc(p, b, h.blocks[b].begin + h.blocks[b].used, size);
            a0 !in live && LiveInv(h.(blocks := h.blocks[b := h.blocks[b].(used := h.blocks[b].used + size)]), lists, live + {a0})
  {
    var b := lists[p][0];
    var a0 := Alloc(p, b, h.blocks[b].begin + h.blocks[b].used, size);
    var h' := h.(blocks := h.blocks[b := h.blocks[b].(used := h.blocks[b].used + size)]);
    var live' := live + {a0};
    assert b in lists[p];
    forall a | a in live' ensures LiveOk(h', lists, a) {
      if a in live { assert LiveOk(h, lists, a); }
    }
    forall a, c | a in live' && c in live' && a != c && a.block == c.block ensures Clear(a, c) {
      if a in live { assert LiveOk(h, lists, a); }
      if c in live { assert LiveOk(h, lists, c); }
    }
    forall q, x | 0 <= q < |lists| && x in lists[q] ensures x < |h'.blocks| && Covered(h', live', q, x) {
      CutCovered(h, lists, live, p, size, q, x);
    }
  }

  lemma CutCovered(h: Heap, lists: seq<seq<nat>>, live: set<Alloc>, p: nat, size: nat, q: nat, x: nat)
    requires LiveInv(h, lists, live) && p < |lists| && lists[p] != [] && lists[p][0] < |h.blocks|
    requires OneOwner(h, lists, lists[p][0]) && q < |lists| && x in lists[q]
    ensures var b := lists[p][0];
            var a0 := Alloc(p, b, h.blocks[b].begin + h.blocks[b].used, size);
            x < |h.blocks| && Covered(h.(blocks := h.blocks[b := h.blocks[b].(used := h.blocks[b].used + size)]), live + {a0}, q, x)
  {
    var b := lists[p][0];
    var a0 := Alloc(p, b, h.blocks[b].begin + h.blocks[b].used, size);
    var h' := h.(blocks := h.blocks[b := h.blocks[b].(used := h.blocks[b].used + size)]);
    var live' := live + {a0};
    assert Covered(h, live, q, x) && b in lists[p];
    if x == b { assert q == p; }
    forall y | h'.blocks[x].begin <= y < h'.blocks[x].begin + h'.blocks[x].used ensures HeldBy(live', q, y) {
      if x == b && y >= h.blocks[b].begin + h.blocks[b].used {
        assert a0 in live' && Holds(a0, y);
      } else {
        assert HeldBy(live, q, y);
        var a :| a in live && a.pool == q && Holds(a, y);
        assert a in live';
      }
    }
  }

  /** The new allocation, as it is recorded. */
  ghost function Given(p: nat, r: Allocation, requested: nat): Alloc
    requires r.at.Some? && r.list != []
  {
    Alloc(p, r.list[0], r.at.value, Padded(requested))
  }

  /**
   An allocation keeps the arena tiled and every block owned once; the memory it gives is
   aligned, large enough and disjoint from all live memory; one that fails changes nothing.
   */
  lemma AllocateInv(h: Heap, lists: seq<seq<nat>>, live: set<Alloc>, p: nat, requested: nat)
    requires HeapInv(h, lists) && LiveInv(h, lists, live) && p < |lists|
    ensures ListInRange(h, lists[p])
    ensures var r := Allocate(h, lists[p], requested);
            && HeapInv(r.heap, lists[p := r.list])
            && (r.at.None? ==> r.heap == h && r.list == lists[p])
            && (r.at.Some? ==>
                  && r.list != [] && Multiple(r.at.value) && requested <= Padded(requested)
                  && Given(p, r, requested) !in live
                  && LiveInv(r.heap, lists[p := r.list], live + {Given(p, r, requested)}))
  {
    var size := Padded(requested);
    var r := Allocate(h, lists[p], requested);
    if size == 0 {
      assert lists[p := lists[p]] == lists;
    } else if FitsHead(h, lists[p], size) {
      CutInv(h, lists, live, p, size);
      assert lists[p := lists[p]] == lists;
    } else {
      var (h', b) := Acquire(h, size);
      if b.None? {
        assert lists[p := lists[p]] == lists;
      } else {
        var after := lists[p := [b.value] + lists[p]];
        AcquiredOwned(h, lists, p, size);
        AcquireTiled(h, size);
        AcquiredLive(h, lists, live, p, size);
        CutInv(h', after, live, p, size);
      }
    }
  }

  /**
   Where the memory comes from: the head block of the pool when it has room, else the first
   free block that is large enough, else a new block at the end of the arena.
   */
  lemma AllocateChoice(h: Heap, lists: seq<seq<nat>>, p: nat, requested: nat)
    requires HeapInv(h, lists) && p < |lists| && requested <= SIZE_MAX - 7
    ensures ListInRange(h, lists[p])
    ensures var (list, r) := (lists[p], Allocate(h, lists[p], requested));
            var size := ((if requested == 0 then 1 else requested) + 7) / 8 * 8;
            var need := if size < 4096 then 4096 else size;
            if list != [] && size <= h.blocks[list[0]].capacity - h.blocks[list[0]].used then
              var b := h.blocks[list[0]];
              r == Allocation(h.(blocks := h.blocks[list[0] := b.(used := b.used + size)]), list, Some(b.begin + b.used))
            else
              && (forall k :: 0 <= k < |h.free| && h.blocks[h.free[k]].capacity >= need
                              && (forall j :: 0 <= j < k ==> h.blocks[h.free[j]].capacity < need) ==>
                    r == Allocation(h.(free := h.free[..k] + h.free[k + 1..],
                                       blocks := h.blocks[h.free[k] := h.blocks[h.free[k]].(used := size)]),
                                    [h.free[k]] + list, Some(h.blocks[h.free[k]].begin)))
              && ((forall k :: 0 <= k < |h.free| ==> h.blocks[h.free[k]].capacity < need) ==>
                    r == if 32 + need <= h.size - h.arenaUsed
                         then Allocation(h.(arenaUsed := h.arenaUsed + 32 + need,
                                            blocks := h.blocks + [Block(h.arenaUsed + 32, need, size)]),
                                         [|h.blocks|] + list, Some(h.arenaUsed + 32))
                         else Allocation(h, list, None))
  {
    hide Owned, Tiled, Allocate, AlignUp, Cut, Acquire, FirstFit;
    var (list, size) := (lists[p], Padded(requested));
    ChoiceParts(h, lists, p, requested);
    if FitsHead(h, list, size) {
      HeadChoice(h, list, requested);
    } else {
      FitIs(h, Capacity(size));
      var fit := FirstFit(h, Capacity(size), 0);
      if fit.Some? { FreeChoice(h, list, requested, fit.value); } else { ArenaChoice(h, list, requested); }
    }
  }

  lemma FitIs(h: Heap, need: nat)
    requires FreeInRange(h)
    ensures forall k :: 0 <= k < |h.free| && h.blocks[h.free[k]].capacity >= need && (forall j :: 0 <= j < k ==> h.blocks[h.free[j]].capacity < need)
              ==> FirstFit(h, need, 0) == Some(k)
    ensures (forall k :: 0 <= k < |h.free| ==> h.blocks[h.free[k]].capacity < need) ==> FirstFit(h, need, 0) == None
    ensures FirstFit(h, need, 0) == None ==> forall k :: 0 <= k < |h.free| ==> h.blocks[h.free[k]].capacity < need
  {
  }

  lemma ChoiceParts(h: Heap, lists: seq<seq<nat>>, p: nat, requested: nat)
    requires HeapInv(h, lists) && p < |lists| && requested <= SIZE_MAX - 7
    ensures ListInRange(h, lists[p]) && FreeInRange(h) && h.arenaUsed <= h.size <= SIZE_MAX
    ensures lists[p] != [] ==> Multiple(h.blocks[lists[p][0]].used) && h.blocks[lists[p][0]].used <= SIZE_MAX - 7
    ensures Padded(requested) == ((if requested == 0 then 1 else requested) + 7) / 8 * 8
  {
    if lists[p] != [] {
      InArena(h, lists[p][0]);
      assert TileOk(h.blocks, lists[p][0]);
    }
  }

  lemma HeadChoice(h: Heap, list: seq<nat>, requested: nat)
    requires FreeInRange(h) && ListInRange(h, list) && h.arenaUsed <= h.size <= SIZE_MAX && requested <= SIZE_MAX - 7
    requires FitsHead(h, list, Padded(requested)) && Multiple(h.blocks[list[0]].used) && h.blocks[list[0]].used <= SIZE_MAX - 7
    ensures var (b, size) := (h.blocks[list[0]], Padded(requested));
            Allocate(h, list, requested) == Allocation(h.(blocks := h.blocks[list[0] := b.(used := b.used + size)]), list, Some(b.begin + b.used))
  {
  }

  lemma FreeChoice(h: Heap, list: seq<nat>, requested: nat, fit: nat)
    requires FreeInRange(h) && ListInRange(h, list) && h.arenaUsed <= h.size <= SIZE_MAX && requested <= SIZE_MAX - 7
    requires !FitsHead(h, list, Padded(requested)) && FirstFit(h, Capacity(Padded(requested)), 0) == Some(fit)
    ensures var (size, b) := (Padded(requested), h.free[fit]);
            Allocate(h, list, requested)
            == Allocation(h.(free := h.free[..fit] + h.free[fit + 1..], blocks := h.blocks[b := h.blocks[b].(used := size)]),
                          [b] + list, Some(h.blocks[b].begin))
  {
    hide Cut, AlignUp, Padded, FirstFit;
    PaddedPositive(requested);
    var (b, size) := (h.free[fit], Padded(requested));
    var h' := h.(free := h.free[..fit] + h.free[fit + 1..], blocks := h.blocks[b := h.blocks[b].(used := 0)]);
    FreshCut(h', b, list, size);
    assert h'.blocks[b := h'.blocks[b].(used := size)] == h.blocks[b := h.blocks[b].(used := size)];
  }

  lemma ArenaChoice(h: Heap, list: seq<nat>, requested: nat)
    requires FreeInRange(h) && ListInRange(h, list) && h.arenaUsed <= h.size <= SIZE_MAX && requested <= SIZE_MAX - 7
    requires !FitsHead(h, list, Padded(requested)) && FirstFit(h, Capacity(Padded(requested)), 0) == None
    ensures var (size, need) := (Padded(requested), Capacity(Padded(requested)));
            Allocate(h, list, requested)
            == if HEADER + need <= h.size - h.arenaUsed then
                 Allocation(h.(arenaUsed := h.arenaUsed + HEADER + need, blocks := h.blocks + [Block(h.arenaUsed + HEADER, need, size)]),
                            [|h.blocks|] + list, Some(h.arenaUsed + HEADER))
               else Allocation(h, list, None)
  {
    hide Cut, Padded, FirstFit, Acquire, Capacity, Allocate, FitsHead;
    var size := Padded(requested);
    ArenaAcquire(h, size);
    PastHead(h, list, requested);
    if Acquire(h, size).1.Some? {
      FreshCut(Acquire(h, size).0, |h.blocks|, list, size);
    }
  }

  lemma PastHead(h: Heap, list: seq<nat>, requested: nat)
    requires FreeInRange(h) && ListInRange(h, list) && h.arenaUsed <= h.size <= SIZE_MAX && requested <= SIZE_MAX - 7
    requires !FitsHead(h, list, Padded(requested))
    ensures var (h', b) := Acquire(h, Padded(requested));
            Allocate(h, list, requested) == if b.None? then Allocation(h, list, None) else Cut(h', [b.value] + list, Padded(requested))
  {
    hide Cut, Padded, Acquire, FitsHead;
    PaddedPositive(requested);
  }

  lemma ArenaAcquire(h: Heap, size: nat)
    requires FreeInRange(h) && h.arenaUsed <= h.size <= SIZE_MAX && FirstFit(h, Capacity(size), 0) == None
    ensures var (need, n) := (Capacity(size), |h.blocks|);
            if HEADER + need <= h.size - h.arenaUsed then
              && Acquire(h, size).1 == Some(n)
              && var h' := Acquire(h, size).0;
                 && h' == h.(arenaUsed := h.arenaUsed + HEADER + need, blocks := h.blocks + [Block(h.arenaUsed + HEADER, need, 0)])
                 && need >= size && |h'.blocks| == n + 1 && h'.blocks[n] == Block(h.arenaUsed + HEADER, need, 0)
                 && h'.blocks[n := h'.blocks[n].(used := size)] == h.blocks + [Block(h.arenaUsed + HEADER, need, size)]
            else Acquire(h, size).1.None?
  {
    hide FirstFit;
  }

  lemma PaddedPositive(requested: nat)
    requires requested <= SIZE_MAX - 7
    ensures Padded(requested) > 0
  {
  }

  /** A block without memory in use, cut at its beginning. */
  lemma FreshCut(h: Heap, b: nat, list: seq<nat>, size: nat)
    requires b < |h.blocks| && h.blocks[b].used == 0 && size <= h.blocks[b].capacity
    ensures Cut(h, [b] + list, size) == Allocation(h.(blocks := h.blocks[b := h.blocks[b].(used := size)]), [b] + list, Some(h.blocks[b].begin))
  {
  }

  /** An allocation fails exactly when the size wraps, or neither the head block, nor a free block, nor the arena has room. */
  lemma AllocateFailsIff(h: Heap, lists: seq<seq<nat>>, live: set<Alloc>, p: nat, requested: nat)
    requires HeapInv(h, lists) && LiveInv(h, lists, live) && p < |lists| && ListInRange(h, lists[p])
    ensures var size := Padded(requested);
            Allocate(h, lists[p], requested).at.None? <==>
              || requested > SIZE_MAX - 7
              || (&& !FitsHead(h, lists[p], size)
                  && (forall k :: 0 <= k < |h.free| ==> h.blocks[h.free[k]].capacity < Capacity(size))
                  && HEADER + Capacity(size) > h.size - h.arenaUsed)
  {
    var size := Padded(requested);
    AllocateInv(h, lists, live, p, requested);
    if size > 0 && FitsHead(h, lists[p], size) {
      CutInv(h, lists, live, p, size);
    } else if size > 0 && Acquire(h, size).1.Some? {
      var (h', b) := (Acquire(h, size).0, Acquire(h, size).1.value);
      AcquiredOwned(h, lists, p, size);
      AcquireTiled(h, size);
      AcquiredLive(h, lists, live, p, size);
      CutInv(h', lists[p := [b] + lists[p]], live, p, size);
    }
  }

  // ----- releasing a pool -----

  function Without(live: set<Alloc>, p: nat): set<Alloc> {
    set a | a in live && a.pool != p
  }

  lemma ReleaseLive(h: Heap, lists: seq<seq<nat>>, live: set<Alloc>, p: nat)
    requires HeapInv(h, lists) && LiveInv(h, lists, live) && p < |lists|
    ensures ListInRange(h, lists[p]) && LiveInv(ReleaseList(h, lists[p]), lists[p := []], Without(live, p))
  {
    ReleaseInv(h, lists, p);
    var h' := ReleaseList(h, lists[p]);
    var after, live' := lists[p := []], Without(live, p);
    forall a | a in live' ensures LiveOk(h', after, a) {
      assert LiveOk(h, lists, a) && OneOwner(h, lists, a.block);
      assert a.block !in lists[p];
    }
    forall q, x | 0 <= q < |after| && x in after[q] ensures x < |h'.blocks| && Covered(h', live', q, x) {
      assert Covered(h, live, q, x) && OneOwner(h, lists, x) && x !in lists[p];
      forall y | h'.blocks[x].begin <= y < h'.blocks[x].begin + h'.blocks[x].used ensures HeldBy(live', q, y) {
        assert HeldBy(live, q, y);
        var a :| a in live && a.pool == q && Holds(a, y);
        assert a in live';
      }
    }
  }

  // ----- apr_pool_find -----

  predicate InBlock(h: Heap, b: nat, x: nat) {
    b < |h.blocks| && h.blocks[b].begin <= x < h.blocks[b].begin + h.blocks[b].used
  }

  predicate InList(h: Heap, list: seq<nat>, x: nat) {
    exists k :: 0 <= k < |list| && InBlock(h, list[k], x)
  }

  /** First pool, in table order, with a block whose used part contains the address. */
  function FindPool(h: Heap, lists: seq<seq<nat>>, x: nat, from: nat): (r: Option<nat>)
    requires from <= |lists|
    ensures r.Some? ==> from <= r.value < |lists| && InList(h, lists[r.value], x)
    ensures r.None? ==> forall p :: from <= p < |lists| ==> !InList(h, lists[p], x)
    decreases |lists| - from
  {
    if from == |lists| then None else if InList(h, lists[from], x) then Some(from) else FindPool(h, lists, x, from + 1)
  }

  lemma FoundIsHeld(h: Heap, lists: seq<seq<nat>>, live: set<Alloc>, x: nat, p: nat)
    requires LiveInv(h, lists, live) && p < |lists| && InList(h, lists[p], x)
    ensures HeldBy(live, p, x)
  {
    var k :| 0 <= k < |lists[p]| && InBlock(h, lists[p][k], x);
    assert lists[p][k] in lists[p];
    assert Covered(h, live, p, lists[p][k]);
  }

  lemma HeldIsFound(h: Heap, lists: seq<seq<nat>>, live: set<Alloc>, x: nat, p: nat)
    requires LiveInv(h, lists, live) && HeldBy(live, p, x)
    ensures p < |lists| && InList(h, lists[p], x)
  {
    var a :| a in live && a.pool == p && Holds(a, x);
    assert LiveOk(h, lists, a);
    var k :| 0 <= k < |lists[p]| && lists[p][k] == a.block;
    assert InBlock(h, lists[p][k], x);
  }

  lemma OneHolder(h: Heap, lists: seq<seq<nat>>, live: set<Alloc>, x: nat, p: nat, q: nat)
    requires HeapInv(h, lists) && LiveInv(h, lists, live) && HeldBy(live, p, x) && HeldBy(live, q, x)
    ensures p == q
  {
    var a :| a in live && a.pool == p && Holds(a, x);
    var c :| c in live && c.pool == q && Holds(c, x);
    if a != c { LiveDisjoint(h, lists, live, a, c); }
  }

  /** apr_pool_find names pool `p` for exactly the bytes of the live memory of `p`. */
  lemma FindIsExact(h: Heap, lists: seq<seq<nat>>, live: set<Alloc>, x: nat, p: nat)
    requires HeapInv(h, lists) && LiveInv(h, lists, live)
    ensures FindPool(h, lists, x, 0) == Some(p) <==> HeldBy(live, p, x)
  {
    var r := FindPool(h, lists, x, 0);
    if r.Some? { FoundIsHeld(h, lists, live, x, r.value); }
    if HeldBy(live, p, x) {
      HeldIsFound(h, lists, live, x, p);
      if r.Some? { OneHolder(h, lists, live, x, p, r.value); }
    }
  }
}
