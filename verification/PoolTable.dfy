/** The pool table updated in place: clearing and destroying, recursively (lib/apex_apr/src/apr_pools.c). */
module PoolTable {
  import opened Common
  import opened PoolForest
  import opened PoolLinks
  import opened PoolHeap

  ghost predicate BlocksInRange(h: Heap, cs: seq<Control>) {
    forall i :: 0 <= i < |cs| ==> ListInRange(h, cs[i].blocks)
  }

  /** The heap once the children `ts`, first to last, have been destroyed. */
  function ReleaseKids(h: Heap, cs: seq<Control>, ts: Trees): (r: Heap)
    ensures |r.blocks| == |h.blocks|
    decreases ts
  {
    if ts.Nil? then h else ReleaseKids(ReleaseTree(h, cs, ts.head), cs, ts.tail)
  }

  /** The heap once `t` has been cleared: the blocks of the children, then its own. */
  function ReleaseTree(h: Heap, cs: seq<Control>, t: Tree): (r: Heap)
    ensures |r.blocks| == |h.blocks|
    decreases t
  {
    var below := ReleaseKids(h, cs, t.kids);
    if t.pool < |cs| && ListInRange(below, cs[t.pool].blocks) then ReleaseList(below, cs[t.pool].blocks) else below
  }

  lemma {:induction false} ReleaseKidsFrame(h: Heap, cs: seq<Control>, cs': seq<Control>, ts: Trees)
    requires |cs| == |cs'| && forall i :: i in PoolsAll(ts) && i < |cs| ==> cs[i].blocks == cs'[i].blocks
    ensures ReleaseKids(h, cs, ts) == ReleaseKids(h, cs', ts)
    decreases ts
  {
    if ts.Cons? {
      ReleaseTreeFrame(h, cs, cs', ts.head);
      ReleaseKidsFrame(ReleaseTree(h, cs, ts.head), cs, cs', ts.tail);
    }
  }

  lemma {:induction false} ReleaseTreeFrame(h: Heap, cs: seq<Control>, cs': seq<Control>, t: Tree)
    requires |cs| == |cs'| && forall i :: i in Pools(t) && i < |cs| ==> cs[i].blocks == cs'[i].blocks
    ensures ReleaseTree(h, cs, t) == ReleaseTree(h, cs', t)
    decreases t
  {
    ReleaseKidsFrame(h, cs, cs', t.kids);
  }

  /** Destroying the first child left is one step of the clearing. */
  lemma DestroyStep(cs: seq<Control>, t: Tree, left: Trees, parent: int, next: int)
    requires Rep(cs, t, parent, next) && Unique(t) && left.Cons?
    requires RepAll(cs, left, t.pool) && UniqueAll(left) && PoolsAll(left) <= PoolsAll(t.kids)
    ensures left.head.pool < |cs|
    ensures Destroyed(Clearing(cs, t, left), left.head, left) == Clearing(cs, t, left.tail)
  {
    var now := Clearing(cs, t, left);
    var c := left.head.pool;
    assert c in PoolsAll(left) && c != t.pool && now[c] == cs[c];
    assert Prior(left, c) == NULL;
    var after, want := Destroyed(now, left.head, left), Clearing(cs, t, left.tail);
    forall i | 0 <= i < |cs| ensures after[i] == want[i] {
      if i == t.pool {
      } else if i in Pools(left.head) {
      } else {
      }
    }
  }

  /** The first child left meets what its destruction asks for. */
  lemma FirstChildReady(cs: seq<Control>, t: Tree, left: Trees, parent: int, next: int)
    requires Rep(cs, t, parent, next) && Unique(t) && left.Cons?
    requires RepAll(cs, left, t.pool) && UniqueAll(left) && PoolsAll(left) <= PoolsAll(t.kids)
    ensures var now, c := Clearing(cs, t, left), left.head.pool;
            && c < |cs| && Rep(now, left.head, now[c].parent, now[c].nextSibling) && now[c].parent == t.pool
            && Linked(now, c, left) && Beside(left.head, t.pool, left)
            && (forall i :: i in Pools(left.head) && i < |cs| ==> now[i].blocks == cs[i].blocks)
  {
    var now := Clearing(cs, t, left);
    RepAllFrame(cs, now, left, t.pool);
    RepChain(now, left, t.pool);
    OthersNotBelow(left.head, left.tail);
  }

  lemma ClearingStarts(cs: seq<Control>, t: Tree, parent: int, next: int)
    requires Rep(cs, t, parent, next) && Unique(t)
    ensures cs[t.pool := WithList(cs[t.pool], true, [])] == Clearing(cs, t, t.kids)
    ensures t.pool !in PoolsAll(t.kids) && ListOf(cs[t.pool], true) == t.pre && RepAll(cs, t.kids, t.pool) && UniqueAll(t.kids)
  {
  }

  /** The pool being cleared still shows its remaining children, its cleanups and its blocks. */
  lemma ClearingKeeps(h0: Heap, h: Heap, cs: seq<Control>, t: Tree, left: Trees)
    requires t.pool < |cs| && t.pool !in PoolsAll(t.kids) && PoolsAll(left) <= PoolsAll(t.kids)
    requires |h.blocks| == |h0.blocks| && BlocksInRange(h0, cs)
    ensures var now := Clearing(cs, t, left);
            && now[t.pool] == cs[t.pool].(firstChild := HeadOf(left), preCleanups := []) && BlocksInRange(h, now)
  {
    var now := Clearing(cs, t, left);
    forall i | 0 <= i < |cs| ensures ListInRange(h, now[i].blocks) {
      assert ListInRange(h0, cs[i].blocks);
    }
  }

  lemma KidsUnfold(h: Heap, cs: seq<Control>, left: Trees, parent: int)
    requires left.Cons? && RepAll(cs, left, parent) && UniqueAll(left)
    ensures RepAll(cs, left.tail, parent) && UniqueAll(left.tail) && Unique(left.head)
    ensures PoolsAll(left.tail) <= PoolsAll(left) && TraceAll(left) == Trace(left.head) + TraceAll(left.tail)
    ensures ReleaseKids(h, cs, left) == ReleaseKids(ReleaseTree(h, cs, left.head), cs, left.tail)
  {
  }

  lemma ClearingEnds(cs: seq<Control>, t: Tree, left: Trees, parent: int, next: int)
    requires Rep(cs, t, parent, next) && Unique(t) && HeadOf(left) == NULL
    ensures var now := Clearing(cs, t, left);
            && now[t.pool := WithList(now[t.pool], false, []).(blocks := [])] == Cleared(cs, t)
            && now[t.pool].blocks == cs[t.pool].blocks && ListOf(now[t.pool], false) == t.cleanups
    ensures Trace(t) == Calls(t.pre) + TraceAll(t.kids) + Calls(t.cleanups) && TraceAll(left) == []
  {
    var now := Clearing(cs, t, left);
    var after := now[t.pool := WithList(now[t.pool], false, []).(blocks := [])];
    forall i | 0 <= i < |cs| ensures after[i] == Cleared(cs, t)[i] {
    }
  }

  lemma HeapEnds(h0: Heap, h: Heap, cs: seq<Control>, t: Tree, left: Trees)
    requires t.pool < |cs| && HeadOf(left) == NULL && BlocksInRange(h0, cs) && |h.blocks| == |h0.blocks|
    requires ReleaseKids(h, cs, left) == ReleaseKids(h0, cs, t.kids)
    ensures ListInRange(h, cs[t.pool].blocks) && ReleaseTree(h0, cs, t) == ReleaseList(h, cs[t.pool].blocks)
  {
    assert ListInRange(h0, cs[t.pool].blocks);
  }

  function ListOf(c: Control, preCleanup: bool): seq<Cleanup> {
    if preCleanup then c.preCleanups else c.cleanups
  }

  function WithList(c: Control, preCleanup: bool, list: seq<Cleanup>): Control {
    if preCleanup then c.(preCleanups := list) else c.(cleanups := list)
  }

  class Table {
    const controls: array<Control>
    var heap: Heap

    constructor (capacity: nat, size: nat)
      ensures fresh(controls) && controls.Length == capacity && heap == Heap(size, 0, [], [])
      ensures forall i :: 0 <= i < capacity ==> controls[i] == ZERO
    {
      controls := new Control[capacity](_ => ZERO);
      heap := Heap(size, 0, [], []);
    }

    /** apex_apr_pool_run_cleanups: takes the newest cleanup off its list until none is left, calling each. */
    method RunCleanups(p: nat, preCleanup: bool) returns (calls: seq<Call>)
      requires p < controls.Length
      modifies controls
      ensures calls == Calls(ListOf(old(controls[p]), preCleanup))
      ensures controls[..] == old(controls[..])[p := WithList(old(controls[p]), preCleanup, [])]
      ensures var (was, list) := (old(controls[p]), if preCleanup then old(controls[p]).preCleanups else old(controls[p]).cleanups);
              && |calls| == |list| && (forall k :: 0 <= k < |list| ==> calls[k] == Call(list[k].plain, list[k].data))
              && controls[p] == if preCleanup then was.(preCleanups := []) else was.(cleanups := [])
    {
      calls := [];
      ghost var was := old(controls[..]);
      ghost var all := ListOf(was[p], preCleanup);
      while ListOf(controls[p], preCleanup) != []
        invariant |calls| <= |all| && calls == Calls(all)[..|calls|]
        invariant controls[..] == was[p := WithList(was[p], preCleanup, all[|calls|..])]
        decreases |all| - |calls|
      {
        var list := ListOf(controls[p], preCleanup);
        var cleanup := list[0];
        controls[p] := WithList(controls[p], preCleanup, list[1..]);
        calls := calls + [Call(cleanup.plain, cleanup.data)];
      }
    }

    /** apex_apr_pool_blocks_release_unlocked */
    method ReleaseBlocks(p: nat)
      requires p < controls.Length && ListInRange(heap, controls[p].blocks)
      modifies this`heap, controls
      ensures heap == ReleaseList(old(heap), old(controls[p].blocks))
      ensures controls[..] == old(controls[..])[p := old(controls[p]).(blocks := [])]
    {
      ghost var was, c := controls[..], controls[p];
      while controls[p].blocks != []
        invariant controls[..] == was[p := c.(blocks := controls[p].blocks)]
        invariant ListInRange(heap, controls[p].blocks)
        invariant ReleaseList(heap, controls[p].blocks) == ReleaseList(old(heap), c.blocks)
        decreases |controls[p].blocks|
      {
        var block, next := controls[p].blocks[0], controls[p].blocks[1..];
        heap := heap.(free := [block] + heap.free, blocks := heap.blocks[block := heap.blocks[block].(used := 0)]);
        controls[p] := controls[p].(blocks := next);
      }
    }

    /** apex_apr_pool_detach_unlocked: walks the children of the parent and closes the chain over the pool. */
    method Detach(p: nat, ghost siblings: Trees)
      requires p < controls.Length && Linked(controls[..], p, siblings)
      modifies controls
      ensures var was := old(controls[..]);
              controls[..] == if was[p].parent == NULL then was
                              else var cut := Unlinked(was, p, siblings); cut[p := cut[p].(parent := NULL, nextSibling := NULL)]
    {
      var parent := controls[p].parent;
      if parent == NULL {
        return;
      }
      var before, current := NULL, controls[parent].firstChild;
      ghost var rest := siblings;
      while current != NULL
        invariant controls[..] == old(controls[..])
        invariant current == HeadOf(rest) && Chain(controls[..], rest) && IsRoot(rest, p)
        invariant Prior(siblings, p) == if rest.head.pool == p then before else Prior(rest, p)
        invariant before == NULL || (0 <= before < controls.Length)
        decreases rest
      {
        if current == p {
          if before == NULL {
            controls[parent] := controls[parent].(firstChild := controls[p].nextSibling);
          } else {
            controls[before] := controls[before].(nextSibling := controls[p].nextSibling);
          }
          break;
        }
        before := current;
        current := controls[current].nextSibling;
        rest := rest.tail;
      }
      controls[p] := controls[p].(parent := NULL, nextSibling := NULL);
    }

    /** apex_apr_pool_control_clear. `t` is what the links below the pool stand for. */
    method ControlClear(p: nat, ghost t: Tree) returns (trace: seq<Call>)
      requires p < controls.Length && t.pool == p && Unique(t) && BlocksInRange(heap, controls[..])
      requires Rep(controls[..], t, controls[p].parent, controls[p].nextSibling)
      modifies this`heap, controls
      ensures controls[..] == Cleared(old(controls[..]), t)
      ensures heap == ReleaseTree(old(heap), old(controls[..]), t)
      ensures trace == Trace(t)
      decreases t, 0
    {
      hide Clearing, Cleared, Destroyed, Trace, TraceAll, Calls, Rep, RepAll, Unique, UniqueAll, BlocksInRange, Chain, Linked, Beside,
        ReleaseTree, ReleaseKids, ReleaseList, PoolsAll;
      ghost var was, h0, left := controls[..], heap, t.kids;
      ClearingStarts(was, t, was[p].parent, was[p].nextSibling);
      trace := RunCleanups(p, true);
      while controls[p].firstChild != NULL
        invariant controls[..] == Clearing(was, t, left)
        invariant RepAll(was, left, p) && UniqueAll(left) && PoolsAll(left) <= PoolsAll(t.kids) && left < t
        invariant |heap.blocks| == |h0.blocks| && BlocksInRange(h0, was)
        invariant ReleaseKids(heap, was, left) == ReleaseKids(h0, was, t.kids)
        invariant trace + TraceAll(left) == Calls(t.pre) + TraceAll(t.kids)
        decreases left
      {
        ClearingKeeps(h0, heap, was, t, left);
        FirstChildReady(was, t, left, was[p].parent, was[p].nextSibling);
        DestroyStep(was, t, left, was[p].parent, was[p].nextSibling);
        ReleaseTreeFrame(heap, was, controls[..], left.head);
        KidsUnfold(heap, was, left, p);
        Concat(trace, Trace(left.head), TraceAll(left.tail));
        var calls := ControlDestroy(controls[p].firstChild, left.head, left);
        trace := trace + calls;
        left := left.tail;
      }
      ClearingKeeps(h0, heap, was, t, left);
      ClearingEnds(was, t, left, was[p].parent, was[p].nextSibling);
      HeapEnds(h0, heap, was, t, left);
      assert trace + [] == trace;
      var calls := RunCleanups(p, false);
      trace := trace + calls;
      ReleaseBlocks(p);
    }

    /** apex_apr_pool_control_destroy */
    method ControlDestroy(p: nat, ghost t: Tree, ghost siblings: Trees) returns (trace: seq<Call>)
      requires p < controls.Length && t.pool == p && Unique(t) && BlocksInRange(heap, controls[..])
      requires Rep(controls[..], t, controls[p].parent, controls[p].nextSibling)
      requires Linked(controls[..], p, siblings) && (controls[p].parent != NULL ==> Beside(t, controls[p].parent, siblings))
      modifies this`heap, controls
      ensures controls[..] == Destroyed(old(controls[..]), t, siblings)
      ensures heap == ReleaseTree(old(heap), old(controls[..]), t)
      ensures trace == Trace(t)
      decreases t, 1
    {
      ghost var was := controls[..];
      trace := ControlClear(p, t);
      ClearedLinked(was, t, siblings);
      Detach(p, siblings);
      controls[p] := ZERO;
    }
  }
}
