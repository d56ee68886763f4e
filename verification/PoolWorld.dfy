/** Forest and arena together: what creating, clearing and destroying pools keeps. */
module PoolWorld {
  import opened Common
  import opened PoolForest
  import opened PoolLinks
  import opened PoolUpdates
  import opened PoolHeap
  import opened PoolTable

  function Lists(cs: seq<Control>): (r: seq<seq<nat>>)
    ensures |r| == |cs| && forall i :: 0 <= i < |cs| ==> r[i] == cs[i].blocks
  {
    seq(|cs|, i requires 0 <= i < |cs| => cs[i].blocks)
  }

  // ----- the blocks of a whole tree -----

  function EmptyLists(lists: seq<seq<nat>>, gone: set<nat>): (r: seq<seq<nat>>)
    ensures |r| == |lists| && forall i :: 0 <= i < |lists| ==> r[i] == if i in gone then [] else lists[i]
  {
    seq(|lists|, i requires 0 <= i < |lists| => if i in gone then [] else lists[i])
  }

  function LiveOutside(live: set<Alloc>, gone: set<nat>): set<Alloc> {
    set a | a in live && a.pool !in gone
  }

  lemma EmptyTwice(lists: seq<seq<nat>>, a: set<nat>, b: set<nat>, live: set<Alloc>)
    ensures EmptyLists(EmptyLists(lists, a), b) == EmptyLists(lists, a + b)
    ensures LiveOutside(LiveOutside(live, a), b) == LiveOutside(live, a + b)
  {
  }

  lemma EmptyNone(lists: seq<seq<nat>>, live: set<Alloc>)
    ensures EmptyLists(lists, {}) == lists && LiveOutside(live, {}) == live
  {
  }

  lemma EmptyOne(lists: seq<seq<nat>>, p: nat, live: set<Alloc>)
    requires p < |lists|
    ensures EmptyLists(lists, {p}) == lists[p := []] && LiveOutside(live, {p}) == Without(live, p)
  {
  }

  /** The block lists are those of the table, for the pools in `some`. */
  ghost predicate Match(lists: seq<seq<nat>>, cs: seq<Control>, some: set<nat>) {
    |lists| == |cs| && forall i :: i in some ==> i < |cs| && lists[i] == cs[i].blocks
  }

  lemma MatchPart(lists: seq<seq<nat>>, cs: seq<Control>, some: set<nat>, part: set<nat>)
    requires Match(lists, cs, some) && part <= some
    ensures Match(lists, cs, part)
  {
  }

  /** Clearing a tree returns all blocks of all its pools, and ends exactly their live memory. */
  lemma {:induction false} ReleaseTreeInv(h: Heap, lists: seq<seq<nat>>, live: set<Alloc>, cs: seq<Control>, t: Tree)
    requires HeapInv(h, lists) && LiveInv(h, lists, live) && Unique(t)
    requires Match(lists, cs, Pools(t))
    ensures HeapInv(ReleaseTree(h, cs, t), EmptyLists(lists, Pools(t)))
    ensures LiveInv(ReleaseTree(h, cs, t), EmptyLists(lists, Pools(t)), LiveOutside(live, Pools(t)))
    decreases t
  {
    MatchPart(lists, cs, Pools(t), PoolsAll(t.kids));
    ReleaseKidsInv(h, lists, live, cs, t.kids);
    var below, lists1, live1 := ReleaseKids(h, cs, t.kids), EmptyLists(lists, PoolsAll(t.kids)), LiveOutside(live, PoolsAll(t.kids));
    assert lists1[t.pool] == cs[t.pool].blocks;
    ReleaseInv(below, lists1, t.pool);
    ReleaseLive(below, lists1, live1, t.pool);
    EmptyOne(lists1, t.pool, live1);
    EmptyTwice(lists, PoolsAll(t.kids), {t.pool}, live);
    assert PoolsAll(t.kids) + {t.pool} == Pools(t);
  }

  lemma {:induction false} ReleaseKidsInv(h: Heap, lists: seq<seq<nat>>, live: set<Alloc>, cs: seq<Control>, ts: Trees)
    requires HeapInv(h, lists) && LiveInv(h, lists, live) && UniqueAll(ts)
    requires Match(lists, cs, PoolsAll(ts))
    ensures HeapInv(ReleaseKids(h, cs, ts), EmptyLists(lists, PoolsAll(ts)))
    ensures LiveInv(ReleaseKids(h, cs, ts), EmptyLists(lists, PoolsAll(ts)), LiveOutside(live, PoolsAll(ts)))
    decreases ts
  {
    if ts.Nil? {
      EmptyNone(lists, live);
    } else {
      MatchPart(lists, cs, PoolsAll(ts), Pools(ts.head));
      MatchPart(lists, cs, PoolsAll(ts), PoolsAll(ts.tail));
      ReleaseTreeInv(h, lists, live, cs, ts.head);
      ReleaseKidsInv(ReleaseTree(h, cs, ts.head), EmptyLists(lists, Pools(ts.head)), LiveOutside(live, Pools(ts.head)), cs, ts.tail);
      EmptyTwice(lists, Pools(ts.head), PoolsAll(ts.tail), live);
    }
  }

  /** Releasing touches the blocks of some pools only, and puts them ahead of what was free. */
  ghost predicate Frees(h: Heap, h': Heap, cs: seq<Control>, some: set<nat>) {
    && h'.size == h.size && h'.arenaUsed == h.arenaUsed && |h'.blocks| == |h.blocks|
    && |h'.free| >= |h.free| && h'.free[|h'.free| - |h.free|..] == h.free
    && (forall b :: 0 <= b < |h.blocks| ==> h'.blocks[b].begin == h.blocks[b].begin && h'.blocks[b].capacity == h.blocks[b].capacity)
    && (forall b :: 0 <= b < |h.blocks| && (forall q :: q in some && q < |cs| ==> b !in cs[q].blocks) ==> h'.blocks[b] == h.blocks[b])
    && forall b, q :: q in some && q < |cs| && b in cs[q].blocks && b < |h.blocks| ==> h'.blocks[b].used == 0
  }

  lemma {:induction false} ReleaseListFrees(h: Heap, list: seq<nat>)
    requires ListInRange(h, list)
    ensures var r := ReleaseList(h, list);
            && r.size == h.size && r.arenaUsed == h.arenaUsed && |r.blocks| == |h.blocks|
            && |r.free| == |list| + |h.free| && r.free[|list|..] == h.free
            && forall b :: 0 <= b < |h.blocks| ==> r.blocks[b] == if b in list then h.blocks[b].(used := 0) else h.blocks[b]
    decreases |list|
  {
    if list != [] {
      var b := list[0];
      ReleaseListFrees(h.(free := [b] + h.free, blocks := h.blocks[b := h.blocks[b].(used := 0)]), list[1..]);
    }
  }

  lemma FreesThen(h: Heap, h1: Heap, h2: Heap, cs: seq<Control>, a: set<nat>, b: set<nat>)
    requires Frees(h, h1, cs, a) && Frees(h1, h2, cs, b)
    requires forall x :: 0 <= x < |h1.blocks| && h1.blocks[x].used == 0 ==> h2.blocks[x].used == 0
    ensures Frees(h, h2, cs, a + b)
  {
  }

  lemma {:induction false} ReleaseTreeFrees(h: Heap, cs: seq<Control>, t: Tree)
    requires BlocksInRange(h, cs)
    ensures Frees(h, ReleaseTree(h, cs, t), cs, Pools(t))
    ensures forall x :: 0 <= x < |h.blocks| && h.blocks[x].used == 0 ==> ReleaseTree(h, cs, t).blocks[x].used == 0
    decreases t
  {
    hide Frees, BlocksInRange, ReleaseKids, ReleaseList, ListInRange;
    ReleaseKidsFrees(h, cs, t.kids);
    var below := ReleaseKids(h, cs, t.kids);
    SameRange(h, below, cs);
    OwnFrees(below, cs, t.pool);
    FreesThen(h, below, ReleaseTree(h, cs, t), cs, PoolsAll(t.kids), {t.pool});
    assert PoolsAll(t.kids) + {t.pool} == Pools(t);
  }

  lemma OwnFrees(h: Heap, cs: seq<Control>, p: nat)
    requires BlocksInRange(h, cs)
    ensures p < |cs| ==> ListInRange(h, cs[p].blocks)
    ensures var r := if p < |cs| && ListInRange(h, cs[p].blocks) then ReleaseList(h, cs[p].blocks) else h;
            && Frees(h, r, cs, {p}) && |r.blocks| == |h.blocks|
            && forall x :: 0 <= x < |h.blocks| && h.blocks[x].used == 0 ==> r.blocks[x].used == 0
  {
    if p < |cs| {
      assert ListInRange(h, cs[p].blocks);
      ReleaseListFrees(h, cs[p].blocks);
    }
  }

  lemma {:induction false} ReleaseKidsFrees(h: Heap, cs: seq<Control>, ts: Trees)
    requires BlocksInRange(h, cs)
    ensures Frees(h, ReleaseKids(h, cs, ts), cs, PoolsAll(ts))
    ensures forall x :: 0 <= x < |h.blocks| && h.blocks[x].used == 0 ==> ReleaseKids(h, cs, ts).blocks[x].used == 0
    decreases ts
  {
    if ts.Cons? {
      var first := ReleaseTree(h, cs, ts.head);
      ReleaseTreeFrees(h, cs, ts.head);
      SameRange(h, first, cs);
      ReleaseKidsFrees(first, cs, ts.tail);
      hide Frees;
      FreesThen(h, first, ReleaseKids(first, cs, ts.tail), cs, Pools(ts.head), PoolsAll(ts.tail));
    }
  }

  lemma SameRange(h: Heap, h': Heap, cs: seq<Control>)
    requires BlocksInRange(h, cs) && |h'.blocks| == |h.blocks|
    ensures BlocksInRange(h', cs)
  {
    forall i | 0 <= i < |cs| ensures ListInRange(h', cs[i].blocks) { assert ListInRange(h, cs[i].blocks); }
  }

  /**
   What clearing a tree does to the arena: the blocks of its pools hold nothing any more and
   stand in front of what was free; every other block is as before, and no block moves.
   */
  lemma ReleaseTreeKeeps(h: Heap, cs: seq<Control>, t: Tree)
    requires BlocksInRange(h, cs)
    ensures var r := ReleaseTree(h, cs, t);
            && r.size == h.size && r.arenaUsed == h.arenaUsed && |r.blocks| == |h.blocks|
            && |r.free| >= |h.free| && r.free[|r.free| - |h.free|..] == h.free
            && forall b :: 0 <= b < |h.blocks| ==>
                 && r.blocks[b].begin == h.blocks[b].begin && r.blocks[b].capacity == h.blocks[b].capacity
                 && ((forall q :: q in Pools(t) && q < |cs| ==> b !in cs[q].blocks) ==> r.blocks[b].used == h.blocks[b].used)
                 && ((exists q :: q in Pools(t) && q < |cs| && b in cs[q].blocks) ==> r.blocks[b].used == 0)
  {
    ReleaseTreeFrees(h, cs, t);
  }

  // ----- the forest under each operation -----

  /** The control that a creation takes: the first one not active. */
  function FirstInactive(cs: seq<Control>, from: nat): (r: Option<nat>)
    requires from <= |cs|
    ensures r.Some? ==> from <= r.value < |cs| && !cs[r.value].active && forall i :: from <= i < r.value ==> cs[i].active
    ensures r.None? ==> forall i :: from <= i < |cs| ==> cs[i].active
    decreases |cs| - from
  {
    if from == |cs| then None else if !cs[from].active then Some(from) else FirstInactive(cs, from + 1)
  }

  /** apex_apr_pool_control_create_unlocked at control `i`. */
  function Created(cs: seq<Control>, i: nat, parent: int): seq<Control>
    requires i < |cs|
  {
    if 0 <= parent < |cs| && parent != i then
      cs[i := Control(true, parent, NULL, cs[parent].firstChild, [], [], [])][parent := cs[parent].(firstChild := i)]
    else cs[i := Control(true, NULL, NULL, NULL, [], [], [])]
  }

  function WithChild(roots: Trees, i: nat, parent: int): Trees
    requires parent >= 0 ==> parent in PoolsAll(roots)
  {
    var leaf := Node(i, [], [], Nil);
    if parent < 0 then Cons(leaf, roots)
    else var n := FindAll(roots, parent); SetAll(roots, parent, n.(kids := Cons(leaf, n.kids)))
  }

  lemma LeafIs(cs: seq<Control>, i: nat, parent: int, next: int)
    requires i < |cs| && cs[i] == Control(true, parent, NULL, next, [], [], [])
    ensures var leaf := Node(i, [], [], Nil); Pools(leaf) == {i} && Unique(leaf) && Rep(cs, leaf, parent, next)
  {
    assert PoolsAll(Nil) == {};
  }

  lemma CreateRoot(cs: seq<Control>, roots: Trees, i: nat)
    requires ForestInv(cs, roots) && i < |cs| && !cs[i].active
    ensures ForestInv(Created(cs, i, NULL), WithChild(roots, i, NULL))
    ensures PoolsAll(WithChild(roots, i, NULL)) == PoolsAll(roots) + {i}
  {
    var cs' := Created(cs, i, NULL);
    assert i !in PoolsAll(roots);
    RootFrame(cs, cs', roots);
    LeafIs(cs', i, NULL, NULL);
  }

  lemma CreateChild(cs: seq<Control>, roots: Trees, i: nat, parent: nat)
    requires ForestInv(cs, roots) && i < |cs| && !cs[i].active && parent < |cs| && cs[parent].active
    ensures parent in PoolsAll(roots)
    ensures ForestInv(Created(cs, i, parent), WithChild(roots, i, parent))
    ensures PoolsAll(WithChild(roots, i, parent)) == PoolsAll(roots) + {i}
  {
    hide Rep, RepAll, FindAll, SetAll, PoolsAll, UniqueAll, RootsRep;
    var cs', leaf, n := Created(cs, i, parent), Node(i, [], [], Nil), FindAll(roots, parent);
    var n' := n.(kids := Cons(leaf, n.kids));
    assert i !in PoolsAll(roots) && parent != i;
    FindRoot(cs, roots, parent);
    FindAllUnique(roots, parent);
    ChildRep(cs, n, i);
    LeafIs(cs', i, parent, HeadOf(n.kids));
    SetRoot(cs, cs', roots, parent, n');
    SetAllUnique(roots, parent, n');
    SetAllPools(roots, parent, n');
  }

  /** A new child heads the chain of its parent. */
  lemma ChildRep(cs: seq<Control>, n: Tree, i: nat)
    requires i < |cs| && n.pool < |cs| && Rep(cs, n, cs[n.pool].parent, cs[n.pool].nextSibling) && Unique(n) && i !in Pools(n)
    ensures var leaf := Node(i, [], [], Nil);
            var cs' := Created(cs, i, n.pool);
            && cs'[i] == Control(true, n.pool, NULL, HeadOf(n.kids), [], [], [])
            && Rep(cs', n.(kids := Cons(leaf, n.kids)), cs[n.pool].parent, cs[n.pool].nextSibling)
            && Unique(n.(kids := Cons(leaf, n.kids))) && Pools(n.(kids := Cons(leaf, n.kids))) == Pools(n) + {i}
  {
    var cs' := Created(cs, i, n.pool);
    RepAllFrame(cs, cs', n.kids, n.pool);
    LeafIs(cs', i, n.pool, HeadOf(n.kids));
  }

  /** A creation adds one pool, as the newest child of its parent or as a root. */
  lemma CreateForest(cs: seq<Control>, roots: Trees, i: nat, parent: int)
    requires ForestInv(cs, roots) && i < |cs| && !cs[i].active
    requires parent == NULL || (0 <= parent < |cs| && cs[parent].active)
    ensures parent >= 0 ==> parent in PoolsAll(roots)
    ensures ForestInv(Created(cs, i, parent), WithChild(roots, i, parent))
    ensures PoolsAll(WithChild(roots, i, parent)) == PoolsAll(roots) + {i}
  {
    if parent == NULL {
      CreateRoot(cs, roots, i);
    } else {
      CreateChild(cs, roots, i, parent);
    }
  }

  /** One control changes its cleanups or its blocks. */
  lemma TouchForest(cs: seq<Control>, roots: Trees, p: nat, c: Control)
    requires ForestInv(cs, roots) && p < |cs| && cs[p].active && c.active
    requires c.parent == cs[p].parent && c.firstChild == cs[p].firstChild && c.nextSibling == cs[p].nextSibling
    ensures p in PoolsAll(roots)
    ensures var n := FindAll(roots, p).(pre := c.preCleanups, cleanups := c.cleanups);
            && ForestInv(cs[p := c], SetAll(roots, p, n)) && PoolsAll(SetAll(roots, p, n)) == PoolsAll(roots)
  {
    var n := FindAll(roots, p).(pre := c.preCleanups, cleanups := c.cleanups);
    var cs' := cs[p := c];
    FindAllUnique(roots, p);
    TouchedTree(cs, roots, p, c);
    SetRoot(cs, cs', roots, p, n);
    SetAllUnique(roots, p, n);
    SetAllPools(roots, p, n);
  }

  /** The tree of the pool itself, whose links are as before. */
  lemma TouchedTree(cs: seq<Control>, roots: Trees, p: nat, c: Control)
    requires ForestInv(cs, roots) && p < |cs| && cs[p].active && c.active
    requires c.parent == cs[p].parent && c.firstChild == cs[p].firstChild && c.nextSibling == cs[p].nextSibling
    ensures p in PoolsAll(roots)
    ensures var (t, n) := (FindAll(roots, p), FindAll(roots, p).(pre := c.preCleanups, cleanups := c.cleanups));
            && Changed(cs, cs[p := c], p, Pools(t), n) && Pools(n) == Pools(t) && (Unique(t) ==> Unique(n))
  {
    FindRoot(cs, roots, p);
    FindAllUnique(roots, p);
    RepAllFrame(cs, cs[p := c], FindAll(roots, p).kids, p);
  }

  /** Clearing leaves the pool in place, with nothing below it. */
  lemma ClearForest(cs: seq<Control>, roots: Trees, p: nat)
    requires ForestInv(cs, roots) && p < |cs| && cs[p].active
    ensures var t := FindAll(roots, p);
            var leaf := Node(p, [], [], Nil);
            && ForestInv(Cleared(cs, t), SetAll(roots, p, leaf))
            && PoolsAll(SetAll(roots, p, leaf)) == PoolsAll(roots) - PoolsAll(t.kids)
  {
    var t, leaf := FindAll(roots, p), Node(p, [], [], Nil);
    var cs' := Cleared(cs, t);
    FindRoot(cs, roots, p);
    FindAllUnique(roots, p);
    SetRoot(cs, cs', roots, p, leaf);
    SetAllUnique(roots, p, leaf);
    SetAllPools(roots, p, leaf);
  }

  /** The children of the parent of `p`, or none when `p` is a root. */
  function Siblings(cs: seq<Control>, roots: Trees, p: nat): Trees
    requires p < |cs|
  {
    if cs[p].parent >= 0 && cs[p].parent in PoolsAll(roots) then FindAll(roots, cs[p].parent).kids else Nil
  }

  /** The forest without the subtree of `p`. */
  function Pruned(cs: seq<Control>, roots: Trees, p: nat): Trees
    requires p < |cs|
  {
    if cs[p].parent >= 0 && cs[p].parent in PoolsAll(roots) then
      var n := FindAll(roots, cs[p].parent);
      SetAll(roots, cs[p].parent, n.(kids := Removed(n.kids, p)))
    else Removed(roots, p)
  }

  // ----- destroying any pool -----

  /** The chain around a child is what detaching it asks for. */
  lemma {:induction false} KidsNotBelow(t: Tree, ts: Trees, p: nat)
    requires UniqueAll(ts) && IsRoot(ts, p) && t == KidOf(ts, p)
    ensures NotBelow(t, ts) && Unique(t)
    decreases ts
  {
    if ts.head.pool == p {
      OthersNotBelow(t, ts.tail);
    } else {
      KidIn(ts.tail, p);
      KidsNotBelow(t, ts.tail, p);
    }
  }

  /** What the links around an active pool offer to its destruction. */
  lemma ReadyToDestroy(cs: seq<Control>, roots: Trees, p: nat)
    requires ForestInv(cs, roots) && p < |cs| && cs[p].active
    ensures p in PoolsAll(roots)
    ensures var t, sib := FindAll(roots, p), Siblings(cs, roots, p);
            && Rep(cs, t, cs[p].parent, cs[p].nextSibling) && Unique(t) && Linked(cs, p, sib)
            && (cs[p].parent != NULL ==> Beside(t, cs[p].parent, sib))
  {
    var t, q := FindAll(roots, p), cs[p].parent;
    FindRoot(cs, roots, p);
    FindAllUnique(roots, p);
    RootParent(cs, roots, p);
    if q != NULL {
      var n := FindAll(roots, q);
      FindRoot(cs, roots, q);
      FindAllUnique(roots, q);
      RepChain(cs, n.kids, q);
      KidIn(n.kids, p);
      KidsNotBelow(t, n.kids, p);
    }
  }

  /** Away from the destroyed tree only one link changes. */
  lemma DestroyedAt(cs: seq<Control>, roots: Trees, p: nat, i: nat)
    requires ForestInv(cs, roots) && p < |cs| && cs[p].active && i < |cs|
    ensures p in PoolsAll(roots)
    ensures var t, sib, q := FindAll(roots, p), Siblings(cs, roots, p), cs[p].parent;
            var c := Destroyed(cs, t, sib)[i];
            c == if i in Pools(t) then ZERO
                 else if q != NULL && i == Prior(sib, p) then cs[i].(nextSibling := cs[p].nextSibling)
                 else if i == q && Prior(sib, p) == NULL then cs[i].(firstChild := cs[p].nextSibling)
                 else cs[i]
  {
    ReadyToDestroy(cs, roots, p);
    RootParent(cs, roots, p);
    if cs[p].parent != NULL {
      var sib := Siblings(cs, roots, p);
      FindAllUnique(roots, cs[p].parent);
      PriorIn(sib, p);
      FindRoot(cs, roots, cs[p].parent);
      if Prior(sib, p) != NULL { RepAllInTable(cs, sib, cs[p].parent, Prior(sib, p)); }
    }
  }

  lemma DestroyRoot(cs: seq<Control>, roots: Trees, p: nat)
    requires ForestInv(cs, roots) && p < |cs| && cs[p].active && cs[p].parent == NULL
    ensures p in PoolsAll(roots)
    ensures var t := FindAll(roots, p);
            && ForestInv(Destroyed(cs, t, Siblings(cs, roots, p)), Pruned(cs, roots, p))
            && PoolsAll(Pruned(cs, roots, p)) == PoolsAll(roots) - Pools(t)
  {
    RootParent(cs, roots, p);
    var t := FindAll(roots, p);
    var cs' := Destroyed(cs, t, Siblings(cs, roots, p));
    RemovedPools(roots, p);
    forall i | 0 <= i < |cs| ensures cs'[i] == if i in Pools(t) then ZERO else cs[i] {
      DestroyedAt(cs, roots, p, i);
    }
    RemovedRoots(cs, cs', roots, p);
  }

  lemma {:induction false} RemovedRoots(cs: seq<Control>, cs': seq<Control>, roots: Trees, p: nat)
    requires RootsRep(cs, roots) && UniqueAll(roots) && IsRoot(roots, p) && |cs| == |cs'|
    requires forall i :: 0 <= i < |cs| && i in PoolsAll(roots) - Pools(KidOf(roots, p)) ==> cs'[i] == cs[i]
    ensures RootsRep(cs', Removed(roots, p))
    decreases roots
  {
    if roots.head.pool == p {
      RootFrame(cs, cs', roots.tail);
    } else {
      KidIn(roots.tail, p);
      RemovedRoots(cs, cs', roots.tail, p);
      RepFrame(cs, cs', roots.head, NULL, NULL);
    }
  }

  /** The parent of a destroyed pool shows its other children, in order. */
  lemma ParentAfter(cs: seq<Control>, roots: Trees, p: nat)
    requires ForestInv(cs, roots) && p < |cs| && cs[p].active && cs[p].parent != NULL
    ensures p in PoolsAll(roots) && 0 <= cs[p].parent < |cs| && cs[p].parent in PoolsAll(roots)
    ensures var q := cs[p].parent;
            var n := FindAll(roots, q);
            var n' := n.(kids := Removed(n.kids, p));
            && Unique(n') && Pools(n') == Pools(n) - Pools(FindAll(roots, p)) && Pools(FindAll(roots, p)) <= Pools(n)
            && q !in Pools(FindAll(roots, p))
            && Rep(Destroyed(cs, FindAll(roots, p), Siblings(cs, roots, p)), n', cs[q].parent, cs[q].nextSibling)
  {
    var t, q := FindAll(roots, p), cs[p].parent;
    RootParent(cs, roots, p);
    FindRoot(cs, roots, q);
    FindAllUnique(roots, q);
    var n := FindAll(roots, q);
    KidIn(n.kids, p);
    PriorIn(n.kids, p);
    RemovedPools(n.kids, p);
    var cs' := Destroyed(cs, t, n.kids);
    forall i | 0 <= i < |cs| && i in PoolsAll(n.kids) - Pools(t)
      ensures cs'[i] == if i == Prior(n.kids, p) then cs[i].(nextSibling := cs[p].nextSibling) else cs[i] {
      DestroyedAt(cs, roots, p, i);
    }
    RemovedRep(cs, cs', n.kids, q, p);
    DestroyedAt(cs, roots, p, q);
    FirstAfter(cs, n.kids, q, p);
  }

  /** The first child after a removal. */
  lemma FirstAfter(cs: seq<Control>, ts: Trees, parent: int, p: nat)
    requires RepAll(cs, ts, parent) && UniqueAll(ts) && IsRoot(ts, p) && p < |cs|
    ensures HeadOf(Removed(ts, p)) == if Prior(ts, p) == NULL then cs[p].nextSibling else HeadOf(ts)
  {
    PriorIn(ts, p);
  }

  lemma DestroyChild(cs: seq<Control>, roots: Trees, p: nat)
    requires ForestInv(cs, roots) && p < |cs| && cs[p].active && cs[p].parent != NULL
    ensures p in PoolsAll(roots)
    ensures var t := FindAll(roots, p);
            && ForestInv(Destroyed(cs, t, Siblings(cs, roots, p)), Pruned(cs, roots, p))
            && PoolsAll(Pruned(cs, roots, p)) == PoolsAll(roots) - Pools(t)
  {
    hide Rep, RepAll, Destroyed;
    ParentAfter(cs, roots, p);
    var t, q := FindAll(roots, p), cs[p].parent;
    var n := FindAll(roots, q);
    var n' := n.(kids := Removed(n.kids, p));
    var cs' := Destroyed(cs, t, Siblings(cs, roots, p));
    FindAllUnique(roots, q);
    forall i | 0 <= i < |cs| ensures i in Pools(t) ==> cs'[i] == ZERO
      ensures i !in Pools(n) ==> cs'[i] == cs[i]
      ensures i !in Pools(t) ==> cs'[i].active == cs[i].active && (!cs[i].active ==> cs'[i] == cs[i]) {
      OutsideParent(cs, roots, p, i);
    }
    SetRoot(cs, cs', roots, q, n');
    SetAllUnique(roots, q, n');
    SetAllPools(roots, q, n');
  }

  lemma OutsideParent(cs: seq<Control>, roots: Trees, p: nat, i: nat)
    requires ForestInv(cs, roots) && p < |cs| && cs[p].active && cs[p].parent != NULL && i < |cs|
    ensures p in PoolsAll(roots) && cs[p].parent >= 0 && cs[p].parent in PoolsAll(roots)
    ensures var t, c := FindAll(roots, p), Destroyed(cs, FindAll(roots, p), Siblings(cs, roots, p))[i];
            && (i in Pools(t) ==> c == ZERO)
            && (i !in Pools(FindAll(roots, cs[p].parent)) ==> c == cs[i])
            && (i !in Pools(t) ==> c.active == cs[i].active && (!cs[i].active ==> c == cs[i]))
  {
    DestroyedAt(cs, roots, p, i);
    ParentAfter(cs, roots, p);
    var n := FindAll(roots, cs[p].parent);
    FindRoot(cs, roots, cs[p].parent);
    RootParent(cs, roots, p);
    FindAllUnique(roots, cs[p].parent);
    PriorIn(n.kids, p);
    if Prior(n.kids, p) != NULL { RepAllInTable(cs, n.kids, n.pool, Prior(n.kids, p)); }
  }

  /**
   Destroying an active pool deactivates exactly it and its descendants, and leaves the
   rest of the forest well linked and in order.
   */
  lemma DestroyForest(cs: seq<Control>, roots: Trees, p: nat)
    requires ForestInv(cs, roots) && p < |cs| && cs[p].active
    ensures p in PoolsAll(roots)
    ensures var t := FindAll(roots, p);
            && ForestInv(Destroyed(cs, t, Siblings(cs, roots, p)), Pruned(cs, roots, p))
            && PoolsAll(Pruned(cs, roots, p)) == PoolsAll(roots) - Pools(t)
  {
    if cs[p].parent == NULL {
      DestroyRoot(cs, roots, p);
    } else {
      DestroyChild(cs, roots, p);
    }
  }
}
