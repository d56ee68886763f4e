/** The public pool operations of lib/apex_apr/src/apr_pools.c over one arena and one table. */
module PoolManager {
  import opened Common
  import opened PoolForest
  import opened PoolLinks
  import opened PoolUpdates
  import opened PoolHeap
  import opened PoolTable
  import opened PoolWorld
  import PoolOrder

  const CONTROL_CAPACITY: nat := 64

  // ----- ancestry -----

  /** `x` lies in the subtree of `a` when it is `a`, or its parent does. */
  lemma AncestorStep(cs: seq<Control>, roots: Trees, a: nat, x: nat)
    requires ForestInv(cs, roots) && a < |cs| && cs[a].active && x < |cs| && cs[x].active && a != x
    ensures a in PoolsAll(roots) && x in PoolsAll(roots)
    ensures x in Pools(FindAll(roots, a)) <==>
              cs[x].parent != NULL && cs[x].parent >= 0 && cs[x].parent in Pools(FindAll(roots, a))
    ensures cs[x].parent != NULL ==> 0 <= cs[x].parent < |cs| && cs[cs[x].parent].active
  {
    FindRoot(cs, roots, a);
    FindAllUnique(roots, a);
    RootParent(cs, roots, x);
    if x in Pools(FindAll(roots, a)) {
      ParentIs(cs, FindAll(roots, a), cs[a].parent, cs[a].nextSibling, x);
    }
    if cs[x].parent != NULL {
      var q := cs[x].parent;
      FindRoot(cs, roots, q);
      KidIn(FindAll(roots, q).kids, x);
      if q in Pools(FindAll(roots, a)) {
        FindAllNested(roots, a, q);
        FindUnique(FindAll(roots, a), q);
      }
    }
  }

  /** The subtree of the parent is larger: walks up the tree end. */
  lemma ParentIsLarger(cs: seq<Control>, roots: Trees, x: nat)
    requires ForestInv(cs, roots) && x < |cs| && cs[x].active && cs[x].parent != NULL
    ensures 0 <= cs[x].parent < |cs| && cs[cs[x].parent].active
    ensures x in PoolsAll(roots) && cs[x].parent in PoolsAll(roots)
    ensures |Pools(FindAll(roots, x))| < |Pools(FindAll(roots, cs[x].parent))| <= |PoolsAll(roots)|
  {
    RootParent(cs, roots, x);
    var q := cs[x].parent;
    FindRoot(cs, roots, q);
    FindAllUnique(roots, q);
    KidIn(FindAll(roots, q).kids, x);
    Smaller(Pools(FindAll(roots, x)), Pools(FindAll(roots, q)), q);
    SubsetSize(Pools(FindAll(roots, q)), PoolsAll(roots));
  }

  /** Pool `x` is `a` or a descendant of `a`. */
  ghost predicate Below(roots: Trees, a: nat, x: nat) {
    a in PoolsAll(roots) && x in Pools(FindAll(roots, a))
  }

  /** Shrinks along the parent links. */
  ghost function Rank(roots: Trees, x: nat): nat {
    if x in PoolsAll(roots) && |Pools(FindAll(roots, x))| <= |PoolsAll(roots)| then 1 + |PoolsAll(roots)| - |Pools(FindAll(roots, x))|
    else 0
  }

  /** One step of the walk to the root. */
  lemma WalkStep(cs: seq<Control>, roots: Trees, a: nat, x: nat)
    requires ForestInv(cs, roots) && x < |cs| && cs[x].active && a < |cs|
    ensures a == x ==> Below(roots, a, x)
    ensures var q := cs[x].parent;
            && (q == NULL || (0 <= q < |cs| && cs[q].active && Rank(roots, q) < Rank(roots, x)))
            && Rank(roots, x) > 0
            && (a != x ==> (Below(roots, a, x) <==> q != NULL && q >= 0 && Below(roots, a, q)))
  {
    FindRoot(cs, roots, x);
    FindAllUnique(roots, x);
    SubsetSize(Pools(FindAll(roots, x)), PoolsAll(roots));
    if a != x && cs[a].active { AncestorStep(cs, roots, a, x); }
    if cs[x].parent != NULL { ParentIsLarger(cs, roots, x); }
  }

  // ----- pieces of the operations -----

  /** apex_apr_pool_cleanup_kill_list_unlocked: takes the newest match out of the list, and no other entry. */
  method KillList(list: seq<Cleanup>, data: nat, plain: nat) returns (left: seq<Cleanup>)
    ensures || (left == list && forall k :: 0 <= k < |list| ==> list[k].data != data || list[k].plain != plain)
            || exists i :: 0 <= i < |list| && list[i].data == data && list[i].plain == plain && left == list[..i] + list[i + 1..]
                           && forall k :: 0 <= k < i ==> list[k].data != data || list[k].plain != plain
  {
    var link := 0;
    while link < |list|
      invariant 0 <= link <= |list|
      invariant forall k :: 0 <= k < link ==> list[k].data != data || list[k].plain != plain
    {
      if list[link].data == data && list[link].plain == plain {
        return list[..link] + list[link + 1..];
      }
      link := link + 1;
    }
    return list;
  }

  lemma ListsTouched(cs: seq<Control>, p: nat, c: Control)
    requires p < |cs|
    ensures Lists(cs[p := c]) == Lists(cs)[p := c.blocks]
  {
  }

  lemma ListsCleared(cs: seq<Control>, t: Tree)
    requires t.pool < |cs|
    ensures Lists(Cleared(cs, t)) == EmptyLists(Lists(cs), Pools(t))
  {
  }

  lemma ListsDestroyed(cs: seq<Control>, roots: Trees, p: nat)
    requires ForestInv(cs, roots) && p < |cs| && cs[p].active
    ensures p in PoolsAll(roots)
    ensures Lists(Destroyed(cs, FindAll(roots, p), Siblings(cs, roots, p))) == EmptyLists(Lists(cs), Pools(FindAll(roots, p)))
  {
    forall i | 0 <= i < |cs|
      ensures p in PoolsAll(roots)
              && Lists(Destroyed(cs, FindAll(roots, p), Siblings(cs, roots, p)))[i] == EmptyLists(Lists(cs), Pools(FindAll(roots, p)))[i] {
      DestroyedAt(cs, roots, p, i);
    }
    DestroyedAt(cs, roots, p, p);
  }

  lemma TreeInTable(cs: seq<Control>, roots: Trees, p: nat)
    requires ForestInv(cs, roots) && p < |cs| && cs[p].active
    ensures p in PoolsAll(roots)
    ensures Match(Lists(cs), cs, Pools(FindAll(roots, p)))
  {
    FindRoot(cs, roots, p);
    forall i | i in Pools(FindAll(roots, p)) ensures i < |cs| {
      RepInTable(cs, FindAll(roots, p), cs[p].parent, cs[p].nextSibling, i);
    }
  }

  lemma RangesOf(h: Heap, cs: seq<Control>)
    requires HeapInv(h, Lists(cs))
    ensures BlocksInRange(h, cs) && FreeInRange(h)
  {
    forall i | 0 <= i < |cs| ensures ListInRange(h, cs[i].blocks) {
      assert ListInRange(h, Lists(cs)[i]);
    }
  }

  lemma InactiveIsZero(cs: seq<Control>, roots: Trees)
    requires ForestInv(cs, roots)
    ensures forall i :: 0 <= i < |cs| && !cs[i].active ==> cs[i].blocks == []
  {
  }

  /** Size of the table of cleanup entries. */
  const CLEANUP_CAPACITY: nat := 256

  /** Cleanups registered with any pool. */
  function Registered(cs: seq<Control>): nat {
    if cs == [] then 0 else |cs[0].cleanups| + |cs[0].preCleanups| + Registered(cs[1..])
  }

  lemma {:induction false} RegisteredUpdate(cs: seq<Control>, p: nat, c: Control)
    requires p < |cs|
    ensures Registered(cs[p := c]) == Registered(cs) - |cs[p].cleanups| - |cs[p].preCleanups| + |c.cleanups| + |c.preCleanups|
  {
    if p == 0 {
      assert cs[p := c][1..] == cs[1..];
    } else {
      RegisteredUpdate(cs[1..], p - 1, c);
      assert cs[p := c][1..] == cs[1..][p - 1 := c];
    }
  }

  class Manager {
    const table: Table
    /** The forest that the links of the table stand for. */
    ghost var roots: Trees
    /** The memory given out since the last clearing of its pool. */
    ghost var live: set<Alloc>

    ghost predicate Valid()
      reads this, table, table.controls
    {
      && table.controls.Length == CONTROL_CAPACITY
      && ForestInv(table.controls[..], roots)
      && HeapInv(table.heap, Lists(table.controls[..]))
      && LiveInv(table.heap, Lists(table.controls[..]), live)
    }

    /** The static tables and a configured arena of `size` aligned bytes. */
    constructor (size: nat)
      requires size <= SIZE_MAX
      ensures Valid() && fresh(table) && fresh(table.controls) && roots == Nil && live == {}
    {
      var t := new Table(CONTROL_CAPACITY, size);
      table := t;
      roots := Nil;
      live := {};
      new;
      EmptyWorld(table.controls[..], table.heap);
    }

    /** apr_pool_create_ex without an allocator */
    method CreatePool(parent: int) returns (r: Option<nat>)
      requires Valid() && -1 <= parent < CONTROL_CAPACITY
      modifies this`roots, table.controls
      ensures Valid() && table.heap == old(table.heap) && live == old(live)
      ensures var cs := old(table.controls[..]);
              && r == (if parent != NULL && !cs[parent].active then None else FirstInactive(cs, 0))
              && (r.None? ==> roots == old(roots) && table.controls[..] == cs)
              && (r.Some? ==> (parent >= 0 ==> parent in PoolsAll(old(roots)))
                              && roots == WithChild(old(roots), r.value, parent) && table.controls[..] == Created(cs, r.value, parent))
      ensures r.None? ==> (parent != NULL && !table.controls[parent].active) || forall i :: 0 <= i < CONTROL_CAPACITY ==> table.controls[i].active
      ensures r.Some? ==>
                var (cs, i) := (old(table.controls[..]), r.value);
                && i < CONTROL_CAPACITY && !cs[i].active && (forall j :: 0 <= j < i ==> cs[j].active)
                && table.controls[..] ==
                     if parent == NULL then cs[i := Control(true, NULL, NULL, NULL, [], [], [])]
                     else cs[i := Control(true, parent, NULL, cs[parent].firstChild, [], [], [])][parent := cs[parent].(firstChild := i)]
    {
      ghost var cs := table.controls[..];
      if parent != NULL && !table.controls[parent].active {
        return None;
      }
      var i := 0;
      while i < table.controls.Length && table.controls[i].active
        invariant 0 <= i <= table.controls.Length && FirstInactive(cs, 0) == FirstInactive(cs, i)
        invariant forall j :: 0 <= j < i ==> cs[j].active
      {
        i := i + 1;
      }
      if i == table.controls.Length {
        return None;
      }
      CreateForest(cs, roots, i, parent);
      hide ForestInv, HeapInv, LiveInv, WithChild;
      table.controls[i] := ZERO;
      if parent == NULL {
        table.controls[i] := Control(true, NULL, NULL, NULL, [], [], []);
      } else {
        table.controls[i] := Control(true, parent, NULL, table.controls[parent].firstChild, [], [], []);
        table.controls[parent] := table.controls[parent].(firstChild := i);
      }
      roots := WithChild(roots, i, parent);
      assert table.controls[..] == Created(cs, i, parent);
      assert Lists(table.controls[..]) == Lists(cs) by { assert cs[i].blocks == []; }
      return Some(i);
    }

    /** apr_palloc: the offset of the memory in the arena. */
    method Palloc(p: nat, size: nat) returns (at: Option<nat>)
      requires Valid() && p < CONTROL_CAPACITY
      modifies this, table`heap, table.controls
      ensures Valid()
      ensures at.None? ==> table.controls[..] == old(table.controls[..]) && table.heap == old(table.heap) && live == old(live)
      ensures at.Some? ==>
                && old(table.controls[p].active)
                && exists b :: (live == old(live) + {Alloc(p, b, at.value, Padded(size))} && Alloc(p, b, at.value, Padded(size)) !in old(live))
      ensures !old(table.controls[p].active) ==> at.None?
      ensures old(table.controls[p].active) ==>
                var (h, c) := (old(table.heap), old(table.controls[p]));
                && ListInRange(h, c.blocks) && FreeInRange(h) && h.arenaUsed <= h.size <= SIZE_MAX
                && var r := Allocate(h, c.blocks, size);
                   && table.heap == r.heap && at == r.at && table.controls[..] == old(table.controls[..])[p := c.(blocks := r.list)]
      ensures old(table.controls[p].active) && at.None? ==>
                var (h, list) := (old(table.heap), old(table.controls[p].blocks));
                ListInRange(h, list) && FreeInRange(h) && h.arenaUsed <= h.size <= SIZE_MAX && Allocate(h, list, size).at.None?
    {
      if !table.controls[p].active {
        return None;
      }
      ghost var cs, h := table.controls[..], table.heap;
      AllocateInv(h, Lists(cs), live, p, size);
      var r := Allocate(table.heap, table.controls[p].blocks, size);
      ghost var c := table.controls[p].(blocks := r.list);
      TouchForest(cs, roots, p, c);
      ListsTouched(cs, p, c);
      table.heap := r.heap;
      table.controls[p] := table.controls[p].(blocks := r.list);
      roots := SetAll(roots, p, FindAll(roots, p).(pre := c.preCleanups, cleanups := c.cleanups));
      at := r.at;
      if at.Some? {
        live := live + {Given(p, r, size)};
      } else {
        assert table.controls[..] == cs;
      }
    }

    /** apr_pool_cleanup_register and apr_pool_pre_cleanup_register: refused when all entries are in use. */
    method Register(p: nat, c: Cleanup, preCleanup: bool) returns (ok: bool)
      requires Valid() && p < CONTROL_CAPACITY
      modifies this`roots, table.controls
      ensures Valid() && table.heap == old(table.heap) && live == old(live)
      ensures ok <==> old(table.controls[p].active) && Registered(old(table.controls[..])) < CLEANUP_CAPACITY
      ensures !ok ==> table.controls[..] == old(table.controls[..])
      ensures ok ==>
                var was := old(table.controls[p]);
                table.controls[..] == old(table.controls[..])[p := if preCleanup then was.(preCleanups := [c] + was.preCleanups)
                                                                   else was.(cleanups := [c] + was.cleanups)]
      ensures Registered(table.controls[..]) == Registered(old(table.controls[..])) + if ok then 1 else 0
    {
      if !table.controls[p].active {
        return false;
      }
      var used := EntriesInUse();
      if used >= CLEANUP_CAPACITY {
        return false;
      }
      RegisteredUpdate(table.controls[..], p, WithList(table.controls[p], preCleanup, [c] + ListOf(table.controls[p], preCleanup)));
      Replace(p, WithList(table.controls[p], preCleanup, [c] + ListOf(table.controls[p], preCleanup)));
      return true;
    }

    /** An entry of the cleanup table is in use exactly while it is in a list. */
    method EntriesInUse() returns (used: nat)
      ensures used == Registered(table.controls[..])
    {
      used := 0;
      var i := 0;
      while i < table.controls.Length
        invariant i <= table.controls.Length && used + Registered(table.controls[..][i..]) == Registered(table.controls[..])
      {
        assert table.controls[..][i..][1..] == table.controls[..][i + 1..];
        used := used + |table.controls[i].cleanups| + |table.controls[i].preCleanups|;
        i := i + 1;
      }
    }

    /** apr_pool_cleanup_kill */
    method Kill(p: nat, data: nat, plain: nat)
      requires Valid() && p < CONTROL_CAPACITY
      modifies this`roots, table.controls
      ensures Valid() && table.heap == old(table.heap) && live == old(live)
      ensures !old(table.controls[p].active) ==> table.controls[..] == old(table.controls[..])
      ensures old(table.controls[p].active) ==>
                var (was, now) := (old(table.controls[p]), table.controls[p]);
                && table.controls[..] == old(table.controls[..])[p := was.(cleanups := now.cleanups, preCleanups := now.preCleanups)]
                && (|| (now.cleanups == was.cleanups
                        && forall k :: 0 <= k < |was.cleanups| ==> was.cleanups[k].data != data || was.cleanups[k].plain != plain)
                    || exists i :: 0 <= i < |was.cleanups| && was.cleanups[i].data == data && was.cleanups[i].plain == plain
                                   && now.cleanups == was.cleanups[..i] + was.cleanups[i + 1..]
                                   && forall k :: 0 <= k < i ==> was.cleanups[k].data != data || was.cleanups[k].plain != plain)
                && (|| (now.preCleanups == was.preCleanups
                        && forall k :: 0 <= k < |was.preCleanups| ==> was.preCleanups[k].data != data || was.preCleanups[k].plain != plain)
                    || exists i :: 0 <= i < |was.preCleanups| && was.preCleanups[i].data == data && was.preCleanups[i].plain == plain
                                   && now.preCleanups == was.preCleanups[..i] + was.preCleanups[i + 1..]
                                   && forall k :: 0 <= k < i ==> was.preCleanups[k].data != data || was.preCleanups[k].plain != plain)
                && Registered(table.controls[..]) == Registered(old(table.controls[..])) - |was.cleanups| - |was.preCleanups|
                                                     + |now.cleanups| + |now.preCleanups|
    {
      if table.controls[p].active {
        var c := table.controls[p];
        var cleanups := KillList(c.cleanups, data, plain);
        var preCleanups := KillList(c.preCleanups, data, plain);
        RegisteredUpdate(table.controls[..], p, c.(cleanups := cleanups, preCleanups := preCleanups));
        Replace(p, c.(cleanups := cleanups, preCleanups := preCleanups));
      }
    }

    /** A control keeps its links and changes its cleanups. */
    method Replace(p: nat, c: Control)
      requires Valid() && p < CONTROL_CAPACITY && table.controls[p].active && c.active
      requires c.parent == table.controls[p].parent && c.firstChild == table.controls[p].firstChild
      requires c.nextSibling == table.controls[p].nextSibling && c.blocks == table.controls[p].blocks
      modifies this`roots, table.controls
      ensures Valid() && table.heap == old(table.heap) && live == old(live) && table.controls[..] == old(table.controls[..])[p := c]
    {
      ghost var cs := table.controls[..];
      TouchForest(cs, roots, p, c);
      ListsTouched(cs, p, c);
      assert Lists(cs)[p := c.blocks] == Lists(cs);
      table.controls[p] := c;
      roots := SetAll(roots, p, FindAll(roots, p).(pre := c.preCleanups, cleanups := c.cleanups));
    }

    /** apr_pool_clear */
    method ClearPool(p: nat) returns (trace: seq<Call>)
      requires Valid() && p < CONTROL_CAPACITY
      modifies this, table`heap, table.controls
      ensures Valid()
      ensures !old(table.controls[p].active) ==> trace == [] && table.controls[..] == old(table.controls[..]) && live == old(live)
      ensures old(table.controls[p].active) ==>
                && p in PoolsAll(old(roots))
                && var t := FindAll(old(roots), p);
                   && trace == Trace(t)
                   && table.controls[..] == Cleared(old(table.controls[..]), t)
                   && live == LiveOutside(old(live), PoolForest.Pools(t))
                   && PoolsAll(roots) == PoolsAll(old(roots)) - PoolsAll(t.kids)
                   && table.heap == ReleaseTree(old(table.heap), old(table.controls[..]), t)
                   && table.controls[p] == old(table.controls[p]).(firstChild := NULL, blocks := [], preCleanups := [], cleanups := [])
                   && (forall i :: 0 <= i < CONTROL_CAPACITY && i in PoolsAll(t.kids) ==> table.controls[i] == ZERO)
                   && (forall i :: 0 <= i < CONTROL_CAPACITY && i !in PoolForest.Pools(t) ==> table.controls[i] == old(table.controls[i]))
    {
      if !table.controls[p].active {
        return [];
      }
      ghost var cs, h := table.controls[..], table.heap;
      ReadyToDestroy(cs, roots, p);
      ghost var t := FindAll(roots, p);
      RangesOf(h, cs);
      TreeInTable(cs, roots, p);
      ReleaseTreeInv(h, Lists(cs), live, cs, t);
      ListsCleared(cs, t);
      ClearForest(cs, roots, p);
      trace := table.ControlClear(p, t);
      roots := SetAll(roots, p, Node(p, [], [], Nil));
      live := LiveOutside(live, PoolForest.Pools(t));
    }

    /** apr_pool_destroy */
    method DestroyPool(p: nat) returns (trace: seq<Call>)
      requires Valid() && p < CONTROL_CAPACITY
      modifies this, table`heap, table.controls
      ensures Valid()
      ensures !old(table.controls[p].active) ==> trace == [] && table.controls[..] == old(table.controls[..]) && live == old(live)
      ensures old(table.controls[p].active) ==>
                && p in PoolsAll(old(roots))
                && var t := FindAll(old(roots), p);
                   && trace == Trace(t)
                   && live == LiveOutside(old(live), PoolForest.Pools(t))
                   && PoolsAll(roots) == PoolsAll(old(roots)) - PoolForest.Pools(t)
                   && (forall i :: 0 <= i < CONTROL_CAPACITY ==>
                         table.controls[i].active == (old(table.controls[i].active) && i !in PoolForest.Pools(t)))
                   && Lists(table.controls[..]) == EmptyLists(Lists(old(table.controls[..])), PoolForest.Pools(t))
                   && table.heap == ReleaseTree(old(table.heap), old(table.controls[..]), t)
                   && (forall i :: 0 <= i < CONTROL_CAPACITY && i in PoolForest.Pools(t) ==> table.controls[i] == ZERO)
                   && (forall i :: 0 <= i < CONTROL_CAPACITY && i !in PoolForest.Pools(t) ==>
                         var (was, next) := (old(table.controls[i]), old(table.controls[p]).nextSibling);
                         table.controls[i] == was.(nextSibling := if was.nextSibling == p then next else was.nextSibling,
                                                   firstChild := if was.firstChild == p then next else was.firstChild))
    {
      if !table.controls[p].active {
        return [];
      }
      ghost var cs, h := table.controls[..], table.heap;
      ReadyToDestroy(cs, roots, p);
      ghost var t, siblings := FindAll(roots, p), Siblings(cs, roots, p);
      RangesOf(h, cs);
      TreeInTable(cs, roots, p);
      ReleaseTreeInv(h, Lists(cs), live, cs, t);
      ListsDestroyed(cs, roots, p);
      DestroyForest(cs, roots, p);
      forall i | 0 <= i < CONTROL_CAPACITY
        ensures i in PoolForest.Pools(t) ==> Destroyed(cs, t, siblings)[i] == ZERO
        ensures i !in PoolForest.Pools(t) ==>
                  Destroyed(cs, t, siblings)[i] ==
                    cs[i].(nextSibling := if cs[i].nextSibling == p then cs[p].nextSibling else cs[i].nextSibling,
                           firstChild := if cs[i].firstChild == p then cs[p].nextSibling else cs[i].firstChild) {
        PoolOrder.DestroyedLinks(cs, roots, p, i);
      }
      trace := table.ControlDestroy(p, t, siblings);
      roots := Pruned(cs, roots, p);
      live := LiveOutside(live, PoolForest.Pools(t));
    }

    /** apr_pool_find for an offset in the arena: names the pool whose live memory holds the byte. */
    method FindOwner(mem: nat) returns (r: Option<nat>)
      requires Valid()
      ensures forall p: nat :: r == Some(p) <==> HeldBy(live, p, mem)
    {
      ghost var lists := Lists(table.controls[..]);
      forall p: nat ensures FindPool(table.heap, lists, mem, 0) == Some(p) <==> HeldBy(live, p, mem) {
        FindIsExact(table.heap, lists, live, mem, p);
      }
      RangesOf(table.heap, table.controls[..]);
      InactiveIsZero(table.controls[..], roots);
      hide ForestInv, HeapInv, LiveInv, HeldBy;
      var i := 0;
      while i < table.controls.Length
        invariant 0 <= i <= table.controls.Length && FindPool(table.heap, lists, mem, 0) == FindPool(table.heap, lists, mem, i)
      {
        if table.controls[i].active {
          var list, k := table.controls[i].blocks, 0;
          while k < |list|
            invariant 0 <= k <= |list| && forall j :: 0 <= j < k ==> !InBlock(table.heap, list[j], mem)
          {
            var begin := table.heap.blocks[list[k]].begin;
            if begin <= mem < begin + table.heap.blocks[list[k]].used {
              assert InBlock(table.heap, lists[i][k], mem);
              return Some(i);
            }
            k := k + 1;
          }
        }
        i := i + 1;
      }
      return None;
    }

    /** apr_pool_is_ancestor for two control addresses. */
    method IsAncestor(a: nat, b: nat) returns (result: bool)
      requires Valid() && a < CONTROL_CAPACITY && b < CONTROL_CAPACITY
      ensures result <==> table.controls[b].active && Below(roots, a, b)
    {
      hide HeapInv, LiveInv, ForestInv, Below, Rank;
      ghost var cs := table.controls[..];
      var control: int := if table.controls[b].active then b else NULL;
      while control != NULL
        invariant control == NULL || (0 <= control < CONTROL_CAPACITY && table.controls[control].active)
        invariant table.controls[b].active ==> (Below(roots, a, b) <==> control != NULL && Below(roots, a, control))
        invariant !table.controls[b].active ==> control == NULL
        decreases if control == NULL then 0 else Rank(roots, control)
      {
        WalkStep(cs, roots, a, control);
        if control == a {
          return true;
        }
        control := table.controls[control].parent;
      }
      return false;
    }
  }

  lemma EmptyWorld(cs: seq<Control>, h: Heap)
    requires forall i :: 0 <= i < |cs| ==> cs[i] == ZERO
    requires h.size <= SIZE_MAX && h.arenaUsed == 0 && h.blocks == [] && h.free == []
    ensures ForestInv(cs, Nil) && HeapInv(h, Lists(cs)) && LiveInv(h, Lists(cs), {})
  {
    assert PoolsAll(Nil) == {};
  }
}
