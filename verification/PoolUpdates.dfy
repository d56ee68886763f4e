/**
 Changing one pool of the forest: creation, registration, clearing and removal.

 `Find` is the subtree of a pool and `Set` the forest with another subtree in its place.
 When the table of pools differs only in what the sections of
 lib/apex_apr/src/apr_pools.c write for that subtree, it represents the changed forest,
 and every other pool keeps its place.
 */
module PoolUpdates {
  import opened PoolForest
  import opened PoolLinks

  /** The subtree of pool `p`. */
  function Find(t: Tree, p: nat): (r: Tree)
    requires p in Pools(t)
    ensures r.pool == p
    decreases t
  {
    if t.pool == p then t else FindAll(t.kids, p)
  }

  function FindAll(ts: Trees, p: nat): (r: Tree)
    requires p in PoolsAll(ts)
    ensures r.pool == p
    decreases ts
  {
    if p in Pools(ts.head) then Find(ts.head, p) else FindAll(ts.tail, p)
  }

  /** The tree with the subtree of pool `p` replaced by `n`. */
  function Set(t: Tree, p: nat, n: Tree): Tree
    decreases t
  {
    if t.pool == p then n else Node(t.pool, t.pre, t.cleanups, SetAll(t.kids, p, n))
  }

  function SetAll(ts: Trees, p: nat, n: Tree): Trees
    decreases ts
  {
    if ts.Nil? then Nil
    else if p in Pools(ts.head) then Cons(Set(ts.head, p, n), ts.tail)
    else Cons(ts.head, SetAll(ts.tail, p, n))
  }

  // ----- looking a pool up -----

  lemma {:induction false} FindUnique(t: Tree, p: nat)
    requires Unique(t) && p in Pools(t)
    ensures Unique(Find(t, p)) && Pools(Find(t, p)) <= Pools(t)
    decreases t
  {
    if t.pool != p { FindAllUnique(t.kids, p); }
  }

  lemma {:induction false} FindAllUnique(ts: Trees, p: nat)
    requires UniqueAll(ts) && p in PoolsAll(ts)
    ensures Unique(FindAll(ts, p)) && Pools(FindAll(ts, p)) <= PoolsAll(ts)
    decreases ts
  {
    if p in Pools(ts.head) { FindUnique(ts.head, p); } else { FindAllUnique(ts.tail, p); }
  }

  lemma {:induction false} FindRep(cs: seq<Control>, t: Tree, parent: int, next: int, p: nat)
    requires Rep(cs, t, parent, next) && p in Pools(t)
    ensures p < |cs| && Rep(cs, Find(t, p), cs[p].parent, cs[p].nextSibling)
    decreases t
  {
    if t.pool != p { FindAllRep(cs, t.kids, t.pool, p); }
  }

  lemma {:induction false} FindAllRep(cs: seq<Control>, ts: Trees, parent: int, p: nat)
    requires RepAll(cs, ts, parent) && p in PoolsAll(ts)
    ensures p < |cs| && Rep(cs, FindAll(ts, p), cs[p].parent, cs[p].nextSibling)
    decreases ts
  {
    if p in Pools(ts.head) {
      FindRep(cs, ts.head, parent, HeadOf(ts.tail), p);
    } else {
      FindAllRep(cs, ts.tail, parent, p);
    }
  }

  // ----- replacing a subtree -----

  lemma {:induction false} SetPools(t: Tree, p: nat, n: Tree)
    requires Unique(t) && p in Pools(t) && n.pool == p
    ensures Pools(Set(t, p, n)) == (Pools(t) - Pools(Find(t, p))) + Pools(n)
    decreases t
  {
    if t.pool != p {
      SetAllPools(t.kids, p, n);
      FindAllUnique(t.kids, p);
    }
  }

  lemma {:induction false} SetAllPools(ts: Trees, p: nat, n: Tree)
    requires UniqueAll(ts) && p in PoolsAll(ts) && n.pool == p
    ensures PoolsAll(SetAll(ts, p, n)) == (PoolsAll(ts) - Pools(FindAll(ts, p))) + Pools(n)
    decreases ts
  {
    if p in Pools(ts.head) {
      SetPools(ts.head, p, n);
      FindUnique(ts.head, p);
    } else {
      SetAllPools(ts.tail, p, n);
      FindAllUnique(ts.tail, p);
    }
  }

  lemma {:induction false} SetUnique(t: Tree, p: nat, n: Tree)
    requires Unique(t) && p in Pools(t) && n.pool == p && Unique(n)
    requires Pools(n) !! (Pools(t) - Pools(Find(t, p)))
    ensures Unique(Set(t, p, n))
    decreases t
  {
    if t.pool != p {
      FindAllUnique(t.kids, p);
      SetAllUnique(t.kids, p, n);
      SetAllPools(t.kids, p, n);
    }
  }

  lemma {:induction false} SetAllUnique(ts: Trees, p: nat, n: Tree)
    requires UniqueAll(ts) && p in PoolsAll(ts) && n.pool == p && Unique(n)
    requires Pools(n) !! (PoolsAll(ts) - Pools(FindAll(ts, p)))
    ensures UniqueAll(SetAll(ts, p, n))
    decreases ts
  {
    if p in Pools(ts.head) {
      FindUnique(ts.head, p);
      SetUnique(ts.head, p, n);
      SetPools(ts.head, p, n);
    } else {
      FindAllUnique(ts.tail, p);
      SetAllUnique(ts.tail, p, n);
      SetAllPools(ts.tail, p, n);
    }
  }

  /** The table changed below pool `p` only, where it now shows `n` in the same place. */
  ghost predicate Changed(cs: seq<Control>, cs': seq<Control>, p: nat, below: set<nat>, n: Tree) {
    && |cs| == |cs'| && p < |cs| && p in below && n.pool == p
    && (forall i :: 0 <= i < |cs| && i !in below ==> cs'[i] == cs[i] || (i in Pools(n)))
    && Rep(cs', n, cs[p].parent, cs[p].nextSibling)
  }

  lemma {:induction false} SetRep(cs: seq<Control>, cs': seq<Control>, t: Tree, parent: int, next: int, p: nat, n: Tree)
    requires Rep(cs, t, parent, next) && Unique(t) && p in Pools(t)
    requires Changed(cs, cs', p, Pools(Find(t, p)), n) && Pools(n) !! (Pools(t) - Pools(Find(t, p)))
    ensures Rep(cs', Set(t, p, n), parent, next)
    decreases t
  {
    if t.pool == p {
      FindRep(cs, t, parent, next, p);
    } else {
      FindAllUnique(t.kids, p);
      SetAllRep(cs, cs', t.kids, t.pool, p, n);
      SetHead(t.kids, p, n);
    }
  }

  lemma {:induction false} SetAllRep(cs: seq<Control>, cs': seq<Control>, ts: Trees, parent: int, p: nat, n: Tree)
    requires RepAll(cs, ts, parent) && UniqueAll(ts) && p in PoolsAll(ts)
    requires Changed(cs, cs', p, Pools(FindAll(ts, p)), n) && Pools(n) !! (PoolsAll(ts) - Pools(FindAll(ts, p)))
    ensures RepAll(cs', SetAll(ts, p, n), parent)
    decreases ts
  {
    if p in Pools(ts.head) {
      FindUnique(ts.head, p);
      SetRep(cs, cs', ts.head, parent, HeadOf(ts.tail), p, n);
      RepAllFrame(cs, cs', ts.tail, parent);
    } else {
      FindAllUnique(ts.tail, p);
      SetAllRep(cs, cs', ts.tail, parent, p, n);
      SetHead(ts.tail, p, n);
      RepFrame(cs, cs', ts.head, parent, HeadOf(ts.tail));
    }
  }

  /** Replacing a subtree by one of the same pool keeps the chain of siblings. */
  lemma SetHead(ts: Trees, p: nat, n: Tree)
    requires p in PoolsAll(ts) && n.pool == p
    ensures HeadOf(SetAll(ts, p, n)) == HeadOf(ts)
  {
  }

  // ----- roots -----

  /** Every tree of the list is a root of the table. */
  ghost predicate RootsRep(cs: seq<Control>, ts: Trees)
    decreases ts
  {
    ts.Cons? ==> Rep(cs, ts.head, NULL, NULL) && RootsRep(cs, ts.tail)
  }

  ghost predicate ForestInv(cs: seq<Control>, roots: Trees) {
    && RootsRep(cs, roots) && UniqueAll(roots)
    && forall i :: 0 <= i < |cs| ==> (cs[i].active <==> i in PoolsAll(roots)) && (!cs[i].active ==> cs[i] == ZERO)
  }

  lemma {:induction false} RootFrame(cs: seq<Control>, cs': seq<Control>, ts: Trees)
    requires RootsRep(cs, ts) && |cs| == |cs'|
    requires forall i :: i in PoolsAll(ts) && i < |cs| ==> cs'[i] == cs[i]
    ensures RootsRep(cs', ts)
    decreases ts
  {
    if ts.Cons? {
      RepFrame(cs, cs', ts.head, NULL, NULL);
      RootFrame(cs, cs', ts.tail);
    }
  }

  lemma {:induction false} FindRoot(cs: seq<Control>, ts: Trees, p: nat)
    requires RootsRep(cs, ts) && p in PoolsAll(ts)
    ensures p < |cs| && Rep(cs, FindAll(ts, p), cs[p].parent, cs[p].nextSibling)
    decreases ts
  {
    if p in Pools(ts.head) {
      FindRep(cs, ts.head, NULL, NULL, p);
    } else {
      FindRoot(cs, ts.tail, p);
    }
  }

  lemma {:induction false} SetRoot(cs: seq<Control>, cs': seq<Control>, ts: Trees, p: nat, n: Tree)
    requires RootsRep(cs, ts) && UniqueAll(ts) && p in PoolsAll(ts)
    requires Changed(cs, cs', p, Pools(FindAll(ts, p)), n) && Pools(n) !! (PoolsAll(ts) - Pools(FindAll(ts, p)))
    ensures RootsRep(cs', SetAll(ts, p, n))
    decreases ts
  {
    if p in Pools(ts.head) {
      FindUnique(ts.head, p);
      SetRep(cs, cs', ts.head, NULL, NULL, p, n);
      RootFrame(cs, cs', ts.tail);
    } else {
      FindAllUnique(ts.tail, p);
      SetRoot(cs, cs', ts.tail, p, n);
      RepFrame(cs, cs', ts.head, NULL, NULL);
    }
  }

  // ----- a pool and its parent -----

  function KidOf(ts: Trees, p: nat): (r: Tree)
    requires IsRoot(ts, p)
    ensures r.pool == p
    decreases ts
  {
    if ts.head.pool == p then ts.head else KidOf(ts.tail, p)
  }

  lemma {:induction false} KidIn(ts: Trees, p: nat)
    requires IsRoot(ts, p)
    ensures p in PoolsAll(ts) && Pools(KidOf(ts, p)) <= PoolsAll(ts)
    ensures UniqueAll(ts) ==> FindAll(ts, p) == KidOf(ts, p)
    decreases ts
  {
    if ts.head.pool != p { KidIn(ts.tail, p); }
  }

  /** A pool below another has its parent there, and is one of its parent's children. */
  lemma {:induction false} ParentIs(cs: seq<Control>, t: Tree, parent: int, next: int, p: nat)
    requires Rep(cs, t, parent, next) && Unique(t) && p in Pools(t) && p != t.pool
    ensures p < |cs| && cs[p].parent >= 0 && cs[p].parent in Pools(t)
    ensures var kids := Find(t, cs[p].parent).kids; IsRoot(kids, p) && KidOf(kids, p) == Find(t, p)
    decreases t
  {
    ParentAmong(cs, t.kids, t.pool, p);
  }

  lemma {:induction false} ParentAmong(cs: seq<Control>, ts: Trees, parent: nat, p: nat)
    requires RepAll(cs, ts, parent) && UniqueAll(ts) && p in PoolsAll(ts) && parent !in PoolsAll(ts)
    ensures p < |cs| && cs[p].parent >= 0
    ensures if IsRoot(ts, p) then cs[p].parent == parent && KidOf(ts, p) == FindAll(ts, p)
            else cs[p].parent in PoolsAll(ts)
                 && IsRoot(FindAll(ts, cs[p].parent).kids, p) && KidOf(FindAll(ts, cs[p].parent).kids, p) == FindAll(ts, p)
    decreases ts
  {
    if p in Pools(ts.head) {
      if p != ts.head.pool {
        NotRootOf(ts.tail, p);
        ParentIs(cs, ts.head, parent, HeadOf(ts.tail), p);
      }
    } else {
      ParentAmong(cs, ts.tail, parent, p);
    }
  }

  lemma {:induction false} NotRootOf(ts: Trees, p: nat)
    requires p !in PoolsAll(ts)
    ensures !IsRoot(ts, p)
    decreases ts
  {
    if ts.Cons? { NotRootOf(ts.tail, p); }
  }

  lemma {:induction false} RootParent(cs: seq<Control>, roots: Trees, p: nat)
    requires RootsRep(cs, roots) && UniqueAll(roots) && p in PoolsAll(roots)
    ensures p < |cs|
    ensures if IsRoot(roots, p) then cs[p].parent == NULL && cs[p].nextSibling == NULL && KidOf(roots, p) == FindAll(roots, p)
            else cs[p].parent >= 0 && cs[p].parent in PoolsAll(roots)
                 && IsRoot(FindAll(roots, cs[p].parent).kids, p)
                 && KidOf(FindAll(roots, cs[p].parent).kids, p) == FindAll(roots, p)
    decreases roots
  {
    if p in Pools(roots.head) {
      if p != roots.head.pool {
        NotRootOf(roots.tail, p);
        ParentIs(cs, roots.head, NULL, NULL, p);
      }
    } else {
      RootParent(cs, roots.tail, p);
    }
  }

  // ----- removing a child -----

  lemma {:induction false} PriorIn(ts: Trees, p: nat)
    requires UniqueAll(ts) && IsRoot(ts, p)
    ensures Prior(ts, p) == NULL <==> ts.head.pool == p
    ensures Prior(ts, p) != NULL ==> Prior(ts, p) >= 0 && Prior(ts, p) in PoolsAll(ts)
                                     && Prior(ts, p) !in Pools(KidOf(ts, p)) && IsRoot(ts, Prior(ts, p))
    decreases ts
  {
    if ts.head.pool != p {
      KidIn(ts.tail, p);
      if ts.tail.head.pool != p { PriorIn(ts.tail, p); }
    }
  }

  lemma {:induction false} RemovedPools(ts: Trees, p: nat)
    requires UniqueAll(ts) && IsRoot(ts, p)
    ensures PoolsAll(Removed(ts, p)) == PoolsAll(ts) - Pools(KidOf(ts, p)) && UniqueAll(Removed(ts, p))
    decreases ts
  {
    if ts.head.pool != p {
      RemovedPools(ts.tail, p);
      KidIn(ts.tail, p);
    }
  }

  /** The chain closed over pool `p` shows the other children, in order. */
  lemma {:induction false} RemovedRep(cs: seq<Control>, cs': seq<Control>, ts: Trees, parent: int, p: nat)
    requires RepAll(cs, ts, parent) && UniqueAll(ts) && IsRoot(ts, p) && |cs| == |cs'| && p < |cs|
    requires forall i :: 0 <= i < |cs| && i in PoolsAll(ts) - Pools(KidOf(ts, p)) ==>
               cs'[i] == if i == Prior(ts, p) then cs[i].(nextSibling := cs[p].nextSibling) else cs[i]
    ensures RepAll(cs', Removed(ts, p), parent)
    decreases ts
  {
    if ts.head.pool == p {
      RepAllFrame(cs, cs', ts.tail, parent);
    } else {
      KidIn(ts.tail, p);
      if ts.tail.head.pool == p {
        assert KidOf(ts, p) == ts.tail.head && Prior(ts, p) == ts.head.pool;
        RepAllFrame(cs, cs', ts.head.kids, ts.head.pool);
        RepAllFrame(cs, cs', ts.tail.tail, parent);
        assert Rep(cs, ts.tail.head, parent, HeadOf(ts.tail.tail)) && Rep(cs, ts.head, parent, p);
        assert Rep(cs', ts.head, parent, HeadOf(ts.tail.tail));
        assert Removed(ts, p) == Cons(ts.head, ts.tail.tail);
      } else {
        PriorIn(ts.tail, p);
        RemovedRep(cs, cs', ts.tail, parent, p);
        RepFrame(cs, cs', ts.head, parent, HeadOf(ts.tail));
      }
    }
  }

  /** The subtree of a pool below another is found there too. */
  lemma {:induction false} FindNested(t: Tree, a: nat, q: nat)
    requires Unique(t) && a in Pools(t) && q in Pools(Find(t, a))
    ensures q in Pools(t) && Find(t, q) == Find(Find(t, a), q)
    decreases t
  {
    if t.pool != a {
      FindAllUnique(t.kids, a);
      FindAllNested(t.kids, a, q);
    }
  }

  lemma {:induction false} FindAllNested(ts: Trees, a: nat, q: nat)
    requires UniqueAll(ts) && a in PoolsAll(ts) && q in Pools(FindAll(ts, a))
    ensures q in PoolsAll(ts) && FindAll(ts, q) == Find(FindAll(ts, a), q)
    decreases ts
  {
    if a in Pools(ts.head) {
      FindUnique(ts.head, a);
      FindNested(ts.head, a, q);
    } else {
      FindAllUnique(ts.tail, a);
      FindAllNested(ts.tail, a, q);
    }
  }
}
