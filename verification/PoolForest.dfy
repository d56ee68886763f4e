/**
 The forest of pools of lib/apex_apr/src/apr_pools.c: a fixed table of controls linked by
 `parent`, `first_child` and `next_sibling`, newest child first, with the cleanups each
 pool has registered.
 */
module PoolForest {

  /** Links are table indices; NULL is -1. */
  const NULL: int := -1

  /** apex_apr_pool_cleanup; callbacks are numbers. */
  datatype Cleanup = Cleanup(data: nat, plain: nat, child: nat)

  /** apex_apr_pool_t; the block and cleanup lists are told head first. */
  datatype Control = Control(active: bool, parent: int, firstChild: int, nextSibling: int,
                             blocks: seq<nat>, preCleanups: seq<Cleanup>, cleanups: seq<Cleanup>)

  /** A control after memset. */
  const ZERO: Control := Control(false, NULL, NULL, NULL, [], [], [])

  /** What the links of a pool and of the pools below it stand for. */
  datatype Tree = Node(pool: nat, pre: seq<Cleanup>, cleanups: seq<Cleanup>, kids: Trees)
  datatype Trees = Nil | Cons(head: Tree, tail: Trees)

  function Pools(t: Tree): (s: set<nat>)
    ensures t.pool in s
  {
    {t.pool} + PoolsAll(t.kids)
  }

  function PoolsAll(ts: Trees): set<nat> {
    if ts.Nil? then {} else Pools(ts.head) + PoolsAll(ts.tail)
  }

  ghost predicate Unique(t: Tree) {
    t.pool !in PoolsAll(t.kids) && UniqueAll(t.kids)
  }

  ghost predicate UniqueAll(ts: Trees) {
    ts.Cons? ==> Unique(ts.head) && UniqueAll(ts.tail) && Pools(ts.head) !! PoolsAll(ts.tail)
  }

  function HeadOf(ts: Trees): int {
    if ts.Nil? then NULL else ts.head.pool
  }

  /** The table holds tree `t` below `parent`, with `next` as its next sibling. */
  ghost predicate Rep(cs: seq<Control>, t: Tree, parent: int, next: int) {
    && t.pool < |cs| && Shows(cs[t.pool], t, parent, next)
    && RepAll(cs, t.kids, t.pool)
  }

  predicate Shows(c: Control, t: Tree, parent: int, next: int) {
    && c.active && c.parent == parent && c.nextSibling == next && c.firstChild == HeadOf(t.kids)
    && c.preCleanups == t.pre && c.cleanups == t.cleanups
  }

  ghost predicate RepAll(cs: seq<Control>, ts: Trees, parent: int) {
    ts.Cons? ==> Rep(cs, ts.head, parent, HeadOf(ts.tail)) && RepAll(cs, ts.tail, parent)
  }

  // ----- the order of callbacks -----

  datatype Call = Call(callback: nat, data: nat)

  function Calls(list: seq<Cleanup>): (r: seq<Call>)
    ensures |r| == |list| && forall i :: 0 <= i < |list| ==> r[i] == Call(list[i].plain, list[i].data)
  {
    if list == [] then [] else [Call(list[0].plain, list[0].data)] + Calls(list[1..])
  }

  /** Own pre-cleanups, then each child's whole trace, then own cleanups; lists are newest first. */
  function Trace(t: Tree): seq<Call> {
    Calls(t.pre) + TraceAll(t.kids) + Calls(t.cleanups)
  }

  function TraceAll(ts: Trees): seq<Call> {
    if ts.Nil? then [] else Trace(ts.head) + TraceAll(ts.tail)
  }

  // ----- clearing and destroying, on the table -----

  function Emptied(c: Control): Control {
    c.(firstChild := NULL, blocks := [], preCleanups := [], cleanups := [])
  }

  /** While `t` is being cleared, with children `left` still to be destroyed. */
  function Clearing(cs: seq<Control>, t: Tree, left: Trees): (r: seq<Control>)
    ensures |r| == |cs|
  {
    seq(|cs|, i requires 0 <= i < |cs| =>
      if i in PoolsAll(t.kids) - PoolsAll(left) then ZERO
      else if i == t.pool then cs[i].(firstChild := HeadOf(left), preCleanups := [])
      else cs[i])
  }

  /** The table after apex_apr_pool_control_clear of the root of `t`. */
  function Cleared(cs: seq<Control>, t: Tree): (r: seq<Control>)
    ensures |r| == |cs|
  {
    seq(|cs|, i requires 0 <= i < |cs| =>
      if i in PoolsAll(t.kids) then ZERO else if i == t.pool then Emptied(cs[i]) else cs[i])
  }

  /** The sibling just before pool `p` in the chain, or NULL when `p` comes first. */
  function Prior(siblings: Trees, p: nat): int
    decreases siblings
  {
    if siblings.Nil? || siblings.head.pool == p || siblings.tail.Nil? then NULL
    else if siblings.tail.head.pool == p then siblings.head.pool
    else Prior(siblings.tail, p)
  }

  predicate IsRoot(ts: Trees, p: nat)
    decreases ts
  {
    ts.Cons? && (ts.head.pool == p || IsRoot(ts.tail, p))
  }

  function Removed(ts: Trees, p: nat): Trees
    decreases ts
  {
    if ts.Nil? then Nil else if ts.head.pool == p then ts.tail else Cons(ts.head, Removed(ts.tail, p))
  }

  /** The table after the chain of `siblings` has been closed over pool `p`. */
  function Unlinked(cs: seq<Control>, p: nat, siblings: Trees): (r: seq<Control>)
    requires p < |cs|
    ensures |r| == |cs|
  {
    var parent, prior, next := cs[p].parent, Prior(siblings, p), cs[p].nextSibling;
    if 0 <= prior < |cs| then cs[prior := cs[prior].(nextSibling := next)]
    else if 0 <= parent < |cs| then cs[parent := cs[parent].(firstChild := next)]
    else cs
  }

  /** The table after apex_apr_pool_control_destroy of the root of `t`. */
  function Destroyed(cs: seq<Control>, t: Tree, siblings: Trees): (r: seq<Control>)
    requires t.pool < |cs|
    ensures |r| == |cs|
  {
    var cleared := Cleared(cs, t);
    (if cs[t.pool].parent == NULL then cleared else Unlinked(cleared, t.pool, siblings))[t.pool := ZERO]
  }

  // ----- frames -----

  /** The links of a tree depend on its own pools only. */
  lemma {:induction false} RepFrame(cs: seq<Control>, cs': seq<Control>, t: Tree, parent: int, next: int)
    requires Rep(cs, t, parent, next) && |cs| == |cs'|
    requires forall i :: i in Pools(t) && i < |cs| ==> cs'[i] == cs[i]
    ensures Rep(cs', t, parent, next)
    decreases t
  {
    RepAllFrame(cs, cs', t.kids, t.pool);
  }

  lemma {:induction false} RepAllFrame(cs: seq<Control>, cs': seq<Control>, ts: Trees, parent: int)
    requires RepAll(cs, ts, parent) && |cs| == |cs'|
    requires forall i :: i in PoolsAll(ts) && i < |cs| ==> cs'[i] == cs[i]
    ensures RepAll(cs', ts, parent)
    decreases ts
  {
    if ts.Cons? {
      RepFrame(cs, cs', ts.head, parent, HeadOf(ts.tail));
      RepAllFrame(cs, cs', ts.tail, parent);
    }
  }

  lemma {:induction false} RepInTable(cs: seq<Control>, t: Tree, parent: int, next: int, i: nat)
    requires Rep(cs, t, parent, next) && i in Pools(t)
    ensures i < |cs| && cs[i].active
    decreases t
  {
    if i != t.pool { RepAllInTable(cs, t.kids, t.pool, i); }
  }

  lemma {:induction false} RepAllInTable(cs: seq<Control>, ts: Trees, parent: int, i: nat)
    requires RepAll(cs, ts, parent) && i in PoolsAll(ts)
    ensures i < |cs| && cs[i].active
    decreases ts
  {
    if i in Pools(ts.head) {
      RepInTable(cs, ts.head, parent, HeadOf(ts.tail), i);
    } else {
      RepAllInTable(cs, ts.tail, parent, i);
    }
  }
}

/** The chain of children that a pool is detached from. */
module PoolLinks {
  import opened PoolForest

  /** The `next_sibling` links run along `ts`. */
  ghost predicate Chain(cs: seq<Control>, ts: Trees)
    decreases ts
  {
    ts.Cons? ==> ts.head.pool < |cs| && cs[ts.head.pool].nextSibling == HeadOf(ts.tail) && Chain(cs, ts.tail)
  }

  /** Pool `p` is a root, or in the chain `siblings` of its parent's children. */
  ghost predicate Linked(cs: seq<Control>, p: nat, siblings: Trees)
    requires p < |cs|
  {
    cs[p].parent != NULL ==>
      && 0 <= cs[p].parent < |cs| && cs[cs[p].parent].firstChild == HeadOf(siblings)
      && Chain(cs, siblings) && IsRoot(siblings, p)
  }

  /** Neither the parent nor another sibling lies below `t`. */
  ghost predicate Beside(t: Tree, parent: int, siblings: Trees) {
    && parent != t.pool && (parent >= 0 ==> parent !in PoolsAll(t.kids)) && NotBelow(t, siblings)
  }

  ghost predicate NotBelow(t: Tree, siblings: Trees)
    decreases siblings
  {
    siblings.Cons? ==> siblings.head.pool !in PoolsAll(t.kids) && NotBelow(t, siblings.tail)
  }

  lemma {:induction false} RepChain(cs: seq<Control>, ts: Trees, parent: int)
    requires RepAll(cs, ts, parent)
    ensures Chain(cs, ts)
    decreases ts
  {
    if ts.Cons? { RepChain(cs, ts.tail, parent); }
  }

  lemma {:induction false} ChainFrame(cs: seq<Control>, cs': seq<Control>, t: Tree, ts: Trees)
    requires Chain(cs, ts) && |cs| == |cs'| && NotBelow(t, ts)
    requires forall i :: 0 <= i < |cs| && i !in PoolsAll(t.kids) ==> cs'[i].nextSibling == cs[i].nextSibling
    ensures Chain(cs', ts)
    decreases ts
  {
    if ts.Cons? { ChainFrame(cs, cs', t, ts.tail); }
  }

  lemma ClearedLinked(cs: seq<Control>, t: Tree, siblings: Trees)
    requires t.pool < |cs| && t.pool !in PoolsAll(t.kids) && Linked(cs, t.pool, siblings)
    requires cs[t.pool].parent != NULL ==> Beside(t, cs[t.pool].parent, siblings)
    ensures Linked(Cleared(cs, t), t.pool, siblings)
  {
    if cs[t.pool].parent != NULL { ChainFrame(cs, Cleared(cs, t), t, siblings); }
  }

  lemma {:induction false} OthersNotBelow(t: Tree, ts: Trees)
    requires PoolsAll(t.kids) !! PoolsAll(ts)
    ensures NotBelow(t, ts)
    decreases ts
  {
    if ts.Cons? { OthersNotBelow(t, ts.tail); }
  }
}
