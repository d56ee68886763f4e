/**
 Pools in terms of the links of the table alone: which link leads to a pool, and in which
 order a clearing calls the cleanups.
 */
module PoolOrder {
  import opened Common
  import opened PoolForest
  import opened PoolLinks
  import opened PoolUpdates
  import opened PoolWorld

  // ----- the one link that leads to a pool -----

  lemma {:induction false} NextIsPrior(cs: seq<Control>, ts: Trees, parent: int, i: nat, p: nat)
    requires RepAll(cs, ts, parent) && UniqueAll(ts) && IsRoot(ts, i) && i < |cs| && cs[i].nextSibling == p
    ensures IsRoot(ts, p) && p < |cs| && cs[p].parent == parent && Prior(ts, p) == i
    decreases ts
  {
    if ts.head.pool == i {
      assert ts.tail.Cons? && ts.tail.head.pool == p && IsRoot(ts.tail, p);
      KidParent(cs, ts.tail, parent, p);
      KidIn(ts.tail, p);
    } else {
      KidIn(ts.tail, i);
      NextIsPrior(cs, ts.tail, parent, i, p);
      KidIn(ts.tail, p);
    }
  }

  lemma {:induction false} PriorIsNext(cs: seq<Control>, ts: Trees, parent: int, p: nat)
    requires RepAll(cs, ts, parent) && IsRoot(ts, p) && Prior(ts, p) >= 0
    ensures Prior(ts, p) < |cs| && cs[Prior(ts, p)].nextSibling == p
    decreases ts
  {
    if ts.tail.head.pool != p { PriorIsNext(cs, ts.tail, parent, p); }
  }

  lemma {:induction false} KidParent(cs: seq<Control>, ts: Trees, parent: int, p: nat)
    requires RepAll(cs, ts, parent) && IsRoot(ts, p)
    ensures p < |cs| && cs[p].parent == parent
    decreases ts
  {
    if ts.head.pool != p { KidParent(cs, ts.tail, parent, p); }
  }

  lemma {:induction false} NotPrior(ts: Trees, p: nat)
    requires !IsRoot(ts, p)
    ensures Prior(ts, p) == NULL
    decreases ts
  {
    if ts.Cons? && ts.tail.Cons? { NotPrior(ts.tail, p); }
  }

  /** Only the sibling before a pool, or the parent of a first child, links to it. */
  lemma LinksTo(cs: seq<Control>, roots: Trees, p: nat, i: nat)
    requires ForestInv(cs, roots) && p < |cs| && cs[p].active && i < |cs|
    ensures cs[i].nextSibling == p <==> cs[p].parent != NULL && i == Prior(Siblings(cs, roots, p), p)
    ensures cs[i].firstChild == p <==> cs[p].parent != NULL && i == cs[p].parent && Prior(Siblings(cs, roots, p), p) == NULL
  {
    RootParent(cs, roots, p);
    if cs[p].parent != NULL { OwnLinks(cs, roots, p); }
    if cs[i].active {
      RootParent(cs, roots, i);
      FindRoot(cs, roots, i);
      FindAllUnique(roots, i);
      if cs[i].nextSibling == p { SiblingOf(cs, roots, p, i); }
      if cs[i].firstChild == p { KidParent(cs, FindAll(roots, i).kids, i, p); PriorIn(FindAll(roots, i).kids, p); }
    }
  }

  lemma OwnLinks(cs: seq<Control>, roots: Trees, p: nat)
    requires ForestInv(cs, roots) && p < |cs| && cs[p].active && cs[p].parent != NULL
    ensures var (q, prior) := (cs[p].parent, Prior(Siblings(cs, roots, p), p));
            && 0 <= q < |cs| && (prior == NULL ==> cs[q].firstChild == p)
            && (prior != NULL ==> 0 <= prior < |cs| && cs[prior].nextSibling == p && cs[q].firstChild != p)
  {
    RootParent(cs, roots, p);
    var q := cs[p].parent;
    FindRoot(cs, roots, q);
    FindAllUnique(roots, q);
    PriorIn(FindAll(roots, q).kids, p);
    if Prior(FindAll(roots, q).kids, p) != NULL { PriorIsNext(cs, FindAll(roots, q).kids, q, p); }
  }

  lemma SiblingOf(cs: seq<Control>, roots: Trees, p: nat, i: nat)
    requires ForestInv(cs, roots) && p < |cs| && cs[p].active && i < |cs| && cs[i].active && cs[i].nextSibling == p
    ensures cs[i].parent == cs[p].parent != NULL && i == Prior(Siblings(cs, roots, p), p)
  {
    RootParent(cs, roots, i);
    var q := cs[i].parent;
    FindRoot(cs, roots, q);
    FindAllUnique(roots, q);
    NextIsPrior(cs, FindAll(roots, q).kids, q, i, p);
  }

  /** A destroyed pool leaves every control outside its subtree as it was, but for the one link that led to it. */
  lemma DestroyedLinks(cs: seq<Control>, roots: Trees, p: nat, i: nat)
    requires ForestInv(cs, roots) && p < |cs| && cs[p].active && i < |cs|
    ensures p in PoolsAll(roots)
    ensures var t := FindAll(roots, p);
            var c := Destroyed(cs, t, Siblings(cs, roots, p))[i];
            && (i in Pools(t) ==> c == ZERO)
            && (i !in Pools(t) ==>
                  c == cs[i].(nextSibling := if cs[i].nextSibling == p then cs[p].nextSibling else cs[i].nextSibling,
                              firstChild := if cs[i].firstChild == p then cs[p].nextSibling else cs[i].firstChild))
  {
    DestroyedAt(cs, roots, p, i);
    LinksTo(cs, roots, p, i);
  }

  // ----- the order of the calls -----

  /** Entry `index` of one of the two lists of a pool. */
  datatype Mark = Mark(pool: nat, pre: bool, index: nat)

  ghost function OwnMarks(p: nat, pre: bool, n: nat): (r: seq<Mark>)
    ensures |r| == n && forall k :: 0 <= k < n ==> r[k] == Mark(p, pre, k)
  {
    seq(n, k requires 0 <= k < n => Mark(p, pre, k))
  }

  /** The entries whose cleanups the trace of `t` consists of. */
  ghost function Marks(t: Tree): seq<Mark> {
    OwnMarks(t.pool, true, |t.pre|) + MarksAll(t.kids) + OwnMarks(t.pool, false, |t.cleanups|)
  }

  ghost function MarksAll(ts: Trees): seq<Mark> {
    if ts.Nil? then [] else Marks(ts.head) + MarksAll(ts.tail)
  }

  ghost function EntriesOf(c: Control, pre: bool): seq<Cleanup> {
    if pre then c.preCleanups else c.cleanups
  }

  ghost predicate Names(cs: seq<Control>, some: set<nat>, m: Mark, c: Call) {
    && m.pool in some && m.pool < |cs| && m.index < |EntriesOf(cs[m.pool], m.pre)|
    && var entry := EntriesOf(cs[m.pool], m.pre)[m.index];
       c == Call(entry.plain, entry.data)
  }

  ghost predicate NamesAll(cs: seq<Control>, some: set<nat>, ms: seq<Mark>, calls: seq<Call>) {
    |ms| == |calls| && forall i :: 0 <= i < |ms| ==> Names(cs, some, ms[i], calls[i])
  }

  lemma {:induction false} MarksName(cs: seq<Control>, t: Tree, parent: int, next: int)
    requires Rep(cs, t, parent, next)
    ensures NamesAll(cs, Pools(t), Marks(t), Trace(t))
    decreases t
  {
    MarksNameAll(cs, t.kids, t.pool);
    NamesMore(cs, PoolsAll(t.kids), Pools(t), MarksAll(t.kids), TraceAll(t.kids));
    OwnNames(cs, Pools(t), t.pool, true);
    OwnNames(cs, Pools(t), t.pool, false);
    var (own, kids) := (OwnMarks(t.pool, true, |t.pre|), MarksAll(t.kids));
    hide NamesAll, OwnMarks, MarksAll, Calls, TraceAll;
    NamesJoin(cs, Pools(t), own, Calls(t.pre), kids, TraceAll(t.kids));
    NamesJoin(cs, Pools(t), own + kids, Calls(t.pre) + TraceAll(t.kids), OwnMarks(t.pool, false, |t.cleanups|), Calls(t.cleanups));
  }

  lemma OwnNames(cs: seq<Control>, some: set<nat>, p: nat, pre: bool)
    requires p < |cs| && p in some
    ensures NamesAll(cs, some, OwnMarks(p, pre, |EntriesOf(cs[p], pre)|), Calls(EntriesOf(cs[p], pre)))
  {
  }

  lemma NamesJoin(cs: seq<Control>, some: set<nat>, a: seq<Mark>, x: seq<Call>, b: seq<Mark>, y: seq<Call>)
    requires NamesAll(cs, some, a, x) && NamesAll(cs, some, b, y)
    ensures NamesAll(cs, some, a + b, x + y)
  {
    forall i | 0 <= i < |a + b| ensures Names(cs, some, (a + b)[i], (x + y)[i]) {
      if i < |a| { assert Names(cs, some, a[i], x[i]); } else { assert Names(cs, some, b[i - |a|], y[i - |a|]); }
    }
  }

  lemma {:induction false} MarksNameAll(cs: seq<Control>, ts: Trees, parent: int)
    requires RepAll(cs, ts, parent)
    ensures NamesAll(cs, PoolsAll(ts), MarksAll(ts), TraceAll(ts))
    decreases ts
  {
    if ts.Cons? {
      MarksName(cs, ts.head, parent, HeadOf(ts.tail));
      MarksNameAll(cs, ts.tail, parent);
      NamesMore(cs, Pools(ts.head), PoolsAll(ts), Marks(ts.head), Trace(ts.head));
      NamesMore(cs, PoolsAll(ts.tail), PoolsAll(ts), MarksAll(ts.tail), TraceAll(ts.tail));
    }
  }

  lemma NamesMore(cs: seq<Control>, some: set<nat>, more: set<nat>, ms: seq<Mark>, calls: seq<Call>)
    requires NamesAll(cs, some, ms, calls) && some <= more
    ensures NamesAll(cs, more, ms, calls)
  {
    forall i | 0 <= i < |ms| ensures Names(cs, more, ms[i], calls[i]) { assert Names(cs, some, ms[i], calls[i]); }
  }

  ghost predicate Within(ms: seq<Mark>, some: set<nat>) {
    forall i :: 0 <= i < |ms| ==> ms[i].pool in some
  }

  ghost predicate Without(ms: seq<Mark>, some: set<nat>) {
    forall i :: 0 <= i < |ms| ==> ms[i].pool !in some
  }

  lemma {:induction false} MarksWithin(t: Tree)
    ensures Within(Marks(t), Pools(t))
    decreases t
  {
    MarksAllWithin(t.kids);
  }

  lemma {:induction false} MarksAllWithin(ts: Trees)
    ensures Within(MarksAll(ts), PoolsAll(ts))
    decreases ts
  {
    if ts.Cons? {
      MarksWithin(ts.head);
      MarksAllWithin(ts.tail);
    }
  }

  /** The marks of a subtree are one stretch of the marks of the tree. */
  lemma {:induction false} Segment(t: Tree, q: nat) returns (a: seq<Mark>, b: seq<Mark>)
    requires Unique(t) && q in Pools(t)
    ensures Marks(t) == a + Marks(Find(t, q)) + b && Without(a, Pools(Find(t, q))) && Without(b, Pools(Find(t, q)))
    decreases t
  {
    if t.pool == q {
      a, b := [], [];
    } else {
      var c, d := SegmentAll(t.kids, q);
      FindAllUnique(t.kids, q);
      var (own, last) := (OwnMarks(t.pool, true, |t.pre|), OwnMarks(t.pool, false, |t.cleanups|));
      a, b := own + c, d + last;
      assert own + (c + Marks(Find(t, q)) + d) + last == (own + c) + Marks(Find(t, q)) + (d + last);
    }
  }

  lemma {:induction false} SegmentAll(ts: Trees, q: nat) returns (a: seq<Mark>, b: seq<Mark>)
    requires UniqueAll(ts) && q in PoolsAll(ts)
    ensures MarksAll(ts) == a + Marks(FindAll(ts, q)) + b
    ensures Without(a, Pools(FindAll(ts, q))) && Without(b, Pools(FindAll(ts, q)))
    decreases ts
  {
    var found := Marks(FindAll(ts, q));
    if q in Pools(ts.head) {
      var d;
      a, d := Segment(ts.head, q);
      FindUnique(ts.head, q);
      MarksAllWithin(ts.tail);
      b := d + MarksAll(ts.tail);
      assert (a + found + d) + MarksAll(ts.tail) == a + found + b;
    } else {
      var c;
      c, b := SegmentAll(ts.tail, q);
      FindAllUnique(ts.tail, q);
      MarksWithin(ts.head);
      a := Marks(ts.head) + c;
      assert Marks(ts.head) + (c + found + b) == a + found + b;
    }
  }

  /** Every entry has one place. */
  lemma {:induction false} MarksOnce(cs: seq<Control>, t: Tree, parent: int, next: int)
    requires Rep(cs, t, parent, next) && Unique(t)
    ensures AllOnce(cs, Pools(t), Marks(t))
    decreases t
  {
    MarksAllOnce(cs, t.kids, t.pool);
    MarksAllWithin(t.kids);
    var (own, kids, last) := (OwnMarks(t.pool, true, |t.pre|), MarksAll(t.kids), OwnMarks(t.pool, false, |t.cleanups|));
    forall q: nat, pre, k: nat | q in Pools(t) && q < |cs| && k < |EntriesOf(cs[q], pre)| ensures Mark(q, pre, k) in own + kids + last {
      if q == t.pool {
        assert if pre then own[k] == Mark(q, pre, k) else last[k] == Mark(q, pre, k);
      }
    }
  }

  ghost predicate AllOnce(cs: seq<Control>, some: set<nat>, ms: seq<Mark>) {
    && (forall i, j :: 0 <= i < j < |ms| ==> ms[i] != ms[j])
    && forall q: nat, pre, k: nat :: q in some && q < |cs| && k < |EntriesOf(cs[q], pre)| ==> Mark(q, pre, k) in ms
  }

  lemma {:induction false} MarksAllOnce(cs: seq<Control>, ts: Trees, parent: int)
    requires RepAll(cs, ts, parent) && UniqueAll(ts)
    ensures AllOnce(cs, PoolsAll(ts), MarksAll(ts))
    decreases ts
  {
    if ts.Cons? {
      MarksOnce(cs, ts.head, parent, HeadOf(ts.tail));
      MarksAllOnce(cs, ts.tail, parent);
      MarksWithin(ts.head);
      MarksAllWithin(ts.tail);
    }
  }

  // ----- order -----

  /** Every mark of pool `x` comes before every mark of pool `y`. */
  ghost predicate Before(ms: seq<Mark>, x: nat, y: nat) {
    forall i, j :: 0 <= i < |ms| && 0 <= j < |ms| && ms[i].pool == x && ms[j].pool == y ==> i < j
  }

  /** Pre-cleanups of pool `y` come before the marks of pool `x`, its cleanups after them. */
  ghost predicate Around(ms: seq<Mark>, x: nat, y: nat) {
    forall i, j :: 0 <= i < |ms| && 0 <= j < |ms| && ms[i].pool == x && ms[j].pool == y ==> if ms[j].pre then j < i else i < j
  }

  /** The two lists of one pool. */
  ghost predicate OwnInOrder(ms: seq<Mark>, x: nat) {
    forall i, j :: 0 <= i < j < |ms| && ms[i].pool == x && ms[j].pool == x ==>
      (ms[i].pre && !ms[j].pre) || (ms[i].pre == ms[j].pre && ms[i].index < ms[j].index)
  }

  lemma OwnOrder(t: Tree, x: nat)
    requires Unique(t) && x in Pools(t)
    ensures OwnInOrder(Marks(t), x)
  {
    var a, b := Segment(t, x);
    FindUnique(t, x);
    var n := Find(t, x);
    MarksAllWithin(n.kids);
    var (own, kids, last) := (OwnMarks(x, true, |n.pre|), MarksAll(n.kids), OwnMarks(x, false, |n.cleanups|));
    OwnPlaces(a, own, kids, last, b, x);
    assert Marks(t) == a + (own + kids + last) + b;
  }

  lemma OwnPlaces(a: seq<Mark>, own: seq<Mark>, kids: seq<Mark>, last: seq<Mark>, b: seq<Mark>, x: nat)
    requires Without(a, {x}) && Without(b, {x}) && Without(kids, {x})
    requires own == OwnMarks(x, true, |own|) && last == OwnMarks(x, false, |last|)
    ensures OwnInOrder(a + (own + kids + last) + b, x)
  {
  }

  lemma BelowOrder(t: Tree, x: nat, y: nat)
    requires Unique(t) && y in Pools(t) && x in PoolsAll(Find(t, y).kids)
    ensures Around(Marks(t), x, y)
  {
    var a, b := Segment(t, y);
    FindUnique(t, y);
    var n := Find(t, y);
    MarksAllWithin(n.kids);
    var (own, kids, last) := (OwnMarks(y, true, |n.pre|), MarksAll(n.kids), OwnMarks(y, false, |n.cleanups|));
    AroundPlaces(a, own, kids, last, b, x, y);
    assert Marks(t) == a + (own + kids + last) + b;
  }

  lemma AroundPlaces(a: seq<Mark>, own: seq<Mark>, kids: seq<Mark>, last: seq<Mark>, b: seq<Mark>, x: nat, y: nat)
    requires Without(a, {x, y}) && Without(b, {x, y}) && Without(kids, {y}) && x != y
    requires own == OwnMarks(y, true, |own|) && last == OwnMarks(y, false, |last|)
    ensures Around(a + (own + kids + last) + b, x, y)
  {
  }

  /** `v` is a later tree of the list than `u`. */
  ghost predicate Follows(ts: Trees, u: nat, v: nat)
    decreases ts
  {
    ts.Cons? && ((ts.head.pool == u && IsRoot(ts.tail, v)) || Follows(ts.tail, u, v))
  }

  lemma {:induction false} KidsOrder(ts: Trees, u: nat, v: nat, x: nat, y: nat)
    requires UniqueAll(ts) && Follows(ts, u, v) && u in PoolsAll(ts) && v in PoolsAll(ts)
    requires x in Pools(FindAll(ts, u)) && y in Pools(FindAll(ts, v))
    ensures Before(MarksAll(ts), x, y)
    decreases ts
  {
    MarksWithin(ts.head);
    MarksAllWithin(ts.tail);
    if ts.head.pool == u && IsRoot(ts.tail, v) {
      KidIn(ts.tail, v);
    } else {
      FollowsIn(ts.tail, u, v);
      FindAllUnique(ts.tail, u);
      FindAllUnique(ts.tail, v);
      KidsOrder(ts.tail, u, v, x, y);
    }
  }

  lemma {:induction false} FollowsIn(ts: Trees, u: nat, v: nat)
    requires Follows(ts, u, v)
    ensures u in PoolsAll(ts) && v in PoolsAll(ts) && IsRoot(ts, u) && IsRoot(ts, v)
    decreases ts
  {
    if ts.head.pool == u && IsRoot(ts.tail, v) { KidIn(ts.tail, v); } else { FollowsIn(ts.tail, u, v); }
  }

  lemma Regroup(a: seq<Mark>, b: seq<Mark>, c: seq<Mark>, d: seq<Mark>, e: seq<Mark>)
    ensures a + (b + c + d) + e == (a + b) + c + (d + e)
  {
  }

  lemma SiblingOrder(t: Tree, q: nat, u: nat, v: nat, x: nat, y: nat)
    requires Unique(t) && q in Pools(t) && Follows(Find(t, q).kids, u, v)
    requires u in PoolsAll(Find(t, q).kids) && v in PoolsAll(Find(t, q).kids)
    requires x in Pools(FindAll(Find(t, q).kids, u)) && y in Pools(FindAll(Find(t, q).kids, v))
    ensures Before(Marks(t), x, y)
  {
    var a, b := Segment(t, q);
    FindUnique(t, q);
    var n := Find(t, q);
    FindAllUnique(n.kids, u);
    FindAllUnique(n.kids, v);
    KidsOrder(n.kids, u, v, x, y);
    var (own, kids, last) := (OwnMarks(q, true, |n.pre|), MarksAll(n.kids), OwnMarks(q, false, |n.cleanups|));
    BeforePlaces(a + own, kids, last + b, x, y);
    Regroup(a, own, kids, last, b);
  }

  lemma BeforePlaces(a: seq<Mark>, kids: seq<Mark>, b: seq<Mark>, x: nat, y: nat)
    requires Without(a, {x, y}) && Without(b, {x, y}) && Before(kids, x, y)
    ensures Before(a + kids + b, x, y)
  {
    var all := a + kids + b;
    forall i, j | 0 <= i < |all| && 0 <= j < |all| && all[i].pool == x && all[j].pool == y ensures i < j {
      assert all[i] == kids[i - |a|] && all[j] == kids[j - |a|];
    }
  }

  // ----- the links of the table -----

  /** The parent links lead from pool `x` along `path` up to pool `y`. */
  ghost predicate Climbs(cs: seq<Control>, path: seq<nat>, x: nat, y: nat) {
    && |path| >= 2 && path[0] == x && path[|path| - 1] == y
    && forall k :: 0 <= k < |path| - 1 ==> path[k] < |cs| && cs[path[k]].parent == path[k + 1]
  }

  /** The sibling links lead from pool `u` along `chain` to pool `v`, which is older. */
  ghost predicate Passes(cs: seq<Control>, chain: seq<nat>, u: nat, v: nat) {
    && |chain| >= 2 && chain[0] == u && chain[|chain| - 1] == v
    && forall k :: 0 <= k < |chain| - 1 ==> chain[k] < |cs| && cs[chain[k]].nextSibling == chain[k + 1]
  }

  ghost predicate Under(cs: seq<Control>, x: nat, y: nat) {
    exists path: seq<nat> :: Climbs(cs, path, x, y)
  }

  ghost predicate Older(cs: seq<Control>, u: nat, v: nat) {
    exists chain: seq<nat> :: Passes(cs, chain, u, v)
  }

  lemma {:induction false} UnderIsBelow(cs: seq<Control>, roots: Trees, path: seq<nat>, x: nat, y: nat)
    requires ForestInv(cs, roots) && Climbs(cs, path, x, y)
    ensures x in PoolsAll(roots) && y in PoolsAll(roots) && x in PoolsAll(FindAll(roots, y).kids)
    decreases |path|
  {
    assert cs[x].parent == path[1];
    RootParent(cs, roots, x);
    var q := path[1];
    KidIn(FindAll(roots, q).kids, x);
    if |path| > 2 {
      var rest := path[1..];
      UnderIsBelow(cs, roots, rest, q, y);
      FindAllUnique(roots, y);
      FindAllNested(roots, y, q);
      FindAllUnique(FindAll(roots, y).kids, q);
    }
  }

  lemma {:induction false} PathFrom(cs: seq<Control>, t: Tree, parent: int, next: int, x: nat) returns (path: seq<nat>)
    requires Rep(cs, t, parent, next) && x in PoolsAll(t.kids)
    ensures Climbs(cs, path, x, t.pool)
    decreases t
  {
    path := PathFromKid(cs, t.kids, t.pool, x);
  }

  lemma {:induction false} PathFromKid(cs: seq<Control>, ts: Trees, parent: nat, x: nat) returns (path: seq<nat>)
    requires RepAll(cs, ts, parent) && x in PoolsAll(ts)
    ensures Climbs(cs, path, x, parent)
    decreases ts
  {
    if x == ts.head.pool {
      path := [x, parent];
    } else if x in Pools(ts.head) {
      var low := PathFrom(cs, ts.head, parent, HeadOf(ts.tail), x);
      path := low + [parent];
    } else {
      path := PathFromKid(cs, ts.tail, parent, x);
    }
  }

  /** The subtree of a pool is the pool and whatever the parent links lead to it from. */
  lemma SubtreeIsUnder(cs: seq<Control>, roots: Trees, p: nat, q: nat)
    requires ForestInv(cs, roots) && p < |cs| && cs[p].active
    ensures p in PoolsAll(roots)
    ensures q in Pools(FindAll(roots, p)) <==> q == p || Under(cs, q, p)
  {
    ReadyToClear(cs, roots, p);
    var t := FindAll(roots, p);
    if q in PoolsAll(t.kids) {
      var path := PathFrom(cs, t, cs[p].parent, cs[p].nextSibling, q);
    }
    if Under(cs, q, p) {
      var path :| Climbs(cs, path, q, p);
      UnderIsBelow(cs, roots, path, q, p);
    }
  }

  lemma {:induction false} NextFollows(cs: seq<Control>, ts: Trees, parent: int, i: nat, p: nat)
    requires RepAll(cs, ts, parent) && UniqueAll(ts) && IsRoot(ts, i) && i < |cs| && cs[i].nextSibling == p
    ensures Follows(ts, i, p)
    decreases ts
  {
    if ts.head.pool == i {
      assert ts.tail.Cons? && ts.tail.head.pool == p && IsRoot(ts.tail, p);
    } else {
      NextFollows(cs, ts.tail, parent, i, p);
    }
  }

  lemma {:induction false} FollowsOn(ts: Trees, u: nat, w: nat, v: nat)
    requires UniqueAll(ts) && Follows(ts, u, w) && Follows(ts, w, v)
    ensures Follows(ts, u, v)
    decreases ts
  {
    if ts.head.pool == u && IsRoot(ts.tail, w) {
      KidIn(ts.tail, w);
      FollowsIn(ts.tail, w, v);
    } else {
      FollowsIn(ts.tail, u, w);
      FollowsOn(ts.tail, u, w, v);
    }
  }

  lemma {:induction false} OlderFollows(cs: seq<Control>, roots: Trees, chain: seq<nat>, u: nat, v: nat)
    requires ForestInv(cs, roots) && Passes(cs, chain, u, v) && forall k :: 0 <= k < |chain| ==> chain[k] < |cs| && cs[chain[k]].active
    ensures u < |cs| && v < |cs| && cs[u].parent >= 0 && cs[u].parent == cs[v].parent && cs[u].parent in PoolsAll(roots)
    ensures Follows(FindAll(roots, cs[u].parent).kids, u, v)
    decreases |chain|
  {
    var w := chain[1];
    assert cs[u].nextSibling == w;
    SiblingOf(cs, roots, w, u);
    RootParent(cs, roots, u);
    var q := cs[u].parent;
    FindRoot(cs, roots, q);
    FindAllUnique(roots, q);
    NextFollows(cs, FindAll(roots, q).kids, q, u, w);
    if |chain| > 2 {
      var rest := chain[1..];
      OlderFollows(cs, roots, rest, w, v);
      FollowsOn(FindAll(roots, q).kids, u, w, v);
    }
  }

  /** A sibling link leads to an active pool. */
  lemma {:induction false} ChainActive(cs: seq<Control>, roots: Trees, chain: seq<nat>, u: nat, v: nat, k: nat)
    requires ForestInv(cs, roots) && Passes(cs, chain, u, v) && k < |chain|
    ensures chain[k] < |cs| && cs[chain[k]].active
  {
    if k < |chain| - 1 {
      assert cs[chain[k]].nextSibling == chain[k + 1];
    } else {
      var i := chain[k - 1];
      assert cs[i].nextSibling == chain[k];
      RootParent(cs, roots, i);
      var q := cs[i].parent;
      FindRoot(cs, roots, q);
      FindAllUnique(roots, q);
      NextIsPrior(cs, FindAll(roots, q).kids, q, i, chain[k]);
      KidIn(FindAll(roots, q).kids, chain[k]);
      RepAllInTable(cs, FindAll(roots, q).kids, q, chain[k]);
    }
  }

  lemma UnderOrder(cs: seq<Control>, roots: Trees, p: nat, x: nat, y: nat)
    requires ForestInv(cs, roots) && p in PoolsAll(roots) && Under(cs, x, y)
    requires x in Pools(FindAll(roots, p)) && y in Pools(FindAll(roots, p))
    ensures Around(Marks(FindAll(roots, p)), x, y)
  {
    var path :| Climbs(cs, path, x, y);
    UnderIsBelow(cs, roots, path, x, y);
    FindAllUnique(roots, p);
    FindAllNested(roots, p, y);
    BelowOrder(FindAll(roots, p), x, y);
  }

  lemma OlderOrder(cs: seq<Control>, roots: Trees, p: nat, u: nat, v: nat, x: nat, y: nat)
    requires ForestInv(cs, roots) && p in PoolsAll(roots) && Older(cs, u, v) && Under(cs, u, p)
    requires (x == u || Under(cs, x, u)) && (y == v || Under(cs, y, v))
    ensures Before(Marks(FindAll(roots, p)), x, y)
  {
    var chain :| Passes(cs, chain, u, v);
    forall k | 0 <= k < |chain| ensures chain[k] < |cs| && cs[chain[k]].active { ChainActive(cs, roots, chain, u, v, k); }
    OlderFollows(cs, roots, chain, u, v);
    var path :| Climbs(cs, path, u, p);
    UnderIsBelow(cs, roots, path, u, p);
    var (t, q) := (FindAll(roots, p), cs[u].parent);
    FindAllUnique(roots, p);
    FindRoot(cs, roots, p);
    ParentIs(cs, t, cs[p].parent, cs[p].nextSibling, u);
    FindAllNested(roots, p, q);
    FollowsIn(Find(t, q).kids, u, v);
    KidSubtree(cs, roots, q, u, x);
    KidSubtree(cs, roots, q, v, y);
    SiblingOrder(t, q, u, v, x, y);
  }

  lemma KidSubtree(cs: seq<Control>, roots: Trees, q: nat, u: nat, x: nat)
    requires ForestInv(cs, roots) && q in PoolsAll(roots) && IsRoot(FindAll(roots, q).kids, u) && (x == u || Under(cs, x, u))
    ensures u in PoolsAll(FindAll(roots, q).kids) && x in Pools(FindAll(FindAll(roots, q).kids, u))
  {
    var kids := FindAll(roots, q).kids;
    FindAllUnique(roots, q);
    KidIn(kids, u);
    FindAllNested(roots, q, u);
    if x != u {
      var path :| Climbs(cs, path, x, u);
      UnderIsBelow(cs, roots, path, x, u);
    }
  }

  /**
   The calls of a clearing or destruction of pool `p`, by the links of the table. Each entry
   registered with `p` or a pool under it is called once. The lists of one pool are called
   newest entry first, the pre-cleanups before the cleanups; whatever is registered under a
   pool comes between the two; and of two siblings everything at or under the newer one
   comes before everything at or under the older one.
   */
  lemma CallOrder(cs: seq<Control>, roots: Trees, p: nat) returns (ms: seq<Mark>)
    requires ForestInv(cs, roots) && p < |cs| && cs[p].active
    ensures p in PoolsAll(roots) && |ms| == |Trace(FindAll(roots, p))|
    ensures forall i :: 0 <= i < |ms| ==>
              && (ms[i].pool == p || Under(cs, ms[i].pool, p)) && ms[i].pool < |cs|
              && var list := if ms[i].pre then cs[ms[i].pool].preCleanups else cs[ms[i].pool].cleanups;
                 ms[i].index < |list| && Trace(FindAll(roots, p))[i] == Call(list[ms[i].index].plain, list[ms[i].index].data)
    ensures forall i, j :: 0 <= i < j < |ms| ==> ms[i] != ms[j]
    ensures forall q: nat, k: nat :: (q == p || Under(cs, q, p)) && q < |cs| ==>
              (k < |cs[q].preCleanups| ==> Mark(q, true, k) in ms) && (k < |cs[q].cleanups| ==> Mark(q, false, k) in ms)
    ensures forall i, j :: 0 <= i < j < |ms| && ms[i].pool == ms[j].pool ==>
              (ms[i].pre && !ms[j].pre) || (ms[i].pre == ms[j].pre && ms[i].index < ms[j].index)
    ensures forall i, j :: 0 <= i < |ms| && 0 <= j < |ms| && Under(cs, ms[i].pool, ms[j].pool) ==>
              if ms[j].pre then j < i else i < j
    ensures forall i, j, u, v :: 0 <= i < |ms| && 0 <= j < |ms| && Older(cs, u, v) && Under(cs, u, p)
                                 && (ms[i].pool == u || Under(cs, ms[i].pool, u)) && (ms[j].pool == v || Under(cs, ms[j].pool, v)) ==>
              i < j
  {
    hide *;
    ms := NamedOnce(cs, roots, p);
    InOrder(cs, roots, p, ms);
  }

  lemma NamedOnce(cs: seq<Control>, roots: Trees, p: nat) returns (ms: seq<Mark>)
    requires ForestInv(cs, roots) && p < |cs| && cs[p].active
    ensures p in PoolsAll(roots) && ms == Marks(FindAll(roots, p)) && |ms| == |Trace(FindAll(roots, p))|
    ensures forall i :: 0 <= i < |ms| ==>
              && (ms[i].pool == p || Under(cs, ms[i].pool, p)) && ms[i].pool < |cs|
              && var list := if ms[i].pre then cs[ms[i].pool].preCleanups else cs[ms[i].pool].cleanups;
                 ms[i].index < |list| && Trace(FindAll(roots, p))[i] == Call(list[ms[i].index].plain, list[ms[i].index].data)
    ensures forall i, j :: 0 <= i < j < |ms| ==> ms[i] != ms[j]
    ensures forall q: nat, k: nat :: (q == p || Under(cs, q, p)) && q < |cs| ==>
              (k < |cs[q].preCleanups| ==> Mark(q, true, k) in ms) && (k < |cs[q].cleanups| ==> Mark(q, false, k) in ms)
  {
    hide ForestInv, Marks, Trace, Under, Pools, FindAll;
    ReadyToClear(cs, roots, p);
    var t := FindAll(roots, p);
    ms := Marks(t);
    MarksName(cs, t, cs[p].parent, cs[p].nextSibling);
    MarksOnce(cs, t, cs[p].parent, cs[p].nextSibling);
    forall i | 0 <= i < |ms| ensures Names(cs, Pools(t), ms[i], Trace(t)[i]) { }
    forall q: nat ensures q in Pools(t) <==> q == p || Under(cs, q, p) { SubtreeIsUnder(cs, roots, p, q); }
    forall q: nat, k: nat | q in Pools(t) && q < |cs|
      ensures (k < |cs[q].preCleanups| ==> Mark(q, true, k) in ms) && (k < |cs[q].cleanups| ==> Mark(q, false, k) in ms) {
      assert EntriesOf(cs[q], true) == cs[q].preCleanups && EntriesOf(cs[q], false) == cs[q].cleanups;
    }
  }

  lemma InOrder(cs: seq<Control>, roots: Trees, p: nat, ms: seq<Mark>)
    requires ForestInv(cs, roots) && p < |cs| && cs[p].active && p in PoolsAll(roots) && ms == Marks(FindAll(roots, p))
    ensures forall i, j :: 0 <= i < j < |ms| && ms[i].pool == ms[j].pool ==>
              (ms[i].pre && !ms[j].pre) || (ms[i].pre == ms[j].pre && ms[i].index < ms[j].index)
    ensures forall i, j :: 0 <= i < |ms| && 0 <= j < |ms| && Under(cs, ms[i].pool, ms[j].pool) ==>
              if ms[j].pre then j < i else i < j
    ensures forall i, j, u, v :: 0 <= i < |ms| && 0 <= j < |ms| && Older(cs, u, v) && Under(cs, u, p)
                                 && (ms[i].pool == u || Under(cs, ms[i].pool, u)) && (ms[j].pool == v || Under(cs, ms[j].pool, v)) ==>
              i < j
  {
    hide ForestInv, Marks, Trace, Under, Older, Pools, PoolsAll, FindAll;
    ReadyToClear(cs, roots, p);
    var t := FindAll(roots, p);
    MarksWithin(t);
    forall x | x in Pools(t) ensures OwnInOrder(ms, x) { OwnOrder(t, x); }
    forall x, y | x in Pools(t) && y in Pools(t) && Under(cs, x, y) ensures Around(ms, x, y) { UnderOrder(cs, roots, p, x, y); }
    forall u, v, x, y | Older(cs, u, v) && Under(cs, u, p) && (x == u || Under(cs, x, u)) && (y == v || Under(cs, y, v))
      ensures Before(ms, x, y) {
      OlderOrder(cs, roots, p, u, v, x, y);
    }
  }

  lemma ReadyToClear(cs: seq<Control>, roots: Trees, p: nat)
    requires ForestInv(cs, roots) && p < |cs| && cs[p].active
    ensures p in PoolsAll(roots)
    ensures Rep(cs, FindAll(roots, p), cs[p].parent, cs[p].nextSibling) && Unique(FindAll(roots, p))
  {
    FindRoot(cs, roots, p);
    FindAllUnique(roots, p);
  }
}
