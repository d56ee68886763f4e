/** What every run of the threads of a module queue keeps. */
module QueueRuns {
  import opened Common
  import opened QueueState
  import opened QueueTheorems
  import opened QueueSteps

  ghost predicate Moves(x: Sys, t: nat, a: Action, y: Sys) {
    Enabled(x, t, a) && y == Next(x, t, a)
  }

  ghost predicate Run(tr: seq<Sys>, sched: seq<(nat, Action)>) {
    && |tr| == |sched| + 1 && Initial(tr[0])
    && forall i {:trigger sched[i]} :: 0 <= i < |sched| ==> Moves(tr[i], sched[i].0, sched[i].1, tr[i + 1])
  }

  /** The invariant holds in every reachable state. */
  lemma {:induction false} RunInv(tr: seq<Sys>, sched: seq<(nat, Action)>, k: nat)
    requires Run(tr, sched) && k < |tr|
    ensures Inv(tr[k])
  {
    hide Inv, Enabled, Next;
    if k == 0 {
      InitialInv(tr[0]);
    } else {
      RunInv(tr, sched, k - 1);
      assert Moves(tr[k - 1], sched[k - 1].0, sched[k - 1].1, tr[k]);
      StepInv(tr[k - 1], sched[k - 1].0, sched[k - 1].1);
    }
  }

  ghost function One(b: bool): nat {
    if b then 1 else 0
  }

  /**
   Every element is exactly one of free, queued, held by a consumer, in the hands of one
   thread, and stranded; no queue entry is repeated, and no two threads hold one element.
   */
  lemma ElementsAreConserved(tr: seq<Sys>, sched: seq<(nat, Action)>, k: nat, h: Handle)
    requires Run(tr, sched) && k < |tr| && InPools(h, tr[k].pools)
    ensures var x := tr[k];
            One(!At(x.pools, h).used) + One(h in x.queue) + One(h in x.held) + One(h in Hands(x.pcs)) + One(h in x.stranded) == 1
    ensures Distinct(tr[k].queue) && HandsApart(tr[k].pcs)
  {
    RunInv(tr, sched, k);
  }

  // ----- elements that nobody can reach -----

  /** Used, but neither queued nor held by a consumer or a thread. */
  ghost predicate Unreachable(x: Sys, h: Handle) {
    InPools(h, x.pools) && At(x.pools, h).used && h !in x.queue && h !in x.held && h !in Hands(x.pcs)
  }

  lemma StrandedIsUnreachable(x: Sys)
    requires Inv(x)
    ensures forall h :: Unreachable(x, h) <==> h in x.stranded
  {
  }

  /** The ring refuses an element: of a push, of a push that found it empty, or of a cleaning. */
  ghost predicate Refuses(x: Sys, t: nat, a: Action)
    requires Enabled(x, t, a)
  {
    Full(x) && match a
               case Enter => true
               case Fall => true
               case Judge => Keeps(x.sweep.started, At(x.pools, x.pcs[t].h), x.sweep.st)
               case _ => false
  }

  /** An element becomes unreachable exactly when a full ring refuses it, and stays so. */
  lemma StrandsIff(x: Sys, t: nat, a: Action)
    requires Inv(x) && Enabled(x, t, a)
    ensures var y := Next(x, t, a);
            && (forall h :: Unreachable(x, h) ==> Unreachable(y, h))
            && ((exists h :: Unreachable(y, h) && !Unreachable(x, h)) <==>
                  && |x.queue| >= x.size
                  && (a.Enter? || a.Fall? || (a.Judge? && Keeps(x.sweep.started, At(x.pools, x.pcs[t].h), x.sweep.st))))
  {
    var y := Next(x, t, a);
    StepInv(x, t, a);
    StrandedIsUnreachable(x);
    StrandedIsUnreachable(y);
    StrandedNext(x, t, a);
    hide Inv, Unreachable, Next;
    if Refuses(x, t, a) { assert Unreachable(y, x.pcs[t].h) && !Unreachable(x, x.pcs[t].h); }
  }

  lemma StrandedNext(x: Sys, t: nat, a: Action)
    requires Inv(x) && Enabled(x, t, a)
    ensures Refuses(x, t, a) ==> HasHand(x.pcs[t]) && x.pcs[t].h !in x.stranded
    ensures Next(x, t, a).stranded == x.stranded + if Refuses(x, t, a) then {x.pcs[t].h} else {}
  {
    RefusedInHands(x, t, a);
  }

  lemma RefusedInHands(x: Sys, t: nat, a: Action)
    requires Enabled(x, t, a)
    ensures Refuses(x, t, a) ==> Hands(x.pcs) != {} && HasHand(x.pcs[t]) && x.pcs[t].h in Hands(x.pcs) && Full(x)
  {
    if Refuses(x, t, a) { assert x.pcs[t].h in Hands(x.pcs); }
  }

  // ----- a ring as large as all pools together -----

  /** Every handle of the pools, once. */
  ghost function AllHandles(pools: seq<Pool>): (r: seq<Handle>)
    ensures |r| == Total(pools)
  {
    if pools == [] then []
    else
      var n := |pools| - 1;
      AllHandles(pools[..n]) + seq(|pools[n].elements|, (i: nat) => Handle(n, i))
  }

  /** Number of elements of all pools. */
  ghost function Total(pools: seq<Pool>): nat {
    if pools == [] then 0 else Total(pools[..|pools| - 1]) + |pools[|pools| - 1].elements|
  }

  lemma {:induction false} HandleListed(pools: seq<Pool>, h: Handle)
    requires InPools(h, pools)
    ensures h in AllHandles(pools)
  {
    var n := |pools| - 1;
    var last := seq(|pools[n].elements|, (i: nat) => Handle(n, i));
    if h.pool == n {
      assert last[h.index] == h;
    } else {
      HandleListed(pools[..n], h);
    }
  }

  lemma {:induction false} DistinctSize(r: seq<Handle>, q: seq<Handle>)
    requires Distinct(r) && forall h :: h in r ==> h in q
    ensures |r| <= |q|
    decreases |r|
  {
    if r != [] {
      assert r[0] in q;
      var k :| 0 <= k < |q| && q[k] == r[0];
      var q' := q[..k] + q[k + 1..];
      forall h | h in r[1..] ensures h in q' {
        assert h in q && h != r[0];
      }
      DistinctSize(r[1..], q');
    }
  }

  /** With a ring as large as all pools together, an element in a thread's hands always finds room. */
  lemma RoomForAll(x: Sys, h: Handle)
    requires Inv(x) && Total(x.pools) <= x.size && InPools(h, x.pools) && h !in x.queue
    ensures !Full(x)
  {
    var r := [h] + x.queue;
    DistinctCons(h, x.queue);
    forall g | g in r ensures g in AllHandles(x.pools) {
      HandleListed(x.pools, g);
    }
    DistinctSize(r, AllHandles(x.pools));
  }

  ghost predicate SameLengths(a: seq<Pool>, b: seq<Pool>) {
    |a| == |b| && forall p :: 0 <= p < |a| ==> |a[p].elements| == |b[p].elements|
  }

  lemma {:induction false} TotalSame(a: seq<Pool>, b: seq<Pool>)
    requires SameLengths(a, b)
    ensures Total(a) == Total(b)
  {
    if a != [] { TotalSame(a[..|a| - 1], b[..|b| - 1]); }
  }

  lemma NextLengths(x: Sys, t: nat, a: Action)
    requires Enabled(x, t, a)
    ensures Next(x, t, a).size == x.size && Total(Next(x, t, a).pools) == Total(x.pools)
  {
    assert SameLengths(x.pools, Next(x, t, a).pools);
    TotalSame(x.pools, Next(x, t, a).pools);
  }

  /**
   When the ring has room for every element of the pools, no run ever strands one: whoever
   has an element in hand finds room for it.
   */
  lemma {:induction false} NothingIsStranded(tr: seq<Sys>, sched: seq<(nat, Action)>, k: nat)
    requires Run(tr, sched) && k < |tr| && Total(tr[0].pools) <= tr[0].size
    ensures tr[k].stranded == {} && tr[k].size == tr[0].size && Total(tr[k].pools) == Total(tr[0].pools)
    ensures Hands(tr[k].pcs) != {} ==> !Full(tr[k])
  {
    RunInv(tr, sched, k);
    if k > 0 {
      NothingIsStranded(tr, sched, k - 1);
      RunInv(tr, sched, k - 1);
      var x, t, a := tr[k - 1], sched[k - 1].0, sched[k - 1].1;
      assert Moves(x, t, a, tr[k]);
      NextLengths(x, t, a);
      StrandedNext(x, t, a);
      RefusedInHands(x, t, a);
    }
    if h :| h in Hands(tr[k].pcs) { RoomForAll(tr[k], h); }
  }

  // ----- when a push fails -----

  lemma {:induction false} SomeFree(elements: seq<Element>)
    ensures FreeOf(elements) > 0 <==> exists i :: 0 <= i < |elements| && !elements[i].used
    ensures FreeOf(elements) <= |elements|
  {
    if elements != [] {
      SomeFree(elements[1..]);
      if elements[0].used && FreeOf(elements[1..]) > 0 {
        var i :| 0 <= i < |elements[1..]| && !elements[1..][i].used;
        assert !elements[i + 1].used;
      }
      if i :| 0 <= i < |elements| && !elements[i].used {
        if i > 0 { assert !elements[1..][i - 1].used; }
      }
    }
  }

  lemma {:induction false} FreeingBound(pcs: seq<Pc>, p: nat)
    ensures Freeing(pcs, p) <= |pcs| && Entering(pcs) <= |pcs|
  {
    if pcs != [] { FreeingBound(pcs[1..], p); }
  }

  lemma Mod32Zero(n: int)
    requires -0x1_0000_0000 < n < 0x1_0000_0000
    ensures Mod32(n) == 0 <==> n == 0
  {
  }

  ghost predicate SomeElementFree(x: Sys, op: Operation)
    requires ValidIndex(x.pools, op)
  {
    exists i :: 0 <= i < |x.pools[op.opIndex].elements| && !x.pools[op.opIndex].elements[i].used
  }

  /**
   The unlocked test of the available count refuses a push exactly when its index is not
   valid or as many releases of the pool are between FREE and the count as it has free
   elements. So with no such release it refuses exactly the exhausted pool, and with one
   it may refuse a pool that has a free element.
   */
  lemma TryRefusedIff(tr: seq<Sys>, sched: seq<(nat, Action)>, k: nat, t: nat, op: Operation, first: bool)
    requires Run(tr, sched) && k < |tr| && Enabled(tr[k], t, Try(op, first))
    ensures var x := tr[k];
            && (Next(x, t, Try(op, first)).pcs[t] == Outside <==>
                  !ValidIndex(x.pools, op) || FreeOf(x.pools[op.opIndex].elements) == Freeing(x.pcs, op.opIndex))
            && (ValidIndex(x.pools, op) && Freeing(x.pcs, op.opIndex) == 0 ==>
                  (Next(x, t, Try(op, first)).pcs[t] == Outside <==> !SomeElementFree(x, op)))
  {
    RunInv(tr, sched, k);
    var x := tr[k];
    if ValidIndex(x.pools, op) {
      var p := op.opIndex as nat;
      assert PoolOk(x.pools[p], Freeing(x.pcs, p));
      SomeFree(x.pools[p].elements);
      FreeingBound(x.pcs, p);
      Mod32Zero(FreeOf(x.pools[p].elements) - Freeing(x.pcs, p));
    }
  }

  /** No two threads search one pool at a time. */
  ghost predicate SearchesApart(pcs: seq<Pc>) {
    forall t, u :: 0 <= t < u < |pcs| && pcs[t].Scanning? && pcs[u].Scanning? ==> pcs[t].op.opIndex != pcs[u].op.opIndex
  }

  lemma {:induction false} PoolMutex(tr: seq<Sys>, sched: seq<(nat, Action)>, k: nat)
    requires Run(tr, sched) && k < |tr|
    ensures SearchesApart(tr[k].pcs)
  {
    if k > 0 {
      PoolMutex(tr, sched, k - 1);
      var x, t, a := tr[k - 1], sched[k - 1].0, sched[k - 1].1;
      assert Moves(x, t, a, tr[k]);
      OthersStay(x, t, a);
    }
  }

  lemma OthersStay(x: Sys, t: nat, a: Action)
    requires Enabled(x, t, a)
    ensures var y := Next(x, t, a);
            && |y.pcs| == |x.pcs| && y.pcs == x.pcs[t := y.pcs[t]]
            && (y.pcs[t].Scanning? ==>
                  if a.Take? then !Locked(x.pcs, y.pcs[t].op.opIndex)
                  else x.pcs[t].Scanning? && x.pcs[t].op == y.pcs[t].op)
  {
  }

  /** Thread `t` locks pool `p` with step `j` and still searches it when it takes step `k`. */
  ghost predicate Search(tr: seq<Sys>, sched: seq<(nat, Action)>, t: nat, j: nat, k: nat, p: nat) {
    && Run(tr, sched) && j < k < |sched| && sched[j] == (t, Take) && t < |tr[j].pcs|
    && tr[j].pcs[t].Passed? && tr[j].pcs[t].op.opIndex == p < |tr[j].pools|
    && forall m :: j < m <= k ==> t < |tr[m].pcs| && tr[m].pcs[t].Scanning?
  }

  /** A release into pool `p`. */
  ghost predicate Releases(x: Sys, t: nat, a: Action, p: nat) {
    (a.Free? && a.h.pool == p) || (a.Drop? && t < |x.pcs| && x.pcs[t].Dropping? && x.pcs[t].h.pool == p)
  }

  ghost predicate FreeAt(x: Sys, p: nat, i: nat) {
    p < |x.pools| && i < |x.pools[p].elements| && !x.pools[p].elements[i].used
  }

  /** Element `i` of pool `p` was used at some moment between steps `j` and `k`. */
  ghost predicate UsedBetween(tr: seq<Sys>, p: nat, i: nat, j: nat, k: nat) {
    exists n :: j < n < k && n < |tr| && !FreeAt(tr[n], p, i)
  }

  ghost predicate NoneReleased(tr: seq<Sys>, sched: seq<(nat, Action)>, p: nat, j: nat, k: nat) {
    forall n :: j <= n < k && n < |tr| && n < |sched| ==> !Releases(tr[n], sched[n].0, sched[n].1, p)
  }

  /** Only a release makes an element free, and only a search in its pool makes it used. */
  lemma FreeChanges(x: Sys, t: nat, a: Action, p: nat, i: nat)
    requires Inv(x) && Enabled(x, t, a)
    ensures var y := Next(x, t, a);
            && (FreeAt(y, p, i) && !FreeAt(x, p, i) ==> Releases(x, t, a, p))
            && (FreeAt(x, p, i) && !FreeAt(y, p, i) ==>
                  x.pcs[t].Scanning? && x.pcs[t].op.opIndex == p && !y.pcs[t].Scanning?)
  {
    if p < |x.pools| && i < |x.pools[p].elements| {
      var h := Handle(p, i);
      OnlyTouched(x, t, a);
      assert HasHand(x.pcs[t]) ==> x.pcs[t].h in Hands(x.pcs);
      if h !in Touched(x, t, a) {
        assert At(Next(x, t, a).pools, h) == At(x.pools, h);
      }
    }
  }

  lemma NextShape(x: Sys, t: nat, a: Action)
    requires Enabled(x, t, a)
    ensures SameLengths(x.pools, Next(x, t, a).pools)
  {
  }

  /** One pass of the search. */
  lemma ScanPasses(x: Sys, u: nat, a: Action, t: nat)
    requires Enabled(x, u, a) && t < |x.pcs| && x.pcs[t].Scanning? && t < |Next(x, u, a).pcs| && Next(x, u, a).pcs[t].Scanning?
    ensures var (p, q) := (x.pcs[t], Next(x, u, a).pcs[t]);
            q.op == p.op && (q.i == p.i || (q.i == p.i + 1 && ValidIndex(x.pools, p.op) && p.i < |x.pools[p.op.opIndex].elements| && !FreeAt(x, p.op.opIndex, p.i)))
  {
  }

  /** Where a search is, and that everything before was used when it was passed over. */
  lemma {:induction false} PassedOver(tr: seq<Sys>, sched: seq<(nat, Action)>, t: nat, j: nat, k: nat, p: nat, m: nat)
    requires Search(tr, sched, t, j, k, p) && j < m <= k
    ensures tr[m].pcs[t].op.opIndex == p < |tr[m].pools| && |tr[m].pools[p].elements| == |tr[j].pools[p].elements|
    ensures tr[m].pcs[t].i <= |tr[m].pools[p].elements|
    ensures forall i :: 0 <= i < tr[m].pcs[t].i ==> UsedBetween(tr, p, i, j, m)
  {
    var x, u, a := tr[m - 1], sched[m - 1].0, sched[m - 1].1;
    assert Moves(x, u, a, tr[m]);
    NextShape(x, u, a);
    if m > j + 1 {
      PassedOver(tr, sched, t, j, k, p, m - 1);
      ScanPasses(x, u, a, t);
      hide Enabled, Next;
      forall i | 0 <= i < tr[m].pcs[t].i ensures UsedBetween(tr, p, i, j, m) {
        if i < x.pcs[t].i { assert UsedBetween(tr, p, i, j, m - 1); }
      }
    }
  }

  lemma StaysFree(x: Sys, u: nat, a: Action, t: nat, p: nat, i: nat)
    requires Inv(x) && Enabled(x, u, a) && !Releases(x, u, a, p) && SearchesApart(x.pcs) && t < |x.pcs|
    requires if a == Take && u == t then x.pcs[t].Passed? else x.pcs[t].Scanning? && x.pcs[t].op.opIndex == p
    requires t < |Next(x, u, a).pcs| && Next(x, u, a).pcs[t].Scanning?
    ensures FreeAt(Next(x, u, a), p, i) <==> FreeAt(x, p, i)
  {
    FreeChanges(x, u, a, p, i);
    OthersStay(x, u, a);
    hide Inv, Enabled, Next, FreeAt;
  }

  /** With nothing released into its pool the same elements stay free during a search. */
  lemma {:induction false} SameFree(tr: seq<Sys>, sched: seq<(nat, Action)>, t: nat, j: nat, k: nat, p: nat, m: nat, i: nat)
    requires Search(tr, sched, t, j, k, p) && j <= m <= k && NoneReleased(tr, sched, p, j, k)
    ensures FreeAt(tr[m], p, i) <==> FreeAt(tr[j], p, i)
  {
    hide Inv, Enabled, Next, FreeAt, SearchesApart, Releases;
    if m > j {
      SameFree(tr, sched, t, j, k, p, m - 1, i);
      var x, u, a := tr[m - 1], sched[m - 1].0, sched[m - 1].1;
      assert Moves(x, u, a, tr[m]);
      RunInv(tr, sched, m - 1);
      PoolMutex(tr, sched, m - 1);
      if m > j + 1 { PassedOver(tr, sched, t, j, k, p, m - 1); SearchSteps(tr, sched, t, j, k, p, m - 1); }
      StaysFree(x, u, a, t, p, i);
    }
  }

  /** The thread that searches does not lock again. */
  lemma SearchSteps(tr: seq<Sys>, sched: seq<(nat, Action)>, t: nat, j: nat, k: nat, p: nat, m: nat)
    requires Search(tr, sched, t, j, k, p) && j < m < k
    ensures !(sched[m].1 == Take && sched[m].0 == t)
  {
    assert Moves(tr[m], sched[m].0, sched[m].1, tr[m + 1]);
  }

  /**
   A search gives up only when every element of its pool was used at some moment of it. When
   nothing is released into the pool meanwhile it gives up exactly when no element was free
   as it began. A push whose search gives up has changed nothing.
   */
  lemma SearchFailsIff(tr: seq<Sys>, sched: seq<(nat, Action)>, t: nat, j: nat, k: nat, p: nat)
    requires Search(tr, sched, t, j, k, p) && sched[k] == (t, Scan) && t < |tr[k + 1].pcs| && !tr[k + 1].pcs[t].Scanning?
    ensures tr[k + 1].pcs[t].Owning? || tr[k + 1] == To(tr[k], t, Outside)
    ensures tr[k + 1].pcs[t] == Outside ==> forall i :: 0 <= i < |tr[j].pools[p].elements| ==> UsedBetween(tr, p, i, j, k)
    ensures NoneReleased(tr, sched, p, j, k) ==> (tr[k + 1].pcs[t] == Outside <==> forall i: nat :: !FreeAt(tr[j], p, i))
  {
    PassedOver(tr, sched, t, j, k, p, k);
    ScanEnds(tr, sched, t, j, k, p);
    var x := tr[k];
    if NoneReleased(tr, sched, p, j, k) {
      forall i: nat ensures FreeAt(x, p, i) <==> FreeAt(tr[j], p, i) { SameFree(tr, sched, t, j, k, p, k, i); }
      if tr[k + 1].pcs[t] == Outside {
        forall i: nat ensures !FreeAt(tr[j], p, i) {
          if FreeAt(tr[j], p, i) {
            assert UsedBetween(tr, p, i, j, k);
            var n :| j < n < k && n < |tr| && !FreeAt(tr[n], p, i);
            SameFree(tr, sched, t, j, k, p, n, i);
          }
        }
      }
    }
  }

  lemma ScanEnds(tr: seq<Sys>, sched: seq<(nat, Action)>, t: nat, j: nat, k: nat, p: nat)
    requires Search(tr, sched, t, j, k, p) && sched[k] == (t, Scan) && t < |tr[k + 1].pcs| && !tr[k + 1].pcs[t].Scanning?
    requires tr[k].pcs[t].op.opIndex == p < |tr[k].pools|
    ensures tr[k + 1].pcs[t].Owning? ==> FreeAt(tr[k], p, tr[k].pcs[t].i)
    ensures !tr[k + 1].pcs[t].Owning? ==> tr[k + 1] == To(tr[k], t, Outside) && tr[k].pcs[t].i >= |tr[k].pools[p].elements|
  {
    assert Moves(tr[k], t, Scan, tr[k + 1]);
  }

  /** With a ring as large as all pools a push that has taken an element queues it. */
  lemma TakenIsQueued(tr: seq<Sys>, sched: seq<(nat, Action)>, k: nat)
    requires Run(tr, sched) && k < |sched| && Total(tr[0].pools) <= tr[0].size && (sched[k].1.Enter? || sched[k].1.Fall?)
    ensures var (x, t) := (tr[k], sched[k].0); tr[k + 1].pcs[t].Falling? || x.pcs[t].h in tr[k + 1].queue
  {
    RunInv(tr, sched, k);
    var x, t, a := tr[k], sched[k].0, sched[k].1;
    assert Moves(x, t, a, tr[k + 1]);
    assert x.pcs[t].h in Hands(x.pcs);
    NothingIsStranded(tr, sched, k);
  }

  // ----- the count of activating operations -----

  lemma {:induction false} CountSame(pools: seq<Pool>, after: seq<Pool>, s: set<Handle>, q: seq<Handle>)
    requires InAll(pools, q) && Changes(pools, after, s) && forall h :: h in q ==> h !in s
    ensures InAll(after, q) && CountActivating(pools, q) == CountActivating(after, q)
  {
    if q != [] {
      assert q[0] in q && forall h :: h in q[1..] ==> h in q;
      CountSame(pools, after, s, q[1..]);
    }
  }

  lemma {:induction false} CountAppend(pools: seq<Pool>, q: seq<Handle>, h: Handle)
    requires InAll(pools, q) && InPools(h, pools)
    ensures InAll(pools, q + [h]) && InAll(pools, [h] + q)
    ensures CountActivating(pools, q + [h]) == CountActivating(pools, q) + One(At(pools, h).activating)
    ensures CountActivating(pools, [h] + q) == CountActivating(pools, q) + One(At(pools, h).activating)
  {
    assert ([h] + q)[1..] == q;
    if q == [] {
      assert q + [h] == [h] + q;
    } else {
      CountAppend(pools, q[1..], h);
      assert (q + [h])[1..] == q[1..] + [h];
    }
  }

  lemma {:induction false} CountBound(pools: seq<Pool>, q: seq<Handle>)
    requires InAll(pools, q)
    ensures CountActivating(pools, q) <= |q|
  {
    if q != [] { CountBound(pools, q[1..]); }
  }

  ghost predicate Queued(x: Sys) {
    InAll(x.pools, x.queue)
  }

  lemma InvQueued(x: Sys)
    requires Inv(x)
    ensures Queued(x)
  {
    QueueFacts(x.pools, x.queue, Handle(0, 0));
  }

  /** Popped, but not taken off the count yet. */
  ghost function PoppedCount(x: Sys): nat {
    if x.owner.Some? && x.owner.value < |x.pcs| && x.pcs[x.owner.value].Popped? && InPools(x.pcs[x.owner.value].h, x.pools)
    then One(At(x.pools, x.pcs[x.owner.value].h).activating) else 0
  }

  /** How far the count and the pushes about to be counted run ahead of the activating elements queued. */
  ghost function Drift(x: Sys): int
    requires Queued(x)
  {
    x.activating + Entering(x.pcs) - CountActivating(x.pools, x.queue) - PoppedCount(x)
  }

  /** Equal as uint32_t. */
  ghost predicate Same32(a: int, b: int) {
    Mod32(a) == Mod32(b)
  }

  ghost predicate CleanRuns(x: Sys) {
    x.owner.Some? && x.owner.value < |x.pcs| && InSweep(x.pcs[x.owner.value])
  }

  /** The push that fell off a full ring is counted, although its element is not queued. */
  ghost predicate Overcounts(x: Sys, t: nat, a: Action)
    requires Enabled(x, t, a)
  {
    a.Fall? && Full(x) && x.pcs[t].op.activating
  }

  lemma Same32Step(n: nat)
    ensures Same32(Increment(n), n + 1) && Same32(Decrement(n), n - 1)
  {
  }

  lemma Same32Add(a: int, b: int, c: int)
    requires Same32(a, b)
    ensures Same32(a + c, b + c)
  {
  }

  lemma CountFront(pools: seq<Pool>, q: seq<Handle>)
    requires InAll(pools, q) && q != []
    ensures InAll(pools, q[1..]) && CountActivating(pools, q[1..]) == CountActivating(pools, q) - One(At(pools, q[0]).activating)
  {
  }

  lemma LandedDrift(x: Sys, y: Sys, t: nat, h: Handle, c: Pc)
    requires Queued(x) && InPools(h, x.pools) && t < |x.pcs| && y.pcs == x.pcs[t := c] && !x.pcs[t].Entered?
    requires !x.pcs[t].Popped? && !c.Popped? && y.owner == x.owner && y.activating == x.activating && y.pools == x.pools
    requires y.queue == x.queue || y.queue == x.queue + [h] || y.queue == [h] + x.queue
    ensures Queued(y)
    ensures Drift(y) == Drift(x) + One(c.Entered?) - (if y.queue == x.queue then 0 else One(At(x.pools, h).activating))
  {
    EnteringUpdate(x.pcs, t, c);
    CountAppend(x.pools, x.queue, h);
  }

  /** A landing takes the element from the thread to the queue and puts it to be counted. */
  lemma LandingDrift(x: Sys, t: nat, a: Action)
    requires Inv(x) && Enabled(x, t, a) && (a.Enter? || a.Fall?) && Queued(x) && Queued(Next(x, t, a))
    ensures Drift(Next(x, t, a)) == Drift(x) + One(Overcounts(x, t, a))
  {
    var p := x.pcs[t];
    assert PcOk(x.pools, p);
    hide Inv, Drift, Queued, Entering, CountActivating;
    LandedDrift(x, Next(x, t, a), t, p.h, Next(x, t, a).pcs[t]);
  }

  lemma CountDrift(x: Sys, t: nat, a: Action)
    requires Inv(x) && Enabled(x, t, a) && (a.Count? || a.Pop? || a.Discount?) && Queued(x) && Queued(Next(x, t, a))
    ensures Same32(Drift(Next(x, t, a)), Drift(x))
  {
    if a.Pop? { PopDrift(x, t); }
    else if a.Count? { CountedDrift(x, t); }
    else { DiscountDrift(x, t); }
    hide Inv, Drift, Next, Enabled;
  }

  lemma PopDrift(x: Sys, t: nat)
    requires Inv(x) && Enabled(x, t, Pop) && Queued(x) && Queued(Next(x, t, Pop))
    ensures Drift(Next(x, t, Pop)) == Drift(x)
  {
    var y := Next(x, t, Pop);
    EnteringUpdate(x.pcs, t, y.pcs[t]);
    if x.queue != [] { CountFront(x.pools, x.queue); }
  }

  lemma CountedDrift(x: Sys, t: nat)
    requires Inv(x) && Enabled(x, t, Count) && Queued(x) && Queued(Next(x, t, Count))
    ensures Same32(Drift(Next(x, t, Count)), Drift(x))
  {
    var y := Next(x, t, Count);
    EnteringUpdate(x.pcs, t, y.pcs[t]);
    Same32Step(x.activating);
    Same32Add(y.activating, x.activating + 1, Drift(y) - y.activating);
  }

  lemma DiscountDrift(x: Sys, t: nat)
    requires Inv(x) && Enabled(x, t, Discount) && Queued(x) && Queued(Next(x, t, Discount))
    ensures Same32(Drift(Next(x, t, Discount)), Drift(x))
  {
    var y, p := Next(x, t, Discount), x.pcs[t];
    EnteringUpdate(x.pcs, t, y.pcs[t]);
    assert InSection(p);
    if At(x.pools, p.h).activating {
      Same32Step(x.activating);
      Same32Add(y.activating, x.activating - 1, Drift(y) - y.activating);
    }
  }

  /** Steps that touch neither the queue nor the count. */
  lemma PoolDrift(x: Sys, t: nat, a: Action)
    requires Inv(x) && Enabled(x, t, a) && Queued(x) && Queued(Next(x, t, a)) && !CleanRuns(x)
    requires a.Try? || a.Take? || a.Scan? || a.Fill? || a.Free? || a.Credit?
    ensures Drift(Next(x, t, a)) == Drift(x)
  {
    PoolChange(x, t, a);
    InvQueued(x);
    SectionStays(x, t, a);
    var y := Next(x, t, a);
    hide Inv, Next, Enabled, Changes, InSweep;
    SameDrift(x, y, t, y.pcs[t], Touched(x, t, a));
  }

  lemma SectionStays(x: Sys, t: nat, a: Action)
    requires Inv(x) && Enabled(x, t, a) && (a.Try? || a.Take? || a.Scan? || a.Fill? || a.Free? || a.Credit?)
    ensures var y := Next(x, t, a);
            && y.queue == x.queue && y.activating == x.activating && y.owner == x.owner && y.pcs == x.pcs[t := y.pcs[t]]
            && !x.pcs[t].Entered? && !y.pcs[t].Entered? && !x.pcs[t].Popped? && !y.pcs[t].Popped?
  {
  }

  lemma SameDrift(x: Sys, y: Sys, t: nat, c: Pc, s: set<Handle>)
    requires Inv(x) && Queued(x) && t < |x.pcs| && Changes(x.pools, y.pools, s)
    requires y.queue == x.queue && y.activating == x.activating && y.owner == x.owner && y.pcs == x.pcs[t := c]
    requires !x.pcs[t].Entered? && !c.Entered? && !x.pcs[t].Popped? && !c.Popped?
    requires forall h :: h in s ==> h !in x.queue
    requires forall u :: 0 <= u < |x.pcs| && u != t && HasHand(x.pcs[u]) ==> x.pcs[u].h !in s
    ensures Queued(y) && Drift(y) == Drift(x)
  {
    EnteringUpdate(x.pcs, t, c);
    CountSame(x.pools, y.pools, s, x.queue);
  }

  /** The element whose contents a step changes. */
  ghost function Touched(x: Sys, t: nat, a: Action): set<Handle>
    requires Enabled(x, t, a)
  {
    match a
    case Scan => var p := x.pcs[t];
                 if p.i < |x.pools[p.op.opIndex].elements| && !x.pools[p.op.opIndex].elements[p.i].used
                 then {Handle(p.op.opIndex, p.i)} else {}
    case Fill => {x.pcs[t].h}
    case Free(h) => {h}
    case Drop => {x.pcs[t].h}
    case _ => {}
  }

  /** Neither a queued element nor one in another thread's hands. */
  lemma PoolChange(x: Sys, t: nat, a: Action)
    requires Inv(x) && Enabled(x, t, a)
    ensures Changes(x.pools, Next(x, t, a).pools, Touched(x, t, a))
    ensures forall h :: h in Touched(x, t, a) ==> h !in x.queue && h !in Hands(x.pcs) - HandOf(x.pcs[t])
    ensures forall u :: 0 <= u < |x.pcs| && u != t && HasHand(x.pcs[u]) ==> x.pcs[u].h !in Touched(x, t, a)
  {
    HandsUpdate(x.pcs, t, Outside);
    OnlyTouched(x, t, a);
    TouchedOwner(x, t, a);
    hide Inv, Enabled, Next, Changes, Touched, HandOf;
  }

  lemma OnlyTouched(x: Sys, t: nat, a: Action)
    requires Enabled(x, t, a)
    ensures Changes(x.pools, Next(x, t, a).pools, Touched(x, t, a))
  {
    if a.Scan? && Touched(x, t, a) != {} {
      var h := Handle(x.pcs[t].op.opIndex, x.pcs[t].i);
      WithAt(x.pools, h, At(x.pools, h).(used := true), Decrement(x.pools[h.pool].available));
    }
  }

  /** The element was free, or in the hands of the thread, or held by a consumer. */
  lemma TouchedOwner(x: Sys, t: nat, a: Action)
    requires Inv(x) && Enabled(x, t, a)
    ensures forall h :: h in Touched(x, t, a) ==> h !in x.queue && h !in Hands(x.pcs) - HandOf(x.pcs[t])
  {
    HandsUpdate(x.pcs, t, Outside);
    forall h | h in Touched(x, t, a) ensures h !in x.queue && h !in Hands(x.pcs) - HandOf(x.pcs[t]) {
      if a.Scan? {
        assert InPools(h, x.pools) && !At(x.pools, h).used;
      } else if a.Fill? || a.Drop? {
        assert h in HandOf(x.pcs[t]);
      }
    }
  }

  /**
   Outside a cleaning the drift of the count is constant, except that it grows by one when
   a push falls off a ring that was empty and is full when it comes back.
   */
  lemma DriftStep(x: Sys, t: nat, a: Action)
    requires Inv(x) && Enabled(x, t, a) && !CleanRuns(x) && !a.Clean?
    ensures Queued(x) && Queued(Next(x, t, a))
    ensures Same32(Drift(Next(x, t, a)), Drift(x) + One(a.Fall? && |x.queue| >= x.size && x.pcs[t].op.activating))
  {
    StepInv(x, t, a);
    InvQueued(x);
    InvQueued(Next(x, t, a));
    NoSweeper(x, t, a);
    hide Inv, Drift, Queued, Next;
    if a.Enter? || a.Fall? { LandingDrift(x, t, a); }
    else if a.Count? || a.Pop? || a.Discount? { CountDrift(x, t, a); }
    else { PoolDrift(x, t, a); }
  }

  lemma NoSweeper(x: Sys, t: nat, a: Action)
    requires Inv(x) && Enabled(x, t, a) && !CleanRuns(x)
    ensures !(a.SweepPop? || a.Judge? || a.Drop? || a.SweepCredit? || a.SweepEnd?)
  {
    assert InSection(x.pcs[t]) ==> x.owner == Some(t);
  }

  lemma {:induction false} NoClean(tr: seq<Sys>, sched: seq<(nat, Action)>, k: nat)
    requires Run(tr, sched) && k < |tr| && forall i :: 0 <= i < k ==> !sched[i].1.Clean?
    ensures !CleanRuns(tr[k])
  {
    if k > 0 {
      NoClean(tr, sched, k - 1);
      RunInv(tr, sched, k - 1);
      var x, t, a := tr[k - 1], sched[k - 1].0, sched[k - 1].1;
      assert Moves(x, t, a, tr[k]);
      NoSweeper(x, t, a);
    }
  }

  lemma InitialDrift(x: Sys)
    requires Initial(x)
    ensures Queued(x) && Drift(x) == 0
  {
    NobodyFreeing(x.pcs, 0);
  }

  lemma {:induction false} DriftIsZero(tr: seq<Sys>, sched: seq<(nat, Action)>, k: nat)
    requires Run(tr, sched) && k < |tr| && Total(tr[0].pools) <= tr[0].size
    requires forall i :: 0 <= i < k ==> !sched[i].1.Clean?
    ensures Queued(tr[k]) && Same32(Drift(tr[k]), 0)
  {
    if k == 0 {
      InitialDrift(tr[0]);
    } else {
      DriftIsZero(tr, sched, k - 1);
      RunInv(tr, sched, k - 1);
      NoClean(tr, sched, k - 1);
      NothingIsStranded(tr, sched, k - 1);
      var x, t, a := tr[k - 1], sched[k - 1].0, sched[k - 1].1;
      assert Moves(x, t, a, tr[k]);
      RefusedInHands(x, t, a);
      DriftStep(x, t, a);
    }
  }

  /**
   As long as no cleaning has run, and with a ring as large as all pools: the count plus the
   pushes between queuing and counting is the number of activating elements queued or just
   popped, as uint32_t. So with nobody in between it is exactly the number queued.
   */
  lemma CountIsExact(tr: seq<Sys>, sched: seq<(nat, Action)>, k: nat)
    requires Run(tr, sched) && k < |tr| && Total(tr[0].pools) <= tr[0].size
    requires forall i :: 0 <= i < k ==> !sched[i].1.Clean?
    ensures Queued(tr[k])
    ensures var x := tr[k];
            && Same32(x.activating + Entering(x.pcs), CountActivating(x.pools, x.queue) + PoppedCount(x))
            && (Entering(x.pcs) == 0 && x.owner.None? ==> x.activating == CountActivating(x.pools, x.queue) <= |x.queue| <= x.size)
  {
    DriftIsZero(tr, sched, k);
    RunInv(tr, sched, k);
    ActivatingWord(tr, sched, k);
    var x := tr[k];
    CountBound(x.pools, x.queue);
    Same32Add(Drift(x), 0, CountActivating(x.pools, x.queue) + PoppedCount(x));
  }

  lemma {:induction false} ActivatingWord(tr: seq<Sys>, sched: seq<(nat, Action)>, k: nat)
    requires Run(tr, sched) && k < |tr|
    ensures tr[k].activating < 0x1_0000_0000
  {
    if k > 0 {
      ActivatingWord(tr, sched, k - 1);
      assert Moves(tr[k - 1], sched[k - 1].0, sched[k - 1].1, tr[k]);
    }
  }
}
