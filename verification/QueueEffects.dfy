/** What a cleaning does to the queue of a module, element by element. */
module QueueEffects {
  import opened Common
  import opened RequestTable
  import opened QueueState
  import opened QueueTheorems

  // ----- what is kept -----

  /** Element `k` of the queue stays: 10 to 14 are the operations INITIALIZE, KILL, START and SHUTDOWN. */
  ghost predicate Stays(pools: seq<Pool>, q: seq<Handle>, k: nat, started: bool, st: ModuleState)
    requires InAll(pools, q) && k < |q|
  {
    || started || (st == Ready && exists j :: 0 <= j <= k && At(pools, q[j]).opId == 12)
    || At(pools, q[k]).opId == 11
    || (At(pools, q[k]).opId == 14 && st != Idle)
    || (At(pools, q[k]).opId == 10 && st == Idle)
  }

  lemma StaysHead(pools: seq<Pool>, q: seq<Handle>, started: bool, st: ModuleState)
    requires InAll(pools, q) && q != []
    ensures Stays(pools, q, 0, started, st) <==> Keeps(started, At(pools, q[0]), st)
  {
  }

  lemma StaysTail(pools: seq<Pool>, q: seq<Handle>, k: nat, started: bool, st: ModuleState)
    requires InAll(pools, q) && 0 < k < |q|
    ensures Stays(pools, q[1..], k - 1, started || IsStart(At(pools, q[0]), st), st) <==> Stays(pools, q, k, started, st)
  {
    if j :| 0 <= j <= k && At(pools, q[j]).opId == 12 {
      assert j > 0 ==> At(pools, q[1..][j - 1]).opId == 12;
    }
    if j :| 0 <= j <= k - 1 && At(pools, q[1..][j]).opId == 12 {
      assert At(pools, q[j + 1]).opId == 12;
    }
  }

  /** Places in a queue that has one element more in front. */
  ghost function Moved(rest: seq<nat>): (r: seq<nat>)
    ensures |r| == |rest| && forall i :: 0 <= i < |rest| ==> r[i] == rest[i] + 1
  {
    seq(|rest|, i requires 0 <= i < |rest| => rest[i] + 1)
  }

  lemma MovedIn(rest: seq<nat>, k: nat)
    ensures k in Moved(rest) <==> k > 0 && k - 1 in rest
  {
    if k > 0 && k - 1 in rest {
      var i :| 0 <= i < |rest| && rest[i] == k - 1;
      assert Moved(rest)[i] == k;
    }
  }

  ghost predicate Places(q: seq<Handle>, kept: seq<Handle>, at: seq<nat>) {
    && |at| == |kept| && (forall i :: 0 <= i < |at| ==> at[i] < |q| && kept[i] == q[at[i]])
    && forall i, j :: 0 <= i < j < |at| ==> at[i] < at[j]
  }

  lemma NoPlaces()
    ensures Places([], [], [])
  {
  }

  lemma MovedPlaces(q: seq<Handle>, kept: seq<Handle>, rest: seq<nat>)
    requires q != [] && Places(q[1..], kept, rest)
    ensures Places(q, kept, Moved(rest)) && 0 !in Moved(rest)
  {
  }

  lemma FrontPlaces(q: seq<Handle>, kept: seq<Handle>, moved: seq<nat>)
    requires q != [] && Places(q, kept, moved) && 0 !in moved
    ensures Places(q, [q[0]] + kept, [0] + moved)
  {
    forall i | 0 <= i < |moved| ensures moved[i] > 0 { assert moved[i] in moved; }
  }

  ghost function Longer(rest: seq<nat>, first: bool): seq<nat> {
    (if first then [0] else []) + Moved(rest)
  }

  lemma LongerPlaces(q: seq<Handle>, kept: seq<Handle>, rest: seq<nat>, first: bool)
    requires q != [] && Places(q[1..], kept, rest)
    ensures Places(q, (if first then [q[0]] else []) + kept, Longer(rest, first))
  {
    MovedPlaces(q, kept, rest);
    if first { FrontPlaces(q, kept, Moved(rest)); }
    hide Places, Moved;
    assert [] + kept == kept && [] + Moved(rest) == Moved(rest);
  }

  lemma LongerIn(rest: seq<nat>, first: bool, k: nat)
    ensures k in Longer(rest, first) <==> (k == 0 && first) || (k > 0 && k - 1 in rest)
  {
    MovedIn(rest, k);
  }

  lemma KeptUnfold(pools: seq<Pool>, q: seq<Handle>, started: bool, st: ModuleState)
    requires InAll(pools, q)
    ensures q == [] ==> Kept(pools, q, started, st) == []
    ensures q != [] ==>
              Kept(pools, q, started, st)
              == (if Keeps(started, At(pools, q[0]), st) then [q[0]] else []) + Kept(pools, q[1..], started || IsStart(At(pools, q[0]), st), st)
  {
  }

  /** The elements kept, by their places: in order, and exactly those that stay. */
  lemma {:induction false} KeptPlaces(pools: seq<Pool>, q: seq<Handle>, started: bool, st: ModuleState) returns (at: seq<nat>)
    requires InAll(pools, q)
    ensures Places(q, Kept(pools, q, started, st), at)
    ensures forall k :: 0 <= k < |q| ==> (k in at <==> Stays(pools, q, k, started, st))
  {
    hide Stays, Keeps, At, IsStart, Kept, Places, Longer;
    KeptUnfold(pools, q, started, st);
    if q == [] {
      at := [];
      NoPlaces();
    } else {
      var now := started || IsStart(At(pools, q[0]), st);
      StaysHead(pools, q, started, st);
      var rest := KeptPlaces(pools, q[1..], now, st);
      var first := Keeps(started, At(pools, q[0]), st);
      at := Longer(rest, first);
      LongerPlaces(q, Kept(pools, q[1..], now, st), rest, first);
      forall k | 0 <= k < |q| ensures k in at <==> Stays(pools, q, k, started, st) {
        LongerIn(rest, first, k);
        if k > 0 { StaysTail(pools, q, k, started, st); }
      }
    }
  }

  /**
   What a cleaning keeps, in its order: KILL (11) in every state, SHUTDOWN (14) outside Idle,
   INITIALIZE (10) in Idle, and in Ready the first START (12) and everything behind it.
   */
  lemma KeptExactly(s: State, received: seq<Received>, st: ModuleState) returns (at: seq<nat>)
    requires Readable(s.pools, s.queue)
    ensures forall i, j :: 0 <= i < j < |at| ==> at[i] < at[j]
    ensures var after := Clean(s, received, st).0;
            && after.size == s.size && |after.queue| == |at|
            && forall i :: 0 <= i < |at| ==> at[i] < |s.queue| && after.queue[i] == s.queue[at[i]]
    ensures forall k :: 0 <= k < |s.queue| ==>
              (k in at <==>
                 || (st == Ready && exists j :: 0 <= j <= k && At(s.pools, s.queue[j]).opId == 12)
                 || At(s.pools, s.queue[k]).opId == 11
                 || (At(s.pools, s.queue[k]).opId == 14 && st != Idle)
                 || (At(s.pools, s.queue[k]).opId == 10 && st == Idle))
  {
    hide SameOperations, Kept, CleanFrom;
    SameItself(s.pools);
    CleanKeeps(s.pools, Progress([], false, 0, s.pools, received), s.queue, st);
    at := KeptPlaces(s.pools, s.queue, false, st);
    assert [] + Kept(s.pools, s.queue, false, st) == Kept(s.pools, s.queue, false, st);
  }

  // ----- what is released -----

  /** The handles of `d` with property `f`. */
  ghost function Those(d: seq<Handle>, f: Handle -> bool): set<Handle> {
    set h | h in d && f(h)
  }

  lemma ThoseCons(d: seq<Handle>, f: Handle -> bool)
    requires Distinct(d) && d != []
    ensures Distinct(d[1..]) && |Those(d, f)| == |Those(d[1..], f)| + if f(d[0]) then 1 else 0
  {
    assert d[0] !in d[1..];
    assert Those(d, f) == Those(d[1..], f) + if f(d[0]) then {d[0]} else {};
  }

  /** Handles of `d` in pool `p`. */
  ghost function InPool(d: seq<Handle>, p: nat): set<Handle> {
    Those(d, (h: Handle) => h.pool == p)
  }

  ghost predicate ReleasedIs(pools: seq<Pool>, after: seq<Pool>, d: seq<Handle>) {
    && |after| == |pools|
    && (forall p :: 0 <= p < |pools| ==>
          && after[p].parameterSize == pools[p].parameterSize && |after[p].elements| == |pools[p].elements|
          && after[p].available == pools[p].available + |InPool(d, p)|)
    && forall h :: InPools(h, pools) ==> At(after, h) == if h in d then At(pools, h).(used := false) else At(pools, h)
  }

  /** Releasing elements sets them free and counts them, pool by pool. */
  lemma {:induction false} ReleaseAllExactly(pools: seq<Pool>, d: seq<Handle>)
    requires InAll(pools, d) && Distinct(d)
    ensures ReleasedIs(pools, ReleaseAll(pools, d), d)
    decreases |d|
  {
    if d == [] {
      assert forall p :: InPool(d, p) == {};
    } else {
      var once := Release(pools, d[0]);
      forall k | 0 <= k < |d[1..]| ensures InPools(d[1..][k], once) { assert d[1..][k] == d[k + 1]; }
      ThoseCons(d, _ => true);
      hide Distinct, ReleasedIs, InAll;
      ReleaseAllExactly(once, d[1..]);
      ReleasedCons(pools, d, ReleaseAll(once, d[1..]));
    }
  }

  lemma ReleasedCons(pools: seq<Pool>, d: seq<Handle>, after: seq<Pool>)
    requires d != [] && Distinct(d) && InPools(d[0], pools) && ReleasedIs(Release(pools, d[0]), after, d[1..])
    ensures ReleasedIs(pools, after, d)
  {
    assert d[0] !in d[1..];
    forall p | 0 <= p < |pools| ensures |InPool(d, p)| == |InPool(d[1..], p)| + if d[0].pool == p then 1 else 0 {
      ThoseCons(d, (h: Handle) => h.pool == p);
    }
    hide Distinct, InPool;
    var once := Release(pools, d[0]);
    forall h | InPools(h, pools) ensures At(after, h) == if h in d then At(pools, h).(used := false) else At(pools, h) {
      assert InPools(h, once) && (h != d[0] ==> At(once, h) == At(pools, h));
    }
  }

  /** What a cleaning does not keep becomes free, with its contents as they were, and is counted in its pool. */
  lemma ReleasedExactly(s: State, received: seq<Received>, st: ModuleState)
    requires Readable(s.pools, s.queue) && Distinct(s.queue)
    ensures var after := Clean(s, received, st).0;
            && |after.pools| == |s.pools|
            && (forall p :: 0 <= p < |s.pools| ==>
                  && after.pools[p].parameterSize == s.pools[p].parameterSize && |after.pools[p].elements| == |s.pools[p].elements|
                  && after.pools[p].available
                     == s.pools[p].available + |set h | h in s.queue && h !in after.queue && h.pool == p|)
            && forall h :: InPools(h, s.pools) ==>
                 At(after.pools, h) == if h in s.queue && h !in after.queue then At(s.pools, h).(used := false) else At(s.pools, h)
  {
    hide SameOperations, Kept, Dropped, CleanFrom, ReleaseAll, Distinct, IdReadable;
    var (pools, q, start) := (s.pools, s.queue, Progress([], false, 0, s.pools, received));
    SameItself(pools);
    CleanKeeps(pools, start, q, st);
    CleanReleases(pools, start, q, st);
    KeptOrDropped(pools, q, false, st);
    var (kept, dropped) := (Kept(pools, q, false, st), Dropped(pools, q, false, st));
    ReleaseAllExactly(pools, dropped);
    assert [] + kept == kept;
    forall p ensures InPool(dropped, p) == set h | h in q && h !in kept && h.pool == p { }
  }

  // ----- what is counted -----

  /** In a ready module START counts as activating. */
  ghost predicate Active(pools: seq<Pool>, h: Handle, st: ModuleState) {
    InPools(h, pools) && (At(pools, h).activating || (At(pools, h).opId == 12 && st == Ready))
  }

  ghost function Activating(pools: seq<Pool>, q: seq<Handle>, st: ModuleState): set<Handle> {
    Those(q, h => Active(pools, h, st))
  }

  lemma {:induction false} CountForExactly(pools: seq<Pool>, q: seq<Handle>, st: ModuleState)
    requires InAll(pools, q) && Distinct(q)
    ensures CountFor(pools, q, st) == |Activating(pools, q, st)|
  {
    if q == [] {
      assert Activating(pools, q, st) == {};
    } else {
      ThoseCons(q, h => Active(pools, h, st));
      hide Distinct, Those;
      CountForExactly(pools, q[1..], st);
    }
  }

  /** The count becomes the number of activating elements kept; in Ready a START counts as one. */
  lemma CountedExactly(s: State, received: seq<Received>, st: ModuleState)
    requires Readable(s.pools, s.queue) && Distinct(s.queue)
    ensures var after := Clean(s, received, st).0;
            after.activating == |set h | h in after.queue && InPools(h, s.pools)
                                         && (At(s.pools, h).activating || (At(s.pools, h).opId == 12 && st == Ready))|
  {
    hide SameOperations, Kept, Dropped, CleanFrom, CountFor, Distinct, IdReadable;
    var (pools, q, start) := (s.pools, s.queue, Progress([], false, 0, s.pools, received));
    SameItself(pools);
    CleanKeeps(pools, start, q, st);
    CleanCounts(pools, start, q, st);
    KeptOrDropped(pools, q, false, st);
    var kept := Kept(pools, q, false, st);
    CountForExactly(pools, kept, st);
    assert [] + kept == kept;
    assert Activating(pools, kept, st) == set h | h in kept && InPools(h, pools)
                                            && (At(pools, h).activating || (At(pools, h).opId == 12 && st == Ready));
  }
}
