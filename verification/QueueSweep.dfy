/**
 A cleaning among other threads: when it still is the latched filter of QueueTheorems.dfy,
 and what it makes of the count of activating operations.

 A cleaning holds the manager mutex, but pushes do not need it to reach the ring: they land
 behind the elements it has put back, or in front of those it has not looked at. As long as
 nothing lands where it changes the order in which the cleaning meets its own elements, and
 the ring refuses none of them, the cleaning is `Undisturbed`: what is kept so far and what
 is left to judge add up to the filter. From the first such landing on it is `Damaged`, and
 no later step repairs it.
 */
module QueueSweep {
  import opened Common
  import opened QueueState
  import opened QueueTheorems
  import opened QueueSteps
  import opened QueueRuns

  // ----- what other threads can do to it -----

  ghost predicate JudgesNow(x: Sys) {
    CleanRuns(x) && x.pcs[x.owner.value].Judging?
  }

  /** What the cleaning has still to judge: the element in hand, and as many from the front as it has passes left. */
  ghost function Later(x: Sys): seq<Handle> {
    (if JudgesNow(x) then [x.pcs[x.owner.value].h] else []) + x.queue[..Min(x.sweep.left, |x.queue|)]
  }

  /** The elements it would still push back. */
  ghost function KeptLater(x: Sys): seq<Handle> {
    if InAll(x.pools, Later(x)) then Kept(x.pools, Later(x), x.sweep.started, x.sweep.st) else []
  }

  ghost predicate Lands(x: Sys, t: nat, a: Action)
    requires Enabled(x, t, a)
  {
    !Full(x) && ((a.Enter? && !(x.pcs[t].first && x.queue == [])) || a.Fall?)
  }

  ghost predicate InFront(x: Sys, t: nat, a: Action)
    requires Enabled(x, t, a)
  {
    a.Enter? && x.pcs[t].first
  }

  /**
   An element lands in the ring too early: at the back while the cleaning has elements to
   push back; in front while it has elements to pop, or in the last place of the ring while
   it has one to push back.
   */
  ghost predicate Harmful(x: Sys, t: nat, a: Action)
    requires Enabled(x, t, a)
  {
    && CleanRuns(x) && Lands(x, t, a)
    && if InFront(x, t, a) then x.sweep.left > 0 || (KeptLater(x) != [] && |x.queue| + 1 >= x.size)
       else KeptLater(x) != []
  }

  // ----- what holds while a cleaning runs -----

  /** How the queue is made up, and that its passes never find the ring empty. */
  ghost predicate Shaped(x: Sys) {
    && x.queue == x.past.top + x.past.rest + x.past.tail
    && |x.past.top| <= |x.past.front| && |x.past.rest| + |x.past.top| == |x.past.front| + x.sweep.left
    && forall h :: h in x.past.rest ==> h !in x.past.front
  }

  /** Nothing has landed too early: what was pushed back is the first part of what the filter keeps. */
  ghost predicate Undisturbed(x: Sys) {
    && Shaped(x) && x.past.top == x.past.front && (x.sweep.left > 0 ==> x.past.front == [])
    && |x.past.tail| >= |x.past.back|
    && var n := |x.past.tail| - |x.past.back|;
       && n <= |x.past.kept| && x.past.tail == x.past.kept[..n] + x.past.back && x.past.kept[n..] == KeptLater(x)
       && (KeptLater(x) != [] ==> x.past.back == [] && |x.queue| + One(JudgesNow(x)) <= x.size)
  }

  /** An element queued at the start escapes, or will. */
  ghost predicate Escapes(x: Sys) {
    |x.past.rest| > x.sweep.left || (x.sweep.left > 0 && x.past.top != [])
  }

  /** An element that landed stands where the filter has one it keeps. */
  ghost predicate Overtaken(x: Sys) {
    exists p :: 0 <= p < |x.past.tail| && p < |x.past.kept| && x.past.tail[p] != x.past.kept[p]
  }

  /** A kept element has been refused by a full ring, or will be. */
  ghost predicate Loses(x: Sys) {
    || (exists h :: h in x.past.kept && h in x.stranded)
    || (JudgesNow(x) && Full(x) && x.pcs[x.owner.value].h in x.past.kept && InPools(x.pcs[x.owner.value].h, x.pools)
        && Keeps(x.sweep.started, At(x.pools, x.pcs[x.owner.value].h), x.sweep.st))
  }

  ghost predicate Damaged(x: Sys) {
    Shaped(x) && (Escapes(x) || Overtaken(x) || Loses(x))
  }

  /** The steps the cleaning thread takes itself, and those of the others. */
  lemma SweeperSteps(x: Sys, t: nat, a: Action)
    requires Inv(x) && Enabled(x, t, a) && CleanRuns(x)
    ensures x.owner == Some(t) <==> (a.SweepPop? || a.Judge? || a.Drop? || a.SweepCredit? || a.SweepEnd?)
    ensures !(a.Count? || a.Pop? || a.Discount? || a.Clean?)
    ensures x.owner != Some(t) ==> !InSection(x.pcs[t]) && !InSection(Next(x, t, a).pcs[t])
  {
    SectionOwner(x, t);
    SectionSteps(x, t, a);
    OwnerSteps(x, t, a);
  }

  lemma SectionOwner(x: Sys, t: nat)
    requires Inv(x) && t < |x.pcs|
    ensures InSection(x.pcs[t]) <==> x.owner == Some(t)
  {
  }

  /** Where the steps of a pop or a cleaning begin. */
  lemma SectionSteps(x: Sys, t: nat, a: Action)
    requires Enabled(x, t, a)
    ensures t < |x.pcs|
    ensures a.SweepPop? || a.Judge? || a.Drop? || a.SweepCredit? || a.SweepEnd? <==> InSweep(x.pcs[t])
    ensures a.Discount? <==> x.pcs[t].Popped?
    ensures a.Count? || a.Pop? || a.Clean? ==> x.owner.None?
  {
  }

  lemma OwnerSteps(x: Sys, t: nat, a: Action)
    requires Enabled(x, t, a)
    ensures InSection(Next(x, t, a).pcs[t]) ==> InSection(x.pcs[t]) || a.Pop? || a.Clean?
  {
  }

  lemma {:induction false} KeptSame(pools: seq<Pool>, after: seq<Pool>, s: set<Handle>, q: seq<Handle>, started: bool, st: ModuleState)
    requires Changes(pools, after, s) && InAll(pools, q) && forall h :: h in q ==> h !in s
    ensures InAll(after, q) && Kept(after, q, started, st) == Kept(pools, q, started, st)
  {
    if q != [] {
      assert q[0] in q && forall h :: h in q[1..] ==> h in q;
      assert At(after, q[0]) == At(pools, q[0]);
      KeptSame(pools, after, s, q[1..], started || IsStart(At(pools, q[0]), st), st);
    }
  }

  lemma {:induction false} KeptMembers(pools: seq<Pool>, q: seq<Handle>, started: bool, st: ModuleState)
    requires InAll(pools, q)
    ensures forall h :: h in Kept(pools, q, started, st) ==> h in q
  {
    if q != [] { KeptMembers(pools, q[1..], started || IsStart(At(pools, q[0]), st), st); }
  }

  lemma LaterInPools(x: Sys)
    requires Inv(x) && CleanRuns(x)
    ensures InAll(x.pools, Later(x))
    ensures forall h :: h in Later(x) ==> h in x.queue || (JudgesNow(x) && h == x.pcs[x.owner.value].h)
  {
    InvQueued(x);
    assert PcOk(x.pools, x.pcs[x.owner.value]);
    var m := Min(x.sweep.left, |x.queue|);
    forall k | 0 <= k < m ensures InPools(x.queue[k], x.pools) && x.queue[k] in x.queue {
    }
  }

  // ----- the start -----

  lemma CleanStarts(x: Sys, t: nat, st: ModuleState)
    requires Inv(x) && Enabled(x, t, Clean(st))
    ensures var y := Next(x, t, Clean(st));
            CleanRuns(y) && Undisturbed(y) && y.past.kept == Kept(x.pools, x.queue, false, st)
  {
    var y := Next(x, t, Clean(st));
    assert y.pcs[t] == Sweeping && !JudgesNow(y);
    WholeQueue(x.queue);
    assert Later(y) == x.queue && KeptLater(y) == y.past.kept;
    hide Inv, Enabled, Next, Kept, Later, KeptLater, InAll;
    assert y.past.kept[0..] == y.past.kept && y.past.kept[..0] + [] == [];
  }

  lemma WholeQueue(q: seq<Handle>)
    ensures [] + q[..|q|] == q && [] + q + [] == q
  {
  }

  // ----- steps of other threads -----

  /** A step that neither lands nor belongs to the cleaning. */
  lemma AsideStep(x: Sys, t: nat, a: Action)
    requires Inv(x) && Enabled(x, t, a) && CleanRuns(x) && x.owner != Some(t) && !Lands(x, t, a)
    ensures var y := Next(x, t, a);
            && y.queue == x.queue && y.sweep == x.sweep && y.owner == x.owner && x.stranded <= y.stranded && y.size == x.size
            && y.past == x.past.(surplus := y.past.surplus) && CleanRuns(y) && JudgesNow(y) == JudgesNow(x)
            && y.pcs[y.owner.value] == x.pcs[x.owner.value]
            && Later(y) == Later(x) && KeptLater(y) == KeptLater(x)
  {
    var y := Next(x, t, a);
    SweeperSteps(x, t, a);
    LaterInPools(x);
    PoolChange(x, t, a);
    var s := Touched(x, t, a);
    assert y.queue == x.queue && y.owner == x.owner && y.sweep == x.sweep;
    forall h | h in Later(x) ensures h !in s {
      if h !in x.queue { assert HasHand(x.pcs[x.owner.value]); }
    }
    KeptSame(x.pools, y.pools, s, Later(x), x.sweep.started, x.sweep.st);
  }

  lemma AsideKeeps(x: Sys, t: nat, a: Action)
    requires Inv(x) && Enabled(x, t, a) && CleanRuns(x) && x.owner != Some(t) && !Lands(x, t, a)
    ensures Undisturbed(x) ==> Undisturbed(Next(x, t, a))
    ensures Damaged(x) ==> Damaged(Next(x, t, a))
  {
    hide Inv, Next, Enabled, Lands, Later, KeptLater, CleanRuns;
    AsideStep(x, t, a);
    AsideJudged(x, t, a);
    var y := Next(x, t, a);
    if Damaged(x) {
      SamePastBut(x, y);
      assert Loses(x) ==> Loses(y);
    }
    if Undisturbed(x) { SamePastBut(x, y); }
  }

  lemma AsideJudged(x: Sys, t: nat, a: Action)
    requires Inv(x) && Enabled(x, t, a) && CleanRuns(x) && x.owner != Some(t) && !Lands(x, t, a)
    ensures JudgesNow(x) && InPools(x.pcs[x.owner.value].h, x.pools)
            ==> var (y, h) := (Next(x, t, a), x.pcs[x.owner.value].h); InPools(h, y.pools) && At(y.pools, h) == At(x.pools, h)
  {
    PoolChange(x, t, a);
  }

  lemma SamePastBut(x: Sys, y: Sys)
    requires y.queue == x.queue && y.sweep == x.sweep && y.past == x.past.(surplus := y.past.surplus) && Shaped(x)
    ensures Shaped(y) && Overtaken(y) == Overtaken(x) && Escapes(y) == Escapes(x)
  {
  }

  lemma InRange(x: Sys, t: nat, a: Action)
    requires Enabled(x, t, a)
    ensures t < |x.pcs| && (a.Judge? ==> x.pcs[t].Judging? && InPools(x.pcs[t].h, x.pools))
    ensures Lands(x, t, a) ==> HasHand(x.pcs[t])
  {
  }

  /** What a landing changes. */
  lemma LandStep(x: Sys, t: nat, a: Action)
    requires Inv(x) && Enabled(x, t, a) && CleanRuns(x) && Lands(x, t, a)
    ensures var (y, h) := (Next(x, t, a), x.pcs[t].h);
            && HasHand(x.pcs[t]) && h !in x.queue && x.owner != Some(t) && (JudgesNow(x) ==> h != x.pcs[x.owner.value].h)
            && y.pools == x.pools && y.sweep == x.sweep && y.owner == x.owner && y.stranded == x.stranded && y.size == x.size
            && CleanRuns(y) && JudgesNow(y) == JudgesNow(x) && y.pcs[y.owner.value] == x.pcs[x.owner.value]
            && !Full(x) && y.queue == (if InFront(x, t, a) then [h] + x.queue else x.queue + [h])
            && y.past == (if InFront(x, t, a) then x.past.(top := [h] + x.past.top, front := [h] + x.past.front)
                          else x.past.(tail := x.past.tail + [h], back := x.past.back + [h]))
  {
    SweeperSteps(x, t, a);
    HandsUpdate(x.pcs, t, Outside);
    assert x.pcs[t].h in HandOf(x.pcs[t]);
  }

  lemma LandShaped(x: Sys, t: nat, a: Action)
    requires Inv(x) && Enabled(x, t, a) && CleanRuns(x) && Lands(x, t, a) && Shaped(x)
    ensures Shaped(Next(x, t, a)) && x.sweep.left <= |x.queue|
  {
    hide Inv, Next, Enabled, Lands, InFront, CleanRuns, JudgesNow, HasHand;
    InRange(x, t, a);
    LandStep(x, t, a);
    ShapedLanding(x, Next(x, t, a), x.pcs[t].h, InFront(x, t, a));
  }

  lemma ShapedLanding(x: Sys, y: Sys, h: Handle, front: bool)
    requires Shaped(x) && h !in x.queue && y.sweep == x.sweep
    requires y.queue == if front then [h] + x.queue else x.queue + [h]
    requires y.past == if front then x.past.(top := [h] + x.past.top, front := [h] + x.past.front)
                       else x.past.(tail := x.past.tail + [h], back := x.past.back + [h])
    ensures Shaped(y) && x.sweep.left <= |x.queue|
  {
    assert forall g :: g in x.past.rest ==> g in x.queue;
    if front {
      assert y.queue == ([h] + x.past.top) + x.past.rest + x.past.tail;
    } else {
      assert y.queue == x.past.top + x.past.rest + (x.past.tail + [h]);
    }
  }

  lemma LandLater(x: Sys, t: nat, a: Action)
    requires Inv(x) && Enabled(x, t, a) && CleanRuns(x) && Lands(x, t, a) && x.sweep.left <= |x.queue|
    requires InFront(x, t, a) ==> x.sweep.left == 0
    ensures Later(Next(x, t, a)) == Later(x) && KeptLater(Next(x, t, a)) == KeptLater(x)
  {
    LandStep(x, t, a);
    hide Inv, Next, Enabled, Lands;
    var y := Next(x, t, a);
    assert y.queue[..x.sweep.left] == x.queue[..x.sweep.left];
  }

  /** A landing that comes late enough does no harm. */
  lemma LandKeeps(x: Sys, t: nat, a: Action)
    requires Inv(x) && Enabled(x, t, a) && CleanRuns(x) && Lands(x, t, a) && Undisturbed(x) && !Harmful(x, t, a)
    ensures Undisturbed(Next(x, t, a))
  {
    hide Inv, Next, Enabled, Lands, Later, KeptLater, Shaped, InFront, CleanRuns, JudgesNow;
    InRange(x, t, a);
    LandStep(x, t, a);
    LandShaped(x, t, a);
    LandLater(x, t, a);
    var y, h := Next(x, t, a), x.pcs[t].h;
    if !InFront(x, t, a) {
      var n := |x.past.tail| - |x.past.back|;
      assert x.past.kept[..n] + x.past.back + [h] == x.past.kept[..n] + (x.past.back + [h]);
    }
  }

  lemma {:induction false} KeptOne(pools: seq<Pool>, h: Handle, started: bool, st: ModuleState)
    requires InPools(h, pools)
    ensures Kept(pools, [h], started, st) == if Keeps(started, At(pools, h), st) then [h] else []
  {
    assert [h][1..] == [];
  }

  /** One that comes too early does harm. */
  lemma LandHarms(x: Sys, t: nat, a: Action)
    requires Inv(x) && Enabled(x, t, a) && CleanRuns(x) && Undisturbed(x) && Harmful(x, t, a)
    ensures Damaged(Next(x, t, a))
  {
    hide Inv, Next, Enabled, Lands, Later, KeptLater, Shaped, CleanRuns, JudgesNow, HasHand;
    HarmLands(x, t, a);
    InRange(x, t, a);
    LandStep(x, t, a);
    LandShaped(x, t, a);
    var y, h := Next(x, t, a), x.pcs[t].h;
    if InFront(x, t, a) && x.sweep.left > 0 {
      assert Escapes(y);
    } else if InFront(x, t, a) {
      LandSqueezes(x, t, a);
    } else {
      var n := |x.past.tail| - |x.past.back|;
      NextKept(x);
      assert y.past.tail[n] == h && y.past.kept[n] != h;
      assert Overtaken(y);
    }
  }

  lemma HarmLands(x: Sys, t: nat, a: Action)
    requires Enabled(x, t, a) && Harmful(x, t, a)
    ensures Lands(x, t, a)
  {
  }

  lemma LandSqueezes(x: Sys, t: nat, a: Action)
    requires Inv(x) && Enabled(x, t, a) && CleanRuns(x) && Undisturbed(x) && Lands(x, t, a)
    requires x.sweep.left == 0 && KeptLater(x) != [] && |x.queue| + 1 >= x.size
    ensures Loses(Next(x, t, a))
  {
    hide Inv, Next, Enabled, Lands, Later, KeptLater, Shaped, HasHand, Keeps;
    Squeezed(x);
    LandStep(x, t, a);
  }

  /** The next element to be pushed back is in the ring or in hand. */
  lemma NextKept(x: Sys)
    requires Inv(x) && CleanRuns(x) && Undisturbed(x) && KeptLater(x) != []
    ensures var n := |x.past.tail| - |x.past.back|;
            && n < |x.past.kept|
            && (x.past.kept[n] in x.queue || (JudgesNow(x) && x.past.kept[n] == x.pcs[x.owner.value].h))
  {
    LaterInPools(x);
    KeptMembers(x.pools, Later(x), x.sweep.started, x.sweep.st);
    assert KeptLater(x)[0] in Later(x);
    assert x.past.kept[|x.past.tail| - |x.past.back|] == x.past.kept[|x.past.tail| - |x.past.back|..][0];
  }

  /** With no pass left, what is still to be pushed back is the element in hand. */
  lemma Squeezed(x: Sys)
    requires Inv(x) && CleanRuns(x) && x.sweep.left == 0 && KeptLater(x) != [] && Undisturbed(x)
    ensures JudgesNow(x) && InPools(x.pcs[x.owner.value].h, x.pools)
    ensures var h := x.pcs[x.owner.value].h;
            Keeps(x.sweep.started, At(x.pools, h), x.sweep.st) && h in x.past.kept
  {
    assert x.queue[..0] == [];
    LaterInPools(x);
    if JudgesNow(x) {
      var h := x.pcs[x.owner.value].h;
      assert Later(x) == [h];
      assert Later(x)[0] == h;
      KeptOne(x.pools, h, x.sweep.started, x.sweep.st);
      assert x.past.kept[|x.past.tail| - |x.past.back|..][0] == h;
    }
    assert !JudgesNow(x) ==> Later(x) == [] + [];
  }

  /** Harm is never undone by other threads. */
  lemma LandDamaged(x: Sys, t: nat, a: Action)
    requires Inv(x) && Enabled(x, t, a) && CleanRuns(x) && Lands(x, t, a) && Damaged(x)
    ensures Damaged(Next(x, t, a))
  {
    LandStep(x, t, a);
    LandShaped(x, t, a);
    var y := Next(x, t, a);
    hide Inv, Next, Enabled, Lands, Shaped, Keeps;
    if Overtaken(x) {
      var p :| 0 <= p < |x.past.tail| && p < |x.past.kept| && x.past.tail[p] != x.past.kept[p];
      assert y.past.tail[p] == x.past.tail[p];
      assert Overtaken(y);
    } else if Escapes(x) {
      assert Escapes(y);
    } else {
      assert Loses(y);
    }
  }

  // ----- steps of the cleaning -----

  /** A pass takes the front element; the ring is not empty. */
  lemma SweepPopStep(x: Sys, t: nat)
    requires Inv(x) && Enabled(x, t, SweepPop) && CleanRuns(x) && Shaped(x)
    ensures x.queue != [] && x.owner == Some(t) && x.sweep.left <= |x.queue|
    ensures var (y, h) := (Next(x, t, SweepPop), x.queue[0]);
            && y.queue == x.queue[1..] && y.owner == x.owner && y.pcs == x.pcs[t := Judging(h)] && y.pools == x.pools
            && y.sweep == x.sweep.(left := x.sweep.left - 1) && y.stranded == x.stranded && y.size == x.size
            && CleanRuns(y) && JudgesNow(y) && Shaped(y)
            && if x.past.top != [] then y.past == x.past.(top := x.past.top[1..], surplus := y.past.surplus)
               else x.past.rest != [] && y.past == x.past.(rest := x.past.rest[1..])
  {
    SweeperSteps(x, t, SweepPop);
    var y := Next(x, t, SweepPop);
    if x.past.top != [] {
      assert x.queue[1..] == x.past.top[1..] + x.past.rest + x.past.tail;
    } else {
      assert x.queue == x.past.rest + x.past.tail;
      assert x.queue[1..] == [] + x.past.rest[1..] + x.past.tail;
    }
  }

  lemma SweepPopLater(x: Sys, t: nat)
    requires Inv(x) && Enabled(x, t, SweepPop) && CleanRuns(x) && Shaped(x)
    ensures !JudgesNow(x) && KeptLater(Next(x, t, SweepPop)) == KeptLater(x)
  {
    SweepPopStep(x, t);
    SweepingNow(x, t);
    hide Inv, Next, Enabled, Shaped, Kept;
    PassMoves(x, Next(x, t, SweepPop), t);
  }

  lemma SweepingNow(x: Sys, t: nat)
    requires Enabled(x, t, SweepPop) && x.owner == Some(t)
    ensures !JudgesNow(x) && x.sweep.left > 0
  {
  }

  /** The front element goes from the queue to the hand: what is still to be judged is the same. */
  lemma PassMoves(x: Sys, y: Sys, t: nat)
    requires x.queue != [] && x.owner == Some(t) == y.owner && t < |x.pcs| && !JudgesNow(x) && 0 < x.sweep.left <= |x.queue|
    requires y.queue == x.queue[1..] && y.pcs == x.pcs[t := Judging(x.queue[0])] && y.pools == x.pools
    requires y.sweep == x.sweep.(left := x.sweep.left - 1) && JudgesNow(y)
    ensures Later(y) == Later(x) && KeptLater(y) == KeptLater(x)
  {
    var m := x.sweep.left;
    assert x.queue[..m] == [x.queue[0]] + x.queue[1..][..m - 1];
    assert [] + x.queue[..m] == x.queue[..m];
  }

  lemma SweepPopOvertaken(x: Sys, t: nat)
    requires Inv(x) && Enabled(x, t, SweepPop) && CleanRuns(x) && Shaped(x)
    ensures Overtaken(Next(x, t, SweepPop)) == Overtaken(x)
    ensures Escapes(x) ==> Escapes(Next(x, t, SweepPop))
  {
    SweepPopStep(x, t);
  }

  lemma SweepPopKeeps(x: Sys, t: nat)
    requires Inv(x) && Enabled(x, t, SweepPop) && CleanRuns(x) && Shaped(x)
    ensures Undisturbed(x) ==> Undisturbed(Next(x, t, SweepPop))
    ensures Damaged(x) ==> Damaged(Next(x, t, SweepPop))
  {
    hide Inv, Next, Enabled, Later, KeptLater, Keeps, Shaped, CleanRuns, Overtaken, InPools;
    SweepPopStep(x, t);
    SweepPopLater(x, t);
    SweepPopOvertaken(x, t);
    var y := Next(x, t, SweepPop);
    if Damaged(x) {
      assert Loses(x) ==> Loses(y);
    }
  }

  lemma JudgeStep(x: Sys, t: nat)
    requires Inv(x) && Enabled(x, t, Judge) && CleanRuns(x)
    ensures x.owner == Some(t) && JudgesNow(x)
    ensures var (y, h) := (Next(x, t, Judge), x.pcs[t].h);
            var keeps := Keeps(x.sweep.started, At(x.pools, h), x.sweep.st);
            && h !in x.queue && y.owner == x.owner && y.pools == x.pools && y.size == x.size && CleanRuns(y) && !JudgesNow(y)
            && y.queue == (if keeps && !Full(x) then x.queue + [h] else x.queue)
            && y.stranded == (if keeps && Full(x) then x.stranded + {h} else x.stranded)
            && y.past == x.past.(tail := if keeps && !Full(x) then x.past.tail + [h] else x.past.tail, surplus := y.past.surplus)
            && y.sweep == x.sweep.(started := x.sweep.started || (keeps && IsStart(At(x.pools, h), x.sweep.st)))
  {
    SweeperSteps(x, t, Judge);
    assert x.pcs[t].h in Hands(x.pcs);
  }

  lemma JudgeShaped(x: Sys, t: nat)
    requires Inv(x) && Enabled(x, t, Judge) && CleanRuns(x) && Shaped(x)
    ensures Shaped(Next(x, t, Judge)) && x.sweep.left <= |x.queue|
  {
    JudgeStep(x, t);
    var y, h := Next(x, t, Judge), x.pcs[t].h;
    hide Inv, Next, Enabled;
    assert x.queue + [h] == x.past.top + x.past.rest + (x.past.tail + [h]);
  }

  /** What is left to push back after one more element has been judged. */
  lemma JudgeLater(x: Sys, t: nat)
    requires Inv(x) && Enabled(x, t, Judge) && CleanRuns(x) && x.sweep.left <= |x.queue|
    ensures var (y, h) := (Next(x, t, Judge), x.pcs[t].h);
            KeptLater(x) == (if Keeps(x.sweep.started, At(x.pools, h), x.sweep.st) then [h] else []) + KeptLater(y)
  {
    JudgeStep(x, t);
    LaterInPools(x);
    var y, h, m := Next(x, t, Judge), x.pcs[t].h, x.sweep.left;
    assert y.queue[..m] == x.queue[..m];
    assert Later(x)[0] == h && Later(x)[1..] == x.queue[..m];
    assert Later(y) == x.queue[..m];
    assert InAll(y.pools, Later(y));
  }

  lemma JudgeKeeps(x: Sys, t: nat)
    requires Inv(x) && Enabled(x, t, Judge) && CleanRuns(x) && Undisturbed(x)
    ensures Undisturbed(Next(x, t, Judge))
  {
    hide Inv, Next, Enabled, Later, KeptLater, Shaped, CleanRuns, Keeps, IsStart, Kept;
    InRange(x, t, Judge);
    JudgeStep(x, t);
    JudgeShaped(x, t);
    JudgeLater(x, t);
    var y, h := Next(x, t, Judge), x.pcs[t].h;
    if Keeps(x.sweep.started, At(x.pools, h), x.sweep.st) {
      JudgedBack(x, y, h);
    } else {
      assert [] + KeptLater(y) == KeptLater(y);
    }
  }

  /** The element kept is the next one the filter keeps. */
  lemma JudgedBack(x: Sys, y: Sys, h: Handle)
    requires Undisturbed(x) && Shaped(y) && JudgesNow(x) && !JudgesNow(y) && KeptLater(x) == [h] + KeptLater(y)
    requires y.size == x.size && y.sweep.left == x.sweep.left
    requires y.queue == (if Full(x) then x.queue else x.queue + [h])
    requires y.past == x.past.(tail := if Full(x) then x.past.tail else x.past.tail + [h], surplus := y.past.surplus)
    ensures Undisturbed(y)
  {
    hide KeptLater, Shaped, JudgesNow;
    var n := |x.past.tail| - |x.past.back|;
    KeptMore(x.past.kept, n, h, KeptLater(y));
    assert x.past.kept[..n] + [] == x.past.kept[..n] && x.past.kept[..n + 1] + [] == x.past.kept[..n + 1];
  }

  lemma KeptMore(kept: seq<Handle>, n: nat, h: Handle, rest: seq<Handle>)
    requires n <= |kept| && kept[n..] == [h] + rest
    ensures n + 1 <= |kept| && kept[n + 1..] == rest && kept[..n + 1] == kept[..n] + [h]
  {
    assert kept[n] == kept[n..][0] && kept[n + 1..] == kept[n..][1..];
  }

  lemma JudgeDamaged(x: Sys, t: nat)
    requires Inv(x) && Enabled(x, t, Judge) && CleanRuns(x) && Damaged(x)
    ensures Damaged(Next(x, t, Judge))
  {
    JudgeStep(x, t);
    JudgeShaped(x, t);
    var y := Next(x, t, Judge);
    hide Inv, Next, Enabled, Shaped, Keeps;
    if Overtaken(x) {
      var p :| 0 <= p < |x.past.tail| && p < |x.past.kept| && x.past.tail[p] != x.past.kept[p];
      assert y.past.tail[p] == x.past.tail[p];
      assert Overtaken(y);
    } else if Escapes(x) {
      assert Escapes(y);
    } else {
      assert Loses(y);
    }
  }

  /** Letting a dropped element go. */
  lemma DropKeeps(x: Sys, t: nat, a: Action)
    requires Inv(x) && Enabled(x, t, a) && CleanRuns(x) && (a.Drop? || a.SweepCredit?)
    ensures CleanRuns(Next(x, t, a))
    ensures Undisturbed(x) ==> Undisturbed(Next(x, t, a))
    ensures Damaged(x) ==> Damaged(Next(x, t, a))
  {
    hide Inv, Next, Enabled, Later, KeptLater, Keeps, Shaped, CleanRuns;
    DropStep(x, t, a);
    var y := Next(x, t, a);
    if Damaged(x) {
      SamePastBut(x, y);
      assert Loses(x) ==> Loses(y);
    }
    if Undisturbed(x) { SamePastBut(x, y); }
  }

  lemma DropStep(x: Sys, t: nat, a: Action)
    requires Inv(x) && Enabled(x, t, a) && CleanRuns(x) && (a.Drop? || a.SweepCredit?)
    ensures var y := Next(x, t, a);
            && CleanRuns(y) && !JudgesNow(x) && !JudgesNow(y) && y.queue == x.queue && y.sweep == x.sweep && y.past == x.past
            && y.stranded == x.stranded && y.size == x.size && KeptLater(y) == KeptLater(x)
  {
    SweeperSteps(x, t, a);
    LaterInPools(x);
    PoolChange(x, t, a);
    var y := Next(x, t, a);
    assert Later(y) == Later(x);
    KeptSame(x.pools, y.pools, Touched(x, t, a), Later(x), x.sweep.started, x.sweep.st);
  }

  // ----- every step -----

  lemma SweepStep(x: Sys, t: nat, a: Action)
    requires Inv(x) && Enabled(x, t, a) && CleanRuns(x) && !a.SweepEnd?
    ensures var y := Next(x, t, a);
            && CleanRuns(y) && y.owner == x.owner && y.past.kept == x.past.kept && y.past.window == x.past.window && y.sweep.st == x.sweep.st
            && (Undisturbed(x) && !Harmful(x, t, a) ==> Undisturbed(y))
            && (Undisturbed(x) && Harmful(x, t, a) ==> Damaged(y))
            && (Damaged(x) ==> Damaged(y))
  {
    hide Undisturbed, Damaged, Harmful, Lands;
    SweeperSteps(x, t, a);
    SweepFrame(x, t, a);
    hide Inv, Next;
    DamagedShaped(x);
    if x.owner == Some(t) {
      NoLanding(x, t, a);
      if a.SweepPop? { if Shaped(x) { SweepPopKeeps(x, t); } }
      else if a.Judge? { if Undisturbed(x) { JudgeKeeps(x, t); } if Damaged(x) { JudgeDamaged(x, t); } }
      else { DropKeeps(x, t, a); }
    } else if Lands(x, t, a) {
      if Undisturbed(x) { if Harmful(x, t, a) { LandHarms(x, t, a); } else { LandKeeps(x, t, a); } }
      if Damaged(x) { LandDamaged(x, t, a); }
    } else {
      AsideKeeps(x, t, a);
      NotHarmful(x, t, a);
    }
  }

  lemma NotHarmful(x: Sys, t: nat, a: Action)
    requires Enabled(x, t, a)
    ensures Harmful(x, t, a) ==> Lands(x, t, a)
  {
  }

  lemma NoLanding(x: Sys, t: nat, a: Action)
    requires Enabled(x, t, a) && (a.SweepPop? || a.Judge? || a.Drop? || a.SweepCredit? || a.SweepEnd?)
    ensures !Harmful(x, t, a)
  {
  }

  lemma DamagedShaped(x: Sys)
    ensures Damaged(x) || Undisturbed(x) ==> Shaped(x)
  {
  }

  lemma SweepFrame(x: Sys, t: nat, a: Action)
    requires Inv(x) && Enabled(x, t, a) && CleanRuns(x) && !a.SweepEnd?
    ensures var y := Next(x, t, a);
            CleanRuns(y) && y.owner == x.owner && y.past.kept == x.past.kept && y.past.window == x.past.window && y.sweep.st == x.sweep.st
  {
    hide Inv, Next, Enabled, CleanRuns;
    SweeperSteps(x, t, a);
    PastFrame(x, t, a);
    OwnerFrame(x, t, a);
  }

  lemma PastFrame(x: Sys, t: nat, a: Action)
    requires Enabled(x, t, a) && !a.Clean?
    ensures var y := Next(x, t, a);
            y.past.kept == x.past.kept && y.past.window == x.past.window && y.sweep.st == x.sweep.st
  {
  }

  lemma OwnerFrame(x: Sys, t: nat, a: Action)
    requires Enabled(x, t, a) && CleanRuns(x) && !(a.Count? || a.Pop? || a.Discount? || a.Clean? || a.SweepEnd?)
    requires x.owner == Some(t) <==> (a.SweepPop? || a.Judge? || a.Drop? || a.SweepCredit?)
    ensures var y := Next(x, t, a); CleanRuns(y) && y.owner == x.owner
  {
  }
}
