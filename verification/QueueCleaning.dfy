/** A cleaning among other threads: when it is the latched filter, and what becomes of the count. */
module QueueCleaning {
  import opened Common
  import opened QueueState
  import opened QueueTheorems
  import opened QueueSteps
  import opened QueueRuns
  import opened QueueSweep

  /** One cleaning of the run: it begins with step `i` and ends with step `j`. */
  ghost predicate Cleaning(tr: seq<Sys>, sched: seq<(nat, Action)>, i: nat, j: nat) {
    && Run(tr, sched) && i < j < |sched| && sched[i].1.Clean? && sched[j].1.SweepEnd?
    && forall k :: i < k < j ==> !sched[k].1.SweepEnd?
  }

  /** Step `k` puts an element into the ring too early for the cleaning. */
  ghost predicate TooEarly(tr: seq<Sys>, sched: seq<(nat, Action)>, k: nat) {
    k < |sched| && k < |tr| && Enabled(tr[k], sched[k].0, sched[k].1) && Harmful(tr[k], sched[k].0, sched[k].1)
  }

  ghost predicate EarlyBefore(tr: seq<Sys>, sched: seq<(nat, Action)>, i: nat, m: nat) {
    exists k :: i < k < m && TooEarly(tr, sched, k)
  }

  /** While the cleaning runs it is undisturbed until something lands too early, and damaged from then on. */
  lemma {:induction false} DuringCleaning(tr: seq<Sys>, sched: seq<(nat, Action)>, i: nat, j: nat, m: nat)
    requires Cleaning(tr, sched, i, j) && i < m <= j
    ensures CleanRuns(tr[m]) && tr[m].past.kept == tr[i + 1].past.kept && tr[m].past.window == tr[i + 1].past.window
    ensures if EarlyBefore(tr, sched, i, m) then Damaged(tr[m]) else Undisturbed(tr[m])
  {
    hide Inv, Enabled, Next, Harmful, Damaged, Undisturbed, CleanRuns;
    RunInv(tr, sched, m - 1);
    var x, t, a := tr[m - 1], sched[m - 1].0, sched[m - 1].1;
    assert Moves(x, t, a, tr[m]);
    if m == i + 1 {
      CleanStarts(x, t, a.st);
    } else {
      DuringCleaning(tr, sched, i, j, m - 1);
      SweepStep(x, t, a);
      assert TooEarly(tr, sched, m - 1) <==> Harmful(x, t, a);
      assert EarlyBefore(tr, sched, i, m) <==> EarlyBefore(tr, sched, i, m - 1) || TooEarly(tr, sched, m - 1);
    }
  }

  lemma AtStart(tr: seq<Sys>, sched: seq<(nat, Action)>, i: nat, j: nat)
    requires Cleaning(tr, sched, i, j)
    ensures InAll(tr[i].pools, tr[i].queue) && tr[i + 1].past.kept == Kept(tr[i].pools, tr[i].queue, false, sched[i].1.st)
    ensures tr[i + 1].past.window == Entering(tr[i].pcs)
  {
    assert Moves(tr[i], sched[i].0, sched[i].1, tr[i + 1]);
  }

  /** The queue a cleaning undone by nobody leaves: what it keeps, between what others have put in front and behind. */
  ghost predicate Filtered(x: Sys) {
    x.queue == x.past.front + x.past.kept + x.past.back
  }

  lemma UndisturbedEnds(x: Sys)
    requires Inv(x) && CleanRuns(x) && x.pcs[x.owner.value].Sweeping? && x.sweep.left == 0 && Undisturbed(x)
    ensures Filtered(x)
  {
    assert Later(x) == [];
    assert x.past.rest == [];
    var n := |x.past.tail| - |x.past.back|;
    assert KeptLater(x) == [];
    assert x.past.kept[..n] == x.past.kept;
  }

  lemma DamagedEnds(x: Sys)
    requires Inv(x) && CleanRuns(x) && x.pcs[x.owner.value].Sweeping? && x.sweep.left == 0 && Damaged(x)
    ensures !Filtered(x)
  {
    var past := x.past;
    if past.rest != [] {
      RestDiffers(past.top, past.rest, past.tail, past.front, past.kept, past.back);
    } else if Overtaken(x) {
      var p :| 0 <= p < |past.tail| && p < |past.kept| && past.tail[p] != past.kept[p];
      OvertakenDiffers(past.top, past.tail, past.front, past.kept, past.back, p);
    } else {
      var h :| h in past.kept && h in x.stranded;
      LostDiffers(x.queue, past.front, past.kept, past.back, h);
    }
  }

  lemma RestDiffers(top: seq<Handle>, rest: seq<Handle>, tail: seq<Handle>, front: seq<Handle>, kept: seq<Handle>, back: seq<Handle>)
    requires rest != [] && |top| < |front| && forall h :: h in rest ==> h !in front
    ensures top + rest + tail != front + kept + back
  {
    assert (top + rest + tail)[|top|] == rest[0] && rest[0] in rest;
    assert (front + kept + back)[|top|] == front[|top|] && front[|top|] in front;
  }

  lemma OvertakenDiffers(top: seq<Handle>, tail: seq<Handle>, front: seq<Handle>, kept: seq<Handle>, back: seq<Handle>, p: nat)
    requires |top| == |front| && p < |tail| && p < |kept| && tail[p] != kept[p]
    ensures top + [] + tail != front + kept + back
  {
    assert (top + [] + tail)[|top| + p] == tail[p] && (front + kept + back)[|front| + p] == kept[p];
  }

  lemma LostDiffers(q: seq<Handle>, front: seq<Handle>, kept: seq<Handle>, back: seq<Handle>, h: Handle)
    requires h in kept && h !in q
    ensures q != front + kept + back
  {
    assert h in front + kept + back;
  }

  /**
   A cleaning, whatever the other threads do meanwhile, is the latched filter of the queue
   it started on, between the elements put in front and those put behind since, if and
   only if no element lands too early: at the back while it has something to push back, in
   front while it has something to pop, or in the last place while it has one in hand.
   */
  lemma CleaningIsTheFilterIff(tr: seq<Sys>, sched: seq<(nat, Action)>, i: nat, j: nat)
    requires Cleaning(tr, sched, i, j)
    ensures InAll(tr[i].pools, tr[i].queue)
    ensures tr[j + 1].queue == tr[j + 1].past.front + Kept(tr[i].pools, tr[i].queue, false, sched[i].1.st) + tr[j + 1].past.back
            <==> forall k :: i < k < j ==> !TooEarly(tr, sched, k)
  {
    AtStart(tr, sched, i, j);
    DuringCleaning(tr, sched, i, j, j);
    RunInv(tr, sched, j);
    var x := tr[j];
    assert Moves(x, sched[j].0, SweepEnd, tr[j + 1]);
    SweeperSteps(x, sched[j].0, SweepEnd);
    if EarlyBefore(tr, sched, i, j) { DamagedEnds(x); } else { UndisturbedEnds(x); }
  }

  /** With nobody else putting anything into the ring meanwhile, it is the filter alone. */
  lemma QuietCleaning(tr: seq<Sys>, sched: seq<(nat, Action)>, i: nat, j: nat)
    requires Cleaning(tr, sched, i, j)
    requires forall k :: i < k < j ==> !sched[k].1.Enter? && !sched[k].1.Fall?
    ensures InAll(tr[i].pools, tr[i].queue)
    ensures tr[j + 1].queue == Kept(tr[i].pools, tr[i].queue, false, sched[i].1.st)
  {
    CleaningIsTheFilterIff(tr, sched, i, j);
    assert Moves(tr[j], sched[j].0, SweepEnd, tr[j + 1]);
    NothingLanded(tr, sched, i, j, j);
    var kept := Kept(tr[i].pools, tr[i].queue, false, sched[i].1.st);
    assert [] + kept + [] == kept;
    forall k | i < k < j ensures !TooEarly(tr, sched, k) {
      EarlyLands(tr, sched, k);
    }
  }

  lemma EarlyLands(tr: seq<Sys>, sched: seq<(nat, Action)>, k: nat)
    ensures TooEarly(tr, sched, k) ==> sched[k].1.Enter? || sched[k].1.Fall?
  {
  }

  lemma {:induction false} NothingLanded(tr: seq<Sys>, sched: seq<(nat, Action)>, i: nat, j: nat, m: nat)
    requires Cleaning(tr, sched, i, j) && i < m <= j
    requires forall k :: i < k < j ==> !sched[k].1.Enter? && !sched[k].1.Fall?
    ensures tr[m].past.front == [] && tr[m].past.back == []
  {
    hide Inv, Enabled, Next, CleanRuns, Damaged, Undisturbed;
    var x, t, a := tr[m - 1], sched[m - 1].0, sched[m - 1].1;
    assert Moves(x, t, a, tr[m]);
    LandedSame(x, t, a);
    if m > i + 1 {
      NothingLanded(tr, sched, i, j, m - 1);
      RunInv(tr, sched, m - 1);
      DuringCleaning(tr, sched, i, j, m - 1);
      SweeperSteps(x, t, a);
    }
  }

  lemma LandedSame(x: Sys, t: nat, a: Action)
    requires Enabled(x, t, a)
    ensures var y := Next(x, t, a);
            && (!a.Enter? && !a.Fall? && !a.Clean? ==> y.past.front == x.past.front && y.past.back == x.past.back)
            && (a.Clean? ==> y.past.front == [] && y.past.back == [])
  {
  }

  // ----- the count -----

  ghost predicate RestQueued(x: Sys) {
    Queued(x) && InAll(x.pools, x.past.rest)
  }

  /** What the count will be off by if the cleaning ends now. */
  ghost function Off(x: Sys): int
    requires RestQueued(x)
  {
    x.past.window + x.past.surplus - CountActivating(x.pools, x.past.rest)
  }

  /** While a cleaning runs. */
  ghost predicate CountOk(x: Sys) {
    RestQueued(x) && Same32(x.activating + Entering(x.pcs) - CountActivating(x.pools, x.queue), Off(x))
  }

  lemma RestIsQueued(x: Sys)
    requires Inv(x) && Shaped(x)
    ensures RestQueued(x) && forall h :: h in x.past.rest ==> h in x.queue
  {
    InvQueued(x);
    forall k | 0 <= k < |x.past.rest| ensures InPools(x.past.rest[k], x.pools) {
      assert x.past.rest[k] == x.queue[|x.past.top| + k];
    }
  }

  lemma CountStarts(x: Sys, t: nat, st: ModuleState)
    requires Inv(x) && Enabled(x, t, Clean(st))
    ensures CountOk(Next(x, t, Clean(st)))
  {
    StepInv(x, t, Clean(st));
    InvQueued(Next(x, t, Clean(st)));
    EnteringUpdate(x.pcs, t, Sweeping);
  }

  /** The count and the pushes about to be counted, less the activating elements queued. */
  ghost function Gap(x: Sys): int
    requires Queued(x)
  {
    x.activating + Entering(x.pcs) - CountActivating(x.pools, x.queue)
  }

  /** The gap and what it should be change alike. */
  lemma CountMoves(x: Sys, y: Sys)
    requires CountOk(x) && RestQueued(y) && Same32(Gap(y) - Gap(x), Off(y) - Off(x))
    ensures CountOk(y)
  {
    Same32Add(Gap(y) - Gap(x), Off(y) - Off(x), Gap(x));
    Same32Add(Gap(x), Off(x), Off(y) - Off(x));
  }

  /** Thread `t` goes on as `c`, and at most one element joins the queue. */
  lemma GapAfter(x: Sys, y: Sys, t: nat, c: Pc, h: Handle)
    requires Queued(x) && t < |x.pcs| && y.pcs == x.pcs[t := c] && y.pools == x.pools && InPools(h, x.pools)
    requires y.queue == x.queue || y.queue == x.queue + [h] || y.queue == [h] + x.queue
    ensures Queued(y)
    ensures Gap(y) - Gap(x) == y.activating - x.activating + One(c.Entered?) - One(x.pcs[t].Entered?)
                               - (if y.queue == x.queue then 0 else One(At(x.pools, h).activating))
  {
    EnteringUpdate(x.pcs, t, c);
    CountAppend(x.pools, x.queue, h);
  }

  lemma SameRest(x: Sys, y: Sys)
    requires RestQueued(x) && Queued(y) && y.pools == x.pools && y.past.rest == x.past.rest && y.past.window == x.past.window
    ensures RestQueued(y) && Off(y) - Off(x) == y.past.surplus - x.past.surplus
  {
  }

  lemma CountLanding(x: Sys, t: nat, a: Action)
    requires Inv(x) && Enabled(x, t, a) && CleanRuns(x) && Shaped(x) && CountOk(x) && (a.Enter? || a.Fall?)
    ensures CountOk(Next(x, t, a))
  {
    hide Inv, CountOk, Shaped, RestQueued, Queued, Gap, Off, CleanRuns;
    LandingParts(x, t, a);
    RestIsQueued(x);
    var y := Next(x, t, a);
    GapAfter(x, y, t, y.pcs[t], x.pcs[t].h);
    SameRest(x, y);
    CountMoves(x, y);
  }

  lemma LandingParts(x: Sys, t: nat, a: Action)
    requires Inv(x) && Enabled(x, t, a) && CleanRuns(x) && Shaped(x) && (a.Enter? || a.Fall?)
    ensures RestQueued(x) && Queued(x) && (x.pcs[t].Prepared? || x.pcs[t].Falling?) && InPools(x.pcs[t].h, x.pools)
    ensures At(x.pools, x.pcs[t].h).activating == x.pcs[t].op.activating
  {
    RestIsQueued(x);
    assert PcOk(x.pools, x.pcs[t]);
  }

  lemma CountPopping(x: Sys, t: nat)
    requires Inv(x) && Enabled(x, t, SweepPop) && CleanRuns(x) && Shaped(x) && CountOk(x)
    ensures CountOk(Next(x, t, SweepPop))
  {
    hide Inv, Enabled, Next, CountOk, CleanRuns, Shaped;
    PoppingParts(x, t);
    SweepPopStep(x, t);
    RestIsQueued(x);
    var y := Next(x, t, SweepPop);
    EnteringUpdate(x.pcs, t, y.pcs[t]);
    CountFront(x.pools, x.queue);
    if x.past.top == [] { CountFront(x.pools, x.past.rest); }
    CountMoves(x, y);
  }

  lemma PoppingParts(x: Sys, t: nat)
    requires Inv(x) && Enabled(x, t, SweepPop) && CleanRuns(x) && Shaped(x)
    ensures t < |x.pcs| && x.pcs[t] == Sweeping && x.queue != [] && Queued(x)
    ensures x.past.top == [] ==> x.past.rest != [] && x.past.rest[0] == x.queue[0]
    ensures x.past.top != [] ==> x.past.top[0] == x.queue[0]
    ensures var y := Next(x, t, SweepPop);
            && y.activating == x.activating
            && y.past.surplus == x.past.surplus + (if x.past.top != [] then One(At(x.pools, x.queue[0]).activating) else 0)
  {
    SweepPopStep(x, t);
    InvQueued(x);
  }

  lemma CountJudging(x: Sys, t: nat)
    requires Inv(x) && Enabled(x, t, Judge) && CleanRuns(x) && Shaped(x) && CountOk(x)
    ensures CountOk(Next(x, t, Judge))
  {
    hide Inv, CountOk, Shaped, RestQueued, Queued, Gap, Off, CleanRuns, Keeps, IsStart, Mod32;
    JudgingParts(x, t);
    RestIsQueued(x);
    var y := Next(x, t, Judge);
    GapAfter(x, y, t, y.pcs[t], x.pcs[t].h);
    SameRest(x, y);
    Same32Step(x.activating);
    if y.activating != x.activating { Same32Add(y.activating, x.activating + 1, Gap(y) - Gap(x) - y.activating); }
    CountMoves(x, y);
  }

  lemma JudgingParts(x: Sys, t: nat)
    requires Inv(x) && Enabled(x, t, Judge) && CleanRuns(x) && Shaped(x)
    ensures RestQueued(x) && Queued(x) && x.pcs[t].Judging? && InPools(x.pcs[t].h, x.pools)
    ensures Counts(At(x.pools, x.pcs[t].h), x.sweep.st) == At(x.pools, x.pcs[t].h).activating
  {
    RestIsQueued(x);
    assert PcOk(x.pools, x.pcs[t]);
  }

  lemma CountAside(x: Sys, t: nat, a: Action)
    requires Inv(x) && Enabled(x, t, a) && CleanRuns(x) && Shaped(x) && CountOk(x)
    requires !(a.Enter? || a.Fall? || a.SweepPop? || a.Judge? || a.SweepEnd?)
    ensures CountOk(Next(x, t, a))
  {
    hide Inv, Shaped, Enabled, Next, CleanRuns, Changes, Touched, HasHand;
    RestIsQueued(x);
    PoolChange(x, t, a);
    AsideParts(x, t, a);
    var y, s := Next(x, t, a), Touched(x, t, a);
    EnteringUpdate(x.pcs, t, y.pcs[t]);
    SameCounts(x, y, s);
  }

  lemma SameCounts(x: Sys, y: Sys, s: set<Handle>)
    requires CountOk(x) && Changes(x.pools, y.pools, s) && y.queue == x.queue && y.past == x.past && y.activating == x.activating
    requires Entering(y.pcs) == Entering(x.pcs)
    requires (forall h :: h in s ==> h !in x.queue) && forall h :: h in x.past.rest ==> h in x.queue
    ensures CountOk(y)
  {
    hide Changes, Entering;
    CountSame(x.pools, y.pools, s, x.queue);
    CountSame(x.pools, y.pools, s, x.past.rest);
  }

  lemma AsideParts(x: Sys, t: nat, a: Action)
    requires Inv(x) && Enabled(x, t, a) && CleanRuns(x)
    requires !(a.Enter? || a.Fall? || a.SweepPop? || a.Judge? || a.SweepEnd?)
    ensures t < |x.pcs| && t < |Next(x, t, a).pcs|
    ensures var y := Next(x, t, a);
            && y.queue == x.queue && y.past == x.past && y.activating == x.activating && y.pcs == x.pcs[t := y.pcs[t]]
            && !x.pcs[t].Entered? && !y.pcs[t].Entered?
  {
    SweeperSteps(x, t, a);
  }

  lemma CountStep(x: Sys, t: nat, a: Action)
    requires Inv(x) && Enabled(x, t, a) && CleanRuns(x) && Shaped(x) && CountOk(x) && !a.SweepEnd?
    ensures CountOk(Next(x, t, a))
  {
    hide Inv, Next, CountOk, Shaped, Enabled, CleanRuns;
    if a.Enter? || a.Fall? { CountLanding(x, t, a); }
    else if a.SweepPop? { CountPopping(x, t); }
    else if a.Judge? { CountJudging(x, t); }
    else { CountAside(x, t, a); }
  }

  lemma {:induction false} CountDuring(tr: seq<Sys>, sched: seq<(nat, Action)>, i: nat, j: nat, m: nat)
    requires Cleaning(tr, sched, i, j) && i < m <= j
    ensures CountOk(tr[m])
  {
    hide Inv, Enabled, Next, CountOk, CleanRuns, Damaged, Undisturbed, Shaped;
    RunInv(tr, sched, m - 1);
    var x, t, a := tr[m - 1], sched[m - 1].0, sched[m - 1].1;
    assert Moves(x, t, a, tr[m]);
    if m == i + 1 {
      CountStarts(x, t, a.st);
    } else {
      CountDuring(tr, sched, i, j, m - 1);
      DuringCleaning(tr, sched, i, j, m - 1);
      DamagedShaped(x);
      CountStep(x, t, a);
    }
  }

  /**
   What a cleaning leaves of the count, whatever the other threads do: it is off by the
   pushes that were between queuing and counting when it started, plus the activating
   elements counted without being queued or counted both by it and by their push, less
   those that escaped it.
   */
  lemma CountAfterCleaning(tr: seq<Sys>, sched: seq<(nat, Action)>, i: nat, j: nat)
    requires Cleaning(tr, sched, i, j)
    ensures Queued(tr[j + 1]) && RestQueued(tr[j + 1])
    ensures Same32(Drift(tr[j + 1]), Entering(tr[i].pcs) + tr[j + 1].past.surplus - CountActivating(tr[j + 1].pools, tr[j + 1].past.rest))
  {
    hide Inv, Enabled, Next, CleanRuns, Damaged, Undisturbed, Drift, RestQueued, CountOk;
    AtStart(tr, sched, i, j);
    DuringCleaning(tr, sched, i, j, j);
    CountDuring(tr, sched, i, j, j);
    RunInv(tr, sched, j);
    assert Moves(tr[j], sched[j].0, SweepEnd, tr[j + 1]);
    EndStep(tr[j], sched[j].0);
  }

  lemma EndStep(x: Sys, t: nat)
    requires Inv(x) && CleanRuns(x) && Enabled(x, t, SweepEnd) && CountOk(x)
    ensures var y := Next(x, t, SweepEnd);
            && Queued(y) && RestQueued(y) && y.past == x.past
            && Same32(Drift(y), x.past.window + x.past.surplus - CountActivating(y.pools, y.past.rest))
  {
    EnteringUpdate(x.pcs, t, Outside);
  }

  /** No element has been refused, and none put in front popped, while nothing has landed too early. */
  lemma {:induction false} NoSurplus(tr: seq<Sys>, sched: seq<(nat, Action)>, i: nat, j: nat, m: nat)
    requires Cleaning(tr, sched, i, j) && i < m <= j && Total(tr[0].pools) <= tr[0].size
    requires !EarlyBefore(tr, sched, i, m)
    ensures tr[m].past.surplus == 0
  {
    hide Inv, Enabled, Next, CleanRuns, Damaged, Harmful;
    RunInv(tr, sched, m - 1);
    NothingIsStranded(tr, sched, m - 1);
    var x, t, a := tr[m - 1], sched[m - 1].0, sched[m - 1].1;
    assert Moves(x, t, a, tr[m]);
    if m == i + 1 {
      CleanHistory(x, t, a);
    } else {
      assert !EarlyBefore(tr, sched, i, m - 1);
      NoSurplus(tr, sched, i, j, m - 1);
      DuringCleaning(tr, sched, i, j, m - 1);
      RefusedInHands(x, t, a);
      SurplusStep(x, t, a);
    }
  }

  lemma CleanHistory(x: Sys, t: nat, a: Action)
    requires Enabled(x, t, a) && a.Clean?
    ensures Next(x, t, a).past.surplus == 0
  {
  }

  lemma SurplusStep(x: Sys, t: nat, a: Action)
    requires Inv(x) && Enabled(x, t, a) && CleanRuns(x) && Undisturbed(x) && !Refuses(x, t, a) && !a.SweepEnd?
    ensures Next(x, t, a).past.surplus == x.past.surplus
  {
    SweeperSteps(x, t, a);
  }

  /**
   With a ring as large as all pools, a cleaning in which nothing lands too early makes the
   count exact if and only if no push was between queuing and counting when it started.
   */
  lemma CountIsExactAfterIff(tr: seq<Sys>, sched: seq<(nat, Action)>, i: nat, j: nat)
    requires Cleaning(tr, sched, i, j) && Total(tr[0].pools) <= tr[0].size
    requires forall k :: i < k < j ==> !TooEarly(tr, sched, k)
    ensures Queued(tr[j + 1])
    ensures Same32(Drift(tr[j + 1]), Entering(tr[i].pcs))
    ensures Same32(Drift(tr[j + 1]), 0) <==> Entering(tr[i].pcs) == 0
  {
    hide Inv, Enabled, Next, Damaged, Harmful, Drift, Off, RestQueued, CleanRuns;
    CountAfterCleaning(tr, sched, i, j);
    NoSurplus(tr, sched, i, j, j);
    DuringCleaning(tr, sched, i, j, j);
    NothingEscapes(tr, sched, i, j);
    RunInv(tr, sched, i);
    ThreadBound(tr[i]);
    Mod32Zero(Entering(tr[i].pcs));
  }

  lemma ThreadBound(x: Sys)
    requires Inv(x)
    ensures Entering(x.pcs) < 0x1_0000_0000
  {
    FreeingBound(x.pcs, 0);
  }

  lemma NothingEscapes(tr: seq<Sys>, sched: seq<(nat, Action)>, i: nat, j: nat)
    requires Cleaning(tr, sched, i, j) && Undisturbed(tr[j])
    ensures tr[j + 1].past == tr[j].past && tr[j + 1].past.rest == []
  {
    assert Moves(tr[j], sched[j].0, SweepEnd, tr[j + 1]);
  }
}
