/**
 The cleaning of a shutdown or kill, which passes no request table: when it needs one all
 the same.
 */
module QueueShutdown {
  import opened Common
  import opened QueueState
  import opened QueueTheorems
  import opened QueueSteps
  import opened QueueRuns
  import opened QueueSweep
  import opened QueueCleaning

  /** Only a cleaning in Ready latches. */
  lemma {:induction false} LatchedInReady(tr: seq<Sys>, steps: seq<(nat, Action)>, k: nat)
    requires Run(tr, steps) && k < |tr|
    ensures CleanRuns(tr[k]) && tr[k].sweep.started ==> tr[k].sweep.st == Ready
  {
    hide Inv, Enabled, Next, CleanRuns;
    if k == 0 {
      NotCleaning(tr[0]);
    } else {
      LatchedInReady(tr, steps, k - 1);
      RunInv(tr, steps, k - 1);
      assert Moves(tr[k - 1], steps[k - 1].0, steps[k - 1].1, tr[k]);
      LatchStep(tr[k - 1], steps[k - 1].0, steps[k - 1].1);
    }
  }

  lemma NotCleaning(x: Sys)
    requires Initial(x)
    ensures !CleanRuns(x)
  {
  }

  lemma LatchStep(x: Sys, t: nat, a: Action)
    requires Inv(x) && Enabled(x, t, a) && (CleanRuns(x) && x.sweep.started ==> x.sweep.st == Ready)
    ensures var y := Next(x, t, a); CleanRuns(y) && y.sweep.started ==> y.sweep.st == Ready
  {
    hide Inv;
    SectionSteps(x, t, a);
    SectionOwner(x, t);
  }

  // ----- what is judged -----

  /** A request received that no cleaning in Idle keeps. */
  ghost predicate Needs(pools: seq<Pool>, h: Handle) {
    InPools(h, pools) && At(pools, h).opType == RrReceived && At(pools, h).opId != KILL_LIFE && At(pools, h).opId != INITIALIZE_LIFE
  }

  ghost predicate SomeNeeds(pools: seq<Pool>, q: seq<Handle>) {
    exists h :: h in q && Needs(pools, h)
  }

  /** The cleaning goes on to the request table. */
  ghost predicate Follows(x: Sys, t: nat, a: Action) {
    && Enabled(x, t, a) && a.Judge? && InPools(x.pcs[t].h, x.pools)
    && Next(x, t, a).pcs[t].Dropping? && At(x.pools, x.pcs[t].h).opType == RrReceived
  }

  /** An element is put in front of those the cleaning has still to look at. */
  ghost predicate CutsIn(x: Sys, t: nat, a: Action) {
    Enabled(x, t, a) && Lands(x, t, a) && InFront(x, t, a) && x.sweep.left > 0
  }

  lemma JudgeFollows(x: Sys, t: nat)
    requires Enabled(x, t, Judge) && x.sweep.st == Idle && !x.sweep.started
    ensures Follows(x, t, Judge) <==> Needs(x.pools, x.pcs[t].h)
  {
  }

  lemma JudgeMoves(x: Sys, t: nat)
    requires Inv(x) && Enabled(x, t, Judge) && CleanRuns(x) && Shaped(x)
    ensures Later(x) == [x.pcs[t].h] + Later(Next(x, t, Judge))
  {
    JudgeStep(x, t);
    JudgeShaped(x, t);
    var y, m := Next(x, t, Judge), x.sweep.left;
    assert y.queue[..m] == x.queue[..m];
    assert [] + x.queue[..m] == x.queue[..m];
  }

  lemma SameNeeds(pools: seq<Pool>, after: seq<Pool>, s: set<Handle>, q: seq<Handle>)
    requires Changes(pools, after, s) && forall h :: h in q ==> h !in s
    ensures SomeNeeds(after, q) <==> SomeNeeds(pools, q)
  {
    forall h | h in q ensures Needs(after, h) <==> Needs(pools, h) {
      if InPools(h, pools) { assert At(after, h) == At(pools, h); }
    }
  }

  /** Steps after which the same elements are still to be judged. */
  lemma StillToJudge(x: Sys, t: nat, a: Action)
    requires Inv(x) && Enabled(x, t, a) && CleanRuns(x) && Shaped(x) && !a.Judge? && !a.SweepEnd? && !CutsIn(x, t, a)
    ensures Later(Next(x, t, a)) == Later(x) && forall h :: h in Later(x) ==> h !in Touched(x, t, a)
  {
    SweeperSteps(x, t, a);
    LaterInPools(x);
    PoolChange(x, t, a);
    forall h | h in Later(x) ensures h !in Touched(x, t, a) {
      if h !in x.queue { NotInHand(x, t, a); }
    }
    hide Inv, Enabled, Next, Touched, Lands, InFront, Shaped;
    if a.SweepPop? {
      SweepPopStep(x, t);
      SweepingNow(x, t);
      PassMoves(x, Next(x, t, a), t);
    } else if a.Drop? || a.SweepCredit? {
      DropLater(x, t, a);
    } else if Lands(x, t, a) {
      LandShaped(x, t, a);
      LandLater(x, t, a);
    } else {
      AsideStep(x, t, a);
    }
  }

  /** The element to be judged is in nobody else's hands, and in no step of its own. */
  lemma NotInHand(x: Sys, t: nat, a: Action)
    requires Inv(x) && Enabled(x, t, a) && CleanRuns(x) && JudgesNow(x) && !a.Judge?
    ensures x.pcs[x.owner.value].h !in Touched(x, t, a)
  {
    SweeperSteps(x, t, a);
    PoolChange(x, t, a);
    assert HasHand(x.pcs[x.owner.value]);
  }

  lemma DropLater(x: Sys, t: nat, a: Action)
    requires Inv(x) && Enabled(x, t, a) && CleanRuns(x) && (a.Drop? || a.SweepCredit?)
    ensures Later(Next(x, t, a)) == Later(x)
  {
    DropStep(x, t, a);
  }

  lemma TableStep(x: Sys, t: nat, a: Action)
    requires Inv(x) && Enabled(x, t, a) && CleanRuns(x) && Shaped(x) && !a.SweepEnd? && !CutsIn(x, t, a)
    requires x.sweep.st == Idle && !x.sweep.started
    ensures var y := Next(x, t, a);
            SomeNeeds(x.pools, Later(x)) <==> Follows(x, t, a) || SomeNeeds(y.pools, Later(y))
  {
    var y := Next(x, t, a);
    if a.Judge? {
      JudgeMoves(x, t);
      JudgeStep(x, t);
      JudgeFollows(x, t);
      hide Inv, Enabled, Next, Later, Needs, Follows, Shaped;
      assert forall h :: h in Later(x) <==> h == x.pcs[t].h || h in Later(y);
    } else {
      StillToJudge(x, t, a);
      OnlyTouched(x, t, a);
      SameNeeds(x.pools, y.pools, Touched(x, t, a), Later(x));
    }
  }

  ghost predicate FollowsBetween(tr: seq<Sys>, sched: seq<(nat, Action)>, i: nat, m: nat) {
    exists k :: i < k < m && k < |tr| && k < |sched| && Follows(tr[k], sched[k].0, sched[k].1)
  }

  ghost predicate NobodyCutsIn(tr: seq<Sys>, sched: seq<(nat, Action)>, i: nat, j: nat) {
    forall k :: i < k < j && k < |tr| && k < |sched| ==> !CutsIn(tr[k], sched[k].0, sched[k].1)
  }

  lemma {:induction false} TableDuring(tr: seq<Sys>, sched: seq<(nat, Action)>, i: nat, j: nat, m: nat)
    requires Cleaning(tr, sched, i, j) && i < m <= j && sched[i].1.st == Idle && NobodyCutsIn(tr, sched, i, j)
    ensures SomeNeeds(tr[i].pools, tr[i].queue) <==> FollowsBetween(tr, sched, i, m) || SomeNeeds(tr[m].pools, Later(tr[m]))
    ensures tr[m].sweep.st == Idle
  {
    hide Run, Later, Follows, SomeNeeds, NobodyCutsIn;
    Length(tr, sched);
    if m == i + 1 {
      AtBegin(tr, sched, i, j);
    } else {
      TableDuring(tr, sched, i, j, m - 1);
      Between(tr, sched, i, j, m - 1);
      assert FollowsBetween(tr, sched, i, m) <==> FollowsBetween(tr, sched, i, m - 1) || Follows(tr[m - 1], sched[m - 1].0, sched[m - 1].1);
    }
  }

  lemma Length(tr: seq<Sys>, sched: seq<(nat, Action)>)
    requires Run(tr, sched)
    ensures |tr| == |sched| + 1
  {
  }

  lemma AtBegin(tr: seq<Sys>, sched: seq<(nat, Action)>, i: nat, j: nat)
    requires Cleaning(tr, sched, i, j) && sched[i].1.st == Idle
    ensures SomeNeeds(tr[i].pools, tr[i].queue) <==> SomeNeeds(tr[i + 1].pools, Later(tr[i + 1]))
    ensures tr[i + 1].sweep.st == Idle
  {
    hide Later, SomeNeeds;
    assert Moves(tr[i], sched[i].0, sched[i].1, tr[i + 1]);
    AllToJudge(tr[i], sched[i].0);
  }

  /** One step in the middle of the cleaning. */
  lemma Between(tr: seq<Sys>, sched: seq<(nat, Action)>, i: nat, j: nat, k: nat)
    requires Cleaning(tr, sched, i, j) && i < k < j && NobodyCutsIn(tr, sched, i, j) && tr[k].sweep.st == Idle
    ensures SomeNeeds(tr[k].pools, Later(tr[k])) <==> Follows(tr[k], sched[k].0, sched[k].1) || SomeNeeds(tr[k + 1].pools, Later(tr[k + 1]))
    ensures tr[k + 1].sweep.st == Idle
  {
    hide Inv, Enabled, Next, Later, Follows, Damaged, Undisturbed, SomeNeeds, CleanRuns, Shaped;
    var x, t, a := tr[k], sched[k].0, sched[k].1;
    assert Moves(x, t, a, tr[k + 1]);
    assert !a.SweepEnd? && !CutsIn(x, t, a);
    RunInv(tr, sched, k);
    DuringCleaning(tr, sched, i, j, k);
    DamagedShaped(x);
    LatchedInReady(tr, sched, k);
    TableStep(x, t, a);
    SweepFrame(x, t, a);
  }

  lemma AllToJudge(x: Sys, t: nat)
    requires Enabled(x, t, Clean(Idle))
    ensures var y := Next(x, t, Clean(Idle)); Later(y) == x.queue && y.pools == x.pools && y.sweep.st == Idle
  {
    WholeQueue(x.queue);
  }

  lemma NoneToJudge(x: Sys, t: nat)
    requires Inv(x) && CleanRuns(x) && Enabled(x, t, SweepEnd)
    ensures Later(x) == []
  {
    SweeperSteps(x, t, SweepEnd);
  }

  /**
   The cleaning of a shutdown or kill goes on to the request table, which is null, if and
   only if the queue it starts on holds a request received that is no INITIALIZE or KILL
   operation, whatever the other threads do, unless one pushes in front of what the cleaning
   has still to look at.
   */
  lemma CleaningFollowsTableIff(tr: seq<Sys>, sched: seq<(nat, Action)>, i: nat, j: nat)
    requires Cleaning(tr, sched, i, j) && sched[i].1.st == Idle && NobodyCutsIn(tr, sched, i, j)
    ensures FollowsBetween(tr, sched, i, j) <==> SomeNeeds(tr[i].pools, tr[i].queue)
  {
    TableDuring(tr, sched, i, j, j);
    RunInv(tr, sched, j);
    DuringCleaning(tr, sched, i, j, j);
    assert Moves(tr[j], sched[j].0, sched[j].1, tr[j + 1]);
    NoneToJudge(tr[j], sched[j].0);
  }
}
