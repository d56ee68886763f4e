/** What every run of waits, timeouts, signals, broadcasts and destructions keeps. */
module ApexTheorems {
  import opened Common
  import opened ApexCondition

  ghost predicate Next(s: State, t: nat, a: Action, s': State) {
    Enabled(s, t, a) && s' == Step(s, t, a)
  }

  ghost predicate Run(tr: seq<State>, sched: seq<(nat, Action)>) {
    && |tr| == |sched| + 1
    && Init(tr[0])
    && forall i {:trigger sched[i]} :: 0 <= i < |sched| ==> Next(tr[i], sched[i].0, sched[i].1, tr[i + 1])
  }

  lemma {:induction false} RunInv(tr: seq<State>, sched: seq<(nat, Action)>, i: nat)
    requires Run(tr, sched) && i < |tr|
    ensures Inv(tr[i])
  {
    hide Inv, Enabled, Step;
    if i == 0 {
      InitInv(tr[0]);
    } else {
      RunInv(tr, sched, i - 1);
      assert Next(tr[i - 1], sched[i - 1].0, sched[i - 1].1, tr[i]);
      StepInv(tr[i - 1], sched[i - 1].0, sched[i - 1].1);
    }
  }

  /**
   Whenever the mutex is free, the tokens in the semaphore and those carried by threads
   that have not relocked are exactly the pending signals, and never outnumber the waiters.
   */
  lemma TokenConservation(tr: seq<State>, sched: seq<(nat, Action)>, i: nat)
    requires Run(tr, sched) && i < |tr| && tr[i].owner.None?
    ensures tr[i].sem.value + Carrying(tr[i].pcs) == tr[i].pending
    ensures tr[i].pending <= tr[i].waiters == Waiting(tr[i].pcs) <= MAX_WAITERS
  {
    RunInv(tr, sched, i);
  }

  /** With no waiter left, no token survives to wake a later one. */
  lemma NoStaleToken(tr: seq<State>, sched: seq<(nat, Action)>, i: nat)
    requires Run(tr, sched) && i < |tr| && tr[i].owner.None? && tr[i].waiters == 0
    ensures tr[i].sem == Semaphore(0, []) && tr[i].pending == 0
  {
    RunInv(tr, sched, i);
    if tr[i].sem.queue != [] {
      var t := tr[i].sem.queue[0];
      assert t in tr[i].sem.queue;
      WaiterWithoutToken(tr[i].pcs, t);
    }
  }

  /**
   The guards and the error returns that look necessary are not: the discard after a
   raced timeout finds a token, a thread that got a token finds a pending signal to
   retire, the semaphore never refuses a signal, and no unsigned counter wraps.
   */
  lemma DefensiveBranchesAreDead(tr: seq<State>, sched: seq<(nat, Action)>, i: nat)
    requires Run(tr, sched) && i < |sched|
    ensures var s := tr[i];
            var t := sched[i].0;
            match sched[i].1
            case Discard => s.sem.value > 0 && s.pending > 0
            case Relock => s.waiters > 0 && (t < |s.pcs| && s.pcs[t] == Woken(true) ==> s.pending > 0)
            case Signal => s.active && s.waiters > s.pending ==> SemSignal(s.sem).accepted
            case Broadcast => s.pending <= s.waiters
            case BroadcastNext => SemSignal(s.sem).accepted
            case BroadcastDone => t < |s.pcs| && s.pcs[t].Broadcasting? && s.pending + s.pcs[t].signals == s.waiters
            case _ => true
  {
    RunInv(tr, sched, i);
    var s, t := tr[i], sched[i].0;
    assert Next(s, t, sched[i].1, tr[i + 1]);
    match sched[i].1
    case Discard => DiscardStep(s, t);
    case Relock =>
      CountsUpdate(s.pcs, t, Outside);
      if s.pcs[t].token { RelockWithToken(s, t); }
    case Signal => SignalStep(s, t);
    case BroadcastNext => BroadcastNextStep(s, t);
    case _ =>
  }

  /** After a broadcast nobody is left blocked in the semaphore, and there is a token for every waiter. */
  lemma BroadcastReleasesEveryone(tr: seq<State>, sched: seq<(nat, Action)>, i: nat)
    requires Run(tr, sched) && i < |sched| && sched[i].1 == BroadcastDone
    ensures tr[i + 1].sem.queue == []
    ensures tr[i + 1].sem.value + Carrying(tr[i + 1].pcs) == tr[i + 1].waiters
  {
    RunInv(tr, sched, i);
    RunInv(tr, sched, i + 1);
    var s' := tr[i + 1];
    assert Next(tr[i], sched[i].0, BroadcastDone, s');
    if s'.sem.queue != [] {
      var t := s'.sem.queue[0];
      assert t in s'.sem.queue;
      WaiterWithoutToken(s'.pcs, t);
    }
  }

  /**
   A signal that is sent releases a thread on the spot exactly when one is queued, and
   then the one that has queued longest; otherwise its token waits in the semaphore.
   */
  lemma SignalReleasesTheFirstQueued(tr: seq<State>, sched: seq<(nat, Action)>, i: nat)
    requires Run(tr, sched) && i < |sched| && sched[i].1 == Signal
    requires tr[i].active && tr[i].waiters > tr[i].pending
    ensures (exists t :: 0 <= t < |tr[i].pcs| && t < |tr[i + 1].pcs|
               && tr[i].pcs[t].Queued? && tr[i + 1].pcs[t] == Woken(true))
            <==> tr[i].sem.queue != []
    ensures tr[i].sem.queue != [] ==> tr[i].sem.queue[0] < |tr[i + 1].pcs|
                                      && tr[i + 1].pcs[tr[i].sem.queue[0]] == Woken(true)
    ensures tr[i].sem.queue == [] ==> tr[i + 1].sem.value == tr[i].sem.value + 1
  {
    RunInv(tr, sched, i);
    var s := tr[i];
    assert Next(s, sched[i].0, Signal, tr[i + 1]);
    SignalStep(s, sched[i].0);
    if s.sem.queue != [] {
      assert s.sem.queue[0] in s.sem.queue;
    }
  }

  // ----- tokens that outlive the wait they were posted for -----

  /** Counted as waiting, without a token and not queued: on its way to the semaphore, or timed out and not back. */
  ghost predicate Straggles(p: Pc) {
    p.Unlocked? || p == Woken(false)
  }

  lemma {:induction false} SomeStraggler(pcs: seq<Pc>)
    requires Carrying(pcs) < Waiting(pcs) && forall u :: 0 <= u < |pcs| ==> !pcs[u].Queued?
    ensures exists u :: 0 <= u < |pcs| && Straggles(pcs[u])
  {
    if !Straggles(pcs[0]) {
      assert forall u :: 0 <= u < |pcs[1..]| ==> pcs[1..][u] == pcs[u + 1];
      assert Waits(pcs[0]) == Carries(pcs[0]);
      SomeStraggler(pcs[1..]);
      var u :| 0 <= u < |pcs[1..]| && Straggles(pcs[1..][u]);
      assert Straggles(pcs[u + 1]);
    }
  }

  /**
   A thread that begins to wait and reaches the semaphore at once is woken by a token posted
   before its wait if and only if more signals are pending than threads carry tokens, which
   a caller can see in the value that GET_SEMAPHORE_STATUS reports. Each such token was
   posted for a waiter that has not taken one: it was still on its way to the semaphore, or
   has timed out and not relocked yet.
   */
  lemma OldTokenWakesIff(tr: seq<State>, sched: seq<(nat, Action)>, i: nat)
    requires Run(tr, sched) && i + 1 < |sched| && sched[i].1.Wait? && sched[i + 1] == (sched[i].0, SemWait)
    requires tr[i].active && tr[i].waiters < MAX_WAITERS
    ensures sched[i].0 < |tr[i + 2].pcs|
    ensures tr[i + 2].pcs[sched[i].0] == Woken(true) <==> tr[i].pending > Carrying(tr[i].pcs)
    ensures tr[i + 2].pcs[sched[i].0] == Woken(true) <==> tr[i].sem.value > 0
    ensures tr[i].pending > Carrying(tr[i].pcs) ==> exists u :: 0 <= u < |tr[i].pcs| && Straggles(tr[i].pcs[u])
  {
    RunInv(tr, sched, i);
    var s, t := tr[i], sched[i].0;
    assert Next(s, t, sched[i].1, tr[i + 1]);
    assert Next(tr[i + 1], t, SemWait, tr[i + 2]);
    assert s.owner == Some(t) && s.pcs[t].Holding?;
    if s.pending > Carrying(s.pcs) {
      assert s.sem.value > 0 && s.sem.queue == [];
      SomeStraggler(s.pcs);
    }
  }

  ghost predicate Posts(a: Action) {
    a.Signal? || a.BroadcastNext?
  }

  lemma {:induction false} TokensDwindle(tr: seq<State>, sched: seq<(nat, Action)>, i: nat, j: nat)
    requires Run(tr, sched) && i <= j < |tr| && forall k :: i <= k < j ==> !Posts(sched[k].1)
    ensures tr[j].sem.value <= tr[i].sem.value
  {
    if i < j {
      TokensDwindle(tr, sched, i, j - 1);
      assert Next(tr[j - 1], sched[j - 1].0, sched[j - 1].1, tr[j]);
    }
  }

  /** However late it reaches the semaphore: with nothing posted since it began to wait, only such a token can wake it there. */
  lemma OnlyOldTokensWake(tr: seq<State>, sched: seq<(nat, Action)>, i: nat, j: nat)
    requires Run(tr, sched) && i < j < |sched| && sched[i].1.Wait? && sched[j] == (sched[i].0, SemWait)
    requires tr[i].active && tr[i].waiters < MAX_WAITERS && forall k :: i <= k < j ==> !Posts(sched[k].1)
    ensures sched[j].0 < |tr[j + 1].pcs|
    ensures tr[j + 1].pcs[sched[j].0] == Woken(true) ==> tr[i].pending > Carrying(tr[i].pcs)
  {
    RunInv(tr, sched, i);
    TokensDwindle(tr, sched, i, j);
    assert Next(tr[i], sched[i].0, sched[i].1, tr[i + 1]);
    assert Next(tr[j], sched[j].0, SemWait, tr[j + 1]);
  }
}
