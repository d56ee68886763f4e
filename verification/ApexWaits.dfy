/**
 What a wait returns with, over every run, and that the steps of one undisturbed call are
 the methods of the class Condition.
 */
module ApexWaits {
  import opened Common
  import opened ApexCondition
  import opened ApexTheorems

  // ----- one wait, from its unlock to its relock -----

  /** Thread `t` unlocks with step `i` to wait, and has not relocked before step `k`. */
  ghost predicate IsWaiting(tr: seq<State>, sched: seq<(nat, Action)>, t: nat, to: Timeout, i: nat, k: nat) {
    && Run(tr, sched) && i < k < |tr| && sched[i] == (t, Wait(to))
    && t < |tr[i + 1].pcs| && tr[i + 1].pcs[t] == Unlocked(to)
    && forall m :: i < m < k ==> sched[m] != (t, Relock)
  }

  /** Between steps `i` and `k` the thread reached the semaphore and found a token, or found none. */
  ghost predicate Reached(tr: seq<State>, sched: seq<(nat, Action)>, t: nat, i: nat, k: nat, token: bool) {
    exists s :: i < s < k && s < |sched| && s < |tr| && sched[s] == (t, SemWait) && (tr[s].sem.value > 0) == token
  }

  ghost predicate NotReached(sched: seq<(nat, Action)>, t: nat, i: nat, k: nat) {
    forall s :: i < s < k && s < |sched| ==> sched[s] != (t, SemWait)
  }

  ghost predicate Expired(sched: seq<(nat, Action)>, t: nat, i: nat, k: nat) {
    exists e :: i < e < k && e < |sched| && sched[e] == (t, Expire)
  }

  ghost predicate Posted(sched: seq<(nat, Action)>, i: nat, k: nat) {
    exists p :: i < p < k && p < |sched| && (sched[p].1.Signal? || sched[p].1.BroadcastNext?)
  }

  /** Where the thread is, and how it got there. */
  ghost predicate Stage(tr: seq<State>, sched: seq<(nat, Action)>, t: nat, to: Timeout, i: nat, k: nat, p: Pc) {
    match p
    case Unlocked(x) => x == to && NotReached(sched, t, i, k)
    case Queued(x) => x == to && to != Zero && Reached(tr, sched, t, i, k, false) && !Reached(tr, sched, t, i, k, true)
    case Woken(true) =>
      || (Reached(tr, sched, t, i, k, true) && !Reached(tr, sched, t, i, k, false))
      || (to != Zero && Reached(tr, sched, t, i, k, false) && !Reached(tr, sched, t, i, k, true) && Posted(sched, i, k))
    case Woken(false) =>
      && Reached(tr, sched, t, i, k, false) && !Reached(tr, sched, t, i, k, true)
      && (to == Zero || (to == Finite && Expired(sched, t, i, k)))
    case _ => false
  }

  lemma ReachedMore(tr: seq<State>, sched: seq<(nat, Action)>, t: nat, i: nat, k: nat, token: bool)
    requires i < k < |sched| && k < |tr|
    ensures Reached(tr, sched, t, i, k + 1, token)
            <==> Reached(tr, sched, t, i, k, token) || (sched[k] == (t, SemWait) && (tr[k].sem.value > 0) == token)
    ensures NotReached(sched, t, i, k) ==> !Reached(tr, sched, t, i, k, token)
    ensures NotReached(sched, t, i, k + 1) <==> NotReached(sched, t, i, k) && sched[k] != (t, SemWait)
    ensures Expired(sched, t, i, k + 1) <==> Expired(sched, t, i, k) || sched[k] == (t, Expire)
    ensures Posted(sched, i, k + 1) <==> Posted(sched, i, k) || sched[k].1.Signal? || sched[k].1.BroadcastNext?
  {
  }

  lemma WaiterStep(s: State, u: nat, a: Action, t: nat)
    requires Inv(s) && Enabled(s, u, a) && t < |s.pcs| && (s.pcs[t].Unlocked? || s.pcs[t].Queued? || s.pcs[t].Woken?)
    requires (u, a) != (t, Relock)
    ensures t < |Step(s, u, a).pcs| && Turns(s, u, a, t, s.pcs[t], Step(s, u, a).pcs[t])
  {
    if s.sem.queue != [] { assert s.sem.queue[0] in s.sem.queue; }
  }

  /** What a step does to a thread that waits: its own step, or a signal for the first in the queue. */
  ghost predicate Turns(s: State, u: nat, a: Action, t: nat, p: Pc, q: Pc) {
    && (u == t ==> a == SemWait || a == Expire)
    && (u == t && a == SemWait ==> p.Unlocked? && q == (if s.sem.value > 0 then Woken(true)
                                                        else if p.timeout == Zero then Woken(false) else Queued(p.timeout)))
    && (u == t && a == Expire ==> p == Queued(Finite) && q == Woken(false))
    && (u != t ==> q == p || (p.Queued? && q == Woken(true) && (a.Signal? || a.BroadcastNext?)))
  }

  lemma StageMore(tr: seq<State>, sched: seq<(nat, Action)>, t: nat, to: Timeout, i: nat, k: nat, p: Pc, q: Pc)
    requires i < k < |sched| && k < |tr| && Stage(tr, sched, t, to, i, k, p) && Turns(tr[k], sched[k].0, sched[k].1, t, p, q)
    ensures Stage(tr, sched, t, to, i, k + 1, q)
  {
    ReachedMore(tr, sched, t, i, k, true);
    ReachedMore(tr, sched, t, i, k, false);
    hide Reached, NotReached, Expired, Posted;
  }

  lemma {:induction false} StageOf(tr: seq<State>, sched: seq<(nat, Action)>, t: nat, to: Timeout, i: nat, k: nat)
    requires IsWaiting(tr, sched, t, to, i, k)
    ensures t < |tr[k].pcs| && Stage(tr, sched, t, to, i, k, tr[k].pcs[t])
  {
    hide Inv, Enabled, Step, Reached, Expired, Posted;
    if k > i + 1 {
      StageOf(tr, sched, t, to, i, k - 1);
      var s, u, a := tr[k - 1], sched[k - 1].0, sched[k - 1].1;
      assert Next(s, u, a, tr[k]);
      RunInv(tr, sched, k - 1);
      WaiterStep(s, u, a, t);
      StageMore(tr, sched, t, to, i, k - 1, s.pcs[t], tr[k].pcs[t]);
    }
  }

  /**
   A wait that is not refused, from its unlock at step `i` to its relock at step `j`. Without
   a timeout it ends only with a token. With timeout zero it never queues, and has a token
   exactly when it found one in the semaphore. With another timeout it ends without one only
   when it has expired. A token was in the semaphore when it came, or has been posted since.
   */
  lemma WaitReturns(tr: seq<State>, sched: seq<(nat, Action)>, t: nat, to: Timeout, i: nat, j: nat)
    requires IsWaiting(tr, sched, t, to, i, j) && j < |sched| && sched[j] == (t, Relock)
    ensures t < |tr[j].pcs| && tr[j].pcs[t].Woken?
    ensures to == Infinite ==> tr[j].pcs[t].token
    ensures to == Zero ==> forall k :: i < k <= j ==> t < |tr[k].pcs| && !tr[k].pcs[t].Queued?
    ensures to == Zero ==> forall s :: i < s < j && sched[s] == (t, SemWait) ==> (tr[j].pcs[t].token <==> tr[s].sem.value > 0)
    ensures to == Finite && !tr[j].pcs[t].token ==> exists e :: i < e < j && sched[e] == (t, Expire)
    ensures tr[j].pcs[t].token ==>
              || (exists s :: i < s < j && sched[s] == (t, SemWait) && tr[s].sem.value > 0)
              || exists p :: i < p < j && (sched[p].1.Signal? || sched[p].1.BroadcastNext?)
    ensures exists s :: i < s < j && sched[s] == (t, SemWait)
  {
    StageOf(tr, sched, t, to, i, j);
    assert Next(tr[j], t, Relock, tr[j + 1]);
    if to == Zero {
      forall k | i < k <= j ensures t < |tr[k].pcs| && !tr[k].pcs[t].Queued? { StageOf(tr, sched, t, to, i, k); }
      forall s | i < s < j && sched[s] == (t, SemWait) ensures tr[j].pcs[t].token <==> tr[s].sem.value > 0 {
        assert Reached(tr, sched, t, i, j, tr[s].sem.value > 0);
      }
    }
  }

  /** A wait without a timeout that finds no token stays in the queue as long as nothing is posted. */
  lemma UntimedWaitBlocks(tr: seq<State>, sched: seq<(nat, Action)>, t: nat, i: nat, s: nat, k: nat)
    requires IsWaiting(tr, sched, t, Infinite, i, k) && i < s < k && sched[s] == (t, SemWait) && tr[s].sem.value == 0
    requires !Posted(sched, i, k)
    ensures t < |tr[k].pcs| && tr[k].pcs[t] == Queued(Infinite) && t in tr[k].sem.queue
  {
    StageOf(tr, sched, t, Infinite, i, k);
    assert Reached(tr, sched, t, i, k, false);
    RunInv(tr, sched, k);
  }

  // ----- one call alone is the method of the class -----

  /** Thread `t` alone takes these steps. */
  ghost predicate Alone(s: State, t: nat, acts: seq<Action>, s': State)
    decreases |acts|
  {
    if acts == [] then s' == s else Enabled(s, t, acts[0]) && Alone(Step(s, t, acts[0]), t, acts[1..], s')
  }

  lemma {:induction false} AloneThen(s: State, t: nat, acts: seq<Action>, m: State, a: Action)
    requires Alone(s, t, acts, m) && Enabled(m, t, a)
    ensures Alone(s, t, acts + [a], Step(m, t, a))
    decreases |acts|
  {
    hide Enabled, Step;
    if acts == [] {
      assert acts + [a] == [a] && [a][1..] == [];
      assert Alone(Step(m, t, a), t, [], Step(m, t, a));
    } else {
      assert (acts + [a])[1..] == acts[1..] + [a];
      AloneThen(Step(s, t, acts[0]), t, acts[1..], m, a);
    }
  }

  lemma AloneOnce(s: State, t: nat, a: Action)
    requires Enabled(s, t, a)
    ensures Alone(s, t, [a], Step(s, t, a))
  {
    hide Enabled, Step;
    assert [] + [a] == [a];
    AloneThen(s, t, [], s, a);
  }

  /** A thread in the section, with nothing begun. */
  ghost predicate InHand(s: State, t: nat) {
    Inv(s) && t < |s.pcs| && s.owner == Some(t) && s.pcs[t] == Holding
  }

  /** Condition.BeginWait */
  lemma WaitIsBeginWait(s: State, t: nat, to: Timeout) returns (s': State)
    requires InHand(s, t)
    ensures Alone(s, t, [Wait(to)], s')
    ensures if !s.active || s.waiters == MAX_WAITERS then s' == s
            else s' == s.(waiters := s.waiters + 1, owner := None, pcs := s.pcs[t := Unlocked(to)])
  {
    s' := Step(s, t, Wait(to));
    AloneOnce(s, t, Wait(to));
  }

  /** Condition.EndWait: the relock, and the discard that follows a timeout which raced with a signal. */
  lemma RelockIsEndWait(s: State, t: nat) returns (acts: seq<Action>, s': State)
    requires Inv(s) && t < |s.pcs| && s.pcs[t].Woken? && s.owner.None?
    ensures Alone(s, t, acts, s') && Inv(s') && s'.owner == Some(t) && s'.pcs == s.pcs[t := Holding] && s'.active == s.active
    ensures var token := s.pcs[t].token;
            && acts == (if !token && s.pending == s.waiters then [Relock, Discard] else [Relock])
            && s'.waiters == s.waiters - 1
            && s'.pending == (if token || s.pending == s.waiters then s.pending - 1 else s.pending)
            && s'.sem.queue == s.sem.queue && s'.sem.value == s.sem.value - if !token && s.pending == s.waiters then 1 else 0
  {
    hide Inv, Enabled, Step, Alone;
    RelockBegins(s, t);
    AloneOnce(s, t, Relock);
    acts, s' := [Relock], Step(s, t, Relock);
    if !s.pcs[t].token && s.pending == s.waiters {
      DiscardEnds(s', t);
      AloneThen(s, t, [Relock], s', Discard);
      acts, s' := [Relock] + [Discard], Step(s', t, Discard);
      assert s'.pcs == s.pcs[t := Holding];
    }
  }

  lemma RelockBegins(s: State, t: nat)
    requires Inv(s) && t < |s.pcs| && s.pcs[t].Woken? && s.owner.None?
    ensures Enabled(s, t, Relock) && Inv(Step(s, t, Relock)) && s.waiters > 0
    ensures var (r, token) := (Step(s, t, Relock), s.pcs[t].token);
            && r.owner == Some(t) && r.active == s.active && r.sem == s.sem && r.waiters == s.waiters - 1
            && r.pending == s.pending - (if token then 1 else 0)
            && r.pcs == s.pcs[t := if !token && s.pending == s.waiters then Discarding else Holding]
  {
    CountsUpdate(s.pcs, t, Outside);
    if s.pcs[t].token { RelockWithToken(s, t); } else { RelockAfterTimeout(s, t); }
  }

  lemma DiscardEnds(s: State, t: nat)
    requires Inv(s) && t < |s.pcs| && s.pcs[t].Discarding?
    ensures Enabled(s, t, Discard) && Inv(Step(s, t, Discard)) && s.sem.value > 0 && s.pending > 0
    ensures Step(s, t, Discard) == s.(sem := s.sem.(value := s.sem.value - 1), pending := s.pending - 1, pcs := s.pcs[t := Holding])
  {
    DiscardStep(s, t);
  }

  /** Condition.Signal: the thread queued longest, if there is one, has the token; otherwise the semaphore has. */
  lemma SignalIsSignal(s: State, t: nat) returns (acts: seq<Action>, s': State)
    requires InHand(s, t)
    ensures Alone(s, t, acts, s')
    ensures !s.active || s.pending == s.waiters ==> acts == [Signal] && s' == s
    ensures s.active && s.pending < s.waiters ==>
              && acts == [Signal, SignalDone]
              && s'.pending == s.pending + 1 && s'.waiters == s.waiters && s'.owner == s.owner && s'.active
              && (if s.sem.queue == [] then s'.sem == s.sem.(value := s.sem.value + 1) && s'.pcs == s.pcs
                  else s'.sem == s.sem.(queue := s.sem.queue[1..]) && s.sem.queue[0] < |s.pcs|
                       && s'.pcs == s.pcs[s.sem.queue[0] := Woken(true)])
  {
    hide Inv, Enabled, Step, Alone;
    SignalBegins(s, t);
    AloneOnce(s, t, Signal);
    acts, s' := [Signal], Step(s, t, Signal);
    if s.active && s.pending < s.waiters {
      SignalEnds(s', t);
      AloneThen(s, t, [Signal], s', SignalDone);
      acts, s' := [Signal] + [SignalDone], Step(s', t, SignalDone);
      assert s'.pcs == if s.sem.queue == [] then s.pcs else s.pcs[s.sem.queue[0] := Woken(true)];
    }
  }

  lemma SignalBegins(s: State, t: nat)
    requires InHand(s, t)
    ensures Enabled(s, t, Signal) && s.pending <= s.waiters && Inv(Step(s, t, Signal)) && s.pcs[t] == Holding
    ensures s.sem.queue != [] ==> s.sem.queue[0] < |s.pcs| && s.sem.queue[0] != t
    ensures var r := Step(s, t, Signal);
            if !s.active || s.pending == s.waiters then r == s
            else
              && r == s.(sem := r.sem, pcs := r.pcs)
              && (if s.sem.queue == [] then r.sem == s.sem.(value := s.sem.value + 1) && r.pcs == s.pcs[t := Signalling]
                  else r.sem == s.sem.(queue := s.sem.queue[1..]) && r.pcs == s.pcs[s.sem.queue[0] := Woken(true)][t := Signalling])
  {
    SignalStep(s, t);
    if s.sem.queue != [] { assert s.sem.queue[0] in s.sem.queue; }
  }

  lemma SignalEnds(s: State, t: nat)
    requires Inv(s) && t < |s.pcs| && s.pcs[t].Signalling?
    ensures Enabled(s, t, SignalDone) && Step(s, t, SignalDone) == s.(pending := s.pending + 1, pcs := s.pcs[t := Holding])
  {
  }

  /** Condition.Destroy */
  lemma DestroyIsDestroy(s: State, t: nat) returns (s': State)
    requires InHand(s, t)
    ensures Alone(s, t, [Destroy], s') && s' == if s.active && s.waiters == 0 then s.(active := false) else s
  {
    s' := Step(s, t, Destroy);
    AloneOnce(s, t, Destroy);
  }

  /** The first `n` of the queue have a token each. */
  ghost function Freed(pcs: seq<Pc>, queue: seq<nat>, n: nat): (r: seq<Pc>)
    requires n <= |queue|
    ensures |r| == |pcs| && forall u :: 0 <= u < |r| ==> r[u] == if u in queue[..n] then Woken(true) else pcs[u]
  {
    if n == 0 then pcs
    else
      var p := Freed(pcs, queue, n - 1);
      if queue[n - 1] < |p| then p[queue[n - 1] := Woken(true)] else p
  }

  function Sent(n: nat, queue: seq<nat>): nat {
    if n < |queue| then n else |queue|
  }

  /** After `n` signals of a broadcast. */
  ghost predicate Passed(s: State, t: nat, n: nat, b: State) {
    && t < |s.pcs| && s.pending <= s.waiters && Inv(b) && b.owner == Some(t) && b.waiters == s.waiters && b.pending == s.pending && b.active
    && b.sem.value == s.sem.value + n - Sent(n, s.sem.queue) && b.sem.queue == s.sem.queue[Sent(n, s.sem.queue)..]
    && b.pcs == Freed(s.pcs, s.sem.queue, Sent(n, s.sem.queue))[t := Broadcasting(s.waiters - s.pending, n)]
  }

  lemma OnePass(s: State, t: nat, n: nat, b: State)
    requires InHand(s, t) && s.active && n < s.waiters - s.pending && Passed(s, t, n, b)
    ensures Enabled(b, t, BroadcastNext) && Passed(s, t, n + 1, Step(b, t, BroadcastNext))
  {
    hide Inv, Enabled, Step;
    var k := Sent(n, s.sem.queue);
    BroadcastGoesOn(b, t);
    InQueueNot(s, t);
    var b' := Step(b, t, BroadcastNext);
    if k < |s.sem.queue| {
      assert b.sem.queue[0] == s.sem.queue[k] && s.sem.queue[k] in s.sem.queue;
      assert b.sem.queue[1..] == s.sem.queue[k + 1..];
      assert b'.pcs == Freed(s.pcs, s.sem.queue, k + 1)[t := Broadcasting(s.waiters - s.pending, n + 1)];
    } else {
      assert b'.pcs == Freed(s.pcs, s.sem.queue, k)[t := Broadcasting(s.waiters - s.pending, n + 1)];
    }
  }

  lemma BroadcastGoesOn(b: State, t: nat)
    requires Inv(b) && t < |b.pcs| && b.pcs[t].Broadcasting? && b.pcs[t].sent < b.pcs[t].signals
    ensures Enabled(b, t, BroadcastNext) && Inv(Step(b, t, BroadcastNext))
    ensures b.sem.queue != [] ==> b.sem.queue[0] < |b.pcs|
    ensures var (r, p) := (Step(b, t, BroadcastNext), b.pcs[t]);
            && r == b.(sem := r.sem, pcs := r.pcs)
            && (if b.sem.queue == [] then r.sem == b.sem.(value := b.sem.value + 1) && r.pcs == b.pcs[t := Broadcasting(p.signals, p.sent + 1)]
                else r.sem == b.sem.(queue := b.sem.queue[1..])
                     && r.pcs == b.pcs[b.sem.queue[0] := Woken(true)][t := Broadcasting(p.signals, p.sent + 1)])
  {
    BroadcastNextStep(b, t);
    if b.sem.queue != [] { assert b.sem.queue[0] in b.sem.queue; }
  }

  lemma InQueueNot(s: State, t: nat)
    requires InHand(s, t)
    ensures forall u :: u in s.sem.queue ==> u != t && u < |s.pcs|
  {
  }

  function Passes(n: nat): seq<Action> {
    if n == 0 then [Broadcast] else Passes(n - 1) + [BroadcastNext]
  }

  lemma {:induction false} BroadcastPasses(s: State, t: nat, n: nat) returns (b: State)
    requires InHand(s, t) && s.active && n <= s.waiters - s.pending
    ensures Alone(s, t, Passes(n), b) && Passed(s, t, n, b)
  {
    hide Inv, Enabled, Step, Alone;
    if n == 0 {
      b := BroadcastBegins(s, t);
      AloneOnce(s, t, Broadcast);
    } else {
      var m := BroadcastPasses(s, t, n - 1);
      OnePass(s, t, n - 1, m);
      AloneThen(s, t, Passes(n - 1), m, BroadcastNext);
      b := Step(m, t, BroadcastNext);
    }
  }

  lemma BroadcastBegins(s: State, t: nat) returns (b: State)
    requires InHand(s, t) && s.active
    ensures Enabled(s, t, Broadcast) && b == Step(s, t, Broadcast) && Passed(s, t, 0, b)
  {
    b := Step(s, t, Broadcast);
    BroadcastStep(s, t);
    BroadcastSets(s, t);
    hide Inv, Enabled, Step;
    assert s.sem.queue[0..] == s.sem.queue;
  }

  lemma BroadcastSets(s: State, t: nat)
    requires InHand(s, t) && s.active
    ensures Enabled(s, t, Broadcast) && s.pending <= s.waiters
    ensures Step(s, t, Broadcast) == s.(pcs := s.pcs[t := Broadcasting(s.waiters - s.pending, 0)])
  {
  }

  /** Condition.Broadcast: the threads queued longest have a token each, the other tokens are in the semaphore. */
  lemma BroadcastIsBroadcast(s: State, t: nat) returns (acts: seq<Action>, s': State)
    requires InHand(s, t)
    ensures Alone(s, t, acts, s')
    ensures !s.active ==> acts == [Broadcast] && s' == s
    ensures s.active ==>
              var n := s.waiters - s.pending;
              var k := if n < |s.sem.queue| then n else |s.sem.queue|;
              && acts == Passes(n) + [BroadcastDone]
              && s'.pending == s'.waiters == s.waiters && s'.owner == s.owner && s'.active
              && s'.sem == Semaphore(s.sem.value + n - k, s.sem.queue[k..])
              && |s'.pcs| == |s.pcs|
              && forall u :: 0 <= u < |s.pcs| ==> s'.pcs[u] == if u in s.sem.queue[..k] then Woken(true) else s.pcs[u]
  {
    hide Inv, Enabled, Step, Alone, Passes;
    if s.active {
      var n := Unsignalled(s, t);
      var b := BroadcastPasses(s, t, n);
      BroadcastEnds(b, t);
      AloneThen(s, t, Passes(n), b, BroadcastDone);
      acts, s' := Passes(n) + [BroadcastDone], Step(b, t, BroadcastDone);
      InQueueNot(s, t);
      NotAmong(s.sem.queue, Sent(n, s.sem.queue), t);
      assert s'.pcs == Freed(s.pcs, s.sem.queue, Sent(n, s.sem.queue))[t := Holding];
    } else {
      BroadcastRefused(s, t);
      AloneOnce(s, t, Broadcast);
      acts, s' := [Broadcast], s;
    }
  }

  lemma NotAmong(queue: seq<nat>, k: nat, t: nat)
    requires k <= |queue| && forall u :: u in queue ==> u != t
    ensures t !in queue[..k]
  {
    forall i | 0 <= i < k ensures queue[..k][i] != t {
      assert queue[i] in queue;
    }
  }

  lemma Unsignalled(s: State, t: nat) returns (n: nat)
    requires InHand(s, t)
    ensures n + s.pending == s.waiters <= MAX_WAITERS
  {
    n := s.waiters - s.pending;
  }

  lemma BroadcastRefused(s: State, t: nat)
    requires InHand(s, t) && !s.active
    ensures Enabled(s, t, Broadcast) && Step(s, t, Broadcast) == s
  {
  }

  lemma BroadcastEnds(b: State, t: nat)
    requires Inv(b) && t < |b.pcs| && b.pcs[t].Broadcasting? && b.pcs[t].sent == b.pcs[t].signals
    ensures Enabled(b, t, BroadcastDone)
    ensures Step(b, t, BroadcastDone) == b.(pending := b.pending + b.pcs[t].signals, pcs := b.pcs[t := Holding])
  {
  }
}
