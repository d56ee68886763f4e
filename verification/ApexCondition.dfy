/**
 The condition variable built on an ARINC 653 counting semaphore
 (lib/apex_apr/src/apr_thread_cond.c), under any number of threads.

 Each access to the semaphore and each locked section is one step. The semaphore follows
 section 3.7.2.3 of ARINC 653 Part 1: SIGNAL_SEMAPHORE hands its token to the first
 queued process if there is one, WAIT_SEMAPHORE takes a token, queues, or gives up.
 */
module ApexCondition {
  import opened Common

  const MAX_WAITERS := 64

  // ----- the semaphore -----

  datatype Semaphore = Semaphore(value: nat, queue: seq<nat>)

  datatype SignalResult = SignalResult(sem: Semaphore, released: Option<nat>, accepted: bool)

  function SemSignal(s: Semaphore): SignalResult {
    if s.queue != [] then SignalResult(Semaphore(s.value, s.queue[1..]), Some(s.queue[0]), true)
    else if s.value < MAX_WAITERS then SignalResult(Semaphore(s.value + 1, []), None, true)
    else SignalResult(s, None, false)
  }

  /** `a - b` and `a + b` on the unsigned int counters of the C structure. */
  function Minus(a: nat, b: nat): nat { (a - b) % 0x1_0000_0000 }

  function Plus(a: nat, b: nat): nat { (a + b) % 0x1_0000_0000 }

  // ----- threads -----

  datatype Timeout = Infinite | Zero | Finite

  /** Where a thread is in the client code or in one of the operations. */
  datatype Pc =
    | Outside
    | Holding
    | Unlocked(timeout: Timeout)
    | Queued(timeout: Timeout)
    | Woken(token: bool)
    | Discarding
    | Signalling
    | Broadcasting(signals: nat, sent: nat)

  datatype State = State(waiters: nat, pending: nat, sem: Semaphore,
                         owner: Option<nat>, active: bool, pcs: seq<Pc>)

  datatype Action =
    | Lock | Unlock
    | Wait(to: Timeout) | SemWait | Expire | Relock | Discard
    | Signal | SignalDone
    | Broadcast | BroadcastNext | BroadcastDone
    | Destroy

  predicate InSection(p: Pc) {
    p.Holding? || p.Discarding? || p.Signalling? || p.Broadcasting?
  }

  ghost predicate Enabled(s: State, t: nat, a: Action) {
    && t < |s.pcs|
    && var p := s.pcs[t];
       match a
       case Lock => p.Outside? && s.owner.None?
       case Unlock => p.Holding?
       case Wait(_) => p.Holding?
       case SemWait => p.Unlocked?
       case Expire => p == Queued(Finite)
       case Relock => p.Woken? && s.owner.None?
       case Discard => p.Discarding?
       case Signal => p.Holding?
       case SignalDone => p.Signalling?
       case Broadcast => p.Holding?
       case BroadcastNext => p.Broadcasting? && p.sent < p.signals
       case BroadcastDone => p.Broadcasting? && p.sent >= p.signals
       case Destroy => p.Holding?
  }

  ghost function To(s: State, t: nat, p: Pc): State
    requires t < |s.pcs|
  {
    s.(pcs := s.pcs[t := p])
  }

  ghost function WakeFirst(s: State, r: SignalResult): State {
    var pcs := if r.released.Some? && r.released.value < |s.pcs| then s.pcs[r.released.value := Woken(true)] else s.pcs;
    s.(sem := r.sem, pcs := pcs)
  }

  function Without(queue: seq<nat>, t: nat): (r: seq<nat>)
    ensures |r| <= |queue|
    ensures forall u :: u in r <==> u in queue && u != t
  {
    if queue == [] then []
    else if queue[0] == t then Without(queue[1..], t)
    else [queue[0]] + Without(queue[1..], t)
  }

  ghost function Step(s: State, t: nat, a: Action): State
    requires Enabled(s, t, a)
  {
    var p := s.pcs[t];
    match a
    case Lock => To(s.(owner := Some(t)), t, Holding)
    case Unlock => To(s.(owner := None), t, Outside)
    // refused with APR_EINVAL or APR_ENOMEM, or counted and unlocked
    case Wait(to) =>
      if !s.active || s.waiters >= MAX_WAITERS then s
      else To(s.(waiters := Plus(s.waiters, 1), owner := None), t, Unlocked(to))
    case SemWait =>
      if s.sem.value > 0 then To(s.(sem := s.sem.(value := s.sem.value - 1)), t, Woken(true))
      else if p.timeout == Zero then To(s, t, Woken(false))
      else To(s.(sem := s.sem.(queue := s.sem.queue + [t])), t, Queued(p.timeout))
    case Expire => To(s.(sem := s.sem.(queue := Without(s.sem.queue, t))), t, Woken(false))
    case Relock =>
      var w := s.(owner := Some(t), waiters := Minus(s.waiters, 1));
      if p.token then To(w.(pending := if w.pending > 0 then Minus(w.pending, 1) else w.pending), t, Holding)
      else To(w, t, if w.pending > w.waiters then Discarding else Holding)
    case Discard =>
      if s.sem.value > 0 then
        To(s.(sem := s.sem.(value := s.sem.value - 1), pending := Minus(s.pending, 1)), t, Holding)
      else To(s, t, Holding)
    case Signal =>
      if !s.active || s.waiters <= s.pending then s
      else
        var r := SemSignal(s.sem);
        To(WakeFirst(s, r), t, if r.accepted then Signalling else Holding)
    case SignalDone => To(s.(pending := Plus(s.pending, 1)), t, Holding)
    case Broadcast =>
      if !s.active then s else To(s, t, Broadcasting(Minus(s.waiters, s.pending), 0))
    case BroadcastNext =>
      var r := SemSignal(s.sem);
      To(WakeFirst(s, r), t, if r.accepted then Broadcasting(p.signals, p.sent + 1) else Holding)
    case BroadcastDone => To(s.(pending := Plus(s.pending, p.signals)), t, Holding)
    case Destroy => if s.active && s.waiters == 0 then s.(active := false) else s
  }

  // ----- counting threads -----

  /** Counted in `waiters`. */
  ghost function Waits(p: Pc): nat { if p.Unlocked? || p.Queued? || p.Woken? then 1 else 0 }

  /** Took a token and has not relocked yet. */
  ghost function Carries(p: Pc): nat { if p == Woken(true) then 1 else 0 }

  ghost function Waiting(pcs: seq<Pc>): nat {
    if pcs == [] then 0 else Waits(pcs[0]) + Waiting(pcs[1..])
  }

  ghost function Carrying(pcs: seq<Pc>): nat {
    if pcs == [] then 0 else Carries(pcs[0]) + Carrying(pcs[1..])
  }

  lemma {:induction false} CountsUpdate(pcs: seq<Pc>, t: nat, p: Pc)
    requires t < |pcs|
    ensures Waiting(pcs[t := p]) == Waiting(pcs) - Waits(pcs[t]) + Waits(p)
    ensures Carrying(pcs[t := p]) == Carrying(pcs) - Carries(pcs[t]) + Carries(p)
  {
    if t == 0 {
      assert pcs[t := p][1..] == pcs[1..];
    } else {
      CountsUpdate(pcs[1..], t - 1, p);
      assert pcs[t := p][1..] == pcs[1..][t - 1 := p];
    }
  }

  lemma {:induction false} CarryingAtMostWaiting(pcs: seq<Pc>)
    ensures Carrying(pcs) <= Waiting(pcs)
  {
    if pcs != [] { CarryingAtMostWaiting(pcs[1..]); }
  }

  /** A thread that waits without a token leaves room between the two counts. */
  lemma WaiterWithoutToken(pcs: seq<Pc>, t: nat)
    requires t < |pcs| && Waits(pcs[t]) == 1 && Carries(pcs[t]) == 0
    ensures Carrying(pcs) < Waiting(pcs)
  {
    CountsUpdate(pcs, t, Outside);
    CarryingAtMostWaiting(pcs[t := Outside]);
  }

  lemma CarrierCounted(pcs: seq<Pc>, t: nat)
    requires t < |pcs| && pcs[t] == Woken(true)
    ensures Carrying(pcs) > 0
  {
    CountsUpdate(pcs, t, Outside);
  }

  // ----- the invariant -----

  /** Tokens already in the semaphore that `pending` does not count yet. */
  ghost function Uncounted(s: State): nat {
    if s.owner.Some? && s.owner.value < |s.pcs| then
      match s.pcs[s.owner.value]
      case Signalling => 1
      case Broadcasting(_, sent) => sent
      case _ => 0
    else 0
  }

  ghost predicate MutexOk(s: State) {
    && (s.owner.Some? ==> s.owner.value < |s.pcs| && InSection(s.pcs[s.owner.value]))
    && forall t :: 0 <= t < |s.pcs| && InSection(s.pcs[t]) ==> s.owner == Some(t)
  }

  ghost predicate QueueOk(s: State) {
    && (forall t :: t in s.sem.queue ==> t < |s.pcs| && s.pcs[t].Queued?)
    && (forall t :: 0 <= t < |s.pcs| && s.pcs[t].Queued? ==> t in s.sem.queue)
    && (forall i, j :: 0 <= i < j < |s.sem.queue| ==> s.sem.queue[i] != s.sem.queue[j])
    && (s.sem.value > 0 ==> s.sem.queue == [])
  }

  ghost predicate CountsOk(s: State) {
    && s.waiters == Waiting(s.pcs)
    && s.waiters <= MAX_WAITERS
    && s.sem.value + Carrying(s.pcs) == s.pending + Uncounted(s)
  }

  /** How far `pending` may be from `waiters`, by what the mutex holder is doing. */
  ghost predicate BalanceOk(s: State) {
    if s.owner.Some? && s.owner.value < |s.pcs| then
      match s.pcs[s.owner.value]
      case Discarding => s.pending == s.waiters + 1
      case Signalling => s.pending < s.waiters
      case Broadcasting(signals, sent) => s.pending + signals == s.waiters && sent <= signals
      case _ => s.pending <= s.waiters
    else s.pending <= s.waiters
  }

  ghost predicate Inv(s: State) {
    MutexOk(s) && QueueOk(s) && CountsOk(s) && BalanceOk(s) && (!s.active ==> s.waiters == 0)
  }

  ghost predicate Init(s: State) {
    && s.waiters == 0 && s.pending == 0 && s.sem == Semaphore(0, []) && s.owner == None && s.active
    && forall t :: 0 <= t < |s.pcs| ==> s.pcs[t] == Outside
  }

  lemma {:induction false} NobodyCounted(pcs: seq<Pc>)
    requires forall t :: 0 <= t < |pcs| ==> pcs[t] == Outside
    ensures Waiting(pcs) == 0 && Carrying(pcs) == 0
  {
    if pcs != [] { NobodyCounted(pcs[1..]); }
  }

  lemma InitInv(s: State)
    requires Init(s)
    ensures Inv(s)
  {
    NobodyCounted(s.pcs);
  }

  // ----- preservation -----

  lemma LockSteps(s: State, t: nat, a: Action)
    requires Inv(s) && Enabled(s, t, a) && (a.Lock? || a.Unlock?)
    ensures Inv(Step(s, t, a))
  {
    CountsUpdate(s.pcs, t, Step(s, t, a).pcs[t]);
  }

  lemma SignalDoneStep(s: State, t: nat)
    requires Inv(s) && Enabled(s, t, SignalDone)
    ensures Inv(Step(s, t, SignalDone))
  {
    CountsUpdate(s.pcs, t, Holding);
  }

  lemma BroadcastStep(s: State, t: nat)
    requires Inv(s) && Enabled(s, t, Broadcast)
    ensures Inv(Step(s, t, Broadcast))
  {
    CountsUpdate(s.pcs, t, Step(s, t, Broadcast).pcs[t]);
  }

  lemma BroadcastDoneStep(s: State, t: nat)
    requires Inv(s) && Enabled(s, t, BroadcastDone)
    ensures Inv(Step(s, t, BroadcastDone))
  {
    CountsUpdate(s.pcs, t, Holding);
  }

  lemma DestroyStep(s: State, t: nat)
    requires Inv(s) && Enabled(s, t, Destroy)
    ensures Inv(Step(s, t, Destroy))
  {
  }

  lemma WaitStep(s: State, t: nat, to: Timeout)
    requires Inv(s) && Enabled(s, t, Wait(to))
    ensures Inv(Step(s, t, Wait(to)))
  {
    CountsUpdate(s.pcs, t, Unlocked(to));
  }

  lemma TakeToken(s: State, t: nat)
    requires Inv(s) && t < |s.pcs| && s.pcs[t].Unlocked? && s.sem.value > 0
    ensures Inv(To(s.(sem := s.sem.(value := s.sem.value - 1)), t, Woken(true)))
  {
    CountsUpdate(s.pcs, t, Woken(true));
  }

  lemma GiveUp(s: State, t: nat)
    requires Inv(s) && t < |s.pcs| && s.pcs[t].Unlocked?
    ensures Inv(To(s, t, Woken(false)))
  {
    CountsUpdate(s.pcs, t, Woken(false));
  }

  lemma Enqueue(s: State, t: nat, to: Timeout)
    requires Inv(s) && t < |s.pcs| && s.pcs[t].Unlocked? && s.sem.value == 0
    ensures Inv(To(s.(sem := s.sem.(queue := s.sem.queue + [t])), t, Queued(to)))
  {
    CountsUpdate(s.pcs, t, Queued(to));
    assert t !in s.sem.queue;
    assert forall u :: u in s.sem.queue + [t] <==> u in s.sem.queue || u == t;
  }

  lemma SemWaitStep(s: State, t: nat)
    requires Inv(s) && Enabled(s, t, SemWait)
    ensures Inv(Step(s, t, SemWait))
  {
    hide Inv;
    if s.sem.value > 0 { TakeToken(s, t); }
    else if s.pcs[t].timeout == Zero { GiveUp(s, t); }
    else { Enqueue(s, t, s.pcs[t].timeout); }
  }

  lemma {:induction false} WithoutDistinct(queue: seq<nat>, t: nat)
    requires forall i, j :: 0 <= i < j < |queue| ==> queue[i] != queue[j]
    ensures forall i, j :: 0 <= i < j < |Without(queue, t)| ==> Without(queue, t)[i] != Without(queue, t)[j]
  {
    if queue != [] {
      WithoutDistinct(queue[1..], t);
      assert queue[0] !in queue[1..];
      assert forall i :: 0 <= i < |Without(queue[1..], t)| ==> Without(queue[1..], t)[i] in queue[1..];
    }
  }

  lemma ExpireStep(s: State, t: nat)
    requires Inv(s) && Enabled(s, t, Expire)
    ensures Inv(Step(s, t, Expire))
  {
    CountsUpdate(s.pcs, t, Woken(false));
    WithoutDistinct(s.sem.queue, t);
  }

  lemma RelockWithToken(s: State, t: nat)
    requires Inv(s) && Enabled(s, t, Relock) && s.pcs[t].token
    ensures Inv(Step(s, t, Relock))
    ensures s.pending > 0
  {
    CountsUpdate(s.pcs, t, Holding);
    CarrierCounted(s.pcs, t);
  }

  lemma RelockAfterTimeout(s: State, t: nat)
    requires Inv(s) && Enabled(s, t, Relock) && !s.pcs[t].token
    ensures Inv(Step(s, t, Relock))
  {
    CountsUpdate(s.pcs, t, Step(s, t, Relock).pcs[t]);
    WaiterWithoutToken(s.pcs, t);
  }

  lemma DiscardStep(s: State, t: nat)
    requires Inv(s) && Enabled(s, t, Discard)
    ensures Inv(Step(s, t, Discard))
    ensures s.sem.value > 0
  {
    CountsUpdate(s.pcs, t, Holding);
    CarryingAtMostWaiting(s.pcs);
  }

  /** Handing out one token: the first queued thread carries it, or it stays in the semaphore. */
  lemma TokenSent(s: State, t: nat, p: Pc)
    requires Inv(s) && s.owner == Some(t) && (p.Signalling? || p.Broadcasting?)
    requires s.sem.value + Carrying(s.pcs) < MAX_WAITERS
    ensures SemSignal(s.sem).accepted
    ensures var s' := To(WakeFirst(s, SemSignal(s.sem)), t, p);
            && MutexOk(s') && QueueOk(s')
            && s'.waiters == Waiting(s'.pcs)
            && s'.sem.value + Carrying(s'.pcs) == s.sem.value + Carrying(s.pcs) + 1
  {
    var r := SemSignal(s.sem);
    var m := WakeFirst(s, r);
    if r.released.Some? {
      var h := r.released.value;
      assert h in s.sem.queue;
      CountsUpdate(s.pcs, h, Woken(true));
      assert forall u :: u in s.sem.queue <==> u == h || u in s.sem.queue[1..];
    }
    CountsUpdate(m.pcs, t, p);
  }

  lemma SignalStep(s: State, t: nat)
    requires Inv(s) && Enabled(s, t, Signal)
    ensures Inv(Step(s, t, Signal))
    ensures s.active && s.waiters > s.pending ==> SemSignal(s.sem).accepted
  {
    if s.active && s.waiters > s.pending {
      TokenSent(s, t, Signalling);
    }
  }

  lemma BroadcastNextStep(s: State, t: nat)
    requires Inv(s) && Enabled(s, t, BroadcastNext)
    ensures Inv(Step(s, t, BroadcastNext))
    ensures SemSignal(s.sem).accepted
  {
    var p := s.pcs[t];
    TokenSent(s, t, Broadcasting(p.signals, p.sent + 1));
  }

  lemma StepInv(s: State, t: nat, a: Action)
    requires Inv(s) && Enabled(s, t, a)
    ensures Inv(Step(s, t, a))
  {
    hide Inv;
    match a
    case Lock => LockSteps(s, t, a);
    case Unlock => LockSteps(s, t, a);
    case Wait(to) => WaitStep(s, t, to);
    case SemWait => SemWaitStep(s, t);
    case Expire => ExpireStep(s, t);
    case Relock => if s.pcs[t].token { RelockWithToken(s, t); } else { RelockAfterTimeout(s, t); }
    case Discard => DiscardStep(s, t);
    case Signal => SignalStep(s, t);
    case SignalDone => SignalDoneStep(s, t);
    case Broadcast => BroadcastStep(s, t);
    case BroadcastNext => BroadcastNextStep(s, t);
    case BroadcastDone => BroadcastDoneStep(s, t);
    case Destroy => DestroyStep(s, t);
  }

  // ----- the operations as code, run by the holder of the mutex -----

  datatype Status = SUCCESS | EINVAL | ENOMEM | EBUSY | TIMEUP

  class Condition {
    var waiters: nat
    var pending: nat
    var sem: Semaphore
    var active: bool

    ghost predicate Balanced()
      reads this
    {
      pending <= waiters <= MAX_WAITERS && sem.value <= pending && (sem.value > 0 ==> sem.queue == [])
    }

    constructor ()
      ensures waiters == 0 && pending == 0 && sem == Semaphore(0, []) && active && Balanced()
    {
      waiters, pending, sem, active := 0, 0, Semaphore(0, []), true;
    }

    /** First half of apex_apr_cond_wait_internal, up to the unlock. */
    method BeginWait() returns (st: Status)
      requires Balanced()
      modifies this`waiters
      ensures Balanced()
      ensures st == if !active then EINVAL else if old(waiters) == MAX_WAITERS then ENOMEM else SUCCESS
      ensures waiters == old(waiters) + if st == SUCCESS then 1 else 0
    {
      if !active { return EINVAL; }
      if waiters >= MAX_WAITERS { return ENOMEM; }
      waiters := Plus(waiters, 1);
      return SUCCESS;
    }

    /**
     Second half, from the relock, for a thread whose semaphore wait returned a token or
     not. The token accounting of the waiter is closed either way.
     */
    method EndWait(token: bool) returns (st: Status)
      requires waiters > 0 && pending <= waiters <= MAX_WAITERS
      requires sem.value + (if token then 1 else 0) <= pending
      requires !token && pending == waiters ==> sem.value > 0
      modifies this`waiters, this`pending, this`sem
      ensures st == if token then SUCCESS else TIMEUP
      ensures waiters == old(waiters) - 1 && pending <= waiters
      ensures pending == if token || old(pending) == old(waiters) then old(pending) - 1 else old(pending)
      ensures sem == if !token && old(pending) == old(waiters) then old(sem).(value := old(sem).value - 1) else old(sem)
    {
      waiters := Minus(waiters, 1);
      if token {
        if pending > 0 { pending := Minus(pending, 1); }
        return SUCCESS;
      }
      if pending > waiters {
        if sem.value > 0 {
          sem := sem.(value := sem.value - 1);
          pending := Minus(pending, 1);
        }
      }
      return TIMEUP;
    }

    /** apex_apr_thread_cond_signal. */
    method Signal() returns (st: Status)
      requires Balanced()
      modifies this`pending, this`sem
      ensures Balanced() && st == if active then SUCCESS else EINVAL
      ensures !active || old(pending) == waiters ==> pending == old(pending) && sem == old(sem)
      ensures active && old(pending) < waiters ==>
                pending == old(pending) + 1
                && sem == if old(sem).queue == [] then old(sem).(value := old(sem).value + 1)
                          else old(sem).(queue := old(sem).queue[1..])
    {
      if !active { return EINVAL; }
      if waiters <= pending { return SUCCESS; }
      var r := SemSignal(sem);
      if !r.accepted { return EBUSY; }
      sem := r.sem;
      pending := Plus(pending, 1);
      return SUCCESS;
    }

    /**
     apex_apr_thread_cond_broadcast: one signal for each waiter not signalled yet. The
     longest waiting threads are released, the other tokens stay in the semaphore.
     */
    method Broadcast() returns (st: Status)
      requires Balanced()
      modifies this`pending, this`sem
      ensures Balanced() && st == if active then SUCCESS else EINVAL
      ensures !active ==> pending == old(pending) && sem == old(sem)
      ensures active ==>
                && pending == waiters
                && var n := waiters - old(pending);
                   var k := if n < |old(sem).queue| then n else |old(sem).queue|;
                   sem == Semaphore(old(sem).value + n - k, old(sem).queue[k..])
    {
      if !active { return EINVAL; }
      var signals := Minus(waiters, pending);
      var i := 0;
      while i < signals
        invariant 0 <= i <= signals == waiters - old(pending)
        invariant pending == old(pending) && waiters == old(waiters) && active
        invariant var k := if i < |old(sem).queue| then i else |old(sem).queue|;
                  sem == Semaphore(old(sem).value + i - k, old(sem).queue[k..])
      {
        var r := SemSignal(sem);
        if !r.accepted { return EBUSY; }
        sem := r.sem;
        i := i + 1;
      }
      pending := Plus(pending, signals);
      return SUCCESS;
    }

    /** apex_apr_thread_cond_destroy. */
    method Destroy() returns (st: Status)
      modifies this`active
      ensures st == if !old(active) then EINVAL else if waiters != 0 then EBUSY else SUCCESS
      ensures active == (old(active) && st != SUCCESS)
    {
      if !active { return EINVAL; }
      if waiters != 0 { return EBUSY; }
      active := false;
      return SUCCESS;
    }
  }
}
