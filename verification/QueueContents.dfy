/** What a consumer pops is what was pushed, in every interleaving of the threads. */
module QueueContents {
  import opened Common
  import opened QueueState
  import opened QueueSteps
  import opened QueueRuns

  /** Element `h` holds the operation, with the parameters that fit its pool. */
  ghost predicate Carries(pools: seq<Pool>, h: Handle, op: Operation) {
    && InPools(h, pools) && h.pool == op.opIndex
    && var (e, size) := (At(pools, h), pools[h.pool].parameterSize);
       && e.used && e.opId == op.opId && e.opType == op.opType && e.activating == op.activating && e.modId == op.modId
       && e.parameterSize == (if op.parameterSize < size then op.parameterSize else size)
       && |e.parameters| == size
       && (op.parameters.Some? ==> |op.parameters.value| == op.parameterSize
                                   && e.parameters[..e.parameterSize] == op.parameters.value[..e.parameterSize])
  }

  /** Thread in the push of `op`. */
  ghost predicate InPush(c: Pc, op: Operation, first: bool) {
    match c
    case Passed(o, f) => o == op && f == first
    case Scanning(o, f, _) => o == op && f == first
    case Owning(_, o, f) => o == op && f == first
    case Prepared(_, o, f) => o == op && f == first
    case Falling(_, o) => o == op && first
    case _ => false
  }

  /** Queued, or in the hands of a consumer or of a cleaning that has not dropped it. */
  ghost predicate InUse(x: Sys, h: Handle) {
    h in x.queue || h in x.held || exists t :: 0 <= t < |x.pcs| && (x.pcs[t].Popped? || x.pcs[t].Judging?) && x.pcs[t].h == h
  }

  /** With a consumer. */
  ghost predicate Consumed(x: Sys, h: Handle) {
    h in x.held || exists t :: 0 <= t < |x.pcs| && x.pcs[t].Popped? && x.pcs[t].h == h
  }

  // ----- one step -----

  lemma InPushBefore(x: Sys, t: nat, a: Action, op: Operation, first: bool)
    requires Enabled(x, t, a) && InPush(Next(x, t, a).pcs[t], op, first)
    ensures a == Try(op, first) || InPush(x.pcs[t], op, first)
  {
  }

  /** Filling writes the operation into the element. */
  lemma FillCarries(x: Sys, t: nat)
    requires Inv(x) && Enabled(x, t, Fill)
    ensures Carries(Next(x, t, Fill).pools, x.pcs[t].h, x.pcs[t].op)
  {
    assert PcOk(x.pools, x.pcs[t]);
  }

  lemma CarriesKept(pools: seq<Pool>, after: seq<Pool>, s: set<Handle>, h: Handle, op: Operation)
    requires Changes(pools, after, s) && h !in s && Carries(pools, h, op)
    ensures Carries(after, h, op)
  {
  }

  lemma UsedInUse(x: Sys, h: Handle)
    requires Inv(x) && InUse(x, h)
    ensures InPools(h, x.pools) && At(x.pools, h).used
    ensures forall t :: 0 <= t < |x.pcs| && HasHand(x.pcs[t]) && !x.pcs[t].Popped? && !x.pcs[t].Judging? ==> x.pcs[t].h != h
  {
    forall t | 0 <= t < |x.pcs| && HasHand(x.pcs[t]) ensures x.pcs[t].h in Hands(x.pcs) { }
  }

  /** What a step can bring into the queue and into the hands of consumers. */
  lemma StepMoves(x: Sys, t: nat, a: Action)
    requires Enabled(x, t, a)
    ensures var (y, c) := (Next(x, t, a), x.pcs[t]);
            && |y.pcs| == |x.pcs| && y.pcs == x.pcs[t := y.pcs[t]]
            && (forall h :: h in y.queue ==> h in x.queue || ((a.Enter? || a.Fall? || a.Judge?) && h == c.h))
            && (forall h :: h in y.held ==> h in x.held || (a.Discount? && h == c.h))
            && (y.pcs[t].Popped? || y.pcs[t].Judging? ==> y.pcs[t].h in x.queue || y.pcs[t] == c)
  {
  }

  /** Whatever is in use was so before, or a push has just queued it. */
  lemma UseBefore(x: Sys, t: nat, a: Action, h: Handle)
    requires Enabled(x, t, a) && InUse(Next(x, t, a), h)
    ensures InUse(x, h) || ((a.Enter? || a.Fall?) && h == x.pcs[t].h && h !in x.queue && h in Next(x, t, a).queue)
  {
    StepMoves(x, t, a);
    var y := Next(x, t, a);
    assert a.Judge? || a.Discount? ==> x.pcs[t].Judging? || x.pcs[t].Popped?;
    hide Next;
    if u :| 0 <= u < |y.pcs| && (y.pcs[u].Popped? || y.pcs[u].Judging?) && y.pcs[u].h == h {
      assert u != t ==> y.pcs[u] == x.pcs[u];
    }
  }

  /** No step changes an element that is in use before and after it. */
  lemma NotTouched(x: Sys, t: nat, a: Action, h: Handle)
    requires Inv(x) && Enabled(x, t, a) && InUse(x, h) && InUse(Next(x, t, a), h)
    ensures h !in Touched(x, t, a)
  {
    UsedInUse(x, h);
    if a.Free? && a.h == h { FreedUnused(x, t, h); }
  }

  lemma FreedUnused(x: Sys, t: nat, h: Handle)
    requires Inv(x) && Enabled(x, t, Free(h))
    ensures !InUse(Next(x, t, Free(h)), h)
  {
    forall u | 0 <= u < |x.pcs| && HasHand(x.pcs[u]) ensures x.pcs[u].h in Hands(x.pcs) { }
  }

  // ----- whole runs -----

  lemma RunStep(tr: seq<Sys>, sched: seq<(nat, Action)>, k: nat)
    requires Run(tr, sched) && k < |sched|
    ensures Inv(tr[k]) && Enabled(tr[k], sched[k].0, sched[k].1) && tr[k + 1] == Next(tr[k], sched[k].0, sched[k].1)
  {
    hide Inv, Enabled, Next;
    RunInv(tr, sched, k);
    assert Moves(tr[k], sched[k].0, sched[k].1, tr[k + 1]);
  }

  /** Step `i` begins the push of `op` that thread `t` is in at `k`. */
  ghost predicate Began(tr: seq<Sys>, sched: seq<(nat, Action)>, i: nat, k: nat, t: nat, op: Operation, first: bool) {
    && i < k < |tr| && |sched| + 1 == |tr| && sched[i] == (t, Try(op, first))
    && forall m :: i < m <= k ==> t < |tr[m].pcs| && InPush(tr[m].pcs[t], op, first)
  }

  lemma {:induction false} PushBegan(tr: seq<Sys>, sched: seq<(nat, Action)>, k: nat, t: nat, op: Operation, first: bool) returns (i: nat)
    requires Run(tr, sched) && k < |tr| && t < |tr[k].pcs| && InPush(tr[k].pcs[t], op, first)
    ensures Began(tr, sched, i, k, t, op, first)
  {
    hide Inv, Enabled, Next, InPush;
    if k == 0 {
      NobodyPushes(tr[0], t, op, first);
    } else {
      RunStep(tr, sched, k - 1);
      StepMoves(tr[k - 1], sched[k - 1].0, sched[k - 1].1);
      if sched[k - 1] == (t, Try(op, first)) {
        i := k - 1;
      } else {
        if sched[k - 1].0 == t { InPushBefore(tr[k - 1], t, sched[k - 1].1, op, first); }
        i := PushBegan(tr, sched, k - 1, t, op, first);
      }
    }
  }

  lemma NobodyPushes(x: Sys, t: nat, op: Operation, first: bool)
    requires Initial(x) && t < |x.pcs|
    ensures !InPush(x.pcs[t], op, first)
  {
  }

  /** From filling to queuing the element in a thread's hands carries its operation. */
  lemma {:induction false} HandCarries(tr: seq<Sys>, sched: seq<(nat, Action)>, k: nat, t: nat)
    requires Run(tr, sched) && k < |tr| && t < |tr[k].pcs| && (tr[k].pcs[t].Prepared? || tr[k].pcs[t].Falling?)
    ensures Carries(tr[k].pools, tr[k].pcs[t].h, tr[k].pcs[t].op)
  {
    hide Inv, Enabled, Next, Carries, Touched;
    NotPreparedAtFirst(tr, sched, k, t);
    if k > 0 {
      var (x, u, a) := (tr[k - 1], sched[k - 1].0, sched[k - 1].1);
      RunStep(tr, sched, k - 1);
      StepMoves(x, u, a);
      PoolChange(x, u, a);
      if u == t {
        PreparedBefore(x, t, a);
        if a == Fill { FillCarries(x, t); } else { HandCarries(tr, sched, k - 1, t); }
      } else {
        HandCarries(tr, sched, k - 1, t);
        CarriesKept(x.pools, tr[k].pools, Touched(x, u, a), x.pcs[t].h, x.pcs[t].op);
      }
    }
  }

  lemma NotPreparedAtFirst(tr: seq<Sys>, sched: seq<(nat, Action)>, k: nat, t: nat)
    requires Run(tr, sched) && k < |tr| && t < |tr[k].pcs|
    ensures k == 0 ==> tr[k].pcs[t] == Outside
  {
  }

  lemma PreparedBefore(x: Sys, t: nat, a: Action)
    requires Enabled(x, t, a) && (Next(x, t, a).pcs[t].Prepared? || Next(x, t, a).pcs[t].Falling?)
    ensures var (c, y) := (x.pcs[t], Next(x, t, a));
            && (c.Owning? || c.Prepared?) && c.h == y.pcs[t].h && c.op == y.pcs[t].op
            && (a == Fill || (c.Prepared? && y.pools == x.pools))
  {
  }

  /**
   The push of `op` by thread `u`, begun at `i`, queues element `h` at `l`; from then to `k`
   the element is in use without a break and carries `op`.
   */
  ghost predicate Origin(tr: seq<Sys>, sched: seq<(nat, Action)>, k: nat, h: Handle, u: nat, i: nat, l: nat, op: Operation, first: bool) {
    && Began(tr, sched, i, l, u, op, first) && l < k < |tr| && (sched[l] == (u, Enter) || sched[l] == (u, Fall))
    && h !in tr[l].queue && h in tr[l + 1].queue
    && (forall m :: l < m <= k ==> InUse(tr[m], h))
    && Carries(tr[k].pools, h, op)
  }

  lemma {:induction false} HasOrigin(tr: seq<Sys>, sched: seq<(nat, Action)>, k: nat, h: Handle)
    returns (u: nat, i: nat, l: nat, op: Operation, first: bool)
    requires Run(tr, sched) && k < |tr| && InUse(tr[k], h)
    ensures Origin(tr, sched, k, h, u, i, l, op, first)
  {
    hide Inv, Enabled, Next, Carries, Touched, InUse, Began;
    if k == 0 {
      NothingInUse(tr[0], h);
    } else {
      var (x, t, a) := (tr[k - 1], sched[k - 1].0, sched[k - 1].1);
      RunStep(tr, sched, k - 1);
      UseBefore(x, t, a, h);
      if InUse(x, h) {
        u, i, l, op, first := HasOrigin(tr, sched, k - 1, h);
        NotTouched(x, t, a, h);
        PoolChange(x, t, a);
        CarriesKept(x.pools, tr[k].pools, Touched(x, t, a), h, op);
      } else {
        u, l := t, k - 1;
        op, first := Landing(x, t, a);
        i := PushBegan(tr, sched, k - 1, t, op, first);
        HandCarries(tr, sched, k - 1, t);
      }
    }
  }

  lemma NothingInUse(x: Sys, h: Handle)
    requires Initial(x)
    ensures !InUse(x, h)
  {
  }

  lemma Landing(x: Sys, t: nat, a: Action) returns (op: Operation, first: bool)
    requires Enabled(x, t, a) && (a.Enter? || a.Fall?)
    ensures t < |x.pcs| && (x.pcs[t].Prepared? || x.pcs[t].Falling?) && x.pcs[t].op == op && InPush(x.pcs[t], op, first)
    ensures Next(x, t, a).pools == x.pools
  {
    op := x.pcs[t].op;
    first := if x.pcs[t].Prepared? then x.pcs[t].first else true;
  }

  /**
   What a pop hands out is what was pushed. The element at the front carries the operation
   with which thread `u` began its push at `i`: its ID, type and tags, and as many bytes of
   its parameters as fit the pool. The push queued the element at `l`, and it has stayed in
   the queue, or in the hands of a cleaning, ever since.
   */
  lemma PoppedIsPushed(tr: seq<Sys>, sched: seq<(nat, Action)>, k: nat, t: nat)
    returns (u: nat, i: nat, l: nat, op: Operation, first: bool)
    requires Run(tr, sched) && k < |sched| && sched[k] == (t, Pop) && tr[k].queue != []
    ensures t < |tr[k + 1].pcs| && tr[k + 1].pcs[t] == Popped(tr[k].queue[0]) && InPools(tr[k].queue[0], tr[k + 1].pools)
    ensures i < l < k && sched[i] == (u, Try(op, first)) && (sched[l] == (u, Enter) || sched[l] == (u, Fall))
    ensures forall m :: i < m <= l ==> u < |tr[m].pcs| && InPush(tr[m].pcs[u], op, first)
    ensures tr[k].queue[0] !in tr[l].queue && tr[k].queue[0] in tr[l + 1].queue
    ensures forall m :: l < m <= k ==> InUse(tr[m], tr[k].queue[0]) && !Consumed(tr[m], tr[k].queue[0])
    ensures var (h, pools) := (tr[k].queue[0], tr[k + 1].pools);
            var (e, size) := (At(pools, h), pools[h.pool].parameterSize);
            && h.pool == op.opIndex && e.opId == op.opId && e.opType == op.opType && e.activating == op.activating && e.modId == op.modId
            && e.parameterSize == (if op.parameterSize < size then op.parameterSize else size) <= |e.parameters| == size
            && (op.parameters.Some? ==> |op.parameters.value| == op.parameterSize
                                        && e.parameters[..e.parameterSize] == op.parameters.value[..e.parameterSize])
  {
    var h := tr[k].queue[0];
    u, i, l, op, first := HasOrigin(tr, sched, k, h);
    RunStep(tr, sched, k);
    hide Inv, InPush;
    forall m | l < m <= k ensures !Consumed(tr[m], h) { NotConsumedBefore(tr, sched, m, k, h); }
  }

  // ----- each push is popped once -----

  lemma {:induction false} StaysConsumed(tr: seq<Sys>, sched: seq<(nat, Action)>, j: nat, k: nat, h: Handle)
    requires Run(tr, sched) && j <= k < |tr| && Consumed(tr[j], h) && forall m :: j <= m <= k ==> InUse(tr[m], h)
    ensures Consumed(tr[k], h)
    decreases k
  {
    hide Inv, Enabled, Next, Consumed, InUse;
    if j < k {
      StaysConsumed(tr, sched, j, k - 1, h);
      RunStep(tr, sched, k - 1);
      ConsumedStep(tr[k - 1], sched[k - 1].0, sched[k - 1].1, h);
    }
  }

  lemma ConsumedStep(x: Sys, t: nat, a: Action, h: Handle)
    requires Inv(x) && Enabled(x, t, a) && Consumed(x, h) && InUse(Next(x, t, a), h)
    ensures Consumed(Next(x, t, a), h)
  {
    if a.Free? && a.h == h { FreedUnused(x, t, h); }
    ConsumerMoves(x, t, a);
    StepMoves(x, t, a);
    hide Next, Inv, Enabled;
    var y := Next(x, t, a);
    if u :| 0 <= u < |x.pcs| && x.pcs[u].Popped? && x.pcs[u].h == h {
      assert u != t ==> y.pcs[u] == x.pcs[u];
    }
  }

  lemma ConsumerMoves(x: Sys, t: nat, a: Action)
    requires Enabled(x, t, a)
    ensures forall h :: h in x.held && !(a.Free? && a.h == h) ==> h in Next(x, t, a).held
    ensures x.pcs[t].Popped? ==> x.pcs[t].h in Next(x, t, a).held
  {
  }

  lemma QueuedNotConsumed(x: Sys, h: Handle)
    requires Inv(x) && h in x.queue
    ensures !Consumed(x, h)
  {
    forall t | 0 <= t < |x.pcs| && HasHand(x.pcs[t]) ensures x.pcs[t].h in Hands(x.pcs) { }
  }

  lemma NotConsumedBefore(tr: seq<Sys>, sched: seq<(nat, Action)>, j: nat, k: nat, h: Handle)
    requires Run(tr, sched) && j <= k < |tr| && h in tr[k].queue && forall m :: j <= m <= k ==> InUse(tr[m], h)
    ensures !Consumed(tr[j], h)
  {
    RunInv(tr, sched, k);
    QueuedNotConsumed(tr[k], h);
    if Consumed(tr[j], h) { StaysConsumed(tr, sched, j, k, h); }
  }

  /** While an element is in use its contents do not change: not in the queue, nor in the hands of its consumer. */
  lemma {:induction false} ContentsAreKept(tr: seq<Sys>, sched: seq<(nat, Action)>, j: nat, k: nat, h: Handle)
    requires Run(tr, sched) && j <= k < |tr| && forall m :: j <= m <= k ==> InUse(tr[m], h)
    ensures InPools(h, tr[j].pools) && InPools(h, tr[k].pools) && At(tr[k].pools, h) == At(tr[j].pools, h)
    ensures |tr[k].pools| == |tr[j].pools| && tr[k].pools[h.pool].parameterSize == tr[j].pools[h.pool].parameterSize
    decreases k
  {
    hide Inv, Enabled, Next, InUse, Touched;
    RunInv(tr, sched, j);
    UsedInUse(tr[j], h);
    if j < k {
      ContentsAreKept(tr, sched, j, k - 1, h);
      RunStep(tr, sched, k - 1);
      NotTouched(tr[k - 1], sched[k - 1].0, sched[k - 1].1, h);
      PoolChange(tr[k - 1], sched[k - 1].0, sched[k - 1].1);
    }
  }

  /** No push is popped twice: between two pops of one element it has been out of use, and so freed and pushed again. */
  lemma PoppedOnce(tr: seq<Sys>, sched: seq<(nat, Action)>, j: nat, k: nat)
    requires Run(tr, sched) && j < k < |sched| && sched[j].1 == Pop && sched[k].1 == Pop
    requires tr[j].queue != [] && tr[k].queue != [] && tr[j].queue[0] == tr[k].queue[0]
    ensures exists m :: j < m < k && !InUse(tr[m], tr[j].queue[0])
  {
    var h := tr[j].queue[0];
    if forall m :: j < m < k ==> InUse(tr[m], h) {
      RunStep(tr, sched, j);
      assert Consumed(tr[j + 1], h) && InUse(tr[k], h);
      NotConsumedBefore(tr, sched, j + 1, k, h);
    }
  }
}
