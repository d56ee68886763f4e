/** What the queue of a module keeps, over every run (lib/ldp_fifo_manager.c and its parts). */
module QueueTheorems {
  import opened Common
  import opened RequestTable
  import opened QueueState

  // ----- cleaning is a filter with a latch -----

  ghost predicate SameElements(a: Pool, b: Pool) {
    && a.parameterSize == b.parameterSize && |a.elements| == |b.elements|
    && forall i :: 0 <= i < |a.elements| ==> a.elements[i].(used := false) == b.elements[i].(used := false)
  }

  /** Same elements but for the used flags. */
  ghost predicate SameOperations(a: seq<Pool>, b: seq<Pool>) {
    && |a| == |b|
    && forall p :: 0 <= p < |a| ==> SameElements(a[p], b[p])
  }

  ghost predicate InAll(pools: seq<Pool>, q: seq<Handle>) {
    forall k :: 0 <= k < |q| ==> InPools(q[k], pools)
  }

  ghost predicate Keeps(started: bool, e: Element, st: ModuleState) {
    IsStart(e, st) || Allowed(started, e, st)
  }

  /** The handles kept: everything from the first START of a ready module on, and before it only what is allowed. */
  ghost function Kept(pools: seq<Pool>, q: seq<Handle>, started: bool, st: ModuleState): seq<Handle>
    requires InAll(pools, q)
  {
    if q == [] then []
    else
      var e := At(pools, q[0]);
      (if Keeps(started, e, st) then [q[0]] else []) + Kept(pools, q[1..], started || IsStart(e, st), st)
  }

  ghost function Dropped(pools: seq<Pool>, q: seq<Handle>, started: bool, st: ModuleState): (r: seq<Handle>)
    requires InAll(pools, q)
    ensures InAll(pools, r)
  {
    if q == [] then []
    else
      var e := At(pools, q[0]);
      (if Keeps(started, e, st) then [] else [q[0]]) + Dropped(pools, q[1..], started || IsStart(e, st), st)
  }

  ghost function ReleaseAll(pools: seq<Pool>, d: seq<Handle>): (r: seq<Pool>)
    requires InAll(pools, d)
    decreases |d|
  {
    if d == [] then pools
    else
      var after := Release(pools, d[0]);
      assert forall k :: 0 <= k < |d[1..]| ==> InPools(d[1..][k], after);
      ReleaseAll(after, d[1..])
  }

  /** The requests left after those named by dropped elements are removed. */
  ghost function DropRequests(pools: seq<Pool>, received: seq<Received>, d: seq<Handle>): seq<Received>
    requires Readable(pools, d)
  {
    if d == [] then received
    else
      var e := At(pools, d[0]);
      DropRequests(pools, if e.opType == RrReceived then DropReceived(received, RequestId(e)) else received, d[1..])
  }

  /** What the count becomes for `q`: START counts as activating in a ready module. */
  ghost function CountFor(pools: seq<Pool>, q: seq<Handle>, st: ModuleState): nat
    requires InAll(pools, q)
  {
    if q == [] then 0
    else (if IsStart(At(pools, q[0]), st) || At(pools, q[0]).activating then 1 else 0) + CountFor(pools, q[1..], st)
  }

  lemma ReleaseKeepsOperations(pools: seq<Pool>, h: Handle)
    requires InPools(h, pools)
    ensures SameOperations(pools, Release(pools, h))
  {
  }

  lemma SameTransitive(a: seq<Pool>, b: seq<Pool>, c: seq<Pool>)
    requires SameOperations(a, b) && SameOperations(b, c)
    ensures SameOperations(a, c)
  {
  }

  lemma SameAt(a: seq<Pool>, b: seq<Pool>, h: Handle)
    requires SameOperations(a, b) && InPools(h, a)
    ensures InPools(h, b) && At(a, h).(used := false) == At(b, h).(used := false)
  {
  }

  lemma SameReadable(a: seq<Pool>, b: seq<Pool>, q: seq<Handle>)
    requires SameOperations(a, b) && Readable(a, q)
    ensures Readable(b, q)
  {
    forall k | 0 <= k < |q| ensures InPools(q[k], b) && IdReadable(At(b, q[k])) {
      SameAt(a, b, q[k]);
    }
  }

  /** One pass, told from the elements as they were before the loop. */
  lemma StepEffect(pools: seq<Pool>, p: Progress, q: seq<Handle>, st: ModuleState)
    requires SameOperations(pools, p.pools) && Readable(pools, q) && Readable(p.pools, q) && q != []
    ensures InPools(q[0], pools) && InPools(q[0], p.pools) && IdReadable(At(p.pools, q[0])) && Readable(pools, q[1..])
    ensures At(p.pools, q[0]).opType == At(pools, q[0]).opType
    ensures Keeps(p.started, At(p.pools, q[0]), st) == Keeps(p.started, At(pools, q[0]), st)
    ensures var (n, e) := (CleanStep(p, q[0], st), At(pools, q[0]));
            && SameOperations(pools, n.pools) && Readable(n.pools, q[1..])
            && n.started == (p.started || IsStart(e, st))
            && n.kept == (if Keeps(p.started, e, st) then p.kept + [q[0]] else p.kept)
            && n.pools == (if Keeps(p.started, e, st) then p.pools else Release(p.pools, q[0]))
            && n.activating == (if Keeps(p.started, e, st) && (IsStart(e, st) || e.activating) then p.activating + 1 else p.activating)
            && (!Keeps(p.started, e, st) && e.opType == RrReceived ==> |e.parameters| >= 4)
            && n.received == (if !Keeps(p.started, e, st) && e.opType == RrReceived then DropReceived(p.received, RequestId(e)) else p.received)
  {
    ReleaseKeepsOperations(p.pools, q[0]);
    SameTransitive(pools, p.pools, Release(p.pools, q[0]));
    SameReadable(pools, CleanStep(p, q[0], st).pools, q[1..]);
    SameAt(pools, p.pools, q[0]);
  }

  lemma {:induction false} ReadableDropped(pools: seq<Pool>, q: seq<Handle>, started: bool, st: ModuleState)
    requires Readable(pools, q)
    ensures Readable(pools, Dropped(pools, q, started, st))
  {
    if q != [] {
      ReadableDropped(pools, q[1..], started || IsStart(At(pools, q[0]), st), st);
    }
  }

  lemma {:induction false} KeptInAll(pools: seq<Pool>, q: seq<Handle>, started: bool, st: ModuleState)
    requires InAll(pools, q)
    ensures InAll(pools, Kept(pools, q, started, st))
  {
    if q != [] {
      KeptInAll(pools, q[1..], started || IsStart(At(pools, q[0]), st), st);
    }
  }

  lemma CountCons(pools: seq<Pool>, h: Handle, tail: seq<Handle>, st: ModuleState)
    requires InPools(h, pools) && InAll(pools, tail)
    ensures InAll(pools, [h] + tail)
    ensures CountFor(pools, [h] + tail, st)
              == (if IsStart(At(pools, h), st) || At(pools, h).activating then 1 else 0) + CountFor(pools, tail, st)
  {
    assert ([h] + tail)[1..] == tail;
  }

  /** The loop keeps exactly what the filter keeps, in order. */
  lemma {:induction false} CleanKeeps(pools: seq<Pool>, p: Progress, q: seq<Handle>, st: ModuleState)
    requires SameOperations(pools, p.pools) && Readable(pools, q) && Readable(p.pools, q)
    ensures CleanFrom(p, q, st).kept == p.kept + Kept(pools, q, p.started, st)
    decreases |q|
  {
    if q != [] {
      StepEffect(pools, p, q, st);
      var n := CleanStep(p, q[0], st);
      var tail := Kept(pools, q[1..], n.started, st);
      Concat(p.kept, [q[0]], tail);
      hide SameOperations, Readable, CleanStep, At, InPools, IsStart, Keeps;
      CleanKeeps(pools, n, q[1..], st);
    }
  }

  /** It counts what it keeps. */
  lemma {:induction false} CleanCounts(pools: seq<Pool>, p: Progress, q: seq<Handle>, st: ModuleState)
    requires SameOperations(pools, p.pools) && Readable(pools, q) && Readable(p.pools, q)
    ensures InAll(pools, Kept(pools, q, p.started, st))
    ensures CleanFrom(p, q, st).activating == p.activating + CountFor(pools, Kept(pools, q, p.started, st), st)
    decreases |q|
  {
    KeptInAll(pools, q, p.started, st);
    if q != [] {
      StepEffect(pools, p, q, st);
      var n := CleanStep(p, q[0], st);
      var tail := Kept(pools, q[1..], n.started, st);
      KeptInAll(pools, q[1..], n.started, st);
      CountCons(pools, q[0], tail, st);
      hide SameOperations, Readable, CleanStep, At, InPools, IsStart, Keeps, CountFor, InAll;
      CleanCounts(pools, n, q[1..], st);
      assert [] + tail == tail;
    }
  }

  /** The loop releases exactly what the filter drops, and forgets the requests it names. */
  lemma {:induction false} CleanReleases(pools: seq<Pool>, p: Progress, q: seq<Handle>, st: ModuleState)
    requires SameOperations(pools, p.pools) && Readable(pools, q) && Readable(p.pools, q)
    ensures var d := Dropped(pools, q, p.started, st);
            var r := CleanFrom(p, q, st);
            && Readable(pools, d) && InAll(p.pools, d)
            && r.pools == ReleaseAll(p.pools, d)
            && r.received == DropRequests(pools, p.received, d)
    decreases |q|
  {
    ReadableDropped(pools, q, p.started, st);
    SameReadable(pools, p.pools, Dropped(pools, q, p.started, st));
    if q != [] {
      StepEffect(pools, p, q, st);
      var n := CleanStep(p, q[0], st);
      hide SameOperations, CleanStep, At, InPools, IsStart, Keeps, Release, IdReadable;
      CleanReleases(pools, n, q[1..], st);
      var tail := Dropped(pools, q[1..], n.started, st);
      assert ([q[0]] + tail)[1..] == tail && [] + tail == tail;
    }
  }

  // ----- what the filter is -----

  /** Index of the first START a ready module finds, or the length. */
  ghost function FirstStart(pools: seq<Pool>, q: seq<Handle>, st: ModuleState): (f: nat)
    requires InAll(pools, q)
    ensures f <= |q| && (f < |q| ==> IsStart(At(pools, q[f]), st))
    ensures forall k :: 0 <= k < f ==> !IsStart(At(pools, q[k]), st)
  {
    if q == [] || IsStart(At(pools, q[0]), st) then 0 else 1 + FirstStart(pools, q[1..], st)
  }

  /** The elements a lifecycle change lets through on their own. */
  ghost function AllowedOf(pools: seq<Pool>, q: seq<Handle>, st: ModuleState): seq<Handle>
    requires InAll(pools, q)
  {
    if q == [] then [] else (if Allowed(false, At(pools, q[0]), st) then [q[0]] else []) + AllowedOf(pools, q[1..], st)
  }

  lemma {:induction false} LatchedKeepsAll(pools: seq<Pool>, q: seq<Handle>, st: ModuleState)
    requires InAll(pools, q)
    ensures Kept(pools, q, true, st) == q && Dropped(pools, q, true, st) == []
  {
    if q != [] {
      LatchedKeepsAll(pools, q[1..], st);
    }
  }

  ghost predicate NoStart(pools: seq<Pool>, q: seq<Handle>, st: ModuleState)
    requires InAll(pools, q)
  {
    forall k :: 0 <= k < |q| ==> !IsStart(At(pools, q[k]), st)
  }

  lemma KeptFromStart(pools: seq<Pool>, q: seq<Handle>, st: ModuleState)
    requires InAll(pools, q) && (q == [] || IsStart(At(pools, q[0]), st))
    ensures Kept(pools, q, false, st) == q
  {
    if q != [] {
      LatchedKeepsAll(pools, q[1..], st);
      assert q == [q[0]] + q[1..];
    }
  }

  /** No START in `a`; `b` begins with one, or is empty. */
  lemma {:induction false} KeptOfParts(pools: seq<Pool>, a: seq<Handle>, b: seq<Handle>, st: ModuleState)
    requires InAll(pools, a) && InAll(pools, b) && NoStart(pools, a, st) && (b == [] || IsStart(At(pools, b[0]), st))
    ensures InAll(pools, a + b) && Kept(pools, a + b, false, st) == AllowedOf(pools, a, st) + b
    decreases |a|
  {
    if a == [] {
      assert a + b == b && [] + b == b;
      KeptFromStart(pools, b, st);
    } else {
      PartsUnfold(pools, a, b, st);
      KeptOfParts(pools, a[1..], b, st);
      Concat(if Allowed(false, At(pools, a[0]), st) then [a[0]] else [], AllowedOf(pools, a[1..], st), b);
    }
  }

  lemma PartsUnfold(pools: seq<Pool>, a: seq<Handle>, b: seq<Handle>, st: ModuleState)
    requires InAll(pools, a) && InAll(pools, b) && NoStart(pools, a, st) && a != []
    ensures InAll(pools, a + b) && InAll(pools, a[1..] + b) && NoStart(pools, a[1..], st)
    ensures var head := if Allowed(false, At(pools, a[0]), st) then [a[0]] else [];
            && Kept(pools, a + b, false, st) == head + Kept(pools, a[1..] + b, false, st)
            && AllowedOf(pools, a, st) == head + AllowedOf(pools, a[1..], st)
  {
    assert (a + b)[1..] == a[1..] + b;
  }

  /** Up to the first START only what is allowed survives; from it on, everything does. */
  lemma KeptIsLatchedFilter(pools: seq<Pool>, q: seq<Handle>, st: ModuleState)
    requires InAll(pools, q)
    ensures var f := FirstStart(pools, q, st); Kept(pools, q, false, st) == AllowedOf(pools, q[..f], st) + q[f..]
  {
    hide Kept, AllowedOf;
    var f := FirstStart(pools, q, st);
    KeptOfParts(pools, q[..f], q[f..], st);
    assert q[..f] + q[f..] == q;
  }

  lemma DistinctCons(h: Handle, q: seq<Handle>)
    requires Distinct(q) && h !in q
    ensures Distinct([h] + q)
  {
  }

  /** Nothing is lost or doubled: each queued element is kept or else dropped, once. */
  lemma {:induction false} KeptOrDropped(pools: seq<Pool>, q: seq<Handle>, started: bool, st: ModuleState)
    requires InAll(pools, q) && Distinct(q)
    ensures Distinct(Kept(pools, q, started, st)) && Distinct(Dropped(pools, q, started, st))
    ensures forall h :: h in q <==> h in Kept(pools, q, started, st) || h in Dropped(pools, q, started, st)
    ensures forall h :: h in Kept(pools, q, started, st) ==> h !in Dropped(pools, q, started, st)
  {
    if q != [] {
      var e := At(pools, q[0]);
      var started' := started || IsStart(e, st);
      var kept, dropped := Kept(pools, q[1..], started', st), Dropped(pools, q[1..], started', st);
      assert Kept(pools, q, started, st) == (if Keeps(started, e, st) then [q[0]] else []) + kept;
      assert Dropped(pools, q, started, st) == (if Keeps(started, e, st) then [] else [q[0]]) + dropped;
      KeptOrDropped(pools, q[1..], started', st);
      hide Kept, Dropped, Keeps, At, IsStart;
      assert q[0] !in q[1..];
      assert q[0] !in kept && q[0] !in dropped;
      DistinctCons(q[0], kept);
      DistinctCons(q[0], dropped);
      assert [] + kept == kept && [] + dropped == dropped;
      hide Distinct;
    }
  }

  /** Some dropped element is a request received, for which the cleaning needs the request table. */
  ghost predicate NeedsTable(pools: seq<Pool>, q: seq<Handle>, st: ModuleState)
    requires InAll(pools, q)
  {
    exists h :: h in Dropped(pools, q, false, st) && At(pools, h).opType == RrReceived
  }

  /** No element dropped from `q` is a request received. */
  ghost predicate NoTable(pools: seq<Pool>, q: seq<Handle>, started: bool, st: ModuleState)
  {
    InAll(pools, q) && forall h :: h in Dropped(pools, q, started, st) ==> At(pools, h).opType != RrReceived
  }

  lemma NoTableStep(pools: seq<Pool>, q: seq<Handle>, started: bool, st: ModuleState)
    requires NoTable(pools, q, started, st) && q != []
    ensures !Keeps(started, At(pools, q[0]), st) ==> At(pools, q[0]).opType != RrReceived
    ensures NoTable(pools, q[1..], started || IsStart(At(pools, q[0]), st), st)
  {
    var tail := Dropped(pools, q[1..], started || IsStart(At(pools, q[0]), st), st);
    if !Keeps(started, At(pools, q[0]), st) {
      assert Dropped(pools, q, started, st) == [q[0]] + tail;
    } else {
      assert Dropped(pools, q, started, st) == [] + tail == tail;
    }
  }

  lemma {:induction false} CleanFromSame(pools: seq<Pool>, p: Progress, q: seq<Handle>, st: ModuleState)
    requires SameOperations(pools, p.pools) && Readable(pools, q) && Readable(p.pools, q)
    ensures var r := CleanFrom(p, q, st); SameOperations(pools, r.pools) && |r.kept| <= |p.kept| + |q|
    decreases |q|
  {
    if q != [] {
      StepEffect(pools, p, q, st);
      hide SameOperations, Readable, CleanStep;
      CleanFromSame(pools, CleanStep(p, q[0], st), q[1..], st);
    }
  }

  lemma SamePoolShape(a: Pool, b: Pool)
    requires SameElements(a, b) && PoolShape(a)
    ensures PoolShape(b)
  {
    forall i | 0 <= i < |b.elements| ensures |b.elements[i].parameters| == b.parameterSize {
      assert a.elements[i].(used := false) == b.elements[i].(used := false);
    }
  }

  lemma CleanShape(s: State, received: seq<Received>, st: ModuleState)
    requires Shape(s) && Readable(s.pools, s.queue)
    ensures Shape(Clean(s, received, st).0)
  {
    var start := Progress([], false, 0, s.pools, received);
    var after := CleanFrom(start, s.queue, st).pools;
    var kept := Kept(s.pools, s.queue, false, st);
    CleanFromSame(s.pools, start, s.queue, st);
    CleanKeeps(s.pools, start, s.queue, st);
    KeptInAll(s.pools, s.queue, false, st);
    assert [] + kept == kept;
    forall k | 0 <= k < |after| ensures PoolShape(after[k]) {
      SamePoolShape(s.pools[k], after[k]);
    }
    forall k | 0 <= k < |kept| ensures InPools(kept[k], after) {
      SameAt(s.pools, after, kept[k]);
    }
  }

  lemma SameItself(pools: seq<Pool>)
    ensures SameOperations(pools, pools)
  {
  }

  lemma CleanIs(s: State, received: seq<Received>, st: ModuleState)
    requires Readable(s.pools, s.queue)
    ensures var r := CleanFrom(Progress([], false, 0, s.pools, received), s.queue, st);
            Clean(s, received, st) == (State(r.kept, s.size, r.pools, r.activating), r.received)
  {
  }

  // ----- pushing and popping -----

  /**
   A push succeeds exactly when the index is valid, the pool counts and has a free element,
   and the ring has room. Without an element to take it changes nothing; refused by the ring
   it changes neither the queue nor the count.
   */
  lemma PushSucceedsIff(s: State, op: Operation, first: bool)
    requires Shape(s) && WellFormed(op)
    ensures var takes := && 0 <= op.opIndex < |s.pools| && s.pools[op.opIndex].available != 0
                         && exists i :: 0 <= i < |s.pools[op.opIndex].elements| && !s.pools[op.opIndex].elements[i].used;
            var (after, ok) := Push(s, op, first);
            && (ok <==> takes && |s.queue| < s.size) && (!takes ==> after == s)
            && (!ok ==> after.queue == s.queue && after.activating == s.activating)
  {
  }

  /**
   The element a push takes, the first free one of its pool, carries the operation and as
   many bytes of its parameters as fit, behind which its memory is as before. It is queued
   where it was asked for, and no other element changes.
   */
  lemma PushQueuesTheOperation(s: State, op: Operation, first: bool, i: nat)
    requires Shape(s) && WellFormed(op) && 0 <= op.opIndex < |s.pools| && s.pools[op.opIndex].available != 0
    requires i < |s.pools[op.opIndex].elements| && !s.pools[op.opIndex].elements[i].used
    requires forall j :: 0 <= j < i ==> s.pools[op.opIndex].elements[j].used
    ensures var ((after, ok), p) := (Push(s, op, first), s.pools[op.opIndex]);
            var n := if op.parameterSize < p.parameterSize then op.parameterSize else p.parameterSize;
            && after.size == s.size && |after.pools| == |s.pools| && |after.pools[op.opIndex].elements| == |p.elements|
            && var (e, h) := (after.pools[op.opIndex].elements[i], Handle(op.opIndex, i));
               && after.pools == s.pools[op.opIndex := Pool(p.parameterSize, p.available - 1, p.elements[i := e])]
               && e.used && e.opId == op.opId && e.opType == op.opType && e.activating == op.activating && e.modId == op.modId
               && e.parameterSize == n <= |p.elements[i].parameters|
               && (op.parameters.None? ==> e.parameters == p.elements[i].parameters)
               && (op.parameters.Some? ==> n <= |op.parameters.value|
                                           && e.parameters == op.parameters.value[..n] + p.elements[i].parameters[n..])
               && (ok ==> after.queue == if first then [h] + s.queue else s.queue + [h])
               && (ok ==> after.activating == if op.activating then (s.activating + 1) % 0x1_0000_0000 else s.activating)
  {
    assert PoolShape(s.pools[op.opIndex]);
    assert FirstFree(s.pools[op.opIndex].elements, 0) == Some(i);
  }

  /** The element a successful push queues, at the end it was asked for. */
  lemma PushedElement(s: State, op: Operation, first: bool)
    requires Shape(s) && WellFormed(op)
    ensures var (after, ok) := Push(s, op, first);
            ok ==>
              var q := after.queue;
              && |q| == |s.queue| + 1 && (if first then q[1..] else q[..|q| - 1]) == s.queue
              && var h := if first then q[0] else q[|q| - 1];
                 && h.pool == op.opIndex && InPools(h, after.pools)
                 && var (e, size) := (after.pools[h.pool].elements[h.index], after.pools[h.pool].parameterSize);
                    && e.used && e.opId == op.opId && e.opType == op.opType && e.activating == op.activating && e.modId == op.modId
                    && e.parameterSize == (if op.parameterSize < size then op.parameterSize else size) <= |e.parameters|
                    && (op.parameters.Some? ==> e.parameterSize <= |op.parameters.value|
                                                && e.parameters[..e.parameterSize] == op.parameters.value[..e.parameterSize])
  {
    PushSucceedsIff(s, op, first);
    if Push(s, op, first).1 {
      var i := FirstFree(s.pools[op.opIndex].elements, 0).value;
      PushQueuesTheOperation(s, op, first, i);
    }
  }

  /** A pop takes the front element and leaves its contents, and uncounts it when it activates. */
  lemma PopTakesTheFront(s: State)
    requires Shape(s)
    ensures s.queue == [] ==> Pop(s) == (s, None)
    ensures s.queue != [] ==>
              && InPools(s.queue[0], s.pools)
              && Pop(s) == (s.(queue := s.queue[1..],
                               activating := if s.pools[s.queue[0].pool].elements[s.queue[0].index].activating
                                             then (s.activating + 0xFFFF_FFFF) % 0x1_0000_0000 else s.activating), Some(s.queue[0]))
  {
  }
}
