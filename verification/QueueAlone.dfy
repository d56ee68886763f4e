/**
 Calls that no other thread disturbs: the steps of one thread alone compute what the methods
 of ModuleQueue.dfy are specified by.

 This joins the two views of the queue: a class whose methods update it in place, call by
 call, and a system of steps that any number of threads take in any order. Whatever holds of
 every run of the steps holds of calls made one after the other, and the functions that
 specify the methods are the meaning of a call the scheduler leaves alone.
 */
module QueueAlone {
  import opened Common
  import opened RequestTable
  import opened QueueState
  import opened QueueTheorems
  import opened QueueSteps
  import opened QueueRuns
  import opened QueuePaths
  import ModuleQueue

  function StateOf(x: Sys): State {
    State(x.queue, x.size, x.pools, x.activating)
  }

  ghost predicate OnlyBy(steps: seq<(nat, Action)>, t: nat) {
    forall i :: 0 <= i < |steps| ==> steps[i].0 == t
  }

  lemma InvShape(x: Sys)
    requires Inv(x)
    ensures Shape(StateOf(x)) && InAll(x.pools, x.queue)
  {
    InvQueued(x);
    forall p | 0 <= p < |x.pools| ensures PoolShape(x.pools[p]) {
      assert PoolOk(x.pools[p], Freeing(x.pcs, p));
    }
  }

  /** From a filled element to the end of the push. */
  lemma EnterAlone(x: Sys, t: nat) returns (steps: seq<(nat, Action)>, y: Sys)
    requires Inv(x) && t < |x.pcs| && x.pcs[t].Prepared? && x.owner == None
    ensures Leads(x, steps, y) && OnlyBy(steps, t) && y.pcs == x.pcs[t := Outside] && y.pools == x.pools && y.size == x.size
    ensures y.queue == (if Full(x) then x.queue else if x.pcs[t].first then [x.pcs[t].h] + x.queue else x.queue + [x.pcs[t].h])
    ensures y.activating == if !Full(x) && x.pcs[t].op.activating then Increment(x.activating) else x.activating
  {
    var p := x.pcs[t];
    assert PcOk(x.pools, p);
    var x1 := Next(x, t, Enter);
    OneStep(x, t, Enter);
    steps, y := [(t, Enter)], x1;
    if x1.pcs[t].Falling? {
      var x2 := Next(x1, t, Fall);
      OneStep(x1, t, Fall);
      LeadsOn(x, steps, x1, [(t, Fall)], x2);
      assert [] + [p.h] == [p.h] + [];
      steps, y := steps + [(t, Fall)], x2;
    }
    if y.pcs[t].Entered? {
      var x3 := Next(y, t, Count);
      OneStep(y, t, Count);
      LeadsOn(x, steps, y, [(t, Count)], x3);
      steps, y := steps + [(t, Count)], x3;
    }
    assert y.pcs == x.pcs[t := Outside];
  }

  /** A push that nobody disturbs is the function _ldp_fifo_manager_push_local is specified by. */
  lemma PushAlone(x: Sys, t: nat, op: Operation, first: bool) returns (steps: seq<(nat, Action)>, y: Sys)
    requires Inv(x) && t < |x.pcs| && x.pcs[t] == Outside && x.owner == None && Pushable(x.pools, op) && !Locked(x.pcs, op.opIndex)
    ensures Leads(x, steps, y) && OnlyBy(steps, t) && y.pcs == x.pcs
    ensures Shape(StateOf(x)) && StateOf(y) == Push(StateOf(x), op, first).0
  {
    InvShape(x);
    var x1 := Next(x, t, Try(op, first));
    OneStep(x, t, Try(op, first));
    steps, y := [(t, Try(op, first))], x1;
    if x1.pcs[t].Passed? {
      StepInv(x, t, Try(op, first));
      var more, z := PassedAlone(x1, t);
      LeadsOn(x, steps, x1, more, z);
      steps, y := steps + more, z;
      assert y.pcs == x.pcs;
    }
  }

  lemma PassedAlone(x: Sys, t: nat) returns (steps: seq<(nat, Action)>, y: Sys)
    requires Inv(x) && t < |x.pcs| && x.pcs[t].Passed? && x.owner == None && Shape(StateOf(x)) && WellFormed(x.pcs[t].op)
    requires ValidIndex(x.pools, x.pcs[t].op) && x.pools[x.pcs[t].op.opIndex].available != 0 && !Locked(x.pcs, x.pcs[t].op.opIndex)
    ensures Leads(x, steps, y) && OnlyBy(steps, t) && y.pcs == x.pcs[t := Outside]
    ensures StateOf(y) == Push(StateOf(x), x.pcs[t].op, x.pcs[t].first).0
  {
    hide Inv, Leads, Enabled, Next, With, Filled, PoolShape, FirstFree, TakeSteps, ScanSteps, Locked;
    var op, first := x.pcs[t].op, x.pcs[t].first;
    ModuleQueue.PushCases(StateOf(x), op, first);
    var i := FirstFree(x.pools[op.opIndex].elements, 0);
    if i.None? {
      TakeFindsNone(x, t, op, first);
      steps, y := TakeSteps(t, |x.pools[op.opIndex].elements|), To(x, t, Outside);
      TakesAlone(t, |x.pools[op.opIndex].elements|);
    } else {
      var h := Handle(op.opIndex as nat, i.value);
      var x1 := TakeFillAlone(x, t, h, op, first);
      var more; more, y := EnterAlone(x1, t);
      LeadsOn(x, TakeSteps(t, h.index) + [(t, Fill)], x1, more, y);
      steps := TakeSteps(t, h.index) + [(t, Fill)] + more;
      TakesAlone(t, h.index);
    }
    assert y.pcs == x.pcs[t := Outside];
  }

  lemma {:induction false} ScansAlone(t: nat, n: nat)
    ensures OnlyBy(ScanSteps(t, n), t)
  {
    if n > 0 { ScansAlone(t, n - 1); }
  }

  lemma TakesAlone(t: nat, n: nat)
    ensures OnlyBy(TakeSteps(t, n), t)
  {
    ScansAlone(t, n + 1);
  }

  lemma TakeFillAlone(x: Sys, t: nat, h: Handle, op: Operation, first: bool) returns (y: Sys)
    requires Inv(x) && t < |x.pcs| && x.pcs[t] == Passed(op, first) && ValidIndex(x.pools, op) && WellFormed(op)
    requires x.pools[op.opIndex].available != 0 && FirstFree(x.pools[op.opIndex].elements, 0) == Some(h.index) && h.pool == op.opIndex
    requires !Locked(x.pcs, op.opIndex)
    ensures InPools(h, x.pools) && Taken(StateOf(x), op) == Some(h) && PoolShape(x.pools[h.pool]) && x.pools[h.pool].available > 0
    ensures Leads(x, TakeSteps(t, h.index) + [(t, Fill)], y) && Inv(y)
    ensures y == To(x.(pools := With(x.pools, h, Filled(At(x.pools, h), op, x.pools[h.pool].parameterSize), x.pools[h.pool].available - 1)),
                    t, Prepared(h, op, first))
  {
    FillPoint(x, t, h, op);
    var x1 := TakeFinds(x, t, op, first, h);
    y := Next(x1, t, Fill);
    LeadsInv(x, TakeSteps(t, h.index), x1);
    StepInv(x1, t, Fill);
    OneStep(x1, t, Fill);
    LeadsOn(x, TakeSteps(t, h.index), x1, [(t, Fill)], y);
    assert y.pcs == x.pcs[t := Prepared(h, op, first)];
  }

  /** Taking and filling in two steps writes the element the push is specified by. */
  lemma FillPoint(x: Sys, t: nat, h: Handle, op: Operation)
    requires Inv(x) && t < |x.pcs| && x.pcs[t].Passed? && x.pcs[t].op == op && ValidIndex(x.pools, op) && WellFormed(op)
    requires x.pools[op.opIndex].available != 0 && FirstFree(x.pools[op.opIndex].elements, 0) == Some(h.index) && h.pool == op.opIndex
    ensures Taken(StateOf(x), op) == Some(h) && PoolShape(x.pools[h.pool])
    ensures var x1 := To(x.(pools := With(x.pools, h, At(x.pools, h).(used := true), Decrement(x.pools[h.pool].available))), t,
                         Owning(h, op, x.pcs[t].first));
            && Enabled(x1, t, Fill)
            && Next(x1, t, Fill).pools == With(x.pools, h, Filled(At(x.pools, h), op, x.pools[h.pool].parameterSize), x.pools[h.pool].available - 1)
  {
    assert PoolOk(x.pools[h.pool], Freeing(x.pcs, h.pool));
    assert x.pools[h.pool].available < 0x1_0000_0000;
    var e := At(x.pools, h).(used := true);
    var x1 := To(x.(pools := With(x.pools, h, e, Decrement(x.pools[h.pool].available))), t, Owning(h, op, x.pcs[t].first));
    assert x1.pools[h.pool].elements[h.index := Filled(e, op, x.pools[h.pool].parameterSize)]
        == x.pools[h.pool].elements[h.index := Filled(e, op, x.pools[h.pool].parameterSize)];
  }

  /** A pop that nobody disturbs. */
  lemma PopAlone(x: Sys, t: nat) returns (steps: seq<(nat, Action)>, y: Sys)
    requires Inv(x) && t < |x.pcs| && x.pcs[t] == Outside && x.owner == None
    ensures Leads(x, steps, y) && OnlyBy(steps, t) && y.pcs == x.pcs && y.owner == None
    ensures Shape(StateOf(x)) && StateOf(y) == QueueState.Pop(StateOf(x)).0
    ensures y.held == x.held + (if x.queue == [] then {} else {x.queue[0]})
  {
    InvShape(x);
    OneStep(x, t, Action.Pop);
    var x1 := Next(x, t, Action.Pop);
    steps, y := [(t, Action.Pop)], x1;
    if x.queue != [] {
      var x2 := Next(x1, t, Discount);
      OneStep(x1, t, Discount);
      LeadsOn(x, steps, x1, [(t, Discount)], x2);
      steps, y := steps + [(t, Discount)], x2;
      assert y.pcs == x.pcs;
    }
  }

  /** A release that nobody disturbs. */
  lemma ReleaseAlone(x: Sys, t: nat, h: Handle) returns (steps: seq<(nat, Action)>, y: Sys)
    requires Inv(x) && t < |x.pcs| && x.pcs[t] == Outside && h in x.held && InPools(h, x.pools) && !Locked(x.pcs, h.pool)
    ensures Leads(x, steps, y) && OnlyBy(steps, t) && y.pcs == x.pcs && y.queue == x.queue
    ensures y.pools == With(x.pools, h, At(x.pools, h).(used := false), Increment(x.pools[h.pool].available))
  {
    OneStep(x, t, Free(h));
    var x1 := Next(x, t, Free(h));
    Unlocked(x.pcs, t, Freed(h.pool), h.pool);
    assert x1.pcs == x.pcs[t := Freed(h.pool)];
    OneStep(x1, t, Credit);
    y := Next(x1, t, Credit);
    LeadsOn(x, [(t, Free(h))], x1, [(t, Credit)], y);
    steps := [(t, Free(h))] + [(t, Credit)];
    assert y.pcs == x.pcs;
  }

  // ----- a cleaning -----

  ghost predicate Quiet(x: Sys, t: nat) {
    forall u :: 0 <= u < |x.pcs| && u != t ==> x.pcs[u] == Outside
  }

  lemma {:induction false} NoneFreeing(pcs: seq<Pc>, p: nat)
    requires forall u :: 0 <= u < |pcs| ==> !Frees(pcs[u], p)
    ensures Freeing(pcs, p) == 0
  {
    if pcs != [] { NoneFreeing(pcs[1..], p); }
  }

  lemma {:induction false} OneUsed(elements: seq<Element>, i: nat)
    requires i < |elements| && elements[i].used
    ensures FreeOf(elements) < |elements|
  {
    SomeFree(elements[1..]);
    if i > 0 { OneUsed(elements[1..], i - 1); }
  }

  /** With no release in progress the pool has room for one more in its count. */
  lemma NoWrap(x: Sys, t: nat, h: Handle)
    requires Inv(x) && Quiet(x, t) && t < |x.pcs| && x.pcs[t].Judging? && x.pcs[t].h == h
    ensures InPools(h, x.pools) && Increment(x.pools[h.pool].available) == x.pools[h.pool].available + 1
  {
    assert PcOk(x.pools, x.pcs[t]);
    assert PoolOk(x.pools[h.pool], Freeing(x.pcs, h.pool));
    NoneFreeing(x.pcs, h.pool);
    assert h in Hands(x.pcs);
    OneUsed(x.pools[h.pool].elements, h.index);
  }

  /** The three steps that drop an element are its release. */
  lemma DropAlone(x: Sys, t: nat) returns (y: Sys)
    requires Inv(x) && Quiet(x, t) && t < |x.pcs| && x.pcs[t].Judging? && InPools(x.pcs[t].h, x.pools)
    requires !Keeps(x.sweep.started, At(x.pools, x.pcs[t].h), x.sweep.st)
    ensures Leads(x, DropSteps(t), y) && y == To(x.(pools := Release(x.pools, x.pcs[t].h)), t, Sweeping) && Inv(y)
  {
    hide Inv, Enabled, Next, Leads;
    var h := x.pcs[t].h;
    NoWrap(x, t, h);
    y := DropPath(x, t);
    CreditedUnused(x, y, h);
  }

  lemma CreditedUnused(x: Sys, y: Sys, h: Handle)
    requires InPools(h, x.pools) && Increment(x.pools[h.pool].available) == x.pools[h.pool].available + 1
    requires y.pools == Credited(x.(pools := Unused(x.pools, h)), h.pool)
    ensures y.pools == Release(x.pools, h)
  {
  }

  /** The loop stands where progress `p` says, with `q` still to be popped. */
  ghost predicate LoopAt(x: Sys, t: nat, p: Progress, q: seq<Handle>, st: ModuleState) {
    && Inv(x) && Quiet(x, t) && t < |x.pcs| && x.pcs[t] == Sweeping && x.owner == Some(t)
    && x.queue == q + p.kept && x.pools == p.pools && x.activating == p.activating <= |p.kept|
    && x.sweep == Sweep(st, |q|, p.started) && Readable(p.pools, q)
  }

  lemma PassAlone(x: Sys, t: nat, p: Progress, q: seq<Handle>, st: ModuleState) returns (steps: seq<(nat, Action)>, y: Sys)
    requires LoopAt(x, t, p, q, st) && q != []
    ensures Leads(x, steps, y) && OnlyBy(steps, t) && y.pcs == x.pcs && y.size == x.size
    ensures InPools(q[0], p.pools) && IdReadable(At(p.pools, q[0])) && LoopAt(y, t, CleanStep(p, q[0], st), q[1..], st)
  {
    hide Inv, Leads, Enabled, Next, Keeps, IdReadable, Release, Increment;
    LoopParts(x, t, p, q, st);
    SameReadableAfter(p, q, st);
    var x1 := PopOne(x, t);
    assert x1.queue == q[1..] + p.kept;
    if Keeps(p.started, At(p.pools, q[0]), st) {
      y := KeptAlone(x1, t);
      LeadsOn(x, [(t, SweepPop)], x1, [(t, Judge)], y);
      steps := [(t, SweepPop)] + [(t, Judge)];
      assert x1.queue + [q[0]] == q[1..] + (p.kept + [q[0]]);
    } else {
      y := DropAlone(x1, t);
      LeadsOn(x, [(t, SweepPop)], x1, DropSteps(t), y);
      steps := [(t, SweepPop)] + DropSteps(t);
    }
    assert y.pcs == x.pcs;
    PassIs(p, q[0], st);
  }

  lemma LoopParts(x: Sys, t: nat, p: Progress, q: seq<Handle>, st: ModuleState)
    requires LoopAt(x, t, p, q, st) && q != []
    ensures x.queue != [] && x.queue[0] == q[0] && |x.queue| <= x.size < 0x1_0000_0000 && |p.kept| < |x.queue|
  {
  }

  /** One pass of the loop, case by case. */
  lemma PassIs(p: Progress, h: Handle, st: ModuleState)
    requires InPools(h, p.pools) && IdReadable(At(p.pools, h))
    ensures var (n, e) := (CleanStep(p, h, st), At(p.pools, h));
            && n.started == (p.started || (Keeps(p.started, e, st) && IsStart(e, st)))
            && n.kept == (if Keeps(p.started, e, st) then p.kept + [h] else p.kept)
            && n.activating == (if Keeps(p.started, e, st) && Counts(e, st) then p.activating + 1 else p.activating)
            && n.pools == (if Keeps(p.started, e, st) then p.pools else Release(p.pools, h))
  {
  }

  /** An element kept goes to the back; the ring has the place it left. */
  lemma KeptAlone(x: Sys, t: nat) returns (y: Sys)
    requires Inv(x) && t < |x.pcs| && x.pcs[t].Judging? && InPools(x.pcs[t].h, x.pools) && |x.queue| < x.size
    requires Keeps(x.sweep.started, At(x.pools, x.pcs[t].h), x.sweep.st) && x.activating < 0xFFFF_FFFF
    ensures Leads(x, [(t, Judge)], y) && Inv(y) && y.pcs == x.pcs[t := Sweeping] && y.queue == x.queue + [x.pcs[t].h]
    ensures y.pools == x.pools && y.owner == x.owner && y.size == x.size && y.sweep.left == x.sweep.left && y.sweep.st == x.sweep.st
    ensures var e := At(x.pools, x.pcs[t].h);
            && y.activating == (if Counts(e, x.sweep.st) then x.activating + 1 else x.activating)
            && y.sweep.started == (x.sweep.started || IsStart(e, x.sweep.st))
  {
    y := Next(x, t, Judge);
    OneStep(x, t, Judge);
    StepInv(x, t, Judge);
  }

  lemma SameReadableAfter(p: Progress, q: seq<Handle>, st: ModuleState)
    requires Readable(p.pools, q) && q != []
    ensures InPools(q[0], p.pools) && IdReadable(At(p.pools, q[0])) && Readable(CleanStep(p, q[0], st).pools, q[1..])
  {
    SameItself(p.pools);
    StepEffect(p.pools, p, q, st);
  }

  lemma {:induction false} LoopAlone(x: Sys, t: nat, p: Progress, q: seq<Handle>, st: ModuleState) returns (steps: seq<(nat, Action)>, y: Sys)
    requires LoopAt(x, t, p, q, st)
    ensures Leads(x, steps, y) && OnlyBy(steps, t) && y.pcs == x.pcs && y.size == x.size && Inv(y)
    ensures LoopAt(y, t, CleanFrom(p, q, st), [], st)
    decreases |q|
  {
    if q == [] {
      steps, y := [], x;
    } else {
      var a, x1 := PassAlone(x, t, p, q, st);
      var b, z := LoopAlone(x1, t, CleanStep(p, q[0], st), q[1..], st);
      LeadsOn(x, a, x1, b, z);
      steps, y := a + b, z;
    }
  }

  /** A cleaning that nobody disturbs is the function ldp_fifo_manager_clean is specified by. */
  lemma CleanAlone(x: Sys, t: nat, st: ModuleState, received: seq<Received>) returns (steps: seq<(nat, Action)>, y: Sys)
    requires Inv(x) && Quiet(x, t) && t < |x.pcs| && x.pcs[t] == Outside && x.owner == None
    ensures Leads(x, steps, y) && OnlyBy(steps, t) && y.pcs == x.pcs && y.owner == None
    ensures Readable(x.pools, x.queue) && StateOf(y) == QueueState.Clean(StateOf(x), received, st).0
  {
    InvShape(x);
    forall k | 0 <= k < |x.queue| ensures InPools(x.queue[k], x.pools) && IdReadable(At(x.pools, x.queue[k])) {
      assert x.queue[k] in x.queue;
    }
    var start := Progress([], false, 0, x.pools, received);
    var x1 := StartCleaning(x, t, st);
    assert x1.queue == x.queue + start.kept;
    var b, x2 := LoopAlone(x1, t, start, x.queue, st);
    y := EndCleaning(x2, t);
    LeadsOn(x, [(t, Action.Clean(st))], x1, b, x2);
    LeadsOn(x, [(t, Action.Clean(st))] + b, x2, [(t, SweepEnd)], y);
    steps := [(t, Action.Clean(st))] + b + [(t, SweepEnd)];
    var r := CleanFrom(start, x.queue, st);
    assert [] + r.kept == r.kept;
    assert y.pcs == x.pcs;
  }
}
