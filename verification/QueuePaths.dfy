/**
 Paths of single calls at a module queue: whole pushes, and the passes of a cleaning, as
 sequences of steps from one state to another.

 Each lemma says which steps a call takes when no other thread moves in between, and what
 they make of the queue, the pools and the threads. QueueAlone.dfy puts such paths together
 to whole calls and compares them with the methods of ModuleQueue.dfy; QueueRaces.dfy puts
 the paths of different threads together to runs in which the calls get in each other's way.
 */
module QueuePaths {
  import opened Common
  import opened QueueState
  import opened QueueTheorems
  import opened QueueSteps
  import opened QueueRuns

  // ----- building runs -----

  /** `steps` lead from `x` to `y`. */
  ghost predicate Leads(x: Sys, steps: seq<(nat, Action)>, y: Sys)
    decreases |steps|
  {
    if steps == [] then y == x
    else Enabled(x, steps[0].0, steps[0].1) && Leads(Next(x, steps[0].0, steps[0].1), steps[1..], y)
  }

  lemma {:induction false} LeadsOn(x: Sys, a: seq<(nat, Action)>, y: Sys, b: seq<(nat, Action)>, z: Sys)
    requires Leads(x, a, y) && Leads(y, b, z)
    ensures Leads(x, a + b, z)
    decreases |a|
  {
    hide Enabled, Next;
    if a == [] {
      assert a + b == b;
    } else {
      assert (a + b)[1..] == a[1..] + b;
      LeadsOn(Next(x, a[0].0, a[0].1), a[1..], y, b, z);
    }
  }

  lemma {:induction false} LeadsInv(x: Sys, steps: seq<(nat, Action)>, y: Sys)
    requires Inv(x) && Leads(x, steps, y)
    ensures Inv(y)
    decreases |steps|
  {
    if steps != [] {
      StepInv(x, steps[0].0, steps[0].1);
      LeadsInv(Next(x, steps[0].0, steps[0].1), steps[1..], y);
    }
  }

  lemma {:induction false} Trace(x: Sys, steps: seq<(nat, Action)>, y: Sys) returns (tr: seq<Sys>)
    requires Leads(x, steps, y)
    ensures |tr| == |steps| + 1 && tr[0] == x && tr[|steps|] == y
    ensures forall i :: 0 <= i < |steps| ==> Moves(tr[i], steps[i].0, steps[i].1, tr[i + 1])
    decreases |steps|
  {
    if steps == [] {
      tr := [x];
    } else {
      var rest := Trace(Next(x, steps[0].0, steps[0].1), steps[1..], y);
      tr := [x] + rest;
      forall i | 0 <= i < |steps| ensures Moves(tr[i], steps[i].0, steps[i].1, tr[i + 1]) {
        if i > 0 { assert Moves(rest[i - 1], steps[1..][i - 1].0, steps[1..][i - 1].1, rest[i]); }
      }
    }
  }

  lemma OneStep(x: Sys, t: nat, a: Action)
    requires Enabled(x, t, a)
    ensures Leads(x, [(t, a)], Next(x, t, a))
  {
    assert [(t, a)][1..] == [];
    assert Leads(Next(x, t, a), [], Next(x, t, a));
  }

  lemma SamePushable(x: Sys, y: Sys, op: Operation)
    requires Pushable(x.pools, op) && ValidIndex(x.pools, op) && |y.pools| == |x.pools|
    requires forall p :: 0 <= p < |x.pools| ==> y.pools[p].parameterSize == x.pools[p].parameterSize
    ensures Pushable(y.pools, op) && ValidIndex(y.pools, op)
  {
  }

  lemma {:induction false} LeadsShape(x: Sys, steps: seq<(nat, Action)>, y: Sys)
    requires Leads(x, steps, y)
    ensures |y.pools| == |x.pools| && |y.pcs| == |x.pcs|
    ensures forall p :: 0 <= p < |x.pools| ==>
              y.pools[p].parameterSize == x.pools[p].parameterSize && |y.pools[p].elements| == |x.pools[p].elements|
    decreases |steps|
  {
    if steps != [] { LeadsShape(Next(x, steps[0].0, steps[0].1), steps[1..], y); }
  }

  // ----- the search for a free element -----

  function ScanSteps(t: nat, n: nat): seq<(nat, Action)> {
    if n == 0 then [] else [(t, Scan)] + ScanSteps(t, n - 1)
  }

  /** A search goes on from element `i` to the first free one, `h`. */
  lemma {:induction false} ScanFinds(x: Sys, t: nat, op: Operation, first: bool, i: nat, h: Handle) returns (y: Sys)
    requires t < |x.pcs| && x.pcs[t] == Scanning(op, first, i) && ValidIndex(x.pools, op) && h.pool == op.opIndex
    requires i <= |x.pools[op.opIndex].elements| && FirstFree(x.pools[op.opIndex].elements, i) == Some(h.index)
    ensures InPools(h, x.pools) && i <= h.index && Leads(x, ScanSteps(t, h.index - i + 1), y)
    ensures y == To(x.(pools := With(x.pools, h, At(x.pools, h).(used := true), Decrement(x.pools[h.pool].available))), t, Owning(h, op, first))
    decreases |x.pools[op.opIndex].elements| - i
  {
    var x1 := Next(x, t, Scan);
    OneStep(x, t, Scan);
    if i == h.index {
      y := x1;
      assert ScanSteps(t, 1) == [(t, Scan)] + ScanSteps(t, 0) == [(t, Scan)];
    } else {
      y := ScanFinds(x1, t, op, first, i + 1, h);
      LeadsOn(x, [(t, Scan)], x1, ScanSteps(t, h.index - i), y);
      assert y.pcs == x.pcs[t := Owning(h, op, first)];
    }
  }

  lemma {:induction false} ScanFindsNone(x: Sys, t: nat, op: Operation, first: bool, i: nat)
    requires t < |x.pcs| && x.pcs[t] == Scanning(op, first, i) && ValidIndex(x.pools, op)
    requires i <= |x.pools[op.opIndex].elements| && FirstFree(x.pools[op.opIndex].elements, i).None?
    ensures Leads(x, ScanSteps(t, |x.pools[op.opIndex].elements| - i + 1), To(x, t, Outside))
    decreases |x.pools[op.opIndex].elements| - i
  {
    var x1 := Next(x, t, Scan);
    OneStep(x, t, Scan);
    var n := |x.pools[op.opIndex].elements|;
    if i == n {
      assert ScanSteps(t, 1) == [(t, Scan)] + ScanSteps(t, 0) == [(t, Scan)];
    } else {
      ScanFindsNone(x1, t, op, first, i + 1);
      LeadsOn(x, [(t, Scan)], x1, ScanSteps(t, n - i), To(x1, t, Outside));
      assert To(x1, t, Outside).pcs == x.pcs[t := Outside];
    }
  }

  function TakeSteps(t: nat, n: nat): seq<(nat, Action)> {
    [(t, Take)] + ScanSteps(t, n + 1)
  }

  /** ldp_element_pool_get, once past its test. */
  lemma TakeFinds(x: Sys, t: nat, op: Operation, first: bool, h: Handle) returns (y: Sys)
    requires t < |x.pcs| && x.pcs[t] == Passed(op, first) && ValidIndex(x.pools, op) && !Locked(x.pcs, op.opIndex)
    requires h.pool == op.opIndex && FirstFree(x.pools[op.opIndex].elements, 0) == Some(h.index)
    ensures InPools(h, x.pools) && Leads(x, TakeSteps(t, h.index), y)
    ensures y == To(x.(pools := With(x.pools, h, At(x.pools, h).(used := true), Decrement(x.pools[h.pool].available))), t, Owning(h, op, first))
  {
    OneStep(x, t, Take);
    var x1 := Next(x, t, Take);
    y := ScanFinds(x1, t, op, first, 0, h);
    LeadsOn(x, [(t, Take)], x1, ScanSteps(t, h.index + 1), y);
    assert y.pcs == x.pcs[t := Owning(h, op, first)];
  }

  lemma TakeFindsNone(x: Sys, t: nat, op: Operation, first: bool)
    requires t < |x.pcs| && x.pcs[t] == Passed(op, first) && ValidIndex(x.pools, op) && !Locked(x.pcs, op.opIndex)
    requires FirstFree(x.pools[op.opIndex].elements, 0).None?
    ensures Leads(x, TakeSteps(t, |x.pools[op.opIndex].elements|), To(x, t, Outside))
  {
    OneStep(x, t, Take);
    var x1 := Next(x, t, Take);
    ScanFindsNone(x1, t, op, first, 0);
    LeadsOn(x, [(t, Take)], x1, ScanSteps(t, |x.pools[op.opIndex].elements| + 1), To(x1, t, Outside));
    assert To(x1, t, Outside).pcs == x.pcs[t := Outside];
  }

  // ----- a push that nobody disturbs until its element is queued -----

  /** Nobody holds the mutex of a pool. */
  ghost predicate NoSearch(pcs: seq<Pc>) {
    forall u :: 0 <= u < |pcs| ==> !pcs[u].Scanning?
  }

  /** Free elements of pool `p` that the available count shows. */
  ghost function Spare(x: Sys, p: nat): int
    requires p < |x.pools|
  {
    FreeOf(x.pools[p].elements) - Freeing(x.pcs, p)
  }

  /** An element of pool `p` has been taken. */
  ghost predicate SpareLess(x: Sys, y: Sys, p: nat) {
    |y.pools| == |x.pools| && forall q: nat :: q < |x.pools| ==> Spare(y, q) == Spare(x, q) - if q == p then 1 else 0
  }

  ghost predicate SpareSame(x: Sys, y: Sys) {
    |y.pools| == |x.pools| && forall q: nat :: q < |x.pools| ==> Spare(y, q) == Spare(x, q)
  }

  lemma ThreadMoves(x: Sys, y: Sys, t: nat)
    requires t < |x.pcs| && |y.pcs| == |x.pcs| && y.pcs == x.pcs[t := y.pcs[t]] && y.pools == x.pools
    requires forall q :: !Frees(x.pcs[t], q) && !Frees(y.pcs[t], q)
    ensures SpareSame(x, y)
  {
    forall q: nat | q < |x.pools| ensures Spare(y, q) == Spare(x, q) { FreeingUpdate(x.pcs, t, y.pcs[t], q); }
  }

  /** What a push of thread `t` makes of `x` once it has queued element `h` for `op`. */
  ghost predicate QueuedBy(x: Sys, t: nat, op: Operation, h: Handle, y: Sys) {
    && t < |x.pcs| && InPools(h, x.pools) && !At(x.pools, h).used && h.pool == op.opIndex
    && Changes(x.pools, y.pools, {h}) && InPools(h, y.pools)
    && At(y.pools, h).opId == op.opId && At(y.pools, h).opType == op.opType && At(y.pools, h).activating == op.activating
    && y.queue == x.queue + [h] && y.pcs == x.pcs[t := AfterEntry(op)] && y.size == x.size && y.owner == x.owner
    && y.activating == x.activating && y.sweep == x.sweep && y.held == x.held && y.stranded == x.stranded
    && SpareLess(x, y, h.pool)
  }

  function PushSteps(t: nat, op: Operation, h: Handle): seq<(nat, Action)> {
    [(t, Try(op, false))] + (TakeSteps(t, h.index) + [(t, Fill)]) + [(t, Enter)]
  }

  lemma TryPasses(x: Sys, t: nat, op: Operation)
    requires Inv(x) && t < |x.pcs| && x.pcs[t] == Outside && Pushable(x.pools, op) && ValidIndex(x.pools, op)
    requires Spare(x, op.opIndex as nat) > 0
    ensures Enabled(x, t, Try(op, false)) && Next(x, t, Try(op, false)) == To(x, t, Passed(op, false))
    ensures SpareSame(x, To(x, t, Passed(op, false)))
    ensures FirstFree(x.pools[op.opIndex].elements, 0).Some?
  {
    var p := op.opIndex as nat;
    assert PoolOk(x.pools[p], Freeing(x.pcs, p));
    SomeFree(x.pools[p].elements);
    Mod32Zero(Spare(x, p));
    ThreadMoves(x, To(x, t, Passed(op, false)), t);
  }

  lemma TakeTakes(x: Sys, t: nat, op: Operation) returns (h: Handle, y: Sys)
    requires Inv(x) && t < |x.pcs| && x.pcs[t] == Passed(op, false) && ValidIndex(x.pools, op) && NoSearch(x.pcs)
    requires FirstFree(x.pools[op.opIndex].elements, 0).Some?
    ensures Leads(x, TakeSteps(t, h.index), y) && Inv(y)
    ensures InPools(h, x.pools) && !At(x.pools, h).used && h.pool == op.opIndex && Changes(x.pools, y.pools, {h}) && InPools(h, y.pools)
    ensures At(y.pools, h).used && |At(y.pools, h).parameters| == y.pools[h.pool].parameterSize
    ensures y == To(x.(pools := y.pools), t, Owning(h, op, false)) && SpareLess(x, y, h.pool)
  {
    h := Handle(op.opIndex as nat, FirstFree(x.pools[op.opIndex].elements, 0).value);
    y := TakeFinds(x, t, op, false, h);
    var e := At(x.pools, h).(used := true);
    LeadsInv(x, TakeSteps(t, h.index), y);
    assert PoolOk(x.pools[h.pool], Freeing(x.pcs, h.pool));
    WithAt(x.pools, h, e, Decrement(x.pools[h.pool].available));
    FreeUpdate(x.pools[h.pool].elements, h.index, e);
    forall q: nat | q < |x.pools| ensures Spare(y, q) == Spare(x, q) - if q == h.pool then 1 else 0 {
      FreeingUpdate(x.pcs, t, Owning(h, op, false), q);
    }
  }

  lemma FillFills(x: Sys, t: nat, op: Operation, h: Handle) returns (y: Sys)
    requires Inv(x) && t < |x.pcs| && x.pcs[t] == Owning(h, op, false) && InPools(h, x.pools) && WellFormed(op)
    requires At(x.pools, h).used && |At(x.pools, h).parameters| == x.pools[h.pool].parameterSize
    ensures Enabled(x, t, Fill) && y == Next(x, t, Fill) && Changes(x.pools, y.pools, {h}) && InPools(h, y.pools)
    ensures At(y.pools, h).opId == op.opId && At(y.pools, h).opType == op.opType && At(y.pools, h).activating == op.activating
    ensures y == To(x.(pools := y.pools), t, Prepared(h, op, false)) && SpareSame(x, y)
  {
    y := Next(x, t, Fill);
    var e := Filled(At(x.pools, h), op, x.pools[h.pool].parameterSize);
    WithAt(x.pools, h, e, x.pools[h.pool].available);
    FreeUpdate(x.pools[h.pool].elements, h.index, e);
    forall q: nat | q < |x.pools| ensures Spare(y, q) == Spare(x, q) { FreeingUpdate(x.pcs, t, Prepared(h, op, false), q); }
  }

  lemma ChangesTwice(a: seq<Pool>, b: seq<Pool>, c: seq<Pool>, h: Handle)
    requires Changes(a, b, {h}) && Changes(b, c, {h})
    ensures Changes(a, c, {h})
  {
    forall g | InPools(g, a) && g != h ensures At(c, g) == At(a, g) {
      assert At(b, g) == At(a, g);
    }
  }

  /** The element a push takes and fills. */
  lemma TakeFills(x: Sys, t: nat, op: Operation) returns (h: Handle, y: Sys)
    requires Inv(x) && t < |x.pcs| && x.pcs[t] == Passed(op, false) && NoSearch(x.pcs)
    requires Pushable(x.pools, op) && ValidIndex(x.pools, op) && FirstFree(x.pools[op.opIndex].elements, 0).Some?
    ensures Leads(x, TakeSteps(t, h.index) + [(t, Fill)], y) && y.pcs == x.pcs[t := Prepared(h, op, false)]
    ensures y == x.(pcs := y.pcs, pools := y.pools)
    ensures InPools(h, x.pools) && !At(x.pools, h).used && h.pool == op.opIndex && Changes(x.pools, y.pools, {h}) && InPools(h, y.pools)
    ensures At(y.pools, h).opId == op.opId && At(y.pools, h).opType == op.opType && At(y.pools, h).activating == op.activating
    ensures SpareLess(x, y, h.pool)
  {
    hide Inv, Enabled, Next, Changes, Spare, FirstFree, Leads, NoSearch, TakeSteps;
    var y1; h, y1 := TakeTakes(x, t, op);
    y := FillFills(y1, t, op, h);
    ChangesTwice(x.pools, y1.pools, y.pools, h);
    OneStep(y1, t, Fill);
    LeadsOn(x, TakeSteps(t, h.index), y1, [(t, Fill)], y);
  }

  /** A push up to the moment its element is in the ring. */
  lemma Queue(x: Sys, t: nat, op: Operation) returns (y: Sys, h: Handle)
    requires Inv(x) && t < |x.pcs| && x.pcs[t] == Outside && NoSearch(x.pcs) && Pushable(x.pools, op) && ValidIndex(x.pools, op)
    requires Spare(x, op.opIndex as nat) > 0 && |x.queue| < x.size
    ensures Leads(x, PushSteps(t, op, h), y) && QueuedBy(x, t, op, h, y) && Inv(y) && NoSearch(y.pcs)
  {
    hide Inv, Enabled, Next, Changes, Leads, Spare, TakeSteps, Pushable;
    TryPasses(x, t, op);
    var x1 := To(x, t, Passed(op, false));
    StepInv(x, t, Try(op, false));
    var x2;
    h, x2 := TakeFills(x1, t, op);
    EnterLands(x2, t, h, op);
    y := Next(x2, t, Enter);
    assert y.pcs == x.pcs[t := AfterEntry(op)];
    ThreadMoves(x2, y, t);
    OneStep(x, t, Try(op, false));
    OneStep(x2, t, Enter);
    LeadsOn(x, [(t, Try(op, false))], x1, TakeSteps(t, h.index) + [(t, Fill)], x2);
    LeadsOn(x, [(t, Try(op, false))] + (TakeSteps(t, h.index) + [(t, Fill)]), x2, [(t, Enter)], y);
    LeadsInv(x, PushSteps(t, op, h), y);
  }

  lemma EnterLands(x: Sys, t: nat, h: Handle, op: Operation)
    requires t < |x.pcs| && x.pcs[t] == Prepared(h, op, false) && InPools(h, x.pools) && |x.queue| < x.size
    ensures Enabled(x, t, Enter) && Next(x, t, Enter) == To(Landed(x, h, false), t, AfterEntry(op))
  {
  }

  // ----- passes of a cleaning that nobody disturbs -----

  lemma FreshSpare(x: Sys, p: nat)
    requires Initial(x) && p < |x.pools|
    ensures Inv(x) && Spare(x, p) == |x.pools[p].elements|
  {
    InitialInv(x);
    assert FreshPool(x.pools[p]);
    AllFree(x.pools[p].elements);
    NobodyFreeing(x.pcs, p);
  }

  lemma StartCleaning(x: Sys, t: nat, st: ModuleState) returns (y: Sys)
    requires Inv(x) && t < |x.pcs| && x.pcs[t] == Outside && x.owner == None
    ensures Leads(x, [(t, Clean(st))], y) && Inv(y)
    ensures y.queue == x.queue && y.pools == x.pools && y.pcs == x.pcs[t := Sweeping] && y.owner == Some(t) && y.size == x.size
    ensures y.activating == 0 && y.sweep == Sweep(st, |x.queue|, false) && y.held == x.held && y.stranded == x.stranded
  {
    InvQueued(x);
    y := Next(x, t, Clean(st));
    assert [(t, Clean(st))][1..] == [];
    assert Leads(y, [], y);
    StepInv(x, t, Clean(st));
  }

  lemma PopOne(x: Sys, t: nat) returns (y: Sys)
    requires Inv(x) && t < |x.pcs| && x.pcs[t] == Sweeping && x.sweep.left > 0 && x.queue != []
    ensures Leads(x, [(t, SweepPop)], y) && Inv(y)
    ensures y.queue == x.queue[1..] && y.pools == x.pools && y.pcs == x.pcs[t := Judging(x.queue[0])] && y.owner == x.owner
    ensures y.size == x.size && y.activating == x.activating && y.sweep == x.sweep.(left := x.sweep.left - 1)
    ensures y.held == x.held && y.stranded == x.stranded
  {
    InvQueued(x);
    y := Next(x, t, SweepPop);
    assert [(t, SweepPop)][1..] == [];
    assert Leads(y, [], y);
    StepInv(x, t, SweepPop);
  }

  /** The element in hand is one that the cleaning always keeps, and does not start the module. */
  ghost predicate Stays(x: Sys, h: Handle) {
    && InPools(h, x.pools) && !IsStart(At(x.pools, h), x.sweep.st) && Allowed(false, At(x.pools, h), x.sweep.st)
  }

  lemma KeepOne(x: Sys, t: nat) returns (y: Sys)
    requires Inv(x) && t < |x.pcs| && x.pcs[t].Judging? && Stays(x, x.pcs[t].h)
    ensures Leads(x, [(t, Judge)], y) && Inv(y)
    ensures var h := x.pcs[t].h;
            && y.pools == x.pools && y.pcs == x.pcs[t := Sweeping] && y.owner == x.owner && y.size == x.size
            && y.activating == (if At(x.pools, h).activating then Increment(x.activating) else x.activating)
            && y.sweep == x.sweep && y.held == x.held
            && y.queue == (if Full(x) then x.queue else x.queue + [h])
            && y.stranded == (if Full(x) then x.stranded + {h} else x.stranded)
  {
    y := Next(x, t, Judge);
    assert [(t, Judge)][1..] == [];
    assert Leads(y, [], y);
    StepInv(x, t, Judge);
  }

  function DropSteps(t: nat): seq<(nat, Action)> {
    [(t, Judge), (t, Drop), (t, SweepCredit)]
  }

  lemma JudgeDrops(x: Sys, t: nat)
    requires t < |x.pcs| && x.pcs[t].Judging? && InPools(x.pcs[t].h, x.pools)
    requires !Keeps(x.sweep.started, At(x.pools, x.pcs[t].h), x.sweep.st)
    ensures Enabled(x, t, Judge) && Next(x, t, Judge) == To(x, t, Dropping(x.pcs[t].h))
  {
  }

  lemma DropFrees(x: Sys, t: nat)
    requires t < |x.pcs| && x.pcs[t].Dropping? && InPools(x.pcs[t].h, x.pools)
    ensures Enabled(x, t, Drop)
    ensures Next(x, t, Drop) == To(x.(pools := Unused(x.pools, x.pcs[t].h)), t, SweepFreed(x.pcs[t].h.pool))
  {
  }

  lemma CreditSweeps(x: Sys, t: nat)
    requires t < |x.pcs| && x.pcs[t].SweepFreed? && x.pcs[t].pool < |x.pools| && !Locked(x.pcs, x.pcs[t].pool)
    ensures Enabled(x, t, SweepCredit) && Next(x, t, SweepCredit) == To(x.(pools := Credited(x, x.pcs[t].pool)), t, Sweeping)
  {
  }

  lemma Unlocked(pcs: seq<Pc>, t: nat, c: Pc, p: nat)
    requires t < |pcs| && !Locked(pcs, p) && !c.Scanning?
    ensures !Locked(pcs[t := c], p)
  {
    var after := pcs[t := c];
    forall u | 0 <= u < |after| ensures !(after[u].Scanning? && after[u].op.opIndex == p) {
      if u != t { assert after[u] == pcs[u]; }
    }
  }

  /** The three steps that drop an element. */
  lemma DropPath(x: Sys, t: nat) returns (y: Sys)
    requires Inv(x) && t < |x.pcs| && x.pcs[t].Judging? && InPools(x.pcs[t].h, x.pools)
    requires !Keeps(x.sweep.started, At(x.pools, x.pcs[t].h), x.sweep.st) && !Locked(x.pcs, x.pcs[t].h.pool)
    ensures Leads(x, DropSteps(t), y) && Inv(y)
    ensures y == x.(pools := Credited(x.(pools := Unused(x.pools, x.pcs[t].h)), x.pcs[t].h.pool), pcs := x.pcs[t := Sweeping])
  {
    hide Inv, Enabled, Next, Keeps, Leads, Unused, Credited;
    var h := x.pcs[t].h;
    JudgeDrops(x, t);
    var y1 := To(x, t, Dropping(h));
    DropFrees(y1, t);
    UnusedShape(x.pools, h);
    var y2 := To(y1.(pools := Unused(x.pools, h)), t, SweepFreed(h.pool));
    Unlocked(x.pcs, t, y2.pcs[t], h.pool);
    assert y2.pcs == x.pcs[t := SweepFreed(h.pool)];
    CreditSweeps(y2, t);
    y := To(y2.(pools := Credited(y2, h.pool)), t, Sweeping);
    OneStep(x, t, Judge);
    OneStep(y1, t, Drop);
    OneStep(y2, t, SweepCredit);
    LeadsOn(x, [(t, Judge)], y1, [(t, Drop)], y2);
    LeadsOn(x, [(t, Judge)] + [(t, Drop)], y2, [(t, SweepCredit)], y);
    assert [(t, Judge)] + [(t, Drop)] + [(t, SweepCredit)] == DropSteps(t);
    assert y.pcs == x.pcs[t := Sweeping];
    SameCredit(y2, x.(pools := Unused(x.pools, h)), h.pool);
    LeadsInv(x, DropSteps(t), y);
  }

  lemma UnusedShape(pools: seq<Pool>, h: Handle)
    requires InPools(h, pools)
    ensures |Unused(pools, h)| == |pools|
  {
  }

  lemma SameCredit(a: Sys, b: Sys, p: nat)
    requires a.pools == b.pools && p < |a.pools|
    ensures Credited(a, p) == Credited(b, p)
  {
  }

  lemma DropOne(x: Sys, t: nat) returns (y: Sys)
    requires Inv(x) && t < |x.pcs| && x.pcs[t].Judging? && InPools(x.pcs[t].h, x.pools)
    requires !Keeps(x.sweep.started, At(x.pools, x.pcs[t].h), x.sweep.st) && !Locked(x.pcs, x.pcs[t].h.pool)
    ensures Leads(x, DropSteps(t), y) && Inv(y)
    ensures y.queue == x.queue && y.pcs == x.pcs[t := Sweeping] && y.owner == x.owner && y.size == x.size
    ensures y.activating == x.activating && y.sweep == x.sweep && y.held == x.held && y.stranded == x.stranded
  {
    hide Inv, Leads, Keeps, Unused, Credited;
    y := DropPath(x, t);
  }

  lemma EndCleaning(x: Sys, t: nat) returns (y: Sys)
    requires Inv(x) && t < |x.pcs| && x.pcs[t] == Sweeping && x.sweep.left == 0
    ensures Leads(x, [(t, SweepEnd)], y) && Inv(y)
    ensures y == x.(pcs := x.pcs[t := Outside], owner := None)
  {
    y := Next(x, t, SweepEnd);
    assert [(t, SweepEnd)][1..] == [];
    assert Leads(y, [], y);
    StepInv(x, t, SweepEnd);
  }

  lemma CountOne(x: Sys, t: nat) returns (y: Sys)
    requires Inv(x) && t < |x.pcs| && x.pcs[t] == Entered && x.owner == None
    ensures Leads(x, [(t, Count)], y) && Inv(y)
    ensures y == x.(activating := Increment(x.activating), pcs := x.pcs[t := Outside])
  {
    y := Next(x, t, Count);
    assert [(t, Count)][1..] == [];
    assert Leads(y, [], y);
    StepInv(x, t, Count);
  }
}
