/**
 Runs that show what threads can do to each other at a module queue.

 In every one of them thread 1 is the module and the others push. The module pops only while
 an activating operation is counted, since its pop would wait otherwise, and cleans while it
 holds the lifecycle operation it has popped. Each run starts from any initial state with
 room for the elements it needs, and is put together from the paths of QueuePaths.dfy; the
 two races at the end start from any sound state. The conditions under which these things happen are the equivalences of QueueRuns.dfy and
 QueueCleaning.dfy.
 */
module QueueRaces {
  import opened Common
  import opened QueueState
  import opened QueueTheorems
  import opened QueueSteps
  import opened QueueRuns
  import opened QueuePaths

  const STOP_LIFE: int := 13

  // ----- runs of a module -----

  /** The operation that makes a module clean its queue in state `st`. */
  predicate Asks(st: ModuleState, opId: nat) {
    match st
    case Idle => opId == SHUTDOWN_LIFE || opId == KILL_LIFE
    case Ready => opId == STOP_LIFE
    case Running => false
  }

  /** What the module and those that push to it do. */
  ghost predicate Callable(x: Sys, t: nat, a: Action) {
    && (a.Pop? || a.Free? || a.Clean? ==> t == 1)
    && (a.Pop? ==> x.activating > 0)
    && (a.Clean? ==> exists h :: h in x.held && InPools(h, x.pools) && Asks(a.st, At(x.pools, h).opId))
  }

  ghost predicate Played(tr: seq<Sys>, steps: seq<(nat, Action)>) {
    Run(tr, steps) && forall i {:trigger steps[i]} :: 0 <= i < |steps| ==> Callable(tr[i], steps[i].0, steps[i].1)
  }

  /** `steps` lead from `x` to `y`, and are those of a module. */
  ghost predicate Plays(x: Sys, steps: seq<(nat, Action)>, y: Sys)
    decreases |steps|
  {
    if steps == [] then y == x
    else Enabled(x, steps[0].0, steps[0].1) && Callable(x, steps[0].0, steps[0].1) && Plays(Next(x, steps[0].0, steps[0].1), steps[1..], y)
  }

  lemma {:induction false} PlaysOn(x: Sys, a: seq<(nat, Action)>, y: Sys, b: seq<(nat, Action)>, z: Sys)
    requires Plays(x, a, y) && Plays(y, b, z)
    ensures Plays(x, a + b, z)
    decreases |a|
  {
    hide Enabled, Next, Callable;
    if a == [] {
      assert a + b == b;
    } else {
      assert (a + b)[1..] == a[1..] + b;
      PlaysOn(Next(x, a[0].0, a[0].1), a[1..], y, b, z);
    }
  }

  /** Nothing is popped, released or cleaned. */
  predicate NothingTaken(steps: seq<(nat, Action)>) {
    forall i :: 0 <= i < |steps| ==> !steps[i].1.Pop? && !steps[i].1.Free? && !steps[i].1.Clean?
  }

  lemma {:induction false} LeadsPlays(x: Sys, steps: seq<(nat, Action)>, y: Sys)
    requires Leads(x, steps, y) && NothingTaken(steps)
    ensures Plays(x, steps, y)
    decreases |steps|
  {
    hide Enabled, Next;
    if steps != [] { LeadsPlays(Next(x, steps[0].0, steps[0].1), steps[1..], y); }
  }

  lemma OnePlays(x: Sys, t: nat, a: Action)
    requires Enabled(x, t, a) && Callable(x, t, a)
    ensures Plays(x, [(t, a)], Next(x, t, a))
  {
    assert [(t, a)][1..] == [];
    assert Plays(Next(x, t, a), [], Next(x, t, a));
  }

  lemma {:induction false} PlaysLeads(x: Sys, steps: seq<(nat, Action)>, y: Sys)
    requires Plays(x, steps, y)
    ensures Leads(x, steps, y)
    decreases |steps|
  {
    hide Enabled, Next, Callable;
    if steps != [] { PlaysLeads(Next(x, steps[0].0, steps[0].1), steps[1..], y); }
  }

  lemma {:induction false} Moments(x: Sys, steps: seq<(nat, Action)>, y: Sys, tr: seq<Sys>)
    requires Plays(x, steps, y) && |tr| == |steps| + 1 && tr[0] == x
    requires forall i {:trigger steps[i]} :: 0 <= i < |steps| ==> Moves(tr[i], steps[i].0, steps[i].1, tr[i + 1])
    ensures forall i :: 0 <= i < |steps| ==> Callable(tr[i], steps[i].0, steps[i].1)
    decreases |steps|
  {
    hide Enabled, Next, Callable;
    if steps != [] {
      assert Moves(tr[0], steps[0].0, steps[0].1, tr[1]);
      forall i | 0 <= i < |steps[1..]| ensures Moves(tr[1..][i], steps[1..][i].0, steps[1..][i].1, tr[1..][i + 1]) {
        assert Moves(tr[i + 1], steps[i + 1].0, steps[i + 1].1, tr[i + 2]);
      }
      Moments(tr[1], steps[1..], y, tr[1..]);
      forall i | 0 <= i < |steps| ensures Callable(tr[i], steps[i].0, steps[i].1) {
        if i > 0 { assert Callable(tr[1..][i - 1], steps[1..][i - 1].0, steps[1..][i - 1].1); }
      }
    }
  }

  /** Steps from an initial state make a run, which passes through the state its first steps lead to. */
  lemma PlayOf(x: Sys, first: seq<(nat, Action)>, m: Sys, more: seq<(nat, Action)>, y: Sys) returns (tr: seq<Sys>)
    requires Initial(x) && Plays(x, first, m) && Plays(m, more, y)
    ensures Played(tr, first + more) && tr[0] == x && tr[|first|] == m && tr[|first + more|] == y
  {
    var steps := first + more;
    PlaysOn(x, first, m, more, y);
    PlaysLeads(x, steps, y);
    PlaysLeads(x, first, m);
    tr := Trace(x, steps, y);
    Moments(x, steps, y, tr);
    assert steps[..|first|] == first;
    LeadsUnique(x, steps, |first|, first, m, tr);
  }

  /** A run passes through the state its first steps lead to. */
  lemma {:induction false} LeadsUnique(x: Sys, steps: seq<(nat, Action)>, n: nat, first: seq<(nat, Action)>, y: Sys, tr: seq<Sys>)
    requires Leads(x, first, y) && n == |first| <= |steps| && steps[..n] == first
    requires |tr| == |steps| + 1 && tr[0] == x && forall i :: 0 <= i < |steps| ==> Moves(tr[i], steps[i].0, steps[i].1, tr[i + 1])
    ensures tr[n] == y
    decreases n
  {
    if n > 0 {
      assert first[0] == steps[..n][0] == steps[0];
      assert Moves(tr[0], steps[0].0, steps[0].1, tr[1]);
      assert steps[1..][..n - 1] == first[1..];
      forall i | 0 <= i < |steps[1..]| ensures Moves(tr[1..][i], steps[1..][i].0, steps[1..][i].1, tr[1..][i + 1]) {
        assert Moves(tr[i + 1], steps[i + 1].0, steps[i + 1].1, tr[i + 2]);
      }
      LeadsUnique(tr[1], steps[1..], n - 1, first[1..], y, tr[1..]);
    }
  }

  // ----- the beginning of every run: a shutdown is popped -----

  /** `op` fits its pool, which has at least `n` elements. */
  ghost predicate Room(x: Sys, op: Operation, n: nat) {
    Pushable(x.pools, op) && ValidIndex(x.pools, op) && |x.pools[op.opIndex].elements| >= n
  }

  /** The module and one thread more, nobody in a call. */
  ghost predicate Calm(x: Sys) {
    Inv(x) && |x.pcs| >= 2 && x.owner == None && x.stranded == {} && forall t :: 0 <= t < |x.pcs| ==> x.pcs[t] == Outside
  }

  /** At most `n` elements of each pool have been taken since `x`. */
  ghost predicate Leaves(x: Sys, y: Sys, n: nat) {
    && |y.pools| == |x.pools|
    && forall q: nat :: q < |x.pools| ==> Spare(y, q) >= |x.pools[q].elements| - n && y.pools[q].parameterSize == x.pools[q].parameterSize
  }

  function CountSteps(op: Operation): seq<(nat, Action)> {
    if op.activating then [(0, Count)] else []
  }

  lemma FreeSteps(t: nat, op: Operation, h: Handle)
    ensures NothingTaken(PushSteps(t, op, h)) && NothingTaken(PushSteps(t, op, h) + CountSteps(op))
  {
    FreeScan(t, h.index + 1);
  }

  lemma {:induction false} FreeScan(t: nat, n: nat)
    ensures NothingTaken(ScanSteps(t, n))
  {
    if n > 0 { FreeScan(t, n - 1); }
  }

  /** The element of a push as the push leaves it. */
  ghost predicate Filed(x: Sys, h: Handle, op: Operation) {
    InPools(h, x.pools) && At(x.pools, h).used && At(x.pools, h).opId == op.opId && At(x.pools, h).opType == op.opType
    && At(x.pools, h).activating == op.activating
  }

  /** Thread 0 counts what it has queued. */
  lemma CountRest(x: Sys, op: Operation) returns (y: Sys)
    requires Inv(x) && 0 < |x.pcs| && x.pcs[0] == AfterEntry(op) && x.owner == None
    ensures Leads(x, CountSteps(op), y) && Inv(y) && y.pcs == x.pcs[0 := Outside]
    ensures y == x.(pcs := y.pcs, activating := if op.activating then Increment(x.activating) else x.activating)
  {
    if op.activating {
      y := CountOne(x, 0);
    } else {
      y := x;
      assert x.pcs == x.pcs[0 := Outside];
    }
  }

  /** Thread 0 pushes, from first to last step. */
  lemma WholePush(x: Sys, op: Operation) returns (y: Sys, h: Handle)
    requires Calm(x) && Pushable(x.pools, op) && ValidIndex(x.pools, op) && Spare(x, op.opIndex as nat) > 0 && |x.queue| < x.size
    ensures Plays(x, PushSteps(0, op, h) + CountSteps(op), y) && Calm(y) && y.pcs == x.pcs
    ensures y.queue == x.queue + [h] && Filed(y, h, op) && InPools(h, x.pools) && !At(x.pools, h).used && Changes(x.pools, y.pools, {h})
    ensures y.size == x.size && y.held == x.held && y.activating == if op.activating then Increment(x.activating) else x.activating
    ensures SpareLess(x, y, h.pool) && h.pool == op.opIndex
  {
    hide Leads, Plays, Enabled, Next, Changes, Spare, PushSteps, Pushable;
    var x1; x1, h := Queue(x, 0, op);
    y := CountRest(x1, op);
    assert y.pcs == x.pcs;
    LeadsOn(x, PushSteps(0, op, h), x1, CountSteps(op), y);
    FreeSteps(0, op, h);
    LeadsPlays(x, PushSteps(0, op, h) + CountSteps(op), y);
    ThreadMoves(x1, y, 0);
    assert h in y.queue;
    SpareOn(x, x1, y, h.pool);
  }

  lemma SpareOn(x: Sys, y: Sys, z: Sys, p: nat)
    requires SpareLess(x, y, p) && SpareSame(y, z)
    ensures SpareLess(x, z, p)
  {
  }

  /** A pop that finds an activating operation counted. */
  lemma PopTaken(x: Sys) returns (y: Sys, h: Handle)
    requires Inv(x) && |x.pcs| >= 2 && x.pcs[1] == Outside && x.owner == None && x.queue != [] && x.activating > 0
    ensures h == x.queue[0] && InPools(h, x.pools) && Plays(x, [(1, Pop), (1, Discount)], y) && Inv(y) && y.pcs == x.pcs
    ensures y == x.(queue := x.queue[1..], held := x.held + {h},
                    activating := if At(x.pools, h).activating then Decrement(x.activating) else x.activating)
  {
    h := x.queue[0];
    InvQueued(x);
    var x1 := Next(x, 1, Pop);
    y := Next(x1, 1, Discount);
    assert y.pcs == x.pcs;
    OnePlays(x, 1, Pop);
    OnePlays(x1, 1, Discount);
    StepInv(x, 1, Pop);
    StepInv(x1, 1, Discount);
    PlaysOn(x, [(1, Pop)], x1, [(1, Discount)], y);
    assert [(1, Pop)] + [(1, Discount)] == [(1, Pop), (1, Discount)];
  }

  /** The module has popped a SHUTDOWN or KILL, and nothing else has happened. */
  ghost predicate Shutting(x: Sys, y: Sys, h: Handle) {
    && Calm(y) && y.pcs == x.pcs && y.queue == [] && y.size == x.size && y.held == {h} && y.activating == 0
    && InPools(h, y.pools) && Asks(Idle, At(y.pools, h).opId) && Leaves(x, y, 1)
  }

  function ShutdownSteps(s: Operation, h: Handle): seq<(nat, Action)> {
    (PushSteps(0, s, h) + CountSteps(s)) + [(1, Pop), (1, Discount)]
  }

  /** Lifecycle operations are pushed as activating (lib/ldp_network.c:467-476). */
  ghost predicate Begins(x: Sys, s: Operation) {
    Initial(x) && |x.pcs| >= 2 && Room(x, s, 1) && s.activating && Asks(Idle, s.opId)
  }

  lemma Shutdown(x: Sys, s: Operation) returns (y: Sys, h: Handle)
    requires Begins(x, s)
    ensures Plays(x, ShutdownSteps(s, h), y) && Shutting(x, y, h)
  {
    hide Plays, Enabled, Next, Inv, Spare, PushSteps, Changes;
    FreshSpares(x);
    var x1; x1, h := WholePush(x, s);
    var g; y, g := PopTaken(x1);
    PlaysOn(x, PushSteps(0, s, h) + CountSteps(s), x1, [(1, Pop), (1, Discount)], y);
    SameShape(x.pools, x1.pools, {h});
    ThreadMoves(x1, y, 1);
    assert Leaves(x, y, 1) by {
      forall q: nat | q < |x.pools| ensures Spare(y, q) >= |x.pools[q].elements| - 1 { SpareAt(x, x1, h.pool, q); SpareSameAt(x1, y, q); }
    }
  }

  lemma SameShape(pools: seq<Pool>, after: seq<Pool>, s: set<Handle>)
    requires Changes(pools, after, s)
    ensures |after| == |pools| && forall q :: 0 <= q < |pools| ==> after[q].parameterSize == pools[q].parameterSize
  {
  }

  lemma SpareAt(x: Sys, y: Sys, p: nat, q: nat)
    requires SpareLess(x, y, p) && q < |x.pools|
    ensures Spare(y, q) >= Spare(x, q) - 1
  {
  }

  lemma SpareSameAt(x: Sys, y: Sys, q: nat)
    requires SpareSame(x, y) && q < |x.pools|
    ensures Spare(y, q) == Spare(x, q)
  {
  }

  lemma FreshSpares(x: Sys)
    requires Initial(x) && |x.pcs| >= 2
    ensures Calm(x) && Leaves(x, x, 0)
  {
    InitialInv(x);
    forall q: nat | q < |x.pools| ensures Spare(x, q) == |x.pools[q].elements| { FreshSpare(x, q); }
  }

  /** One element more has been taken. */
  lemma LeavesOne(x: Sys, y: Sys, z: Sys, n: nat, h: Handle)
    requires Leaves(x, y, n) && SpareLess(y, z, h.pool) && Changes(y.pools, z.pools, {h})
    ensures Leaves(x, z, n + 1)
  {
    SameShape(y.pools, z.pools, {h});
    forall q: nat | q < |x.pools| ensures Spare(z, q) >= |x.pools[q].elements| - (n + 1) { SpareAt(y, z, h.pool, q); }
  }

  lemma LeavesSame(x: Sys, y: Sys, z: Sys, n: nat)
    requires Leaves(x, y, n) && SpareSame(y, z) && (forall q :: 0 <= q < |y.pools| && q < |z.pools| ==> z.pools[q].parameterSize == y.pools[q].parameterSize)
    ensures Leaves(x, z, n)
  {
    forall q: nat | q < |x.pools| ensures Spare(z, q) >= |x.pools[q].elements| - n { SpareSameAt(y, z, q); }
  }

  /** An operation that had room still has. */
  lemma StillRoom(x: Sys, y: Sys, n: nat, op: Operation)
    requires Leaves(x, y, n) && Room(x, op, n + 1)
    ensures Pushable(y.pools, op) && ValidIndex(y.pools, op) && Spare(y, op.opIndex as nat) > 0
  {
  }

  /** The cleaning of a module that has popped a SHUTDOWN or KILL begins. */
  lemma CleaningBegins(y: Sys, h: Handle) returns (z: Sys)
    requires Inv(y) && |y.pcs| >= 2 && y.pcs[1] == Outside && y.owner == None && y.held == {h}
    requires InPools(h, y.pools) && Asks(Idle, At(y.pools, h).opId)
    ensures Plays(y, [(1, Clean(Idle))], z) && Inv(z)
    ensures z.queue == y.queue && z.pools == y.pools && z.pcs == y.pcs[1 := Sweeping] && z.owner == Some(1) && z.size == y.size
    ensures z.activating == 0 && z.sweep == Sweep(Idle, |y.queue|, false) && z.held == y.held && z.stranded == y.stranded
  {
    InvQueued(y);
    z := Next(y, 1, Clean(Idle));
    assert h in y.held;
    OnePlays(y, 1, Clean(Idle));
    StepInv(y, 1, Clean(Idle));
  }

  // ----- the runs -----

  /**
   A cleaning inside the window of a push. From any initial state: an activating operation
   is queued, the cleaning of a shutdown drops it and sets the count to zero, and the push
   counts it. The queue is empty and the count is one.
   */
  lemma CleaningInsideAPush(x: Sys, s: Operation, op: Operation) returns (tr: seq<Sys>, steps: seq<(nat, Action)>)
    requires Begins(x, s) && Room(x, op, 2) && op.activating && op.opId != KILL_LIFE && op.opId != INITIALIZE_LIFE
    ensures Played(tr, steps) && tr[0] == x
    ensures var y := tr[|steps|];
            y.queue == [] && y.activating == 1 && y.owner == None && forall t :: 0 <= t < |y.pcs| ==> y.pcs[t] == Outside
  {
    hide Plays, Leads, Inv, Enabled, Changes, Spare, Next, PushSteps, Pushable;
    var x0, hs := Shutdown(x, s);
    StillRoom(x, x0, 1, op);
    var x1, h := Queue(x0, 0, op);
    HeldStays(x0, x1, hs, h);
    var x2 := CleaningBegins(x1, hs);
    var x3 := PopOne(x2, 1);
    NobodyLocks(x3.pcs, h.pool);
    var x4 := DropOne(x3, 1);
    var x5 := EndCleaning(x4, 1);
    var x6 := CountOne(x5, 0);
    FreeSteps(0, op, h);
    LeadsPlays(x0, PushSteps(0, op, h), x1);
    LeadsOn(x2, [(1, SweepPop)], x3, DropSteps(1), x4);
    LeadsOn(x2, [(1, SweepPop)] + DropSteps(1), x4, [(1, SweepEnd)], x5);
    LeadsOn(x2, [(1, SweepPop)] + DropSteps(1) + [(1, SweepEnd)], x5, [(0, Count)], x6);
    var last := [(1, SweepPop)] + DropSteps(1) + [(1, SweepEnd)] + [(0, Count)];
    LeadsPlays(x2, last, x6);
    PlaysOn(x, ShutdownSteps(s, hs), x0, PushSteps(0, op, h), x1);
    PlaysOn(x1, [(1, Clean(Idle))], x2, last, x6);
    var first, more := ShutdownSteps(s, hs) + PushSteps(0, op, h), [(1, Clean(Idle))] + last;
    tr := PlayOf(x, first, x1, more, x6);
    steps := first + more;
  }

  /** An element held is not the one a push takes. */
  lemma HeldStays(x: Sys, y: Sys, g: Handle, h: Handle)
    requires Inv(x) && g in x.held && InPools(h, x.pools) && !At(x.pools, h).used && Changes(x.pools, y.pools, {h})
    ensures InPools(g, x.pools) && InPools(g, y.pools) && At(y.pools, g) == At(x.pools, g)
  {
    assert At(x.pools, g).used;
  }

  lemma NobodyLocks(pcs: seq<Pc>, p: nat)
    requires NoSearch(pcs)
    ensures !Locked(pcs, p)
  {
  }

  /** A shutdown keeps it. */
  predicate Lasting(op: Operation) {
    op.opId == KILL_LIFE || op.opId == INITIALIZE_LIFE
  }

  function TwoSteps(a: Operation, ha: Handle, b: Operation, hb: Handle): seq<(nat, Action)> {
    (PushSteps(0, a, ha) + CountSteps(a)) + (PushSteps(0, b, hb) + CountSteps(b))
  }

  /** Two operations that the cleaning of a shutdown keeps are queued and counted. */
  ghost predicate Two(x: Sys, y: Sys, hs: Handle, a: Operation, b: Operation, ha: Handle, hb: Handle) {
    && Calm(y) && y.queue == [ha, hb] && ha != hb && Filed(y, ha, a) && Filed(y, hb, b) && y.size == x.size && |y.pcs| == |x.pcs|
    && y.held == {hs} && InPools(hs, y.pools) && Asks(Idle, At(y.pools, hs).opId) && Leaves(x, y, 3)
  }

  lemma TwoQueued(x: Sys, s: Operation, a: Operation, b: Operation) returns (y: Sys, hs: Handle, ha: Handle, hb: Handle)
    requires Begins(x, s) && Room(x, a, 4) && Room(x, b, 4) && x.size >= 2
    ensures Plays(x, ShutdownSteps(s, hs) + TwoSteps(a, ha, b, hb), y) && Two(x, y, hs, a, b, ha, hb)
  {
    hide Plays, Inv, Changes, Spare, PushSteps, Pushable, Enabled, Next, Leaves, SpareLess;
    var x0; x0, hs := Shutdown(x, s);
    Roomy(x, x0, 1, a);
    var x1; x1, ha := WholePush(x0, a);
    HeldStays(x0, x1, hs, ha);
    LeavesOne(x, x0, x1, 1, ha);
    Roomy(x, x1, 2, b);
    y, hb := WholePush(x1, b);
    HeldStays(x1, y, hs, hb);
    LeavesOne(x, x1, y, 2, hb);
    UsedStays(x1, y, ha, hb);
    PlaysOn(x0, PushSteps(0, a, ha) + CountSteps(a), x1, PushSteps(0, b, hb) + CountSteps(b), y);
    PlaysOn(x, ShutdownSteps(s, hs), x0, TwoSteps(a, ha, b, hb), y);
  }

  lemma Roomy(x: Sys, y: Sys, n: nat, op: Operation)
    requires Leaves(x, y, n) && Room(x, op, 4) && n <= 3
    ensures Pushable(y.pools, op) && ValidIndex(y.pools, op) && Spare(y, op.opIndex as nat) > 0
  {
    StillRoom(x, y, n, op);
  }

  /** A used element is not the one a push takes. */
  lemma UsedStays(x: Sys, y: Sys, g: Handle, h: Handle)
    requires InPools(g, x.pools) && At(x.pools, g).used && InPools(h, x.pools) && !At(x.pools, h).used && Changes(x.pools, y.pools, {h})
    ensures g != h && InPools(g, y.pools) && At(y.pools, g) == At(x.pools, g)
  {
  }

  lemma KeptBoth(x: Sys, a: Operation, b: Operation, ha: Handle, hb: Handle)
    requires Filed(x, ha, a) && Filed(x, hb, b) && Lasting(a) && Lasting(b)
    ensures InAll(x.pools, [ha, hb]) && Kept(x.pools, [ha, hb], false, Idle) == [ha, hb]
  {
    assert [ha, hb][1..] == [hb] && [hb][1..] == [];
    assert Kept(x.pools, [hb], false, Idle) == [hb] + Kept(x.pools, [], false, Idle) == [hb];
  }

  /** The cleaning has popped the first of them. */
  ghost predicate OnePopped(x: Sys, z: Sys, a: Operation, b: Operation, ha: Handle, hb: Handle) {
    && Inv(z) && |z.pcs| >= 2 && |z.pcs| == |x.pcs| && z.pcs[0] == Outside && z.pcs[1] == Judging(ha) && NoSearch(z.pcs)
    && z.queue == [hb] && ha != hb && Filed(z, ha, a) && Filed(z, hb, b) && Lasting(a) && Lasting(b)
    && z.owner == Some(1) && z.size == x.size && z.activating == 0 && z.sweep == Sweep(Idle, 1, false) && z.stranded == {}
    && (forall u :: 0 <= u < |z.pcs| && u != 1 ==> z.pcs[u] == Outside) && Leaves(x, z, 3)
  }

  lemma PopFirst(x: Sys, y: Sys, hs: Handle, a: Operation, b: Operation, ha: Handle, hb: Handle) returns (z: Sys)
    requires Two(x, y, hs, a, b, ha, hb) && Lasting(a) && Lasting(b)
    ensures Plays(y, [(1, Clean(Idle))] + [(1, SweepPop)], z) && OnePopped(x, z, a, b, ha, hb)
  {
    hide Plays, Leads, Inv, Spare, Enabled, Next, Leaves;
    var y1 := CleaningBegins(y, hs);
    z := PopOne(y1, 1);
    assert y1.queue[1..] == [hb];
    LeadsPlays(y1, [(1, SweepPop)], z);
    PlaysOn(y, [(1, Clean(Idle))], y1, [(1, SweepPop)], z);
    assert z.pcs == y.pcs[1 := Judging(ha)];
    ThreadMoves(y, z, 1);
    LeavesSame(x, y, z, 3);
  }

  /** The element in hand is pushed back, or refused by a full ring. */
  lemma PutBack(x: Sys, op: Operation) returns (y: Sys)
    requires Inv(x) && |x.pcs| >= 2 && x.pcs[1].Judging? && Filed(x, x.pcs[1].h, op) && Lasting(op) && x.sweep.st == Idle
    ensures Leads(x, [(1, Judge)], y) && Inv(y)
    ensures var h := x.pcs[1].h;
            && y == x.(pcs := x.pcs[1 := Sweeping], queue := y.queue, stranded := y.stranded, activating := y.activating, past := y.past)
            && y.activating == (if op.activating then Increment(x.activating) else x.activating)
            && y.queue == (if Full(x) then x.queue else x.queue + [h])
            && y.stranded == (if Full(x) then x.stranded + {h} else x.stranded)
  {
    y := KeepOne(x, 1);
  }

  /** The cleaning goes on with the second element, the only one it has left, and ends. */
  lemma FinishCleaning(w: Sys, b: Operation, c: Operation, hb: Handle, rest: seq<Handle>) returns (y: Sys)
    requires Inv(w) && |w.pcs| >= 2 && w.pcs[1] == Sweeping && w.pcs[0] == AfterEntry(c) && w.queue == [hb] + rest
    requires Filed(w, hb, b) && Lasting(b) && |w.queue| <= w.size && w.sweep == Sweep(Idle, 1, false) && w.owner == Some(1)
    ensures Plays(w, [(1, SweepPop)] + [(1, Judge)] + [(1, SweepEnd)] + CountSteps(c), y) && Inv(y)
    ensures y.queue == rest + [hb] && y.owner == None && y.stranded == w.stranded && y.pools == w.pools && y.held == w.held
    ensures y.pcs == w.pcs[1 := Outside][0 := Outside]
    ensures y.activating == var n := if b.activating then Increment(w.activating) else w.activating; if c.activating then Increment(n) else n
  {
    hide Plays, Leads, Inv, Enabled, Next;
    var w1 := PopOne(w, 1);
    assert w1.queue == rest;
    var w2 := PutBack(w1, b);
    var w3 := EndCleaning(w2, 1);
    y := CountRest(w3, c);
    assert y.pcs == w.pcs[1 := Outside][0 := Outside];
    LeadsOn(w, [(1, SweepPop)], w1, [(1, Judge)], w2);
    LeadsOn(w, [(1, SweepPop)] + [(1, Judge)], w2, [(1, SweepEnd)], w3);
    LeadsOn(w, [(1, SweepPop)] + [(1, Judge)] + [(1, SweepEnd)], w3, CountSteps(c), y);
    LeadsPlays(w, [(1, SweepPop)] + [(1, Judge)] + [(1, SweepEnd)] + CountSteps(c), y);
  }

  /**
   A push overtakes an element that the cleaning keeps. From any initial state with room:
   two lifecycle operations that a shutdown keeps are queued, a third push lands after the
   first has been pushed back and before the second is popped, and ends up between them.
   */
  lemma PushOvertakes(x: Sys, s: Operation, a: Operation, b: Operation, c: Operation)
      returns (tr: seq<Sys>, steps: seq<(nat, Action)>, k: nat, ha: Handle, hb: Handle, hc: Handle)
    requires Begins(x, s) && Room(x, a, 4) && Room(x, b, 4) && Room(x, c, 4) && Lasting(a) && Lasting(b) && x.size >= 3
    ensures Played(tr, steps) && tr[0] == x && k < |steps| && steps[k] == (1, Clean(Idle))
    ensures InAll(tr[k].pools, tr[k].queue) && Kept(tr[k].pools, tr[k].queue, false, Idle) == tr[k].queue == [ha, hb]
    ensures var y := tr[|steps|];
            y.queue == [ha, hc, hb] && hc != ha && hc != hb && y.owner == None && forall t :: 0 <= t < |y.pcs| ==> y.pcs[t] == Outside
  {
    hide Plays, Leads, Inv, Enabled, Next, Kept, Spare, Changes, PushSteps, Pushable, Leaves, SpareLess;
    var y, hs; y, hs, ha, hb := TwoQueued(x, s, a, b);
    KeptBoth(y, a, b, ha, hb);
    var z := PopFirst(x, y, hs, a, b, ha, hb);
    var z1 := PutBack(z, a);
    assert z1.queue == [hb] + [ha];
    ThreadMoves(z, z1, 1);
    LeavesSame(x, z, z1, 3);
    Roomy(x, z1, 3, c);
    var w; w, hc := Queue(z1, 0, c);
    UsedStays(z1, w, ha, hc);
    UsedStays(z1, w, hb, hc);
    assert w.queue == [hb] + [ha, hc];
    var v := FinishCleaning(w, b, c, hb, [ha, hc]);
    LeadsOn(z, [(1, Judge)], z1, PushSteps(0, c, hc), w);
    FreeSteps(0, c, hc);
    LeadsPlays(z, [(1, Judge)] + PushSteps(0, c, hc), w);
    var e := [(1, SweepPop)] + [(1, Judge)] + [(1, SweepEnd)] + CountSteps(c);
    PlaysOn(z, [(1, Judge)] + PushSteps(0, c, hc), w, e, v);
    PlaysOn(y, [(1, Clean(Idle))] + [(1, SweepPop)], z, [(1, Judge)] + PushSteps(0, c, hc) + e, v);
    var first, more := ShutdownSteps(s, hs) + TwoSteps(a, ha, b, hb), [(1, Clean(Idle))] + [(1, SweepPop)] + ([(1, Judge)] + PushSteps(0, c, hc) + e);
    tr := PlayOf(x, first, y, more, v);
    steps, k := first + more, |first|;
    assert more[0] == (1, Clean(Idle));
  }

  /**
   A push makes the cleaning lose an element it keeps. From any initial state with a ring of
   two: the push takes the last place while the cleaning has the element in hand, and the
   ring refuses it. Nobody can reach it any more, although it has been counted.
   */
  lemma PushDisplaces(x: Sys, s: Operation, a: Operation, b: Operation, c: Operation)
      returns (tr: seq<Sys>, steps: seq<(nat, Action)>, k: nat, ha: Handle, hb: Handle, hc: Handle)
    requires Begins(x, s) && Room(x, a, 4) && Room(x, b, 4) && Room(x, c, 4) && Lasting(a) && Lasting(b) && x.size == 2
    ensures Played(tr, steps) && tr[0] == x && k < |steps| && steps[k] == (1, Clean(Idle))
    ensures InAll(tr[k].pools, tr[k].queue) && Kept(tr[k].pools, tr[k].queue, false, Idle) == tr[k].queue == [ha, hb]
    ensures var y := tr[|steps|];
            && Unreachable(y, ha) && y.queue == [hc, hb] && y.owner == None && (forall t :: 0 <= t < |y.pcs| ==> y.pcs[t] == Outside)
            && y.activating == One(a.activating) + One(b.activating) + One(c.activating)
  {
    hide Plays, Leads, Inv, Enabled, Next, Kept, Spare, Changes, PushSteps, Pushable, Leaves, SpareLess, Unreachable;
    var y, hs; y, hs, ha, hb := TwoQueued(x, s, a, b);
    KeptBoth(y, a, b, ha, hb);
    var z := PopFirst(x, y, hs, a, b, ha, hb);
    Roomy(x, z, 3, c);
    var w; w, hc := Queue(z, 0, c);
    UsedStays(z, w, ha, hc);
    UsedStays(z, w, hb, hc);
    assert w.pcs[1] == Judging(ha) && w.queue == [hb] + [hc];
    var w1 := PutBack(w, a);
    var v := FinishCleaning(w1, b, c, hb, [hc]);
    StrandedIsUnreachable(v);
    LeadsOn(z, PushSteps(0, c, hc), w, [(1, Judge)], w1);
    FreeSteps(0, c, hc);
    LeadsPlays(z, PushSteps(0, c, hc) + [(1, Judge)], w1);
    var e := [(1, SweepPop)] + [(1, Judge)] + [(1, SweepEnd)] + CountSteps(c);
    PlaysOn(z, PushSteps(0, c, hc) + [(1, Judge)], w1, e, v);
    PlaysOn(y, [(1, Clean(Idle))] + [(1, SweepPop)], z, PushSteps(0, c, hc) + [(1, Judge)] + e, v);
    var first, more := ShutdownSteps(s, hs) + TwoSteps(a, ha, b, hb), [(1, Clean(Idle))] + [(1, SweepPop)] + (PushSteps(0, c, hc) + [(1, Judge)] + e);
    tr := PlayOf(x, first, y, more, v);
    steps, k := first + more, |first|;
    assert more[0] == (1, Clean(Idle));
    assert v.queue == [hc] + [hb];
  }

  // ----- a push and a release -----

  /** The module frees an element it holds, but has not counted it yet. */
  lemma FreeHeld(x: Sys, h: Handle) returns (y: Sys)
    requires Inv(x) && |x.pcs| >= 2 && x.pcs[1] == Outside && h in x.held && InPools(h, x.pools)
    ensures Plays(x, [(1, Free(h))], y) && Inv(y) && y.pcs == x.pcs[1 := Freed(h.pool)] && y.pools == Unused(x.pools, h)
    ensures FreeAt(y, h.pool, h.index)
  {
    y := Next(x, 1, Free(h));
    OnePlays(x, 1, Free(h));
    StepInv(x, 1, Free(h));
  }

  /**
   A push is refused although its pool has a free element. From any initial state in which
   the pool has one element: it is queued, counted, popped and marked FREE, and before the
   release counts it the unlocked test of another push still reads zero.
   */
  lemma PushRefusedThoughFree(x: Sys, op: Operation) returns (tr: seq<Sys>, steps: seq<(nat, Action)>)
    requires Initial(x) && |x.pcs| >= 2 && Room(x, op, 1) && |x.pools[op.opIndex].elements| == 1 && op.activating
    ensures Played(tr, steps) && tr[0] == x
    ensures var y := tr[|steps|];
            && ValidIndex(y.pools, op) && SomeElementFree(y, op)
            && Enabled(y, 0, Try(op, false)) && Next(y, 0, Try(op, false)) == y
  {
    FreshSpares(x);
    StillRoom(x, x, 0, op);
    var x1, h := WholePush(x, op);
    var x2, g := PopTaken(x1);
    var y := FreeHeld(x2, h);
    var a := PushSteps(0, op, h) + CountSteps(op);
    PlaysOn(x1, [(1, Pop), (1, Discount)], x2, [(1, Free(h))], y);
    var b := [(1, Pop), (1, Discount)] + [(1, Free(h))];
    tr := PlayOf(x, a, x1, b, y);
    steps := a + b;
    PlaysOn(x, a, x1, b, y);
    PlaysLeads(x, steps, y);
    LeadsShape(x, steps, y);
    SamePushable(x, y, op);
    OneFreed(x, y, h);
    TryRefusedIff(tr, steps, |steps|, 0, op, false);
  }

  lemma OneFreed(x: Sys, y: Sys, h: Handle)
    requires Initial(x) && |x.pcs| >= 2 && y.pcs == x.pcs[1 := Freed(h.pool)] && h.pool < |y.pools| && |y.pools[h.pool].elements| == 1
    requires FreeAt(y, h.pool, h.index)
    ensures FreeOf(y.pools[h.pool].elements) == Freeing(y.pcs, h.pool) == 1
  {
    NobodyFreeing(x.pcs, h.pool);
    FreeingUpdate(x.pcs, 1, Freed(h.pool), h.pool);
    assert y.pools[h.pool].elements[1..] == [];
  }

  /** Thread 2 has passed the test; then the only element of the pool is queued and popped. */
  lemma PassedAndPopped(x: Sys, op: Operation) returns (y: Sys, steps: seq<(nat, Action)>, h: Handle)
    requires Initial(x) && |x.pcs| >= 3 && Room(x, op, 1) && |x.pools[op.opIndex].elements| == 1 && op.activating
    ensures Plays(x, steps, y) && Inv(y) && y.pcs == x.pcs[2 := Passed(op, false)]
    ensures h.pool == op.opIndex && InPools(h, y.pools) && h.index == 0 && |y.pools[h.pool].elements| == 1 && h in y.held
  {
    hide Plays, Leads, Inv, Enabled, Spare, Changes, Next, PushSteps, Pushable;
    FreshSpares(x);
    StillRoom(x, x, 0, op);
    TryPasses(x, 2, op);
    var x0 := To(x, 2, Passed(op, false));
    OnePlays(x, 2, Try(op, false));
    StepInv(x, 2, Try(op, false));
    var x1; x1, h := Queue(x0, 0, op);
    var x2 := CountRest(x1, op);
    var g; y, g := PopTaken(x2);
    assert y.pcs == x0.pcs;
    FreeSteps(0, op, h);
    LeadsOn(x0, PushSteps(0, op, h), x1, CountSteps(op), x2);
    LeadsPlays(x0, PushSteps(0, op, h) + CountSteps(op), x2);
    PlaysOn(x, [(2, Try(op, false))], x0, PushSteps(0, op, h) + CountSteps(op), x2);
    steps := [(2, Try(op, false))] + (PushSteps(0, op, h) + CountSteps(op));
    PlaysOn(x, steps, x2, [(1, Pop), (1, Discount)], y);
    steps := steps + [(1, Pop), (1, Discount)];
    PlaysLeads(x, steps, y);
    LeadsShape(x, steps, y);
  }

  /** The search passes a used element over. */
  lemma PassesOver(x: Sys, op: Operation, h: Handle) returns (y: Sys)
    requires Inv(x) && |x.pcs| >= 3 && x.pcs[2] == Passed(op, false) && NoSearch(x.pcs) && h.pool == op.opIndex && InPools(h, x.pools)
    requires h.index == 0 && h in x.held
    ensures Plays(x, [(2, Take)] + [(2, Scan)], y) && Inv(y) && y == To(x, 2, Scanning(op, false, 1))
  {
    assert At(x.pools, h).used;
    var x1 := Next(x, 2, Take);
    y := Next(x1, 2, Scan);
    OneStep(x, 2, Take);
    OneStep(x1, 2, Scan);
    LeadsOn(x, [(2, Take)], x1, [(2, Scan)], y);
    LeadsInv(x, [(2, Take)] + [(2, Scan)], y);
    LeadsPlays(x, [(2, Take)] + [(2, Scan)], y);
    assert y.pcs == x.pcs[2 := Scanning(op, false, 1)];
  }

  lemma GivesUp(x: Sys, op: Operation) returns (y: Sys)
    requires |x.pcs| >= 3 && x.pcs[2] == Scanning(op, false, 1) && ValidIndex(x.pools, op) && |x.pools[op.opIndex].elements| == 1
    ensures Plays(x, [(2, Scan)], y) && y == To(x, 2, Outside)
  {
    y := Next(x, 2, Scan);
    OnePlays(x, 2, Scan);
  }

  /**
   A search misses a free element. From any initial state with three threads in which the
   pool has one element: thread 2 has passed the test, the element is queued and popped, the
   search passes it over, the module marks it FREE, and the search gives up.
   */
  lemma SearchMissesAFreeElement(x: Sys, op: Operation) returns (tr: seq<Sys>, steps: seq<(nat, Action)>)
    requires Initial(x) && |x.pcs| >= 3 && Room(x, op, 1) && |x.pools[op.opIndex].elements| == 1 && op.activating
    ensures Played(tr, steps) && tr[0] == x && |steps| > 0 && steps[|steps| - 1] == (2, Scan)
    ensures var y := tr[|steps| - 1]; ValidIndex(y.pools, op) && SomeElementFree(y, op) && tr[|steps|] == To(y, 2, Outside)
  {
    hide Plays, Leads, Inv, Enabled, Next, Pushable;
    var x1, a, h := PassedAndPopped(x, op);
    var x2 := PassesOver(x1, op, h);
    var x3 := FreeHeld(x2, h);
    var y := GivesUp(x3, op);
    PlaysOn(x, a, x1, [(2, Take)] + [(2, Scan)], x2);
    PlaysOn(x, a + ([(2, Take)] + [(2, Scan)]), x2, [(1, Free(h))], x3);
    var first := a + ([(2, Take)] + [(2, Scan)]) + [(1, Free(h))];
    tr := PlayOf(x, first, x3, [(2, Scan)], y);
    steps := first + [(2, Scan)];
  }

  /**
   A shutdown that needs the request table it does not give. From any initial state with a
   pool that holds an ID: a request received is queued, the cleaning of a shutdown pops it and
   goes on to remove it from the request table, which shutdown and kill pass as null.
   */
  lemma ShutdownReachesNullTable(x: Sys, s: Operation, op: Operation)
      returns (tr: seq<Sys>, steps: seq<(nat, Action)>, k: nat, h: Handle)
    requires Begins(x, s) && Room(x, op, 2) && op.opType == RrReceived && !Lasting(op)
    ensures Played(tr, steps) && tr[0] == x && k < |steps| && steps[k] == (1, Clean(Idle))
    ensures InAll(tr[k].pools, tr[k].queue) && NeedsTable(tr[k].pools, tr[k].queue, Idle)
    ensures var y := tr[|steps|];
            && y.sweep.st == Idle && |y.pcs| >= 2 && y.pcs[1] == Dropping(h) && InPools(h, y.pools) && At(y.pools, h).opType == RrReceived
  {
    hide Plays, Leads, Inv, Enabled, Spare, Changes, Next, NeedsTable, PushSteps, Pushable;
    var x0, hs := Shutdown(x, s);
    StillRoom(x, x0, 1, op);
    var x1; x1, h := WholePush(x0, op);
    HeldStays(x0, x1, hs, h);
    assert x1.queue == [h];
    NullTableNeeded(x1, h);
    var x2 := CleaningBegins(x1, hs);
    var x3 := PopOne(x2, 1);
    var y := DropBegins(x3, h);
    LeadsOn(x2, [(1, SweepPop)], x3, [(1, Judge)], y);
    LeadsPlays(x2, [(1, SweepPop)] + [(1, Judge)], y);
    PlaysOn(x, ShutdownSteps(s, hs), x0, PushSteps(0, op, h) + CountSteps(op), x1);
    PlaysOn(x1, [(1, Clean(Idle))], x2, [(1, SweepPop)] + [(1, Judge)], y);
    var first, more := ShutdownSteps(s, hs) + (PushSteps(0, op, h) + CountSteps(op)), [(1, Clean(Idle))] + ([(1, SweepPop)] + [(1, Judge)]);
    tr := PlayOf(x, first, x1, more, y);
    steps, k := first + more, |first|;
    assert more[0] == (1, Clean(Idle));
  }

  lemma NullTableNeeded(x: Sys, h: Handle)
    requires x.queue == [h] && InPools(h, x.pools) && At(x.pools, h).opType == RrReceived
    requires At(x.pools, h).opId != KILL_LIFE && At(x.pools, h).opId != INITIALIZE_LIFE
    ensures InAll(x.pools, x.queue) && NeedsTable(x.pools, x.queue, Idle)
  {
    assert [h][1..] == [];
    assert Dropped(x.pools, [h], false, Idle) == [h] + Dropped(x.pools, [], false, Idle);
    assert h in Dropped(x.pools, x.queue, false, Idle);
  }

  lemma DropBegins(x: Sys, h: Handle) returns (y: Sys)
    requires |x.pcs| >= 2 && x.pcs[1] == Judging(h) && InPools(h, x.pools) && x.sweep.st == Idle && !x.sweep.started
    requires At(x.pools, h).opId != KILL_LIFE && At(x.pools, h).opId != INITIALIZE_LIFE
    ensures Leads(x, [(1, Judge)], y) && y == To(x, 1, Dropping(h))
  {
    y := Next(x, 1, Judge);
    assert [(1, Judge)][1..] == [];
    assert Leads(y, [], y);
  }

  // ----- pushes in front of an empty ring -----

  /** The ring was empty when thread `t` was about to put its element in front; thread `u` is about to queue one. */
  ghost predicate FrontRace(x: Sys, t: nat, u: nat) {
    && Inv(x) && t < |x.pcs| && u < |x.pcs| && t != u && x.queue == [] && x.owner == None
    && x.pcs[t].Prepared? && x.pcs[t].first && x.pcs[u].Prepared? && !x.pcs[u].first
  }

  /** Thread `t` finds the ring empty and leaves the rest to ldp_push_fifo; thread `u` is quicker. */
  lemma RacesIn(x: Sys, t: nat, u: nat) returns (y: Sys)
    requires FrontRace(x, t, u)
    ensures Leads(x, [(t, Enter)] + [(u, Enter)], y) && Inv(y) && x.pcs[t].h != x.pcs[u].h && InPools(x.pcs[t].h, y.pools)
    ensures y.queue == [x.pcs[u].h] && y.pools == x.pools && y.activating == x.activating && y.size == x.size && y.owner == None
    ensures y.pcs == x.pcs[t := Falling(x.pcs[t].h, x.pcs[t].op)][u := AfterEntry(x.pcs[u].op)]
  {
    assert PcOk(x.pools, x.pcs[t]) && PcOk(x.pools, x.pcs[u]);
    var x1 := Next(x, t, Enter);
    OneStep(x, t, Enter);
    StepInv(x, t, Enter);
    y := Next(x1, u, Enter);
    OneStep(x1, u, Enter);
    StepInv(x1, u, Enter);
    LeadsOn(x, [(t, Enter)], x1, [(u, Enter)], y);
  }

  /** A push in front then lands behind the other one. */
  lemma FrontPushFallsBehind(x: Sys, t: nat, u: nat) returns (y: Sys)
    requires FrontRace(x, t, u) && x.size >= 2
    ensures Leads(x, [(t, Enter)] + [(u, Enter)] + [(t, Fall)], y) && Inv(y)
    ensures y.queue == [x.pcs[u].h] + [x.pcs[t].h] && y.pools == x.pools
  {
    var m := RacesIn(x, t, u);
    y := Next(m, t, Fall);
    OneStep(m, t, Fall);
    StepInv(m, t, Fall);
    LeadsOn(x, [(t, Enter)] + [(u, Enter)], m, [(t, Fall)], y);
  }

  /** In a ring of one it is lost: nobody can reach its element any more, and yet it is counted. */
  lemma FrontPushIsLost(x: Sys, t: nat, u: nat) returns (y: Sys)
    requires FrontRace(x, t, u) && x.size == 1 && x.pcs[t].op.activating
    ensures Leads(x, [(t, Enter)] + [(u, Enter)] + [(t, Fall)] + [(t, Count)], y) && Inv(y)
    ensures y.queue == [x.pcs[u].h] && Unreachable(y, x.pcs[t].h) && y.pcs == x.pcs[u := AfterEntry(x.pcs[u].op)][t := Outside]
    ensures y.activating == Increment(x.activating)
  {
    hide Inv, Enabled, Next, Leads, Unreachable, Increment;
    var m := RacesIn(x, t, u);
    var n := FallsOff(m, t);
    LeadsOn(x, [(t, Enter)] + [(u, Enter)], m, [(t, Fall)], n);
    y := Counted(n, t);
    LeadsOn(x, [(t, Enter)] + [(u, Enter)] + [(t, Fall)], n, [(t, Count)], y);
    StrandedIsUnreachable(y);
    assert y.pcs == x.pcs[u := AfterEntry(x.pcs[u].op)][t := Outside];
  }

  lemma FallsOff(x: Sys, t: nat) returns (y: Sys)
    requires Inv(x) && t < |x.pcs| && x.pcs[t].Falling? && x.pcs[t].op.activating && |x.queue| >= x.size
    ensures Leads(x, [(t, Fall)], y) && Inv(y) && x.pcs[t].h in y.stranded
    ensures y == x.(stranded := y.stranded, past := y.past, pcs := x.pcs[t := Entered])
  {
    assert PcOk(x.pools, x.pcs[t]);
    y := Next(x, t, Fall);
    OneStep(x, t, Fall);
    StepInv(x, t, Fall);
  }

  lemma Counted(x: Sys, t: nat) returns (y: Sys)
    requires Inv(x) && t < |x.pcs| && x.pcs[t] == Entered && x.owner == None
    ensures Leads(x, [(t, Count)], y) && Inv(y) && y == x.(activating := Increment(x.activating), pcs := x.pcs[t := Outside])
  {
    y := Next(x, t, Count);
    OneStep(x, t, Count);
    StepInv(x, t, Count);
  }
}
