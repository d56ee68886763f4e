/**
 The queue of one module under any number of threads (lib/ldp_fifo_manager.c,
 lib/ldp_fifo.c, lib/ldp_fifo_elt_pool.c).

 A push takes three locks one after the other: the mutex of a pool to take an element, that
 of the ring to queue it, that of the manager to count it. It tests the pool before it
 locks it and fills the element unlocked. A release sets the element FREE without a lock
 and counts it under the mutex of the pool. Since FREE does not wait for that mutex it can
 land in the middle of the search for a free element, which therefore looks at one element
 per step. Only a pop and a cleaning hold the manager mutex throughout; a cleaning locks the
 ring anew for each element it pops and pushes back. Every other section and every unlocked
 statement is a step of its own, so all interleavings are runs of this system.
 */
module QueueSteps {
  import opened Common
  import opened QueueState
  import opened QueueTheorems

  /** Where a thread is: in a push, a release, a pop or a cleaning. */
  datatype Pc =
    | Outside
    | Passed(op: Operation, first: bool)
    | Scanning(op: Operation, first: bool, i: nat)
    | Owning(h: Handle, op: Operation, first: bool)
    | Prepared(h: Handle, op: Operation, first: bool)
    | Falling(h: Handle, op: Operation)
    | Entered
    | Freed(pool: nat)
    | Popped(h: Handle)
    | Sweeping
    | Judging(h: Handle)
    | Dropping(h: Handle)
    | SweepFreed(pool: nat)

  /** The locals of ldp_fifo_manager_clean: passes left and start_op. */
  datatype Sweep = Sweep(st: ModuleState, left: nat, started: bool)

  /**
   History of the cleaning that is running, or ran last; no step looks at it. `kept` is what
   the latched filter keeps of the queue at the start. The queue is always `top`, put in
   front since the start and not popped, then `rest`, queued at the start and not popped,
   then `tail`, everything appended since. `front` and `back` are what other threads have
   put in front, newest first, and at the back. `window` is the number of pushes that were
   between queuing and counting at the start. `surplus` counts the activating elements
   that were counted although they did not enter the ring, and those of `front` that the
   cleaning popped.
   */
  datatype History = History(kept: seq<Handle>, top: seq<Handle>, rest: seq<Handle>, tail: seq<Handle>,
                             front: seq<Handle>, back: seq<Handle>, window: nat, surplus: nat)

  /**
   `owner` holds the mutex of the manager. `held` are the elements popped and not yet
   released, `stranded` those a full ring refused.
   */
  datatype Sys = Sys(queue: seq<Handle>, size: nat, pools: seq<Pool>, activating: nat, owner: Option<nat>, pcs: seq<Pc>,
                     held: set<Handle>, stranded: set<Handle>, sweep: Sweep, past: History)

  datatype Action =
    | Try(op: Operation, first: bool) | Take | Scan | Fill | Enter | Fall | Count
    | Free(h: Handle) | Credit
    | Pop | Discount
    | Clean(st: ModuleState) | SweepPop | Judge | Drop | SweepCredit | SweepEnd

  // ----- the steps -----

  /** Lifecycle starts are pushed as activating, and requests into pools that hold an ID. */
  predicate Pushable(pools: seq<Pool>, op: Operation) {
    && WellFormed(op)
    && (op.opId == START_LIFE ==> op.activating)
    && (op.opType == RrReceived && 0 <= op.opIndex < |pools| ==> pools[op.opIndex].parameterSize >= 4)
  }

  predicate ValidIndex(pools: seq<Pool>, op: Operation) {
    0 <= op.opIndex < |pools|
  }

  ghost predicate Full(x: Sys) {
    |x.queue| >= x.size
  }

  /** Some thread searches pool `p`, and holds its mutex. */
  ghost predicate Locked(pcs: seq<Pc>, p: int) {
    exists u :: 0 <= u < |pcs| && pcs[u].Scanning? && pcs[u].op.opIndex == p
  }

  ghost predicate Enabled(x: Sys, t: nat, a: Action) {
    && t < |x.pcs|
    && var p := x.pcs[t];
       match a
       case Try(op, _) => p.Outside? && Pushable(x.pools, op)
       case Take => p.Passed? && ValidIndex(x.pools, p.op) && !Locked(x.pcs, p.op.opIndex)
       case Scan => p.Scanning? && ValidIndex(x.pools, p.op)
       case Fill => p.Owning? && InPools(p.h, x.pools) && WellFormed(p.op)
                    && |At(x.pools, p.h).parameters| == x.pools[p.h.pool].parameterSize
       case Enter => p.Prepared? && InPools(p.h, x.pools)
       case Fall => p.Falling? && InPools(p.h, x.pools)
       case Count => p.Entered? && x.owner.None?
       case Free(h) => p.Outside? && h in x.held && InPools(h, x.pools)
       case Credit => p.Freed? && p.pool < |x.pools| && !Locked(x.pcs, p.pool)
       case Pop => p.Outside? && x.owner.None?
       case Discount => p.Popped? && InPools(p.h, x.pools)
       case Clean(_) => p.Outside? && x.owner.None? && InAll(x.pools, x.queue)
       case SweepPop => p.Sweeping? && x.sweep.left > 0 && InAll(x.pools, x.queue)
       case Judge => p.Judging? && InPools(p.h, x.pools)
       case Drop => p.Dropping? && InPools(p.h, x.pools)
       case SweepCredit => p.SweepFreed? && p.pool < |x.pools| && !Locked(x.pcs, p.pool)
       case SweepEnd => p.Sweeping? && x.sweep.left == 0
  }

  ghost function To(x: Sys, t: nat, p: Pc): Sys
    requires t < |x.pcs|
  {
    x.(pcs := x.pcs[t := p])
  }

  /** Where a push goes on once its element has been queued, or is taken to have been. */
  function AfterEntry(op: Operation): Pc {
    if op.activating then Entered else Outside
  }

  /** Element `h` lands at the back, or in front. */
  ghost function Landed(x: Sys, h: Handle, first: bool): Sys {
    if first then x.(queue := [h] + x.queue, past := x.past.(top := [h] + x.past.top, front := [h] + x.past.front))
    else x.(queue := x.queue + [h], past := x.past.(tail := x.past.tail + [h], back := x.past.back + [h]))
  }

  /** One pass of the loop of ldp_element_pool_get: a free element is taken, a used one is passed over. */
  ghost function ScanNext(x: Sys, t: nat): Sys
    requires t < |x.pcs| && x.pcs[t].Scanning? && ValidIndex(x.pools, x.pcs[t].op)
  {
    var p := x.pcs[t];
    var pool := x.pools[p.op.opIndex];
    if p.i >= |pool.elements| then To(x, t, Outside)
    else if pool.elements[p.i].used then To(x, t, Scanning(p.op, p.first, p.i + 1))
    else
      var h := Handle(p.op.opIndex, p.i);
      To(x.(pools := With(x.pools, h, At(x.pools, h).(used := true), Decrement(pool.available))), t, Owning(h, p.op, p.first))
  }

  /** ldp_push_fifo or ldp_push_first_fifo of a push; the latter leaves an empty ring to ldp_push_fifo. */
  ghost function EnterNext(x: Sys, t: nat): Sys
    requires t < |x.pcs| && x.pcs[t].Prepared?
  {
    var p := x.pcs[t];
    if Full(x) then To(x.(stranded := x.stranded + {p.h}), t, Outside)
    else if p.first && x.queue == [] then To(x, t, Falling(p.h, p.op))
    else To(Landed(x, p.h, p.first), t, AfterEntry(p.op))
  }

  /** The call of ldp_push_fifo in ldp_push_first_fifo, whose result is ignored. */
  ghost function FallNext(x: Sys, t: nat): Sys
    requires t < |x.pcs| && x.pcs[t].Falling?
  {
    var p := x.pcs[t];
    if Full(x) then
      To(x.(stranded := x.stranded + {p.h},
            past := x.past.(surplus := x.past.surplus + if p.op.activating then 1 else 0)), t, AfterEntry(p.op))
    else To(Landed(x, p.h, false), t, AfterEntry(p.op))
  }

  /** The pool gets one element more. */
  ghost function Credited(x: Sys, p: nat): seq<Pool>
    requires p < |x.pools|
  {
    x.pools[p := x.pools[p].(available := Increment(x.pools[p].available))]
  }

  ghost function CleanNext(x: Sys, t: nat, st: ModuleState): Sys
    requires t < |x.pcs| && InAll(x.pools, x.queue)
  {
    To(x.(owner := Some(t), activating := 0, sweep := Sweep(st, |x.queue|, false),
          past := History(Kept(x.pools, x.queue, false, st), [], x.queue, [], [], [], Entering(x.pcs), 0)), t, Sweeping)
  }

  /** A pass begins with the front element; an empty ring would only use the pass up. */
  ghost function SweepPopNext(x: Sys, t: nat): Sys
    requires t < |x.pcs| && x.sweep.left > 0 && InAll(x.pools, x.queue)
  {
    var y := x.(sweep := x.sweep.(left := x.sweep.left - 1));
    if x.queue == [] then y
    else
      var h := x.queue[0];
      var past :=
        if x.past.top != [] then
          x.past.(top := x.past.top[1..], surplus := x.past.surplus + if At(x.pools, h).activating then 1 else 0)
        else if x.past.rest != [] then x.past.(rest := x.past.rest[1..])
        else x.past;
      To(y.(queue := x.queue[1..], past := past), t, Judging(h))
  }

  ghost predicate Counts(e: Element, st: ModuleState) {
    IsStart(e, st) || e.activating
  }

  /** An element kept is pushed back, whatever ldp_push_fifo answers; another one is dropped. */
  ghost function JudgeNext(x: Sys, t: nat): Sys
    requires t < |x.pcs| && x.pcs[t].Judging? && InPools(x.pcs[t].h, x.pools)
  {
    var h := x.pcs[t].h;
    var e := At(x.pools, h);
    if Keeps(x.sweep.started, e, x.sweep.st) then
      var y := x.(activating := if Counts(e, x.sweep.st) then Increment(x.activating) else x.activating,
                  sweep := x.sweep.(started := x.sweep.started || IsStart(e, x.sweep.st)));
      To(if Full(x) then y.(stranded := x.stranded + {h},
                            past := x.past.(surplus := x.past.surplus + if Counts(e, x.sweep.st) then 1 else 0))
         else y.(queue := x.queue + [h], past := x.past.(tail := x.past.tail + [h])), t, Sweeping)
    else To(x, t, Dropping(h))
  }

  ghost function Unused(pools: seq<Pool>, h: Handle): seq<Pool>
    requires InPools(h, pools)
  {
    With(pools, h, At(pools, h).(used := false), pools[h.pool].available)
  }

  ghost function Next(x: Sys, t: nat, a: Action): Sys
    requires Enabled(x, t, a)
  {
    var p := x.pcs[t];
    match a
    case Try(op, first) =>
      if ValidIndex(x.pools, op) && x.pools[op.opIndex].available != 0 then To(x, t, Passed(op, first)) else x
    case Take => To(x, t, Scanning(p.op, p.first, 0))
    case Scan => ScanNext(x, t)
    case Fill =>
      var e := Filled(At(x.pools, p.h), p.op, x.pools[p.h.pool].parameterSize);
      To(x.(pools := With(x.pools, p.h, e, x.pools[p.h.pool].available)), t, Prepared(p.h, p.op, p.first))
    case Enter => EnterNext(x, t)
    case Fall => FallNext(x, t)
    case Count => To(x.(activating := Increment(x.activating)), t, Outside)
    case Free(h) => To(x.(pools := Unused(x.pools, h), held := x.held - {h}), t, Freed(h.pool))
    case Credit => To(x.(pools := Credited(x, p.pool)), t, Outside)
    case Pop =>
      if x.queue == [] then x else To(x.(queue := x.queue[1..], owner := Some(t)), t, Popped(x.queue[0]))
    case Discount =>
      To(x.(activating := if At(x.pools, p.h).activating then Decrement(x.activating) else x.activating,
            owner := None, held := x.held + {p.h}), t, Outside)
    case Clean(st) => CleanNext(x, t, st)
    case SweepPop => SweepPopNext(x, t)
    case Judge => JudgeNext(x, t)
    case Drop => To(x.(pools := Unused(x.pools, p.h)), t, SweepFreed(p.h.pool))
    case SweepCredit => To(x.(pools := Credited(x, p.pool)), t, Sweeping)
    case SweepEnd => To(x.(owner := None), t, Outside)
  }

  // ----- counting threads and elements -----

  /** Number of free elements. */
  ghost function FreeOf(elements: seq<Element>): nat {
    if elements == [] then 0 else (if elements[0].used then 0 else 1) + FreeOf(elements[1..])
  }

  /** Releases of pool `p` between FREE and the count. */
  ghost function Freeing(pcs: seq<Pc>, p: nat): nat {
    if pcs == [] then 0 else (if Frees(pcs[0], p) then 1 else 0) + Freeing(pcs[1..], p)
  }

  ghost predicate Frees(c: Pc, p: nat) {
    c == Freed(p) || c == SweepFreed(p)
  }

  /** Pushes between queuing and counting. */
  ghost function Entering(pcs: seq<Pc>): nat {
    if pcs == [] then 0 else (if pcs[0].Entered? then 1 else 0) + Entering(pcs[1..])
  }

  ghost function CountActivating(pools: seq<Pool>, q: seq<Handle>): nat
    requires InAll(pools, q)
  {
    if q == [] then 0 else (if At(pools, q[0]).activating then 1 else 0) + CountActivating(pools, q[1..])
  }

  /** The element in the hands of a thread. */
  ghost predicate HasHand(c: Pc) {
    c.Owning? || c.Prepared? || c.Falling? || c.Popped? || c.Judging? || c.Dropping?
  }

  ghost function Hands(pcs: seq<Pc>): set<Handle> {
    set t | 0 <= t < |pcs| && HasHand(pcs[t]) :: pcs[t].h
  }

  // ----- the invariant -----

  /** In a section of the manager mutex. */
  ghost predicate InSection(c: Pc) {
    c.Popped? || InSweep(c)
  }

  ghost predicate InSweep(c: Pc) {
    c.Sweeping? || c.Judging? || c.Dropping? || c.SweepFreed?
  }

  ghost predicate MutexOk(owner: Option<nat>, pcs: seq<Pc>) {
    && (owner.Some? ==> owner.value < |pcs| && InSection(pcs[owner.value]))
    && forall t :: 0 <= t < |pcs| && InSection(pcs[t]) ==> owner == Some(t)
  }

  /** A filled element can be judged, and counts when it starts the module. */
  ghost predicate ContentOk(pools: seq<Pool>, h: Handle) {
    InPools(h, pools) && IdReadable(At(pools, h)) && (At(pools, h).opId == START_LIFE ==> At(pools, h).activating)
  }

  ghost predicate PcOk(pools: seq<Pool>, c: Pc) {
    match c
    case Passed(op, _) => Pushable(pools, op) && ValidIndex(pools, op)
    case Scanning(op, _, _) => Pushable(pools, op) && ValidIndex(pools, op)
    case Owning(h, op, _) => Pushable(pools, op) && ValidIndex(pools, op) && h.pool == op.opIndex && InPools(h, pools)
    case Prepared(h, op, _) => ContentOk(pools, h) && At(pools, h).activating == op.activating
    case Falling(h, op) => ContentOk(pools, h) && At(pools, h).activating == op.activating
    case Popped(h) => ContentOk(pools, h)
    case Judging(h) => ContentOk(pools, h)
    case Dropping(h) => ContentOk(pools, h)
    case Freed(p) => p < |pools|
    case SweepFreed(p) => p < |pools|
    case _ => true
  }

  ghost predicate PcsOk(pools: seq<Pool>, pcs: seq<Pc>) {
    forall t :: 0 <= t < |pcs| ==> PcOk(pools, pcs[t])
  }

  /** No element is in the hands of two threads. */
  ghost predicate HandsApart(pcs: seq<Pc>) {
    forall t, u :: 0 <= t < u < |pcs| && HasHand(pcs[t]) && HasHand(pcs[u]) ==> pcs[t].h != pcs[u].h
  }

  /** Every element is free, queued, held, stranded or in a thread's hands, and only one of these. */
  ghost predicate Owned(pools: seq<Pool>, q: seq<Handle>, held: set<Handle>, stranded: set<Handle>, hands: set<Handle>) {
    && (forall h :: h in held + stranded + hands ==> InPools(h, pools))
    && (forall h :: h in q ==> InPools(h, pools) && h !in held && h !in stranded && h !in hands)
    && held !! stranded && held !! hands && stranded !! hands
    && forall h :: InPools(h, pools) ==> (At(pools, h).used <==> h in q || h in held || h in stranded || h in hands)
  }

  ghost predicate QueueOk(pools: seq<Pool>, q: seq<Handle>) {
    Distinct(q) && forall h :: h in q ==> ContentOk(pools, h)
  }

  /** uint32_t arithmetic. */
  function Mod32(n: int): nat {
    n % 0x1_0000_0000
  }

  ghost predicate PoolOk(p: Pool, freeing: nat) {
    PoolShape(p) && |p.elements| < 0x1_0000_0000 && p.available == Mod32(FreeOf(p.elements) - freeing)
  }

  /** The available count runs behind by the releases in progress. */
  ghost predicate PoolsOk(pools: seq<Pool>, pcs: seq<Pc>) {
    forall p :: 0 <= p < |pools| ==> PoolOk(pools[p], Freeing(pcs, p))
  }

  ghost predicate Inv(x: Sys) {
    && 0 < x.size < 0x1_0000_0000 && |x.queue| <= x.size && |x.pcs| < 0x1_0000_0000
    && MutexOk(x.owner, x.pcs) && PcsOk(x.pools, x.pcs) && HandsApart(x.pcs)
    && Owned(x.pools, x.queue, x.held, x.stranded, Hands(x.pcs))
    && QueueOk(x.pools, x.queue) && PoolsOk(x.pools, x.pcs)
  }

  // ----- threads change one at a time -----

  lemma {:induction false} FreeingUpdate(pcs: seq<Pc>, t: nat, c: Pc, p: nat)
    requires t < |pcs|
    ensures Freeing(pcs[t := c], p) == Freeing(pcs, p) - (if Frees(pcs[t], p) then 1 else 0) + (if Frees(c, p) then 1 else 0)
  {
    if t == 0 {
      assert pcs[t := c][1..] == pcs[1..];
    } else {
      FreeingUpdate(pcs[1..], t - 1, c, p);
      assert pcs[t := c][1..] == pcs[1..][t - 1 := c];
    }
  }

  lemma {:induction false} EnteringUpdate(pcs: seq<Pc>, t: nat, c: Pc)
    requires t < |pcs|
    ensures Entering(pcs[t := c]) == Entering(pcs) - (if pcs[t].Entered? then 1 else 0) + (if c.Entered? then 1 else 0)
  {
    if t == 0 {
      assert pcs[t := c][1..] == pcs[1..];
    } else {
      EnteringUpdate(pcs[1..], t - 1, c);
      assert pcs[t := c][1..] == pcs[1..][t - 1 := c];
    }
  }

  ghost function HandOf(c: Pc): set<Handle> {
    if HasHand(c) then {c.h} else {}
  }

  lemma HandsUpdate(pcs: seq<Pc>, t: nat, c: Pc)
    requires t < |pcs| && HandsApart(pcs)
    ensures Hands(pcs[t := c]) == Hands(pcs) - HandOf(pcs[t]) + HandOf(c)
    ensures HandOf(pcs[t]) <= Hands(pcs)
    ensures HandOf(c) !! (Hands(pcs) - HandOf(pcs[t])) ==> HandsApart(pcs[t := c])
    ensures forall u :: 0 <= u < |pcs| && u != t && HasHand(pcs[u]) ==> pcs[u].h in Hands(pcs) - HandOf(pcs[t])
  {
    var after := pcs[t := c];
    forall u | 0 <= u < |pcs| && u != t && HasHand(pcs[u]) ensures pcs[u].h in Hands(pcs) - HandOf(pcs[t]) {
      assert pcs[u].h in Hands(pcs);
    }
    forall h ensures h in Hands(after) <==> h in Hands(pcs) - HandOf(pcs[t]) + HandOf(c) {
      if h in Hands(after) {
        var u :| 0 <= u < |after| && HasHand(after[u]) && after[u].h == h;
        assert u != t ==> after[u] == pcs[u];
      }
      if h in Hands(pcs) - HandOf(pcs[t]) {
        var u :| 0 <= u < |pcs| && HasHand(pcs[u]) && pcs[u].h == h;
        assert after[u] == pcs[u];
      }
      if h in HandOf(c) { assert after[t] == c; }
    }
    if HandOf(c) !! (Hands(pcs) - HandOf(pcs[t])) {
      forall u, v | 0 <= u < v < |after| && HasHand(after[u]) && HasHand(after[v]) ensures after[u].h != after[v].h {
        if u != t && v != t { assert after[u] == pcs[u] && after[v] == pcs[v]; }
      }
    }
  }

  // ----- pools change one element at a time -----

  /** `after` has the shape of `pools`, and the same elements outside `s`. */
  ghost predicate Changes(pools: seq<Pool>, after: seq<Pool>, s: set<Handle>) {
    && |after| == |pools|
    && (forall p :: 0 <= p < |pools| ==> after[p].parameterSize == pools[p].parameterSize && |after[p].elements| == |pools[p].elements|)
    && forall g :: InPools(g, pools) && g !in s ==> At(after, g) == At(pools, g)
  }

  lemma WithAt(pools: seq<Pool>, h: Handle, e: Element, available: nat)
    requires InPools(h, pools)
    ensures Changes(pools, With(pools, h, e, available), {h}) && At(With(pools, h, e, available), h) == e
  {
  }

  lemma CreditedAt(x: Sys, p: nat)
    requires p < |x.pools|
    ensures Changes(x.pools, Credited(x, p), {})
  {
  }

  lemma PcsAfter(pools: seq<Pool>, after: seq<Pool>, s: set<Handle>, pcs: seq<Pc>, t: nat, c: Pc)
    requires Changes(pools, after, s) && PcsOk(pools, pcs) && t < |pcs| && PcOk(after, c)
    requires forall u :: 0 <= u < |pcs| && u != t && HasHand(pcs[u]) ==> pcs[u].h !in s
    ensures PcsOk(after, pcs[t := c])
  {
    forall u | 0 <= u < |pcs| && u != t ensures PcOk(after, pcs[u]) {
      assert PcOk(pools, pcs[u]);
      assert HasHand(pcs[u]) ==> InPools(pcs[u].h, pools);
    }
  }

  lemma QueueAfter(pools: seq<Pool>, after: seq<Pool>, s: set<Handle>, q: seq<Handle>)
    requires Changes(pools, after, s) && QueueOk(pools, q) && forall h :: h in q ==> h !in s
    ensures QueueOk(after, q)
  {
    forall h | h in q ensures ContentOk(after, h) {
      assert ContentOk(pools, h);
    }
  }

  lemma {:induction false} FreeUpdate(elements: seq<Element>, i: nat, e: Element)
    requires i < |elements|
    ensures FreeOf(elements[i := e]) == FreeOf(elements) + (if elements[i].used then 1 else 0) - (if e.used then 1 else 0)
  {
    if i == 0 {
      assert elements[0 := e][1..] == elements[1..];
    } else {
      assert elements[i := e][1..] == elements[1..][i - 1 := e];
      FreeUpdate(elements[1..], i - 1, e);
    }
  }

  lemma Mod32Step(n: int)
    ensures Increment(Mod32(n)) == Mod32(n + 1) && Decrement(Mod32(n)) == Mod32(n - 1)
  {
  }

  /** The threads go from `pcs` to `pcs2`, one element and the available count of its pool change. */
  lemma PoolsAfter(pools: seq<Pool>, pcs: seq<Pc>, pcs2: seq<Pc>, h: Handle, e: Element, available: nat)
    requires PoolsOk(pools, pcs) && InPools(h, pools) && |e.parameters| == pools[h.pool].parameterSize
    requires forall p :: 0 <= p < |pools| && p != h.pool ==> Freeing(pcs2, p) == Freeing(pcs, p)
    requires available == Mod32(FreeOf(pools[h.pool].elements) + (if At(pools, h).used then 1 else 0) - (if e.used then 1 else 0)
                                - Freeing(pcs2, h.pool))
    ensures PoolsOk(With(pools, h, e, available), pcs2)
  {
    var after := With(pools, h, e, available);
    FreeUpdate(pools[h.pool].elements, h.index, e);
    forall p | 0 <= p < |after| ensures PoolOk(after[p], Freeing(pcs2, p)) {
      assert PoolOk(pools[p], Freeing(pcs, p));
    }
  }

  /** Nothing of the pools changes, and no thread starts or ends a release. */
  lemma PoolsSame(pools: seq<Pool>, pcs: seq<Pc>, t: nat, c: Pc)
    requires PoolsOk(pools, pcs) && t < |pcs| && (forall p :: !Frees(pcs[t], p)) && forall p :: !Frees(c, p)
    ensures PoolsOk(pools, pcs[t := c])
  {
    forall p | 0 <= p < |pools| ensures PoolOk(pools[p], Freeing(pcs[t := c], p)) {
      FreeingUpdate(pcs, t, c, p);
      assert PoolOk(pools[p], Freeing(pcs, p));
    }
  }

  lemma MutexSame(owner: Option<nat>, pcs: seq<Pc>, t: nat, c: Pc)
    requires MutexOk(owner, pcs) && t < |pcs| && InSection(pcs[t]) == InSection(c)
    ensures MutexOk(owner, pcs[t := c])
  {
  }

  // ----- every step keeps the invariant -----

  /** A step that changes no pool: thread `t` goes on as `c`, elements may change hands. */
  lemma MoveInv(x: Sys, y: Sys, t: nat, c: Pc)
    requires Inv(x) && t < |x.pcs| && y.size == x.size && y.pools == x.pools && y.pcs == x.pcs[t := c]
    requires |y.queue| <= y.size && MutexOk(y.owner, y.pcs) && PcOk(x.pools, c)
    requires (forall p :: !Frees(x.pcs[t], p)) && forall p :: !Frees(c, p)
    requires HandOf(c) <= HandOf(x.pcs[t]) + (set h | h in x.queue)
    requires QueueOk(y.pools, y.queue)
    requires Owned(y.pools, y.queue, y.held, y.stranded, Hands(x.pcs) - HandOf(x.pcs[t]) + HandOf(c))
    ensures Inv(y)
  {
    HandsUpdate(x.pcs, t, c);
    PoolsSame(x.pools, x.pcs, t, c);
  }

  lemma QueueFacts(pools: seq<Pool>, q: seq<Handle>, h: Handle)
    requires QueueOk(pools, q)
    ensures InAll(pools, q)
    ensures ContentOk(pools, h) && h !in q ==> QueueOk(pools, q + [h]) && QueueOk(pools, [h] + q)
    ensures q != [] ==> QueueOk(pools, q[1..]) && q[0] !in q[1..] && ContentOk(pools, q[0])
                        && forall g :: g in q <==> g == q[0] || g in q[1..]
  {
    if q != [] {
      forall g | g in q ensures g == q[0] || g in q[1..] {
        var k :| 0 <= k < |q| && q[k] == g;
        if k > 0 { assert q[1..][k - 1] == g; }
      }
      assert forall k :: 0 <= k < |q[1..]| ==> q[1..][k] == q[k + 1];
    }
    forall k | 0 <= k < |q| ensures InPools(q[k], pools) {
      assert q[k] in q;
    }
  }

  /** An element goes from a thread's hands to the queue or is stranded. */
  lemma LeaveHands(x: Sys, y: Sys, t: nat, c: Pc)
    requires Inv(x) && t < |x.pcs| && HasHand(x.pcs[t]) && ContentOk(x.pools, x.pcs[t].h) && !HasHand(c) && PcOk(x.pools, c)
    requires y.size == x.size && y.pools == x.pools && y.pcs == x.pcs[t := c] && y.owner == x.owner && y.held == x.held
    requires InSection(c) == InSection(x.pcs[t]) && (forall p :: !Frees(c, p))
    requires var h := x.pcs[t].h;
             || (y.queue == x.queue && y.stranded == x.stranded + {h})
             || (|x.queue| < x.size && y.stranded == x.stranded && (y.queue == x.queue + [h] || y.queue == [h] + x.queue))
    ensures Inv(y)
  {
    var h := x.pcs[t].h;
    HandsUpdate(x.pcs, t, c);
    QueueFacts(x.pools, x.queue, h);
    MutexSame(x.owner, x.pcs, t, c);
    PoolsSame(x.pools, x.pcs, t, c);
    hide PoolsOk, PcOk, ContentOk, QueueOk, MutexOk, HandsApart, Hands;
    assert y.queue != x.queue ==> forall g :: g in y.queue <==> g == h || g in x.queue;
    MoveInv(x, y, t, c);
  }

  lemma EnterInv(x: Sys, t: nat, a: Action)
    requires Inv(x) && Enabled(x, t, a) && (a.Enter? || a.Fall?)
    ensures Inv(Next(x, t, a))
  {
    var y, p := Next(x, t, a), x.pcs[t];
    assert PcOk(x.pools, p);
    if a.Enter? && !Full(x) && p.first && x.queue == [] {
      HandsUpdate(x.pcs, t, y.pcs[t]);
      MutexSame(x.owner, x.pcs, t, y.pcs[t]);
      MoveInv(x, y, t, y.pcs[t]);
    } else {
      LeaveHands(x, y, t, y.pcs[t]);
    }
  }

  lemma JudgeInv(x: Sys, t: nat)
    requires Inv(x) && Enabled(x, t, Judge)
    ensures Inv(Next(x, t, Judge))
  {
    var y, p := Next(x, t, Judge), x.pcs[t];
    assert PcOk(x.pools, p);
    if y.pcs[t].Dropping? {
      HandsUpdate(x.pcs, t, y.pcs[t]);
      MutexSame(x.owner, x.pcs, t, y.pcs[t]);
      MoveInv(x, y, t, y.pcs[t]);
    } else {
      LeaveHands(x, y, t, y.pcs[t]);
    }
  }

  /** The front element goes to a thread's hands. */
  lemma PopInv(x: Sys, t: nat, a: Action)
    requires Inv(x) && Enabled(x, t, a) && (a.Pop? || a.SweepPop?)
    ensures Inv(Next(x, t, a))
  {
    if x.queue != [] {
      var y := Next(x, t, a);
      assert MutexOk(y.owner, y.pcs);
      PoppedInv(x, y, t, y.pcs[t]);
    }
  }

  lemma PoppedInv(x: Sys, y: Sys, t: nat, c: Pc)
    requires Inv(x) && t < |x.pcs| && x.queue != [] && !HasHand(x.pcs[t]) && (forall p :: !Frees(x.pcs[t], p))
    requires (c.Popped? || c.Judging?) && c.h == x.queue[0] && y.pcs == x.pcs[t := c] && y.queue == x.queue[1..]
    requires y.pools == x.pools && y.size == x.size && y.held == x.held && y.stranded == x.stranded && MutexOk(y.owner, y.pcs)
    ensures Inv(y)
  {
    QueueFacts(x.pools, x.queue, x.queue[0]);
    HandsUpdate(x.pcs, t, c);
    hide PoolsOk, ContentOk, QueueOk, HandsApart, Hands, MutexOk;
    MoveInv(x, y, t, c);
  }

  /** Steps that leave the queue as it is. */
  lemma QuietInv(x: Sys, t: nat, a: Action)
    requires Inv(x) && Enabled(x, t, a) && (a.Try? || a.Take? || a.Count? || a.Clean? || a.SweepEnd?)
    ensures Inv(Next(x, t, a))
  {
    var y := Next(x, t, a);
    var c := y.pcs[t];
    assert MutexOk(y.owner, y.pcs) || y == x;
    if y != x { IdleInv(x, y, t, c); }
  }

  lemma IdleInv(x: Sys, y: Sys, t: nat, c: Pc)
    requires Inv(x) && t < |x.pcs| && !HasHand(x.pcs[t]) && !HasHand(c) && y.pcs == x.pcs[t := c] && MutexOk(y.owner, y.pcs)
    requires (forall p :: !Frees(x.pcs[t], p)) && (forall p :: !Frees(c, p)) && PcOk(x.pools, c)
    requires y.queue == x.queue && y.pools == x.pools && y.size == x.size && y.held == x.held && y.stranded == x.stranded
    ensures Inv(y)
  {
    HandsUpdate(x.pcs, t, c);
    hide MutexOk, PcOk, QueueOk, PoolsOk, Hands, HandsApart;
    MoveInv(x, y, t, c);
  }

  /** A popped element goes to the consumer. */
  lemma DiscountInv(x: Sys, t: nat)
    requires Inv(x) && Enabled(x, t, Discount)
    ensures Inv(Next(x, t, Discount))
  {
    var y := Next(x, t, Discount);
    assert MutexOk(y.owner, y.pcs);
    HandsUpdate(x.pcs, t, Outside);
    assert x.pcs[t].h in HandOf(x.pcs[t]);
    hide MutexOk, QueueOk, PoolsOk, Hands, HandsApart;
    MoveInv(x, y, t, Outside);
  }

  lemma ScanInv(x: Sys, t: nat)
    requires Inv(x) && Enabled(x, t, Scan)
    ensures Inv(Next(x, t, Scan))
  {
    var y, p := Next(x, t, Scan), x.pcs[t];
    var pool := x.pools[p.op.opIndex];
    var c := y.pcs[t];
    assert PcOk(x.pools, p);
    if p.i >= |pool.elements| || pool.elements[p.i].used {
      assert MutexOk(y.owner, y.pcs);
      IdleInv(x, y, t, c);
    } else {
      HandsUpdate(x.pcs, t, c);
      MutexSame(x.owner, x.pcs, t, c);
      var h := Handle(p.op.opIndex, p.i);
      var e := At(x.pools, h).(used := true);
      assert PoolOk(pool, Freeing(x.pcs, h.pool));
      forall q ensures Freeing(y.pcs, q) == Freeing(x.pcs, q) { FreeingUpdate(x.pcs, t, c, q); }
      WithAt(x.pools, h, e, Decrement(pool.available));
      TakeParts(x, y, t, h, e, pool.available);
    }
  }

  lemma TakeParts(x: Sys, y: Sys, t: nat, h: Handle, e: Element, available: nat)
    requires Inv(x) && t < |x.pcs| && InPools(h, x.pools) && e == At(x.pools, h).(used := true) && !At(x.pools, h).used
    requires available == x.pools[h.pool].available && PoolOk(x.pools[h.pool], Freeing(x.pcs, h.pool))
    requires x.pcs[t].Scanning? && PcOk(x.pools, x.pcs[t]) && h.pool == x.pcs[t].op.opIndex
    requires y == To(x.(pools := With(x.pools, h, e, Decrement(available))), t, Owning(h, x.pcs[t].op, x.pcs[t].first))
    requires forall q :: Freeing(y.pcs, q) == Freeing(x.pcs, q)
    requires Changes(x.pools, y.pools, {h}) && At(y.pools, h) == e && MutexOk(y.owner, y.pcs)
    ensures Inv(y)
  {
    var c := y.pcs[t];
    HandsUpdate(x.pcs, t, c);
    Mod32Step(FreeOf(x.pools[h.pool].elements) - Freeing(x.pcs, h.pool));
    PoolsAfter(x.pools, x.pcs, y.pcs, h, e, Decrement(available));
    assert h !in Hands(x.pcs) && h !in x.queue;
    OwnedMore(x.pools, y.pools, h, x.queue, x.held, x.stranded, Hands(x.pcs));
    assert Hands(x.pcs) - HandOf(x.pcs[t]) + HandOf(c) == Hands(x.pcs) + {h};
    hide PoolsOk, MutexOk, With, Mod32, FreeOf, Owned;
    QueueAfter(x.pools, y.pools, {h}, x.queue);
    PcsAfter(x.pools, y.pools, {h}, x.pcs, t, c);
  }

  /** The parts of the invariant after thread `t` has changed element `h` and goes on as `c`. */
  lemma ChangedInv(x: Sys, y: Sys, t: nat, s: set<Handle>, c: Pc)
    requires Inv(x) && t < |x.pcs| && Changes(x.pools, y.pools, s) && y.pcs == x.pcs[t := c] && y.queue == x.queue
    requires y.size == x.size && y.owner == x.owner && InSection(c) == InSection(x.pcs[t]) && PcOk(y.pools, c)
    requires HandOf(c) <= HandOf(x.pcs[t]) && forall h :: h in s ==> h !in x.queue && h !in Hands(x.pcs) - HandOf(x.pcs[t])
    requires PoolsOk(y.pools, y.pcs)
    requires Owned(y.pools, x.queue, y.held, y.stranded, Hands(x.pcs) - HandOf(x.pcs[t]) + HandOf(c))
    ensures Inv(y)
  {
    HandsUpdate(x.pcs, t, c);
    MutexSame(x.owner, x.pcs, t, c);
    hide PoolsOk, MutexOk, Changes, ContentOk, Owned, HandsApart, Hands;
    QueueAfter(x.pools, y.pools, s, x.queue);
    PcsAfter(x.pools, y.pools, s, x.pcs, t, c);
  }

  lemma FillInv(x: Sys, t: nat)
    requires Inv(x) && Enabled(x, t, Fill)
    ensures Inv(Next(x, t, Fill))
  {
    var y, p := Next(x, t, Fill), x.pcs[t];
    assert PcOk(x.pools, p);
    var e := Filled(At(x.pools, p.h), p.op, x.pools[p.h.pool].parameterSize);
    FilledOk(x.pools, p, e);
    FillParts(x, y, t, p.h, e);
  }

  lemma FilledOk(pools: seq<Pool>, p: Pc, e: Element)
    requires p.Owning? && PcOk(pools, p) && |At(pools, p.h).parameters| == pools[p.h.pool].parameterSize
    requires e == Filled(At(pools, p.h), p.op, pools[p.h.pool].parameterSize)
    ensures e.used && |e.parameters| == pools[p.h.pool].parameterSize && e.activating == p.op.activating
    ensures IdReadable(e) && (e.opId == START_LIFE ==> e.activating)
  {
  }

  lemma FillParts(x: Sys, y: Sys, t: nat, h: Handle, e: Element)
    requires Inv(x) && t < |x.pcs| && x.pcs[t].Owning? && x.pcs[t].h == h && InPools(h, x.pools)
    requires e.used && |e.parameters| == x.pools[h.pool].parameterSize && e.activating == x.pcs[t].op.activating
    requires IdReadable(e) && (e.opId == START_LIFE ==> e.activating)
    requires y == To(x.(pools := With(x.pools, h, e, x.pools[h.pool].available)), t, Prepared(h, x.pcs[t].op, x.pcs[t].first))
    ensures Inv(y)
  {
    var c := y.pcs[t];
    HandsUpdate(x.pcs, t, c);
    assert h in HandOf(x.pcs[t]);
    forall q ensures Freeing(y.pcs, q) == Freeing(x.pcs, q) { FreeingUpdate(x.pcs, t, c, q); }
    assert PoolOk(x.pools[h.pool], Freeing(x.pcs, h.pool));
    assert At(x.pools, h).used;
    PoolsAfter(x.pools, x.pcs, y.pcs, h, e, x.pools[h.pool].available);
    WithAt(x.pools, h, e, x.pools[h.pool].available);
    OwnedSame(x.pools, y.pools, h, x.queue, x.held, x.stranded, Hands(x.pcs));
    assert Hands(x.pcs) - HandOf(x.pcs[t]) + HandOf(c) == Hands(x.pcs);
    hide Inv, PoolsOk, Owned, With, HandsApart, Hands, FreeOf, Mod32, Changes;
    ChangedInv(x, y, t, {h}, c);
  }

  /** The contents of a used element do not matter to who owns it. */
  lemma OwnedSame(pools: seq<Pool>, after: seq<Pool>, h: Handle, q: seq<Handle>, held: set<Handle>, stranded: set<Handle>, hands: set<Handle>)
    requires Owned(pools, q, held, stranded, hands) && Changes(pools, after, {h}) && InPools(h, pools)
    requires At(after, h).used == At(pools, h).used
    ensures Owned(after, q, held, stranded, hands)
  {
    forall g | InPools(g, after) ensures InPools(g, pools) && At(after, g).used == At(pools, g).used {
    }
  }

  /** An element let go of is free, and nobody's. */
  lemma OwnedLess(pools: seq<Pool>, after: seq<Pool>, h: Handle, q: seq<Handle>, held: set<Handle>, stranded: set<Handle>, hands: set<Handle>)
    requires Owned(pools, q, held, stranded, hands) && Changes(pools, after, {h}) && InPools(h, pools)
    requires !At(after, h).used && (h in held || h in hands)
    ensures Owned(after, q, held - {h}, stranded, hands - {h})
  {
    forall g | InPools(g, after) ensures InPools(g, pools) && (g != h ==> At(after, g) == At(pools, g)) {
    }
  }

  /** An element taken is used, and in the hands of the thread. */
  lemma OwnedMore(pools: seq<Pool>, after: seq<Pool>, h: Handle, q: seq<Handle>, held: set<Handle>, stranded: set<Handle>, hands: set<Handle>)
    requires Owned(pools, q, held, stranded, hands) && Changes(pools, after, {h}) && InPools(h, pools)
    requires !At(pools, h).used && At(after, h).used
    ensures Owned(after, q, held, stranded, hands + {h})
  {
    forall g | InPools(g, after) ensures InPools(g, pools) && (g != h ==> At(after, g) == At(pools, g)) {
    }
  }

  /** An element is marked FREE, unlocked: a consumer or the cleaning lets go of it. */
  lemma FreeInv(x: Sys, t: nat, a: Action)
    requires Inv(x) && Enabled(x, t, a) && (a.Free? || a.Drop?)
    ensures Inv(Next(x, t, a))
  {
    var y := Next(x, t, a);
    var h, c := if a.Free? then a.h else x.pcs[t].h, y.pcs[t];
    var e := At(x.pools, h).(used := false);
    HandsUpdate(x.pcs, t, c);
    MutexSame(x.owner, x.pcs, t, c);
    forall q ensures Freeing(y.pcs, q) == Freeing(x.pcs, q) + (if q == h.pool then 1 else 0) { FreeingUpdate(x.pcs, t, c, q); }
    assert PoolOk(x.pools[h.pool], Freeing(x.pcs, h.pool));
    WithAt(x.pools, h, e, x.pools[h.pool].available);
    FreeParts(x, y, t, h, e);
  }

  lemma FreeParts(x: Sys, y: Sys, t: nat, h: Handle, e: Element)
    requires Inv(x) && t < |x.pcs| && InPools(h, x.pools) && e == At(x.pools, h).(used := false)
    requires PoolOk(x.pools[h.pool], Freeing(x.pcs, h.pool))
    requires (x.pcs[t] == Dropping(h) && y.held == x.held) || (x.pcs[t] == Outside && h in x.held && y.held == x.held - {h})
    requires y.pools == With(x.pools, h, e, x.pools[h.pool].available)
    requires y.queue == x.queue && y.size == x.size && y.stranded == x.stranded && y.owner == x.owner
    requires |y.pcs| == |x.pcs| && y.pcs == x.pcs[t := y.pcs[t]] && (y.pcs[t] == Freed(h.pool) || y.pcs[t] == SweepFreed(h.pool))
    requires forall q :: Freeing(y.pcs, q) == Freeing(x.pcs, q) + (if q == h.pool then 1 else 0)
    requires Changes(x.pools, y.pools, {h}) && At(y.pools, h) == e && MutexOk(y.owner, y.pcs)
    ensures Inv(y)
  {
    var c := y.pcs[t];
    HandsUpdate(x.pcs, t, c);
    assert At(x.pools, h).used && h !in x.queue;
    assert x.pcs[t].Dropping? ==> h in Hands(x.pcs);
    PoolsAfter(x.pools, x.pcs, y.pcs, h, e, x.pools[h.pool].available);
    OwnedLess(x.pools, y.pools, h, x.queue, x.held, x.stranded, Hands(x.pcs));
    assert h !in Hands(x.pcs) - HandOf(x.pcs[t]);
    assert Hands(x.pcs) - HandOf(x.pcs[t]) + HandOf(c) == Hands(x.pcs) - {h} && y.held == x.held - {h};
    hide Inv, PoolsOk, With, Mod32, FreeOf, Owned, HandsApart, Hands, Changes;
    ChangedInv(x, y, t, {h}, c);
  }

  lemma CreditInv(x: Sys, t: nat, a: Action)
    requires Inv(x) && Enabled(x, t, a) && (a.Credit? || a.SweepCredit?)
    ensures Inv(Next(x, t, a))
  {
    var y, p := Next(x, t, a), x.pcs[t].pool;
    var c := y.pcs[t];
    CreditedAt(x, p);
    CreditedPools(x, t, c, p);
    assert Owned(y.pools, x.queue, x.held, x.stranded, Hands(x.pcs)) by {
      assert forall g :: InPools(g, y.pools) <==> InPools(g, x.pools);
    }
    assert Hands(x.pcs) - HandOf(x.pcs[t]) + HandOf(c) == Hands(x.pcs);
    hide Inv, PoolsOk, Owned, HandsApart, Hands, Changes, Credited;
    ChangedInv(x, y, t, {}, c);
  }

  lemma CreditedPools(x: Sys, t: nat, c: Pc, p: nat)
    requires PoolsOk(x.pools, x.pcs) && t < |x.pcs| && p < |x.pools| && Frees(x.pcs[t], p)
    requires forall q :: !Frees(c, q)
    ensures PoolsOk(Credited(x, p), x.pcs[t := c])
  {
    var after := Credited(x, p);
    forall q | 0 <= q < |after| ensures PoolOk(after[q], Freeing(x.pcs[t := c], q)) {
      FreeingUpdate(x.pcs, t, c, q);
      assert PoolOk(x.pools[q], Freeing(x.pcs, q));
      Mod32Step(FreeOf(x.pools[q].elements) - Freeing(x.pcs, q));
    }
  }

  lemma StepInv(x: Sys, t: nat, a: Action)
    requires Inv(x) && Enabled(x, t, a)
    ensures Inv(Next(x, t, a))
  {
    hide Inv, Next;
    match a
    case Scan => ScanInv(x, t);
    case Fill => FillInv(x, t);
    case Enter => EnterInv(x, t, a);
    case Fall => EnterInv(x, t, a);
    case Pop => PopInv(x, t, a);
    case SweepPop => PopInv(x, t, a);
    case Judge => JudgeInv(x, t);
    case Free(_) => FreeInv(x, t, a);
    case Drop => FreeInv(x, t, a);
    case Credit => CreditInv(x, t, a);
    case SweepCredit => CreditInv(x, t, a);
    case Discount => DiscountInv(x, t);
    case _ => QuietInv(x, t, a);
  }

  ghost predicate Initial(x: Sys) {
    && 0 < x.size < 0x1_0000_0000 && x.queue == [] && x.activating == 0 && x.held == {} && x.stranded == {} && x.owner == None
    && |x.pcs| < 0x1_0000_0000 && (forall t :: 0 <= t < |x.pcs| ==> x.pcs[t] == Outside)
    && forall p :: 0 <= p < |x.pools| ==> FreshPool(x.pools[p])
  }

  /** A pool as ldp_element_pool_create leaves it. */
  predicate FreshPool(p: Pool) {
    && (forall i :: 0 <= i < |p.elements| ==> !p.elements[i].used && |p.elements[i].parameters| == p.parameterSize)
    && p.available == |p.elements| < 0x1_0000_0000
  }

  lemma {:induction false} AllFree(elements: seq<Element>)
    requires forall i :: 0 <= i < |elements| ==> !elements[i].used
    ensures FreeOf(elements) == |elements|
  {
    if elements != [] { AllFree(elements[1..]); }
  }

  lemma {:induction false} NobodyFreeing(pcs: seq<Pc>, p: nat)
    requires forall t :: 0 <= t < |pcs| ==> pcs[t] == Outside
    ensures Freeing(pcs, p) == 0 && Entering(pcs) == 0 && Hands(pcs) == {}
  {
    if pcs != [] { NobodyFreeing(pcs[1..], p); }
  }

  lemma InitialInv(x: Sys)
    requires Initial(x)
    ensures Inv(x)
  {
    forall p | 0 <= p < |x.pools| ensures PoolOk(x.pools[p], Freeing(x.pcs, p)) {
      AllFree(x.pools[p].elements);
      NobodyFreeing(x.pcs, p);
      assert FreshPool(x.pools[p]);
    }
    NobodyFreeing(x.pcs, 0);
    forall h | InPools(h, x.pools) ensures !At(x.pools, h).used {
      assert FreshPool(x.pools[h.pool]);
    }
  }
}
