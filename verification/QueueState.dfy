/**
 The queue of a module as values: the ring of queued elements, the element pools and the
 count of activating operations (lib/ldp_fifo_manager.c, lib/ldp_fifo_elt_pool.c).
 */
module QueueState {
  import opened Common
  import opened RequestTable
  import Words

  const INITIALIZE_LIFE: int := 10
  const KILL_LIFE: int := 11
  const START_LIFE: int := 12
  const SHUTDOWN_LIFE: int := 14

  datatype OpType = Event | VersionedData | RrAnswer | RrReceived

  datatype ModuleState = Idle | Ready | Running

  /** ldp_element; `parameters` is the whole memory area, `parameterSize` its useful part. */
  datatype Element = Element(used: bool, opId: nat, opType: OpType, activating: bool, modId: nat,
                             parameterSize: nat, parameters: seq<Byte>)

  /** ldp_element_pool */
  datatype Pool = Pool(parameterSize: nat, available: nat, elements: seq<Element>)

  /** Where an element lives: the pool it belongs to and its place there. */
  datatype Handle = Handle(pool: nat, index: nat)

  datatype State = State(queue: seq<Handle>, size: nat, pools: seq<Pool>, activating: nat)

  /** What is pushed; `parameters` is None for a null parameter pointer. */
  datatype Operation = Operation(opIndex: int, opId: nat, opType: OpType, activating: bool,
                                 parameterSize: nat, parameters: Option<seq<Byte>>, modId: nat)

  predicate WellFormed(op: Operation) {
    op.parameters.Some? ==> |op.parameters.value| == op.parameterSize
  }

  predicate InPools(h: Handle, pools: seq<Pool>) {
    h.pool < |pools| && h.index < |pools[h.pool].elements|
  }

  function At(pools: seq<Pool>, h: Handle): Element
    requires InPools(h, pools)
  {
    pools[h.pool].elements[h.index]
  }

  function With(pools: seq<Pool>, h: Handle, e: Element, available: nat): seq<Pool>
    requires InPools(h, pools)
  {
    var p := pools[h.pool];
    pools[h.pool := Pool(p.parameterSize, available, p.elements[h.index := e])]
  }

  /** First free element from `from` on. */
  function FirstFree(elements: seq<Element>, from: nat): (r: Option<nat>)
    requires from <= |elements|
    ensures r.Some? ==> from <= r.value < |elements| && !elements[r.value].used
    ensures r.Some? ==> forall j :: from <= j < r.value ==> elements[j].used
    ensures r.None? ==> forall j :: from <= j < |elements| ==> elements[j].used
    decreases |elements| - from
  {
    if from == |elements| then None else if !elements[from].used then Some(from) else FirstFree(elements, from + 1)
  }

  /** The element ldp_element_pool_get gives. */
  function Get(p: Pool): (r: Option<nat>)
    ensures r.Some? ==> r.value < |p.elements| && !p.elements[r.value].used && p.available > 0
  {
    if p.available == 0 then None else FirstFree(p.elements, 0)
  }

  function Min(a: nat, b: nat): nat {
    if a < b then a else b
  }

  /** The element once filled: parameters that do not fit are cut to the size of the pool. */
  function Filled(e: Element, op: Operation, poolSize: nat): Element
    requires WellFormed(op) && |e.parameters| == poolSize
  {
    var n := Min(op.parameterSize, poolSize);
    var bytes := if op.parameters.Some? then op.parameters.value[..n] + e.parameters[n..] else e.parameters;
    Element(true, op.opId, op.opType, op.activating, op.modId, n, bytes)
  }

  ghost predicate PoolShape(p: Pool) {
    forall i :: 0 <= i < |p.elements| ==> |p.elements[i].parameters| == p.parameterSize
  }

  ghost predicate Shape(s: State) {
    && s.size > 0 && |s.queue| <= s.size
    && (forall p :: 0 <= p < |s.pools| ==> PoolShape(s.pools[p]))
    && forall k :: 0 <= k < |s.queue| ==> InPools(s.queue[k], s.pools)
  }

  /** The element taken for `op`, or None when the index or the pool refuses it. */
  function Taken(s: State, op: Operation): (r: Option<Handle>)
    ensures r.Some? ==> InPools(r.value, s.pools) && !At(s.pools, r.value).used && s.pools[r.value.pool].available > 0
                        && r.value.pool == op.opIndex
  {
    if !(0 <= op.opIndex < |s.pools|) then None
    else
      var i := Get(s.pools[op.opIndex]);
      if i.None? then None else Some(Handle(op.opIndex, i.value))
  }

  /** uint32_t arithmetic on the count of activating operations. */
  function Increment(n: nat): (r: nat)
    ensures n < 0xFFFF_FFFF ==> r == n + 1
  {
    (n + 1) % 0x1_0000_0000
  }

  function Decrement(n: nat): (r: nat)
    ensures 0 < n < 0x1_0000_0000 ==> r == n - 1
  {
    (n + 0xFFFF_FFFF) % 0x1_0000_0000
  }

  /** _ldp_fifo_manager_push_local: the new state and whether it returns success. */
  function Push(s: State, op: Operation, first: bool): (r: (State, bool))
    requires Shape(s) && WellFormed(op)
  {
    var h := Taken(s, op);
    if h.None? then (s, false)
    else
      assert PoolShape(s.pools[op.opIndex]);
      var p := s.pools[op.opIndex];
      var pools := With(s.pools, h.value, Filled(At(s.pools, h.value), op, p.parameterSize), p.available - 1);
      if |s.queue| >= s.size then (s.(pools := pools), false)
      else
        (State(if first then [h.value] + s.queue else s.queue + [h.value], s.size, pools,
               if op.activating then Increment(s.activating) else s.activating), true)
  }

  /** ldp_fifo_manager_pop_elt after the wait */
  function Pop(s: State): (r: (State, Option<Handle>))
    requires Shape(s)
  {
    if s.queue == [] then (s, None)
    else
      var h := s.queue[0];
      (s.(queue := s.queue[1..],
          activating := if At(s.pools, h).activating then Decrement(s.activating) else s.activating),
       Some(h))
  }

  /** ldp_element_pool_release */
  function Release(pools: seq<Pool>, h: Handle): seq<Pool>
    requires InPools(h, pools)
  {
    With(pools, h, At(pools, h).(used := false), pools[h.pool].available + 1)
  }

  // ----- cleaning -----

  predicate IsStart(e: Element, st: ModuleState) {
    e.opId == START_LIFE && st == Ready
  }

  predicate Allowed(started: bool, e: Element, st: ModuleState) {
    started || e.opId == KILL_LIFE || (e.opId == SHUTDOWN_LIFE && st != Idle) || (e.opId == INITIALIZE_LIFE && st == Idle)
  }

  /** The request ID at the head of the parameters, as the 32-bit word a memcpy reads. */
  function RequestId(e: Element): (id: nat)
    requires |e.parameters| >= 4
    ensures id < 0x1_0000_0000
  {
    Words.FromBytes(e.parameters[..4])
  }

  predicate IdReadable(e: Element) {
    e.opType == RrReceived ==> |e.parameters| >= 4
  }

  /** The cleaning loop after some of its passes. */
  datatype Progress = Progress(kept: seq<Handle>, started: bool, activating: nat, pools: seq<Pool>, received: seq<Received>)

  function CleanStep(p: Progress, h: Handle, st: ModuleState): Progress
    requires InPools(h, p.pools) && IdReadable(At(p.pools, h))
  {
    var e := At(p.pools, h);
    if IsStart(e, st) then p.(kept := p.kept + [h], started := true, activating := p.activating + 1)
    else if Allowed(p.started, e, st) then
      p.(kept := p.kept + [h], activating := if e.activating then p.activating + 1 else p.activating)
    else
      p.(pools := Release(p.pools, h),
         received := if e.opType == RrReceived then DropReceived(p.received, RequestId(e)) else p.received)
  }

  /** The queued elements are in the pools and those of received requests hold an ID. */
  ghost predicate Readable(pools: seq<Pool>, q: seq<Handle>) {
    forall k :: 0 <= k < |q| ==> InPools(q[k], pools) && IdReadable(At(pools, q[k]))
  }

  /** The rest of the cleaning loop of ldp_fifo_manager_clean, with `q` still to be popped. */
  ghost function CleanFrom(p: Progress, q: seq<Handle>, st: ModuleState): Progress
    requires Readable(p.pools, q)
    decreases |q|
  {
    if q == [] then p else CleanFrom(CleanStep(p, q[0], st), q[1..], st)
  }

  /** ldp_fifo_manager_clean, with the requests received of the module. */
  ghost function Clean(s: State, received: seq<Received>, st: ModuleState): (State, seq<Received>)
    requires Readable(s.pools, s.queue)
  {
    var p := CleanFrom(Progress([], false, 0, s.pools, received), s.queue, st);
    (State(p.kept, s.size, p.pools, p.activating), p.received)
  }
}
