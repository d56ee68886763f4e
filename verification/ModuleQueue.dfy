/** The queue of a module, updated in place (lib/ldp_fifo_manager.c, lib/ldp_fifo_elt_pool.c). */
module ModuleQueue {
  import opened Common
  import opened Fifos
  import opened RequestTable
  import opened QueueState
  import QueueTheorems

  lemma PushShape(s: State, op: Operation, first: bool)
    requires Shape(s) && WellFormed(op)
    ensures Shape(Push(s, op, first).0)
  {
    if Taken(s, op).Some? {
      assert PoolShape(s.pools[op.opIndex]);
    }
  }

  lemma PushCases(s: State, op: Operation, first: bool)
    requires Shape(s) && WellFormed(op)
    ensures !(0 <= op.opIndex < |s.pools|) || Taken(s, op).None? ==> Push(s, op, first) == (s, false)
    ensures Taken(s, op).Some? ==>
              var h := Taken(s, op).value;
              && 0 <= op.opIndex < |s.pools| && InPools(h, s.pools) && PoolShape(s.pools[op.opIndex])
              && s.pools[op.opIndex].available > 0
              && var pools := With(s.pools, h, Filled(At(s.pools, h), op, s.pools[op.opIndex].parameterSize), s.pools[op.opIndex].available - 1);
                 Push(s, op, first) ==
                   if |s.queue| >= s.size then (s.(pools := pools), false)
                   else (State(if first then [h] + s.queue else s.queue + [h], s.size, pools,
                               if op.activating then Increment(s.activating) else s.activating), true)
  {
    if Taken(s, op).Some? {
      assert PoolShape(s.pools[op.opIndex]);
    }
  }

  class FifoManager {
    const fifo: Fifo<Handle>
    const pools: array<Pool>
    var activatingOpNum: nat

    /** The ring is sound; it and the pools share nothing. */
    ghost predicate Separate()
      reads this, fifo, fifo.queue
    {
      fifo.Valid() && fifo.queue as object != pools
    }

    ghost predicate Valid()
      reads this, fifo, fifo.queue, pools
    {
      Separate() && Shape(View())
    }

    ghost function View(): State
      reads this, fifo, fifo.queue, pools
      requires fifo.Valid()
    {
      State(fifo.Contents(), fifo.size, pools[..], activatingOpNum)
    }

    lemma ViewParts()
      requires fifo.Valid()
      ensures View() == State(fifo.Contents(), fifo.size, pools[..], activatingOpNum)
    {
    }

    lemma ValidParts()
      ensures Valid() <==> Separate() && Shape(View())
    {
    }

    /** The request table shares nothing with the queue. */
    ghost predicate Apart(rr: RequestResponse?)
      reads rr
    {
      rr != null ==> rr.Repr !! {this, fifo, fifo.queue, pools}
    }

    /** ldp_fifo_manager_create: `sizes` gives the element count and parameter size of each pool. */
    constructor (fifoSize: int, sizes: seq<(nat, nat)>)
      requires fifoSize > 0
      ensures Valid() && View().size == fifoSize && View().queue == [] && activatingOpNum == 0 && pools.Length == |sizes|
      ensures forall i :: 0 <= i < pools.Length ==>
                && pools[i].parameterSize == sizes[i].1
                && |pools[i].elements| == pools[i].available == sizes[i].0
                && forall j :: 0 <= j < sizes[i].0 ==> !pools[i].elements[j].used
    {
      fifo := new Fifo<Handle>(fifoSize);
      pools := new Pool[|sizes|];
      activatingOpNum := 0;
      new;
      for i := 0 to |sizes|
        modifies pools
        invariant forall k :: 0 <= k < i ==>
                    && PoolShape(pools[k]) && pools[k].parameterSize == sizes[k].1
                    && |pools[k].elements| == pools[k].available == sizes[k].0
                    && forall j :: 0 <= j < sizes[k].0 ==> !pools[k].elements[j].used
      {
        var blank := Element(false, 0, Event, false, 0, sizes[i].1, seq(sizes[i].1, _ => 0));
        pools[i] := Pool(sizes[i].1, sizes[i].0, seq(sizes[i].0, _ => blank));
      }
    }

    /** ldp_element_pool_get */
    method GetElement(p: nat) returns (r: Option<nat>)
      requires p < pools.Length
      modifies pools
      ensures r == Get(old(pools[p]))
      ensures r.None? ==> pools[..] == old(pools[..])
      ensures r.Some? ==>
                var e := old(pools[p]).elements[r.value];
                pools[..] == With(old(pools[..]), Handle(p, r.value), e.(used := true), old(pools[p]).available - 1)
      ensures r.None? <==> old(pools[p].available) == 0 || forall i :: 0 <= i < |old(pools[p].elements)| ==> old(pools[p].elements)[i].used
      ensures r.Some? ==>
                var was := old(pools[p]);
                && r.value < |was.elements| && !was.elements[r.value].used && (forall i :: 0 <= i < r.value ==> was.elements[i].used)
                && was.available > 0
                && pools[..] == old(pools[..])[p := Pool(was.parameterSize, was.available - 1,
                                                         was.elements[r.value := was.elements[r.value].(used := true)])]
    {
      if pools[p].available == 0 {
        return None;
      }
      var i := 0;
      while i < |pools[p].elements|
        invariant 0 <= i <= |pools[p].elements| && pools[..] == old(pools[..])
        invariant FirstFree(pools[p].elements, 0) == FirstFree(pools[p].elements, i)
      {
        var e := pools[p].elements[i];
        if !e.used {
          pools[p] := Pool(pools[p].parameterSize, pools[p].available - 1, pools[p].elements[i := e.(used := true)]);
          return Some(i);
        }
        i := i + 1;
      }
      return None;
    }

    /** ldp_element_pool_release */
    method ReleaseToPool(h: Handle)
      requires InPools(h, pools[..])
      modifies pools
      ensures pools[..] == Release(old(pools[..]), h)
      ensures var was := old(pools[h.pool]);
              pools[..] == old(pools[..])[h.pool := Pool(was.parameterSize, was.available + 1,
                                                         was.elements[h.index := was.elements[h.index].(used := false)])]
    {
      var p := pools[h.pool];
      pools[h.pool] := Pool(p.parameterSize, p.available + 1, p.elements[h.index := p.elements[h.index].(used := false)]);
    }

    /** The part of the push that takes an element of the pool and fills it. */
    method TakeElement(op: Operation) returns (element: Option<Handle>)
      requires Valid() && WellFormed(op) && 0 <= op.opIndex < pools.Length
      modifies pools
      ensures element == Taken(old(View()), op)
      ensures element.None? ==> pools[..] == old(pools[..])
      ensures element.Some? ==>
                var (was, h) := (old(pools[..]), element.value);
                && PoolShape(was[op.opIndex])
                && pools[..] == With(was, h, Filled(At(was, h), op, was[op.opIndex].parameterSize), was[op.opIndex].available - 1)
    {
      ghost var was := pools[..];
      assert PoolShape(was[op.opIndex]);
      var i := GetElement(op.opIndex);
      if i.None? {
        return None;
      }
      var pool := pools[op.opIndex];
      var size := op.parameterSize;
      if size > pool.parameterSize {
        size := pool.parameterSize;
      }
      var bytes := pool.elements[i.value].parameters;
      if op.parameters.Some? {
        bytes := op.parameters.value[..size] + bytes[size..];
      }
      var e := Element(true, op.opId, op.opType, op.activating, op.modId, size, bytes);
      element := Some(Handle(op.opIndex, i.value));
      assert e == Filled(At(was, element.value), op, was[op.opIndex].parameterSize);
      assert pool.elements[i.value := e] == was[op.opIndex].elements[i.value := e];
      pools[op.opIndex] := Pool(pool.parameterSize, pool.available, pool.elements[i.value := e]);
    }

    /** The part of the push that queues the element and counts it. */
    method Enqueue(element: Handle, activating: bool, first: bool) returns (ok: bool)
      requires Separate()
      modifies this, fifo, fifo.queue
      ensures Separate() && ok == (|old(fifo.Contents())| < fifo.size)
      ensures var q := old(fifo.Contents());
              fifo.Contents() == if !ok then q else if first then [element] + q else q + [element]
      ensures activatingOpNum == if ok && activating then Increment(old(activatingOpNum)) else old(activatingOpNum)
    {
      if first {
        ok := fifo.PushFirst(element);
      } else {
        ok := fifo.Push(element);
      }
      if !ok {
        return false;
      }
      if activating {
        activatingOpNum := Increment(activatingOpNum);
      }
    }

    /** _ldp_fifo_manager_push_local */
    method PushLocal(op: Operation, first: bool) returns (ok: bool)
      requires Valid() && WellFormed(op)
      modifies this, fifo, fifo.queue, pools
      ensures Valid()
      ensures var (s, r) := Push(old(View()), op, first);
              fifo.Contents() == s.queue && pools[..] == s.pools && activatingOpNum == s.activating && ok == r
      ensures ok ==>
                var q := fifo.Contents();
                && |q| == |old(fifo.Contents())| + 1 && (if first then q[1..] else q[..|q| - 1]) == old(fifo.Contents())
                && var h := if first then q[0] else q[|q| - 1];
                   && h.pool == op.opIndex && InPools(h, pools[..])
                   && var (e, size) := (pools[h.pool].elements[h.index], pools[h.pool].parameterSize);
                      && e.used && e.opId == op.opId && e.opType == op.opType && e.activating == op.activating && e.modId == op.modId
                      && e.parameterSize == (if op.parameterSize < size then op.parameterSize else size) <= |e.parameters|
                      && (op.parameters.Some? ==> e.parameterSize <= |op.parameters.value|
                                                  && e.parameters[..e.parameterSize] == op.parameters.value[..e.parameterSize])
    {
      hide FifoManager.Valid, FifoManager.View, Around, Shape, With, Filled, Taken, PoolShape, Increment, Push, InPools, At, WellFormed;
      ValidParts();
      ghost var was := View();
      ViewParts();
      PushShape(was, op, first);
      PushCases(was, op, first);
      QueueTheorems.PushedElement(was, op, first);
      if op.opIndex < 0 || op.opIndex >= pools.Length {
        ok := false;
      } else {
        var element := TakeElement(op);
        if element.None? {
          ok := false;
        } else {
          ok := Enqueue(element.value, op.activating, first);
        }
      }
      ViewParts();
      ValidParts();
    }

    /** ldp_fifo_manager_pop_elt, once it no longer waits. */
    method PopElement() returns (element: Option<Handle>)
      requires Valid()
      modifies this, fifo
      ensures Valid()
      ensures (View(), element) == Pop(old(View()))
      ensures var q := old(fifo.Contents());
              && element == (if q == [] then None else Some(q[0])) && fifo.Contents() == (if q == [] then q else q[1..])
              && (q != [] ==> InPools(q[0], pools[..]))
              && activatingOpNum == if q != [] && pools[q[0].pool].elements[q[0].index].activating
                                    then (old(activatingOpNum) + 0xFFFF_FFFF) % 0x1_0000_0000 else old(activatingOpNum)
    {
      element := fifo.Pop();
      if element.Some? {
        if pools[element.value.pool].elements[element.value.index].activating {
          activatingOpNum := Decrement(activatingOpNum);
        }
      }
    }

    /** ldp_fifo_manager_release_elt */
    method ReleaseElement(h: Handle)
      requires Valid() && InPools(h, View().pools)
      modifies pools
      ensures Valid()
      ensures View() == old(View()).(pools := Release(old(View()).pools, h))
      ensures fifo.Contents() == old(fifo.Contents()) && activatingOpNum == old(activatingOpNum)
      ensures var was := old(pools[h.pool]);
              pools[..] == old(pools[..])[h.pool := Pool(was.parameterSize, was.available + 1,
                                                         was.elements[h.index := was.elements[h.index].(used := false)])]
    {
      ReleaseToPool(h);
    }

    /** The cleaning puts an element back at the end of the ring. */
    method KeepElement(h: Handle, counted: bool)
      requires Separate() && |fifo.Contents()| < fifo.size
      modifies this, fifo, fifo.queue
      ensures Separate() && fifo.Contents() == old(fifo.Contents()) + [h]
      ensures activatingOpNum == if counted then old(activatingOpNum) + 1 else old(activatingOpNum)
    {
      var _ := fifo.Push(h);
      if counted {
        activatingOpNum := activatingOpNum + 1;
      }
    }

    /** The cleaning drops an element: its request is forgotten and it goes back to its pool. */
    method DropElement(h: Handle, rr: RequestResponse?)
      requires Separate() && Apart(rr) && InPools(h, pools[..]) && IdReadable(At(pools[..], h))
      requires At(pools[..], h).opType == RrReceived ==> rr != null
      requires rr != null ==> rr.Valid()
      modifies pools, if rr == null then {} else rr.Repr
      ensures pools[..] == Release(old(pools[..]), h)
      ensures rr != null ==>
                var (e, t) := (At(old(pools[..]), h), old(rr.View()));
                rr.Valid() && rr.View() == if e.opType == RrReceived then t.(received := DropReceived(t.received, RequestId(e))) else t
    {
      hide RequestResponse.Valid, RequestResponse.View, Fifo.Valid;
      var e := pools[h.pool].elements[h.index];
      if e.opType == RrReceived {
        rr.FindAndClean(RequestId(e), false);
      }
      ReleaseToPool(h);
    }

    /** The cleaning pops an element and puts it back if it may stay. `kept` are the elements put back so far. */
    method PopAndKeep(st: ModuleState, startOp: bool, ghost rest: seq<Handle>, ghost kept: seq<Handle>)
        returns (startOp': bool, dropped: Option<Handle>)
      requires Separate() && rest != [] && fifo.Contents() == rest + kept && InPools(rest[0], pools[..])
      modifies this, fifo, fifo.queue
      ensures Separate()
      ensures var e := At(pools[..], rest[0]);
              && startOp' == (startOp || IsStart(e, st))
              && if IsStart(e, st) || Allowed(startOp, e, st) then
                   && dropped.None? && fifo.Contents() == rest[1..] + (kept + [rest[0]])
                   && activatingOpNum == if IsStart(e, st) || e.activating then old(activatingOpNum) + 1 else old(activatingOpNum)
                 else
                   dropped == Some(rest[0]) && fifo.Contents() == rest[1..] + kept && activatingOpNum == old(activatingOpNum)
    {
      hide Around, Allowed;
      Concat(rest[1..], kept, [rest[0]]);
      var popped := fifo.Pop();
      var h := popped.value;
      assert fifo.Contents() == rest[1..] + kept;
      var e := pools[h.pool].elements[h.index];
      var isStart := e.opId == START_LIFE && st == Ready;
      startOp' := startOp || isStart;
      if isStart || Allowed(startOp, e, st) {
        KeepElement(h, isStart || e.activating);
        dropped := None;
      } else {
        dropped := Some(h);
      }
    }

    /** One pass of the cleaning loop. `p` is the loop so far, `rest` what is still to be popped. */
    method CleanNext(st: ModuleState, rr: RequestResponse?, startOp: bool, ghost p: Progress, ghost rest: seq<Handle>)
        returns (startOp': bool)
      requires Separate() && Apart(rr) && rest != [] && fifo.Contents() == rest + p.kept
      requires pools[..] == p.pools && activatingOpNum == p.activating && startOp == p.started
      requires InPools(rest[0], p.pools) && IdReadable(At(p.pools, rest[0]))
      requires rr == null ==> !QueueTheorems.Keeps(startOp, At(p.pools, rest[0]), st) ==> At(p.pools, rest[0]).opType != RrReceived
      requires rr != null ==> rr.Valid() && rr.View().received == p.received
      modifies this, fifo, fifo.queue, pools, if rr == null then {} else rr.Repr
      ensures Separate()
      ensures var n := CleanStep(p, rest[0], st);
              && fifo.Contents() == rest[1..] + n.kept && pools[..] == n.pools
              && activatingOpNum == n.activating && startOp' == n.started
              && (rr != null ==> rr.Valid() && rr.View() == old(rr.View()).(received := n.received))
    {
      hide RequestResponse.Valid, RequestResponse.View, Around, Release, Allowed, At, RequestId, DropReceived;
      var dropped;
      startOp', dropped := PopAndKeep(st, startOp, rest, p.kept);
      if dropped.Some? {
        DropElement(dropped.value, rr);
      }
    }

    /** ldp_fifo_manager_clean. Without a request table no dropped element may be a received request. */
    method CleanQueue(st: ModuleState, rr: RequestResponse?)
      requires Valid() && Apart(rr) && Readable(View().pools, View().queue)
      requires rr != null ==> rr.Valid()
      requires rr == null ==> QueueTheorems.NoTable(View().pools, View().queue, false, st)
      modifies this, fifo, fifo.queue, pools, if rr == null then {} else rr.Repr
      ensures Valid()
      ensures var (s, received) := Clean(old(View()), if rr == null then [] else old(rr.View()).received, st);
              && fifo.Contents() == s.queue && pools[..] == s.pools && activatingOpNum == s.activating
              && (rr != null ==> rr.Valid() && rr.View() == old(rr.View()).(received := received))
    {
      hide RequestResponse.Valid, RequestResponse.View, FifoManager.Valid, FifoManager.View, Fifo.Contents, Shape, Readable, CleanStep;
      hide QueueTheorems.SameOperations, QueueTheorems.NoTable, QueueTheorems.Keeps, Clean, IdReadable;
      ValidParts();
      ViewParts();
      ghost var was, q := View(), View().queue;
      ghost var received := if rr == null then [] else rr.View().received;
      ghost var start := Progress([], false, 0, was.pools, received);
      ghost var p := start;
      QueueTheorems.CleanShape(was, received, st);
      QueueTheorems.SameItself(was.pools);
      QueueTheorems.CleanIs(was, received, st);
      assert q[0..] == q && q + [] == q;
      var startOp := false;
      var currentOpNum := fifo.currentSize;
      activatingOpNum := 0;
      for i := 0 to currentOpNum
        invariant Separate() && currentOpNum == |q| && fifo.Contents() == q[i..] + p.kept
        invariant pools[..] == p.pools && activatingOpNum == p.activating && startOp == p.started
        invariant rr != null ==> rr.Valid() && rr.View() == old(rr.View()).(received := p.received)
        invariant Readable(was.pools, q[i..]) && Readable(p.pools, q[i..]) && QueueTheorems.SameOperations(was.pools, p.pools)
        invariant CleanFrom(p, q[i..], st) == CleanFrom(start, q, st)
        invariant rr == null ==> p.received == [] && QueueTheorems.NoTable(was.pools, q[i..], startOp, st)
      {
        ghost var rest := q[i..];
        assert rest[1..] == q[i + 1..];
        QueueTheorems.StepEffect(was.pools, p, rest, st);
        if rr == null { QueueTheorems.NoTableStep(was.pools, rest, startOp, st); }
        startOp := CleanNext(st, rr, startOp, p, rest);
        p := CleanStep(p, rest[0], st);
      }
      assert q[|q|..] == [] && [] + p.kept == p.kept;
      ViewParts();
      ValidParts();
    }
  }
}
