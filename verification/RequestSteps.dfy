/**
 Pending requests and the module queue together, under any number of threads
 (lib/ldp_comp_util.c, lib/ldp_request_response.c, lib/ldp_fifo_manager.c): requests and
 answers that come through sockets both enter the queue with the tag RR_RECEIVED.

 A request that arrives is registered under the mutex of the request table, then pushed with
 the steps of QueueSteps, and forgotten again under that mutex when the push fails. A
 cleaning forgets the request of an element it drops in the section in which it judges it.
 The ledger says that the generator gives every ID out once. Every queued request names a
 live entry of the requests received, different requests different entries; every other
 queued element with the same tag carries the ID of a request sent, which is never one of
 them.
 */
module RequestSteps {
  import opened Common
  import opened RequestTable
  import opened QueueState
  import opened QueueTheorems
  import opened QueueSteps
  import opened QueueRuns
  import opened QueueSweep
  import IntrusiveList
  import Words

  /**
   What a thread is pushing: a request registered as `id`, the answer to the request sent as
   `id`, or something that is neither. Undoing means that the push of a request has failed
   and its registration is still there.
   */
  datatype Job = Other | Asking(op: Operation, id: nat) | Answering(op: Operation, id: nat) | Undoing(id: nat)

  /**
   `x` is the queue with its threads and `jobs` what they are pushing; `asks` are the
   elements that were last filled with a request, `issued` the IDs ever given to sent
   requests.
   */
  datatype World = World(x: Sys, jobs: seq<Job>, received: seq<Received>, receivedSize: nat, sent: seq<Sent>, sentSize: nat,
                         generator: nat, asks: set<Handle>, issued: set<nat>)

  datatype Step =
    | Register(r: Received, op: Operation)
    | Send(s: Sent)
    | Answer(id: nat, op: Operation)
    | FreeSent(id: nat)
    | FreeReceived(id: nat)
    | Undo
    | Go(a: Action)

  function TableOf(w: World): Table {
    Table(w.received, w.receivedSize, w.sent, w.sentSize, w.generator)
  }

  // ----- the ID inside the parameters -----

  /** `op` with its first four parameter bytes overwritten by the ID. */
  function Stamped(op: Operation, id: nat): (r: Operation)
    requires op.parameters.Some? && |op.parameters.value| >= 4 && id < 0x1_0000_0000
    ensures r == op.(parameters := r.parameters)
    ensures r.parameters.Some? && |r.parameters.value| == |op.parameters.value| && r.parameters.value[..4] == Words.ToBytes(id)
  {
    op.(parameters := Some(Words.ToBytes(id) + op.parameters.value[4..]))
  }

  predicate HoldsId(op: Operation, id: nat) {
    && op.parameters.Some? && op.parameterSize == |op.parameters.value| >= 4
    && id < 0x1_0000_0000 && op.parameters.value[..4] == Words.ToBytes(id)
  }

  /** Filling the element keeps the ID: it fits any pool of at least four bytes. */
  lemma FilledId(e: Element, op: Operation, id: nat, poolSize: nat)
    requires HoldsId(op, id) && poolSize >= 4 && |e.parameters| == poolSize
    ensures |Filled(e, op, poolSize).parameters| == poolSize && RequestId(Filled(e, op, poolSize)) == id
  {
    var f := Filled(e, op, poolSize);
    var n := Min(op.parameterSize, poolSize);
    assert f.parameters == op.parameters.value[..n] + e.parameters[n..];
    assert f.parameters[..4] == op.parameters.value[..4];
    Words.RoundTrip(id);
  }

  // ----- forgetting requests is a filter -----

  /** The requests whose ID is not in `ids`. */
  ghost function Remaining(r: seq<Received>, ids: set<nat>): seq<Received> {
    if r == [] then [] else (if r[0].id in ids then [] else [r[0]]) + Remaining(r[1..], ids)
  }

  ghost predicate DistinctIds(r: seq<Received>) {
    forall j, k :: 0 <= j < k < |r| ==> r[j].id != r[k].id
  }

  /** The IDs that elements `d` carry as received requests or answers. */
  ghost function Named(pools: seq<Pool>, d: seq<Handle>): set<nat>
    requires Readable(pools, d)
  {
    if d == [] then {}
    else (if At(pools, d[0]).opType == RrReceived then {RequestId(At(pools, d[0]))} else {}) + Named(pools, d[1..])
  }

  lemma {:induction false} RemainingNone(r: seq<Received>, ids: set<nat>)
    requires forall k :: 0 <= k < |r| ==> r[k].id !in ids
    ensures Remaining(r, ids) == r
  {
    if r != [] { RemainingNone(r[1..], ids); }
  }

  lemma {:induction false} RemainingTwice(r: seq<Received>, a: set<nat>, b: set<nat>)
    ensures Remaining(Remaining(r, a), b) == Remaining(r, a + b)
  {
    if r != [] {
      RemainingTwice(r[1..], a, b);
      var tail := Remaining(r[1..], a);
      assert ([r[0]] + tail)[1..] == tail && [] + tail == tail;
    }
  }

  lemma {:induction false} RemainingSplit(a: seq<Received>, b: seq<Received>, ids: set<nat>)
    ensures Remaining(a + b, ids) == Remaining(a, ids) + Remaining(b, ids)
  {
    if a == [] {
      assert a + b == b;
    } else {
      assert (a + b)[1..] == a[1..] + b;
      RemainingSplit(a[1..], b, ids);
    }
  }

  lemma RemainingOne(a: seq<Received>, x: Received, b: seq<Received>, ids: set<nat>)
    requires (forall k :: 0 <= k < |a| ==> a[k].id !in ids) && (forall k :: 0 <= k < |b| ==> b[k].id !in ids) && x.id in ids
    ensures Remaining(a + ([x] + b), ids) == a + b
  {
    RemainingSplit(a, [x] + b, ids);
    RemainingNone(a, ids);
    RemainingNone(b, ids);
    assert ([x] + b)[1..] == b && [] + b == b;
  }

  /** With distinct IDs the search from the tail removes the one request that has the ID. */
  lemma DropIsFilter(r: seq<Received>, id: nat)
    requires DistinctIds(r)
    ensures DropReceived(r, id) == Remaining(r, {id})
  {
    hide Remaining;
    var k := FindReceived(r, id, |r|);
    if k.None? {
      RemainingNone(r, {id});
    } else {
      var i := k.value;
      RemainingOne(r[..i], r[i], r[i + 1..], {id});
      assert r[..i] + ([r[i]] + r[i + 1..]) == r;
    }
  }

  lemma {:induction false} RemainingMembers(r: seq<Received>, ids: set<nat>, x: Received)
    ensures x in Remaining(r, ids) <==> x in r && x.id !in ids
  {
    if r != [] { RemainingMembers(r[1..], ids, x); }
  }

  lemma {:induction false} RemainingDistinct(r: seq<Received>, ids: set<nat>)
    requires DistinctIds(r)
    ensures DistinctIds(Remaining(r, ids)) && |Remaining(r, ids)| <= |r|
  {
    if r != [] {
      RemainingDistinct(r[1..], ids);
      var tail := Remaining(r[1..], ids);
      forall k | 0 <= k < |tail| ensures tail[k].id != r[0].id {
        RemainingMembers(r[1..], ids, tail[k]);
        var j :| 0 <= j < |r[1..]| && r[1..][j] == tail[k];
        assert r[j + 1].id != r[0].id;
      }
    }
  }

  lemma {:induction false} DropRequestsIsFilter(pools: seq<Pool>, r: seq<Received>, d: seq<Handle>)
    requires Readable(pools, d) && DistinctIds(r)
    ensures DropRequests(pools, r, d) == Remaining(r, Named(pools, d))
    decreases |d|
  {
    if d == [] {
      RemainingNone(r, {});
    } else {
      var e := At(pools, d[0]);
      if e.opType == RrReceived {
        DropIsFilter(r, RequestId(e));
        RemainingDistinct(r, {RequestId(e)});
        RemainingTwice(r, {RequestId(e)}, Named(pools, d[1..]));
        DropRequestsIsFilter(pools, DropReceived(r, RequestId(e)), d[1..]);
      } else {
        DropRequestsIsFilter(pools, r, d[1..]);
        assert {} + Named(pools, d[1..]) == Named(pools, d[1..]);
      }
    }
  }

  // ----- the whole system -----

  /** The ID an element carries in its first four bytes. */
  ghost function IdAt(pools: seq<Pool>, g: Handle): nat {
    if InPools(g, pools) && |At(pools, g).parameters| >= 4 then RequestId(At(pools, g)) else 0
  }

  /** The operation that queues the answer to `s`. */
  function AnswerOp(op: Operation, s: Sent): Operation {
    op.(opIndex := s.opIndex, activating := s.activating, opType := RrReceived)
  }

  predicate HasParameters(op: Operation) {
    op.parameters.Some? && |op.parameters.value| >= 4
  }

  /** The operation thread `t` may push now. */
  ghost predicate MayTry(j: Job, op: Operation, first: bool) {
    match j
    case Other => op.opType != RrReceived
    case Asking(op', _) => op == op' && !first
    case Answering(op', _) => op == op'
    case Undoing(_) => false
  }

  /** Elements whose requests are still to be handled: queued, or in the hands of a cleaning. */
  ghost function Live(x: Sys): set<Handle> {
    (set h | h in x.queue) + if JudgesNow(x) then {x.pcs[x.owner.value].h} else {}
  }

  /**
   What the sources allow: a request is registered only while its list has room (the code
   asserts it), and the container frees a received request only after popping it.
   */
  ghost predicate Can(w: World, t: nat, s: Step) {
    && t < |w.x.pcs| && |w.jobs| == |w.x.pcs|
    && match s
       case Register(r, op) =>
         && w.x.pcs[t] == Outside && w.jobs[t] == Other && op.opType == RrReceived && Pushable(w.x.pools, op) && HasParameters(op)
         && |w.received| < w.receivedSize && w.generator < 0xFFFF_FFFF
       case Send(_) => w.generator < 0xFFFF_FFFF
       case Answer(id, op) =>
         && w.x.pcs[t] == Outside && w.jobs[t] == Other && HasParameters(op) && id < 0x1_0000_0000
         && (FindSent(w.sent, id, |w.sent|).Some? ==> Pushable(w.x.pools, AnswerOp(op, w.sent[FindSent(w.sent, id, |w.sent|).value])))
       case FreeReceived(id) =>
         && (forall g :: g in Live(w.x) && g in w.asks ==> IdAt(w.x.pools, g) != id)
         && forall u :: 0 <= u < |w.jobs| && (w.jobs[u].Asking? || w.jobs[u].Undoing?) ==> w.jobs[u].id != id
       case Undo => w.x.pcs[t] == Outside && w.jobs[t].Undoing?
       case Go(a) => Enabled(w.x, t, a) && (a.Try? ==> MayTry(w.jobs[t], a.op, a.first))
                     && (a.Free? || a.Pop? || a.Clean? ==> w.jobs[t] == Other)
       case _ => true
  }

  /** What thread `t` is pushing after step `a`: nothing more once it has landed, the undoing once it has failed. */
  ghost function JobAfter(x: Sys, t: nat, a: Action, j: Job): Job
    requires Enabled(x, t, a)
  {
    if !(a.Try? || a.Take? || a.Scan? || a.Enter? || a.Fall?) then j
    else
      var c := Next(x, t, a).pcs[t];
      if c.Passed? || c.Scanning? || c.Owning? || c.Falling? then j
      else if j.Asking? && !Lands(x, t, a) then Undoing(j.id)
      else Other
  }

  ghost function AsksAfter(w: World, t: nat, a: Action): set<Handle>
    requires t < |w.jobs| && Enabled(w.x, t, a)
  {
    if !a.Fill? then w.asks
    else if w.jobs[t].Asking? then w.asks + {w.x.pcs[t].h}
    else w.asks - {w.x.pcs[t].h}
  }

  /** The cleaning drops the element it has in hand. */
  ghost predicate DropsNow(x: Sys, t: nat, a: Action)
    requires Enabled(x, t, a)
  {
    a.Judge? && !Keeps(x.sweep.started, At(x.pools, x.pcs[t].h), x.sweep.st)
  }

  ghost function ReceivedAfter(w: World, t: nat, a: Action): seq<Received>
    requires Enabled(w.x, t, a)
  {
    if DropsNow(w.x, t, a) && At(w.x.pools, w.x.pcs[t].h).opType == RrReceived
    then DropReceived(w.received, IdAt(w.x.pools, w.x.pcs[t].h))
    else w.received
  }

  ghost function After(w: World, t: nat, s: Step): World
    requires Can(w, t, s)
  {
    match s
    case Register(r, op) =>
      var n := AddReceived(TableOf(w), r);
      w.(received := n.received, generator := n.generator, jobs := w.jobs[t := Asking(Stamped(op, n.generator), n.generator)])
    case Send(s) =>
      var n := AddSent(TableOf(w), s);
      w.(sent := n.sent, generator := n.generator, issued := if |w.sent| == w.sentSize then w.issued else w.issued + {n.generator})
    case Answer(id, op) =>
      var k := FindSent(w.sent, id, |w.sent|);
      if k.None? then w else w.(jobs := w.jobs[t := Answering(Stamped(AnswerOp(op, w.sent[k.value]), id), id)])
    case FreeSent(id) => w.(sent := DropSent(w.sent, id))
    case FreeReceived(id) => w.(received := DropReceived(w.received, id))
    case Undo => w.(received := DropReceived(w.received, w.jobs[t].id), jobs := w.jobs[t := Other])
    case Go(a) =>
      w.(x := Next(w.x, t, a), jobs := w.jobs[t := JobAfter(w.x, t, a, w.jobs[t])],
         asks := AsksAfter(w, t, a), received := ReceivedAfter(w, t, a))
  }

  // ----- consistency -----

  /** IDs are given out once: none is shared within or between the lists, now or ever. */
  ghost predicate Ledger(received: seq<Received>, receivedSize: nat, sent: seq<Sent>, sentSize: nat, generator: nat, issued: set<nat>) {
    && generator < 0x1_0000_0000 && DistinctIds(received)
    && (forall r :: r in received ==> r.id <= generator && r.id !in issued)
    && (forall j, k :: 0 <= j < k < |sent| ==> sent[j].id != sent[k].id)
    && (forall s :: s in sent ==> s.id in issued)
    && (forall id :: id in issued ==> id <= generator)
    && |received| <= receivedSize && |sent| <= sentSize
  }

  ghost predicate LedgerOk(w: World) {
    Ledger(w.received, w.receivedSize, w.sent, w.sentSize, w.generator, w.issued)
  }

  ghost predicate HasEntry(received: seq<Received>, id: nat) {
    exists k :: 0 <= k < |received| && received[k].id == id
  }

  /** Element `g` is a request that names a live entry, an answer that carries an issued ID, or neither. */
  ghost predicate Sound(pools: seq<Pool>, g: Handle, received: seq<Received>, asks: set<Handle>, issued: set<nat>) {
    && InPools(g, pools) && IdReadable(At(pools, g))
    && if g in asks then At(pools, g).opType == RrReceived && HasEntry(received, IdAt(pools, g))
       else At(pools, g).opType == RrReceived ==> IdAt(pools, g) in issued
  }

  ghost predicate LiveSound(pools: seq<Pool>, q: set<Handle>, received: seq<Received>, asks: set<Handle>, issued: set<nat>) {
    && (forall g :: g in q ==> Sound(pools, g, received, asks, issued))
    && forall g, h :: g in q && h in q && g in asks && h in asks && g != h ==> IdAt(pools, g) != IdAt(pools, h)
  }

  /** What thread `t` has in hand is what its job says. */
  ghost predicate JobFits(pools: seq<Pool>, c: Pc, j: Job, asks: set<Handle>) {
    match j
    case Other =>
      && (c.Passed? || c.Scanning? || c.Owning? ==> c.op.opType != RrReceived)
      && (c.Prepared? || c.Falling? ==> InPools(c.h, pools) && At(pools, c.h).opType != RrReceived && c.h !in asks)
    case Asking(op, id) =>
      && HoldsId(op, id) && op.opType == RrReceived && Pushable(pools, op)
      && (c == Outside || ((c.Passed? || c.Scanning? || c.Owning?) && c.op == op && !c.first)
          || (c.Prepared? && !c.first && InPools(c.h, pools) && Carries(pools, c.h, id) && c.h in asks))
    case Answering(op, id) =>
      && HoldsId(op, id) && op.opType == RrReceived && Pushable(pools, op)
      && (c == Outside || ((c.Passed? || c.Scanning? || c.Owning?) && c.op == op)
          || ((c.Prepared? || c.Falling?) && InPools(c.h, pools) && Carries(pools, c.h, id) && c.h !in asks))
    case Undoing(_) => c == Outside
  }

  ghost predicate Carries(pools: seq<Pool>, h: Handle, id: nat) {
    InPools(h, pools) && At(pools, h).opType == RrReceived && |At(pools, h).parameters| >= 4 && IdAt(pools, h) == id
  }

  ghost predicate Registered(j: Job) {
    j.Asking? || j.Undoing?
  }

  /** A registration in progress has its own entry, which no other thread and no element names. */
  ghost predicate JobSound(w: World, t: nat)
    requires t < |w.jobs|
  {
    && (Registered(w.jobs[t]) ==> HasEntry(w.received, w.jobs[t].id))
    && (Registered(w.jobs[t]) ==> forall g :: g in Live(w.x) && g in w.asks ==> IdAt(w.x.pools, g) != w.jobs[t].id)
    && (w.jobs[t].Answering? ==> w.jobs[t].id in w.issued)
  }

  ghost predicate JobsApart(jobs: seq<Job>) {
    forall t, u :: 0 <= t < u < |jobs| && Registered(jobs[t]) && Registered(jobs[u]) ==> jobs[t].id != jobs[u].id
  }

  ghost predicate JobsOk(w: World) {
    && |w.jobs| == |w.x.pcs| && JobsApart(w.jobs)
    && (forall t :: 0 <= t < |w.jobs| ==> JobFits(w.x.pools, w.x.pcs[t], w.jobs[t], w.asks))
    && forall t :: 0 <= t < |w.jobs| ==> JobSound(w, t)
  }

  ghost predicate WorldInv(w: World) {
    && Inv(w.x) && LedgerOk(w) && JobsOk(w)
    && LiveSound(w.x.pools, Live(w.x), w.received, w.asks, w.issued)
  }

  // ----- what a step of the queue does to the live elements -----

  /** Contents of live elements never change. */
  lemma LiveFrame(x: Sys, t: nat, a: Action, g: Handle)
    requires Inv(x) && Enabled(x, t, a) && g in Live(x)
    ensures InPools(g, x.pools) && InPools(g, Next(x, t, a).pools) && At(Next(x, t, a).pools, g) == At(x.pools, g)
  {
    PoolChange(x, t, a);
    InvQueued(x);
    if g !in x.queue {
      assert PcOk(x.pools, x.pcs[x.owner.value]);
      assert InSection(x.pcs[t]) ==> x.owner == Some(t);
    }
  }

  /** A landing adds an element, a drop takes one away, nothing else adds any. */
  lemma LiveAfter(x: Sys, t: nat, a: Action)
    requires Inv(x) && Enabled(x, t, a)
    ensures Lands(x, t, a) ==> HasHand(x.pcs[t]) && x.pcs[t].h !in Live(x) && Live(Next(x, t, a)) == Live(x) + {x.pcs[t].h}
    ensures DropsNow(x, t, a) ==> x.pcs[t].h in Live(x) && Live(Next(x, t, a)) == Live(x) - {x.pcs[t].h}
    ensures !Lands(x, t, a) ==> Live(Next(x, t, a)) <= Live(x)
  {
    HandsUpdate(x.pcs, t, Outside);
    assert HasHand(x.pcs[t]) ==> x.pcs[t].h in HandOf(x.pcs[t]);
    assert InSection(x.pcs[t]) ==> x.owner == Some(t);
    if a.Enter? || a.Fall? { LandingLive(x, t, a); }
    else if a.Judge? { JudgedLive(x, t); }
    else { OtherLive(x, t, a); }
  }

  lemma LandingLive(x: Sys, t: nat, a: Action)
    requires Inv(x) && Enabled(x, t, a) && (a.Enter? || a.Fall?) && HasHand(x.pcs[t])
    requires forall u :: 0 <= u < |x.pcs| && u != t && HasHand(x.pcs[u]) ==> x.pcs[u].h != x.pcs[t].h
    requires x.pcs[t].h !in x.queue && (x.owner == Some(t) ==> InSection(x.pcs[t]))
    ensures Lands(x, t, a) ==> x.pcs[t].h !in Live(x) && Live(Next(x, t, a)) == Live(x) + {x.pcs[t].h}
    ensures !Lands(x, t, a) ==> Live(Next(x, t, a)) == Live(x)
  {
    var y := Next(x, t, a);
    assert JudgesNow(y) == JudgesNow(x);
    assert x.owner.Some? && x.owner.value < |x.pcs| ==> x.owner.value != t && y.pcs[x.owner.value] == x.pcs[x.owner.value];
  }

  lemma JudgedLive(x: Sys, t: nat)
    requires Inv(x) && Enabled(x, t, Judge) && x.owner == Some(t) && x.pcs[t].h !in x.queue
    ensures DropsNow(x, t, Judge) ==> x.pcs[t].h in Live(x) && Live(Next(x, t, Judge)) == Live(x) - {x.pcs[t].h}
    ensures Live(Next(x, t, Judge)) <= Live(x)
  {
    var y := Next(x, t, Judge);
    assert JudgesNow(x) && !JudgesNow(y);
  }

  lemma OtherLive(x: Sys, t: nat, a: Action)
    requires Inv(x) && Enabled(x, t, a) && !(a.Enter? || a.Fall? || a.Judge?)
    ensures Live(Next(x, t, a)) <= Live(x)
  {
    OtherQueue(x, t, a);
    OtherHand(x, t, a);
    hide Inv, Enabled, Next;
  }

  lemma OtherQueue(x: Sys, t: nat, a: Action)
    requires Inv(x) && Enabled(x, t, a) && !(a.Enter? || a.Fall? || a.Judge?)
    ensures forall h :: h in Next(x, t, a).queue ==> h in x.queue
  {
    QueueFacts(x.pools, x.queue, Handle(0, 0));
    hide Inv;
  }

  /** An element the cleaning has in hand after the step was there before, or at the front of the queue. */
  lemma OtherHand(x: Sys, t: nat, a: Action)
    requires Inv(x) && Enabled(x, t, a) && !(a.Enter? || a.Fall? || a.Judge?)
    ensures var y := Next(x, t, a); JudgesNow(y) ==> y.pcs[y.owner.value].h in Live(x)
  {
    assert InSection(x.pcs[t]) ==> x.owner == Some(t);
  }

  // ----- jobs -----

  /** The hands of other threads are left alone, and so are their marks. */
  lemma OthersFit(w: World, t: nat, a: Action, u: nat)
    requires WorldInv(w) && Enabled(w.x, t, a) && t < |w.jobs| && u < |w.jobs| && u != t
    ensures var y := Next(w.x, t, a);
            u < |y.pcs| && y.pcs[u] == w.x.pcs[u] && JobFits(y.pools, y.pcs[u], w.jobs[u], AsksAfter(w, t, a))
  {
    OthersHand(w, t, a, u);
    OnlyTouched(w.x, t, a);
    assert JobFits(w.x.pools, w.x.pcs[u], w.jobs[u], w.asks);
    hide Inv, LedgerOk, LiveSound, JobSound, Enabled, Next, JobFits, AsksAfter, Touched, Changes, HasHand;
    FitsOn(w.x.pools, Next(w.x, t, a).pools, Touched(w.x, t, a), w.x.pcs[u], w.jobs[u], w.asks, AsksAfter(w, t, a));
  }

  lemma OthersHand(w: World, t: nat, a: Action, u: nat)
    requires Inv(w.x) && Enabled(w.x, t, a) && |w.jobs| == |w.x.pcs| && u < |w.jobs| && u != t
    ensures u < |Next(w.x, t, a).pcs| && Next(w.x, t, a).pcs[u] == w.x.pcs[u]
    ensures HasHand(w.x.pcs[u]) ==> w.x.pcs[u].h !in Touched(w.x, t, a)
    ensures HasHand(w.x.pcs[u]) ==> (w.x.pcs[u].h in AsksAfter(w, t, a) <==> w.x.pcs[u].h in w.asks)
  {
    hide Inv, Next, Changes;
    PoolChange(w.x, t, a);
    OthersStay(w.x, t, a);
  }

  lemma FitsOn(pools: seq<Pool>, after: seq<Pool>, s: set<Handle>, c: Pc, j: Job, asks: set<Handle>, asks': set<Handle>)
    requires JobFits(pools, c, j, asks) && Changes(pools, after, s)
    requires HasHand(c) ==> c.h !in s && (c.h in asks' <==> c.h in asks)
    ensures JobFits(after, c, j, asks')
  {
    if HasHand(c) && InPools(c.h, pools) { assert At(after, c.h) == At(pools, c.h); }
  }

  /** The thread that moves: its job fits again. */
  lemma OwnFits(w: World, t: nat, a: Action)
    requires WorldInv(w) && Can(w, t, Go(a))
    ensures var y := Next(w.x, t, a);
            t < |y.pcs| && JobFits(y.pools, y.pcs[t], JobAfter(w.x, t, a, w.jobs[t]), AsksAfter(w, t, a))
  {
    assert JobFits(w.x.pools, w.x.pcs[t], w.jobs[t], w.asks);
    OnlyTouched(w.x, t, a);
    if a.Fill? { FillFits(w, t); }
    else if a.Try? || a.Take? || a.Scan? { TakeFits(w, t, a); }
    else if a.Enter? || a.Fall? { EnterFits(w, t, a); }
    else { RestFits(w, t, a); }
  }

  lemma SameShapePushable(pools: seq<Pool>, after: seq<Pool>, s: set<Handle>, op: Operation)
    requires Changes(pools, after, s) && Pushable(pools, op)
    ensures Pushable(after, op)
  {
  }

  lemma TakeFits(w: World, t: nat, a: Action)
    requires Can(w, t, Go(a)) && (a.Try? || a.Take? || a.Scan?) && JobFits(w.x.pools, w.x.pcs[t], w.jobs[t], w.asks)
    requires Changes(w.x.pools, Next(w.x, t, a).pools, Touched(w.x, t, a))
    ensures var y := Next(w.x, t, a);
            t < |y.pcs| && JobFits(y.pools, y.pcs[t], JobAfter(w.x, t, a, w.jobs[t]), AsksAfter(w, t, a))
  {
    var y := Next(w.x, t, a);
    if w.jobs[t].Asking? || w.jobs[t].Answering? { SameShapePushable(w.x.pools, y.pools, Touched(w.x, t, a), w.jobs[t].op); }
    hide Changes, Pushable, HoldsId;
    var c := y.pcs[t];
    assert c == Outside || c.Passed? || c.Scanning? || c.Owning?;
  }

  lemma EnterFits(w: World, t: nat, a: Action)
    requires Can(w, t, Go(a)) && (a.Enter? || a.Fall?) && JobFits(w.x.pools, w.x.pcs[t], w.jobs[t], w.asks)
    ensures var y := Next(w.x, t, a);
            t < |y.pcs| && JobFits(y.pools, y.pcs[t], JobAfter(w.x, t, a, w.jobs[t]), AsksAfter(w, t, a))
  {
    var y := Next(w.x, t, a);
    assert y.pools == w.x.pools;
    hide Pushable, HoldsId, Carries;
  }

  lemma RestFits(w: World, t: nat, a: Action)
    requires Can(w, t, Go(a)) && !(a.Try? || a.Take? || a.Scan? || a.Fill? || a.Enter? || a.Fall?)
    requires JobFits(w.x.pools, w.x.pcs[t], w.jobs[t], w.asks)
    ensures var y := Next(w.x, t, a);
            t < |y.pcs| && JobFits(y.pools, y.pcs[t], JobAfter(w.x, t, a, w.jobs[t]), AsksAfter(w, t, a))
  {
    var y := Next(w.x, t, a);
    var c := y.pcs[t];
    assert JobAfter(w.x, t, a, w.jobs[t]) == w.jobs[t];
    assert w.jobs[t] == Other;
    hide Pushable, HoldsId, Carries;
  }

  /** Filling the element writes the ID the job carries. */
  lemma FillFits(w: World, t: nat)
    requires Can(w, t, Go(Fill)) && JobFits(w.x.pools, w.x.pcs[t], w.jobs[t], w.asks)
    requires Inv(w.x)
    ensures var y := Next(w.x, t, Fill);
            t < |y.pcs| && JobFits(y.pools, y.pcs[t], JobAfter(w.x, t, Fill, w.jobs[t]), AsksAfter(w, t, Fill))
  {
    var y, c, j := Next(w.x, t, Fill), w.x.pcs[t], w.jobs[t];
    var poolSize := w.x.pools[c.h.pool].parameterSize;
    var e := Filled(At(w.x.pools, c.h), c.op, poolSize);
    WithAt(w.x.pools, c.h, e, w.x.pools[c.h.pool].available);
    assert PcOk(w.x.pools, c);
    if j.Asking? || j.Answering? {
      SameShapePushable(w.x.pools, y.pools, {c.h}, j.op);
      FilledId(At(w.x.pools, c.h), c.op, j.id, poolSize);
    }
    hide Pushable, HoldsId, Changes;
  }

  // ----- the entries -----

  /** What the cleaning forgets: the entry of the request it drops, and nothing for an answer. */
  ghost function Forgotten(w: World, t: nat, a: Action): set<nat>
    requires Enabled(w.x, t, a)
  {
    if DropsNow(w.x, t, a) && w.x.pcs[t].h in w.asks then {IdAt(w.x.pools, w.x.pcs[t].h)} else {}
  }

  lemma NothingForgotten(received: seq<Received>)
    ensures Remaining(received, {}) == received
  {
    RemainingNone(received, {});
  }

  lemma ForgetsExactly(w: World, t: nat, a: Action)
    requires WorldInv(w) && Enabled(w.x, t, a)
    ensures ReceivedAfter(w, t, a) == Remaining(w.received, Forgotten(w, t, a))
  {
    NothingForgotten(w.received);
    if DropsNow(w.x, t, a) {
      var h := w.x.pcs[t].h;
      LiveAfter(w.x, t, a);
      assert Sound(w.x.pools, h, w.received, w.asks, w.issued);
      if At(w.x.pools, h).opType == RrReceived {
        DropIsFilter(w.received, IdAt(w.x.pools, h));
        if h !in w.asks { RemainingNone(w.received, {IdAt(w.x.pools, h)}); }
      }
    }
  }

  lemma StillHasEntry(received: seq<Received>, ids: set<nat>, id: nat)
    requires HasEntry(received, id) && id !in ids
    ensures HasEntry(Remaining(received, ids), id)
  {
    var k :| 0 <= k < |received| && received[k].id == id;
    RemainingMembers(received, ids, received[k]);
    var j :| 0 <= j < |Remaining(received, ids)| && Remaining(received, ids)[j] == received[k];
  }

  lemma RemainingLedger(received: seq<Received>, receivedSize: nat, sent: seq<Sent>, sentSize: nat, generator: nat, issued: set<nat>, ids: set<nat>)
    requires Ledger(received, receivedSize, sent, sentSize, generator, issued)
    ensures Ledger(Remaining(received, ids), receivedSize, sent, sentSize, generator, issued)
  {
    RemainingDistinct(received, ids);
    forall r | r in Remaining(received, ids) ensures r in received {
      RemainingMembers(received, ids, r);
    }
  }

  /** Fewer live elements, and fewer entries that none of them names. */
  lemma SoundShrink(pools: seq<Pool>, q: set<Handle>, after: seq<Pool>, q': set<Handle>, received: seq<Received>, ids: set<nat>,
                    asks: set<Handle>, asks': set<Handle>, issued: set<nat>)
    requires LiveSound(pools, q, received, asks, issued) && q' <= q
    requires forall g :: g in q' ==> InPools(g, after) && At(after, g) == At(pools, g) && (g in asks' <==> g in asks)
    requires forall g :: g in q' && g in asks ==> IdAt(pools, g) !in ids
    ensures LiveSound(after, q', Remaining(received, ids), asks', issued)
  {
    forall g | g in q' ensures Sound(after, g, Remaining(received, ids), asks', issued) && IdAt(after, g) == IdAt(pools, g) {
      assert Sound(pools, g, received, asks, issued);
      if g in asks { StillHasEntry(received, ids, IdAt(pools, g)); }
    }
  }

  /** One element more, sound and with an ID of its own. */
  lemma SoundJoin(pools: seq<Pool>, q: set<Handle>, h: Handle, received: seq<Received>, asks: set<Handle>, issued: set<nat>)
    requires LiveSound(pools, q, received, asks, issued) && h !in q && Sound(pools, h, received, asks, issued)
    requires h in asks ==> forall g :: g in q && g in asks ==> IdAt(pools, g) != IdAt(pools, h)
    ensures LiveSound(pools, q + {h}, received, asks, issued)
  {
  }

  /** More entries and more issued IDs do no harm. */
  lemma SoundGrow(pools: seq<Pool>, q: set<Handle>, received: seq<Received>, more: seq<Received>, asks: set<Handle>,
                  issued: set<nat>, issued': set<nat>)
    requires LiveSound(pools, q, received, asks, issued) && issued <= issued'
    ensures LiveSound(pools, q, received + more, asks, issued')
  {
    forall g | g in q ensures Sound(pools, g, received + more, asks, issued') {
      assert Sound(pools, g, received, asks, issued);
      if g in asks {
        var k :| 0 <= k < |received| && received[k].id == IdAt(pools, g);
        assert (received + more)[k].id == IdAt(pools, g);
      }
    }
  }

  // ----- steps of the threads -----

  /** A landing element is what the job of its thread says. */
  lemma LandingSound(w: World, t: nat, a: Action)
    requires WorldInv(w) && Can(w, t, Go(a)) && Lands(w.x, t, a)
    ensures HasHand(w.x.pcs[t])
    ensures var h := w.x.pcs[t].h;
            && Sound(w.x.pools, h, w.received, w.asks, w.issued)
            && (h in w.asks ==> w.jobs[t].Asking? && IdAt(w.x.pools, h) == w.jobs[t].id)
            && (h in w.asks ==> forall g :: g in Live(w.x) && g in w.asks ==> IdAt(w.x.pools, g) != IdAt(w.x.pools, h))
  {
    assert JobFits(w.x.pools, w.x.pcs[t], w.jobs[t], w.asks);
    assert JobSound(w, t);
    assert PcOk(w.x.pools, w.x.pcs[t]);
  }

  lemma GoParts(w: World, t: nat, a: Action)
    requires WorldInv(w) && Can(w, t, Go(a))
    ensures t < |w.jobs| && Enabled(w.x, t, a)
    ensures var v := After(w, t, Go(a));
            && v.x == Next(w.x, t, a) && v.received == Remaining(w.received, Forgotten(w, t, a)) && v.asks == AsksAfter(w, t, a)
            && v.issued == w.issued && v.jobs == w.jobs[t := JobAfter(w.x, t, a, w.jobs[t])]
            && v.receivedSize == w.receivedSize && v.sent == w.sent && v.sentSize == w.sentSize && v.generator == w.generator
            && (Lands(w.x, t, a) ==> v.x.pools == w.x.pools && v.asks == w.asks && Forgotten(w, t, a) == {})
  {
    ForgetsExactly(w, t, a);
  }

  /** Only the element being filled changes its mark. */
  lemma MarksStay(w: World, t: nat, a: Action, g: Handle)
    requires WorldInv(w) && Can(w, t, Go(a)) && g in Live(w.x)
    ensures g in AsksAfter(w, t, a) <==> g in w.asks
  {
    if a.Fill? {
      HandsUpdate(w.x.pcs, t, Outside);
      assert w.x.pcs[t].h in HandOf(w.x.pcs[t]);
      assert InSection(w.x.pcs[t]) ==> w.x.owner == Some(t);
    }
  }

  /** What the cleaning forgets is named by no element that stays, and by no registration in progress. */
  lemma ForgottenNotLive(w: World, t: nat, a: Action)
    requires WorldInv(w) && Can(w, t, Go(a))
    ensures forall g :: g in Live(Next(w.x, t, a)) && g in w.asks && g in Live(w.x) ==> IdAt(w.x.pools, g) !in Forgotten(w, t, a)
    ensures forall u :: 0 <= u < |w.jobs| && Registered(w.jobs[u]) ==> w.jobs[u].id !in Forgotten(w, t, a)
  {
    LiveAfter(w.x, t, a);
    forall u | 0 <= u < |w.jobs| && Registered(w.jobs[u]) ensures w.jobs[u].id !in Forgotten(w, t, a) {
      assert JobSound(w, u);
    }
  }

  lemma GoSound(w: World, t: nat, a: Action)
    requires WorldInv(w) && Can(w, t, Go(a))
    ensures var v := After(w, t, Go(a)); LiveSound(v.x.pools, Live(v.x), v.received, v.asks, v.issued)
  {
    var v, ids := After(w, t, Go(a)), Forgotten(w, t, a);
    GoParts(w, t, a);
    LiveAfter(w.x, t, a);
    var old' := if Lands(w.x, t, a) then Live(w.x) else Live(v.x);
    forall g | g in old' ensures InPools(g, v.x.pools) && At(v.x.pools, g) == At(w.x.pools, g) && (g in v.asks <==> g in w.asks) {
      LiveFrame(w.x, t, a, g);
      MarksStay(w, t, a, g);
    }
    ForgottenNotLive(w, t, a);
    if Lands(w.x, t, a) { LandingSound(w, t, a); NothingForgotten(w.received); }
    hide WorldInv, Can, After, Lands, Live, Forgotten, IdAt, Inv, Enabled, Next;
    SoundShrink(w.x.pools, Live(w.x), v.x.pools, old', w.received, ids, w.asks, v.asks, w.issued);
    if Lands(w.x, t, a) {
      SoundJoin(v.x.pools, Live(w.x), w.x.pcs[t].h, v.received, v.asks, v.issued);
    }
  }

  lemma GoJobSound(w: World, t: nat, a: Action, u: nat)
    requires WorldInv(w) && Can(w, t, Go(a)) && u < |w.jobs|
    ensures JobSound(After(w, t, Go(a)), u)
  {
    var v := After(w, t, Go(a));
    GoParts(w, t, a);
    ForgottenNotLive(w, t, a);
    assert JobSound(w, u);
    JobsFollow(w, t, a);
    if Registered(v.jobs[u]) {
      StillHasEntry(w.received, Forgotten(w, t, a), w.jobs[u].id);
      forall g | g in Live(v.x) && g in v.asks ensures IdAt(v.x.pools, g) != w.jobs[u].id {
        NotNamed(w, t, a, u, g);
      }
    }
    hide Inv, LiveSound, Live, Ledger, Enabled, Next, Lands;
  }

  lemma JobsFollow(w: World, t: nat, a: Action)
    requires t < |w.jobs| && Enabled(w.x, t, a)
    ensures var j := JobAfter(w.x, t, a, w.jobs[t]);
            && (j == w.jobs[t] || j == Other || (w.jobs[t].Asking? && j == Undoing(w.jobs[t].id)))
            && (Lands(w.x, t, a) ==> j == Other)
  {
  }

  /** No element that is live after the step names a registration still in progress. */
  lemma NotNamed(w: World, t: nat, a: Action, u: nat, g: Handle)
    requires WorldInv(w) && Can(w, t, Go(a)) && u < |w.jobs| && Registered(w.jobs[u])
    requires u == t ==> !Lands(w.x, t, a)
    requires g in Live(Next(w.x, t, a)) && g in AsksAfter(w, t, a)
    ensures IdAt(Next(w.x, t, a).pools, g) != w.jobs[u].id
  {
    LiveAfter(w.x, t, a);
    assert JobSound(w, u);
    if g in Live(w.x) {
      LiveFrame(w.x, t, a, g);
      MarksStay(w, t, a, g);
    } else {
      LandingSound(w, t, a);
      assert Next(w.x, t, a).pools == w.x.pools && AsksAfter(w, t, a) == w.asks;
    }
  }

  lemma GoInv(w: World, t: nat, a: Action)
    requires WorldInv(w) && Can(w, t, Go(a))
    ensures WorldInv(After(w, t, Go(a)))
  {
    hide Inv, Enabled, Next, LiveSound, JobFits, JobSound, Ledger, JobsApart, After, Can, Forgotten, JobAfter, AsksAfter, Live;
    GoParts(w, t, a);
    GoSound(w, t, a);
    StepInv(w.x, t, a);
    RemainingLedger(w.received, w.receivedSize, w.sent, w.sentSize, w.generator, w.issued, Forgotten(w, t, a));
    GoJobs(w, t, a);
  }

  lemma GoJobs(w: World, t: nat, a: Action)
    requires WorldInv(w) && Can(w, t, Go(a))
    ensures JobsOk(After(w, t, Go(a)))
  {
    var v := After(w, t, Go(a));
    GoParts(w, t, a);
    JobsFollow(w, t, a);
    GoApart(w, t, a);
    forall u | 0 <= u < |v.jobs| ensures JobFits(v.x.pools, v.x.pcs[u], v.jobs[u], v.asks) && JobSound(v, u) {
      GoJobSound(w, t, a, u);
      if u == t { OwnFits(w, t, a); } else { OthersFit(w, t, a, u); }
    }
    hide Inv, Enabled, Next, LiveSound, JobFits, JobSound, Ledger, JobsApart;
  }

  lemma GoApart(w: World, t: nat, a: Action)
    requires JobsApart(w.jobs) && Can(w, t, Go(a))
    ensures JobsApart(w.jobs[t := JobAfter(w.x, t, a, w.jobs[t])])
  {
    JobsFollow(w, t, a);
  }

  // ----- steps on the request table -----

  lemma AppendThenDrop(r: seq<Received>, x: Received)
    requires DistinctIds(r) && forall y :: y in r ==> y.id != x.id
    ensures DistinctIds(r + [x]) && DropReceived(r + [x], x.id) == r
  {
    DropIsFilter(r + [x], x.id);
    RemainingOne(r, x, [], {x.id});
    assert r + ([x] + []) == r + [x] && r + [] == r;
  }

  lemma FreshId(w: World)
    requires WorldInv(w) && w.generator < 0xFFFF_FFFF
    ensures NextId(w.generator) == w.generator + 1 && w.generator + 1 !in w.issued
    ensures forall r :: r in w.received ==> r.id <= w.generator
    ensures forall g :: g in Live(w.x) && g in w.asks ==> IdAt(w.x.pools, g) <= w.generator
    ensures forall t :: 0 <= t < |w.jobs| && Registered(w.jobs[t]) ==> w.jobs[t].id <= w.generator
  {
    forall g | g in Live(w.x) && g in w.asks ensures IdAt(w.x.pools, g) <= w.generator {
      assert Sound(w.x.pools, g, w.received, w.asks, w.issued);
      var k :| 0 <= k < |w.received| && w.received[k].id == IdAt(w.x.pools, g);
      assert w.received[k] in w.received;
    }
    forall t | 0 <= t < |w.jobs| && Registered(w.jobs[t]) ensures w.jobs[t].id <= w.generator {
      assert JobSound(w, t);
      var k :| 0 <= k < |w.received| && w.received[k].id == w.jobs[t].id;
      assert w.received[k] in w.received;
    }
  }

  lemma StampedHolds(pools: seq<Pool>, op: Operation, id: nat)
    requires HasParameters(op) && id < 0x1_0000_0000 && Pushable(pools, op) && op.opType == RrReceived
    ensures HoldsId(Stamped(op, id), id) && Pushable(pools, Stamped(op, id)) && Stamped(op, id).opType == RrReceived
  {
  }

  lemma RegisterInv(w: World, t: nat, r: Received, op: Operation)
    requires WorldInv(w) && Can(w, t, Register(r, op))
    ensures WorldInv(After(w, t, Register(r, op)))
  {
    var v, id := After(w, t, Register(r, op)), w.generator + 1;
    var entry := r.(id := id);
    FreshId(w);
    StampedHolds(w.x.pools, op, id);
    assert v == w.(received := w.received + [entry], generator := id, jobs := w.jobs[t := Asking(Stamped(op, id), id)]);
    AppendThenDrop(w.received, entry);
    SoundGrow(w.x.pools, Live(w.x), w.received, [entry], w.asks, w.issued, w.issued);
    assert v.received[|w.received|].id == id;
    forall u | 0 <= u < |v.jobs| ensures JobFits(v.x.pools, v.x.pcs[u], v.jobs[u], v.asks) && JobSound(v, u) {
      assert JobFits(w.x.pools, w.x.pcs[u], w.jobs[u], w.asks) && JobSound(w, u);
      if u != t && Registered(w.jobs[u]) { MoreEntries(w.received, [entry], w.jobs[u].id); }
    }
    hide Inv, LiveSound, JobFits, Live;
  }

  lemma MoreEntries(received: seq<Received>, more: seq<Received>, id: nat)
    requires HasEntry(received, id)
    ensures HasEntry(received + more, id)
  {
    var k :| 0 <= k < |received| && received[k].id == id;
    assert (received + more)[k].id == id;
  }

  lemma SendInv(w: World, t: nat, s: Sent)
    requires WorldInv(w) && Can(w, t, Send(s))
    ensures WorldInv(After(w, t, Send(s)))
  {
    var v := After(w, t, Send(s));
    FreshId(w);
    if |w.sent| < w.sentSize {
      SoundGrow(w.x.pools, Live(w.x), w.received, [], w.asks, w.issued, v.issued);
      assert w.received + [] == w.received;
    }
    forall u | 0 <= u < |v.jobs| ensures JobFits(v.x.pools, v.x.pcs[u], v.jobs[u], v.asks) && JobSound(v, u) {
      assert JobFits(w.x.pools, w.x.pcs[u], w.jobs[u], w.asks) && JobSound(w, u);
    }
    hide Inv, LiveSound, JobFits, Live, JobsApart;
  }

  lemma DropSentLedger(w: World, id: nat)
    requires LedgerOk(w)
    ensures LedgerOk(w.(sent := DropSent(w.sent, id)))
  {
    var k := FindSent(w.sent, id, |w.sent|);
    if k.Some? {
      var r := IntrusiveList.Without(w.sent, k.value);
      forall j | 0 <= j < |r| ensures r[j] in w.sent {
        assert r[j] == w.sent[if j < k.value then j else j + 1];
      }
    }
  }

  lemma FreeSentInv(w: World, t: nat, id: nat)
    requires WorldInv(w) && Can(w, t, FreeSent(id))
    ensures WorldInv(After(w, t, FreeSent(id)))
  {
    DropSentLedger(w, id);
    var v := After(w, t, FreeSent(id));
    forall u | 0 <= u < |v.jobs| ensures JobFits(v.x.pools, v.x.pcs[u], v.jobs[u], v.asks) && JobSound(v, u) {
      assert JobFits(w.x.pools, w.x.pcs[u], w.jobs[u], w.asks) && JobSound(w, u);
    }
    hide Inv, LiveSound, JobFits, Live, JobsApart, Ledger;
  }

  lemma AnswerInv(w: World, t: nat, id: nat, op: Operation)
    requires WorldInv(w) && Can(w, t, Answer(id, op))
    ensures WorldInv(After(w, t, Answer(id, op)))
  {
    var k := FindSent(w.sent, id, |w.sent|);
    if k.Some? {
      var v, s := After(w, t, Answer(id, op)), w.sent[k.value];
      assert s in w.sent;
      StampedHolds(w.x.pools, AnswerOp(op, s), id);
      forall u | 0 <= u < |v.jobs| ensures JobFits(v.x.pools, v.x.pcs[u], v.jobs[u], v.asks) && JobSound(v, u) {
        assert JobFits(w.x.pools, w.x.pcs[u], w.jobs[u], w.asks) && JobSound(w, u);
      }
    }
    hide Inv, LiveSound, JobFits, Live;
  }

  /** An entry that no element and no registration but that of thread `t` names may go. */
  lemma RemoveInv(w: World, t: nat, id: nat, jobs: seq<Job>)
    requires WorldInv(w) && t < |w.jobs| && (jobs == w.jobs || (jobs == w.jobs[t := Other] && w.x.pcs[t] == Outside))
    requires forall g :: g in Live(w.x) && g in w.asks ==> IdAt(w.x.pools, g) != id
    requires forall u :: 0 <= u < |jobs| && Registered(jobs[u]) ==> jobs[u].id != id
    ensures WorldInv(w.(received := DropReceived(w.received, id), jobs := jobs))
    ensures DropReceived(w.received, id) == Remaining(w.received, {id})
  {
    var v := w.(received := DropReceived(w.received, id), jobs := jobs);
    LedgerDistinct(w);
    DropIsFilter(w.received, id);
    RemainingLedger(w.received, w.receivedSize, w.sent, w.sentSize, w.generator, w.issued, {id});
    SoundKept(w, id);
    hide Inv, LiveSound, Live, DropReceived, Ledger, DistinctIds, Remaining, JobFits;
    forall u | 0 <= u < |v.jobs| ensures JobFits(v.x.pools, v.x.pcs[u], v.jobs[u], v.asks) && JobSound(v, u) {
      assert JobFits(w.x.pools, w.x.pcs[u], w.jobs[u], w.asks);
      NoJobFits(w.x.pools, w.x.pcs[u], w.asks);
      RemoveJobSound(w, v, id, u);
    }
  }

  lemma NoJobFits(pools: seq<Pool>, c: Pc, asks: set<Handle>)
    ensures c == Outside ==> JobFits(pools, c, Other, asks)
  {
  }

  lemma LedgerDistinct(w: World)
    requires LedgerOk(w)
    ensures DistinctIds(w.received)
  {
  }

  lemma RemoveJobSound(w: World, v: World, id: nat, u: nat)
    requires u < |w.jobs| && JobSound(w, u) && v.x == w.x && v.asks == w.asks && v.issued == w.issued && |v.jobs| == |w.jobs|
    requires v.received == Remaining(w.received, {id}) && (v.jobs[u] == w.jobs[u] || v.jobs[u] == Other)
    requires Registered(v.jobs[u]) ==> v.jobs[u].id != id
    ensures JobSound(v, u)
  {
    if Registered(v.jobs[u]) { StillHasEntry(w.received, {id}, v.jobs[u].id); }
  }

  lemma SoundKept(w: World, id: nat)
    requires WorldInv(w) && forall g :: g in Live(w.x) && g in w.asks ==> IdAt(w.x.pools, g) != id
    ensures LiveSound(w.x.pools, Live(w.x), Remaining(w.received, {id}), w.asks, w.issued)
  {
    forall g | g in Live(w.x) ensures InPools(g, w.x.pools) {
      assert Sound(w.x.pools, g, w.received, w.asks, w.issued);
    }
    hide Live, Inv;
    SoundShrink(w.x.pools, Live(w.x), w.x.pools, Live(w.x), w.received, {id}, w.asks, w.asks, w.issued);
  }

  lemma UndoInv(w: World, t: nat)
    requires WorldInv(w) && Can(w, t, Undo)
    ensures WorldInv(After(w, t, Undo))
    ensures After(w, t, Undo).received == Remaining(w.received, {w.jobs[t].id})
  {
    assert JobSound(w, t);
    RemoveInv(w, t, w.jobs[t].id, w.jobs[t := Other]);
  }

  lemma FreeReceivedInv(w: World, t: nat, id: nat)
    requires WorldInv(w) && Can(w, t, FreeReceived(id))
    ensures WorldInv(After(w, t, FreeReceived(id)))
  {
    RemoveInv(w, t, id, w.jobs);
  }

  // ----- every step -----

  lemma WorldStep(w: World, t: nat, s: Step)
    requires WorldInv(w) && Can(w, t, s)
    ensures WorldInv(After(w, t, s))
  {
    hide WorldInv, Can, After;
    match s
    case Register(r, op) => RegisterInv(w, t, r, op);
    case Send(m) => SendInv(w, t, m);
    case Answer(id, op) => AnswerInv(w, t, id, op);
    case FreeSent(id) => FreeSentInv(w, t, id);
    case FreeReceived(id) => FreeReceivedInv(w, t, id);
    case Undo => UndoInv(w, t);
    case Go(a) => GoInv(w, t, a);
  }

  ghost predicate Starts(w: World) {
    && Initial(w.x) && |w.jobs| == |w.x.pcs| && (forall t :: 0 <= t < |w.jobs| ==> w.jobs[t] == Other)
    && w.received == [] && w.sent == [] && w.generator == 0x64 && w.asks == {} && w.issued == {}
  }

  lemma StartsInv(w: World)
    requires Starts(w)
    ensures WorldInv(w)
  {
    InitialInv(w.x);
    assert Live(w.x) == {};
  }
}
