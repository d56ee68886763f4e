/** When a message is consumed although other packets arrive between its own. */
module LocalUdpDelivery {
  import opened Common
  import opened LocalUdp

  // A buffer serves one module. A message is thrown away exactly by a packet of a newer one of
  // its module; packets of other modules and of older messages leave it alone.

  /** Buffer `i` collects message `id` of module `m` and holds every tile of it that has arrived. */
  ghost predicate Holds(bufs: seq<Buffer>, have: seq<set<nat>>, seen: set<Name>, m: nat, id: nat, i: nat) {
    && i < |bufs| && i < |have| && bufs[i].moduleId == m && !bufs[i].isFree && bufs[i].readMsgId == id
    && forall j :: Name(m, id, j) in seen ==> j in have[i]
  }

  /** Buffer `i` serves module `m` and does not hold tile `j` of message `id`, which has arrived. */
  ghost predicate Missed(bufs: seq<Buffer>, have: seq<set<nat>>, seen: set<Name>, m: nat, id: nat, i: nat, j: nat) {
    && i < |bufs| && i < |have| && bufs[i].moduleId == m && Name(m, id, j) in seen
    && (bufs[i].isFree || bufs[i].readMsgId != id || j !in have[i])
  }

  /** No buffer serves module `m`, and none is left to be assigned. */
  ghost predicate NoRoom(bufs: seq<Buffer>, m: nat) {
    forall i :: 0 <= i < |bufs| ==> bufs[i].moduleId != m && bufs[i].moduleId != 0
  }

  ghost predicate Whole(seen: set<Name>, m: nat, id: nat, n: nat) {
    forall j :: 0 <= j < n ==> Name(m, id, j) in seen
  }

  /** A packet of another module leaves the buffer of `m` alone. */
  lemma OtherModule(bufs: seq<Buffer>, have: seq<set<nat>>, seen: set<Name>, sent: Traffic, size: nat, p: Packet, n: Name, m: nat, i: nat)
    returns (have': seq<set<nat>>)
    requires Inv(bufs, have, seen, sent, size) && IsTile(p, n, sent) && n !in seen
    requires i < |bufs| && bufs[i].moduleId == m && m != 0 && n.m != m
    ensures p.seqStart + |p.data| <= size
    ensures Inv(Received(bufs, p, size).0, have', seen + {n}, sent, size)
    ensures i < |have| && i < |have'| && Received(bufs, p, size).0[i] == bufs[i] && have'[i] == have[i]
  {
    PickFinds(bufs, n.m, 0, None);
    hide Received, Inserted, Assigned, IsTile, TilesAfter, Collecting;
    have' := ReceivedTiles(bufs, have, seen, sent, size, p, n);
  }

  /** A packet of module `m` goes to the buffer of `m`. */
  lemma OwnModule(bufs: seq<Buffer>, have: seq<set<nat>>, seen: set<Name>, sent: Traffic, size: nat, p: Packet, n: Name, i: nat)
    returns (have': seq<set<nat>>)
    requires Inv(bufs, have, seen, sent, size) && IsTile(p, n, sent) && n !in seen
    requires i < |bufs| && bufs[i].moduleId == n.m
    ensures p.seqStart + |p.data| <= size
    ensures Inv(Received(bufs, p, size).0, have', seen + {n}, sent, size) && Collecting(bufs[i], have[i], seen, sent)
    ensures i < |have| && i < |have'| && have'[i] == TilesAfter(bufs[i], have[i], n)
    ensures var b := Inserted(bufs[i], p);
            && Received(bufs, p, size).0[i] == (if b.received == b.number then b.(isFree := true) else b)
            && (Received(bufs, p, size).1.Some? <==> b.received == b.number)
    ensures var out := Received(bufs, p, size).1; out.Some? ==> WholeMessage(out.value, n, sent, seen + {n}, size)
  {
    PickAgain(bufs, n.m, i, 0, None);
    hide Received, Inserted, IsTile, TilesAfter, Collecting;
    have' := ReceivedTiles(bufs, have, seen, sent, size, p, n);
  }

  lemma CollectingIs(b: Buffer, have: set<nat>, seen: set<Name>, sent: Traffic, m: nat, id: nat)
    requires Collecting(b, have, seen, sent) && m != 0 && b.moduleId == m && !b.isFree && b.readMsgId == id
    ensures (m, id) in sent && b.number == Tiles(|sent[(m, id)]|) && b.received == |have|
    ensures forall j :: j in have ==> j < b.number && Name(m, id, j) in seen
  {
  }

  lemma {:induction false} AllIn(have: set<nat>, n: nat)
    requires (forall j :: 0 <= j < n ==> j in have) && forall j :: j in have ==> j < n
    ensures |have| == n
  {
    if n == 0 {
      assert have == {};
    } else {
      AllIn(have - {n - 1}, n - 1);
    }
  }

  /** Anything but a newer message of the module leaves the message being collected. */
  lemma HoldsStep(bufs: seq<Buffer>, have: seq<set<nat>>, seen: set<Name>, sent: Traffic, size: nat, p: Packet, n: Name, m: nat, id: nat, i: nat)
    returns (have': seq<set<nat>>)
    requires Inv(bufs, have, seen, sent, size) && IsTile(p, n, sent) && n !in seen
    requires Holds(bufs, have, seen, m, id, i) && m != 0 && id != 0 && (m, id) in sent && (n.m == m ==> n.id <= id)
    ensures p.seqStart + |p.data| <= size
    ensures Inv(Received(bufs, p, size).0, have', seen + {n}, sent, size)
    ensures Received(bufs, p, size).1.None? || (n.m, n.id) != (m, id) ==> Holds(Received(bufs, p, size).0, have', seen + {n}, m, id, i)
    ensures (n.m, n.id) == (m, id) ==>
              (Received(bufs, p, size).1.Some? <==> Whole(seen + {n}, m, id, Tiles(|sent[(m, id)]|)))
  {
    hide Received, Collecting, Inv, WholeMessage;
    if n.m != m {
      HoldsIndex(bufs, have, seen, sent, size, i);
      have' := OtherModule(bufs, have, seen, sent, size, p, n, m, i);
    } else {
      HoldsIndex(bufs, have, seen, sent, size, i);
      have' := OwnModule(bufs, have, seen, sent, size, p, n, i);
      CollectingIs(bufs[i], have[i], seen, sent, m, id);
      if n.id == id { CompleteIff(bufs[i], have[i], seen, sent, p, n); }
    }
  }

  lemma HoldsIndex(bufs: seq<Buffer>, have: seq<set<nat>>, seen: set<Name>, sent: Traffic, size: nat, i: nat)
    requires Inv(bufs, have, seen, sent, size)
    ensures Sized(bufs, size) && |have| == |bufs| && (i < |bufs| ==> Collecting(bufs[i], have[i], seen, sent))
  {
  }

  /** A tile of the message being collected completes it if and only if all its tiles are in. */
  lemma CompleteIff(b: Buffer, have: set<nat>, seen: set<Name>, sent: Traffic, p: Packet, n: Name)
    requires Collecting(b, have, seen, sent) && IsTile(p, n, sent) && n !in seen && p.seqStart + |p.data| <= |b.readMsg|
    requires b.moduleId == n.m && b.readMsgId == n.id && !b.isFree && forall j :: Name(n.m, n.id, j) in seen ==> j in have
    ensures TilesAfter(b, have, n) == have + {n.i} && Inserted(b, p).moduleId == n.m && !Inserted(b, p).isFree && Inserted(b, p).readMsgId == n.id
    ensures Inserted(b, p).received == Inserted(b, p).number <==> Whole(seen + {n}, n.m, n.id, Tiles(|sent[(n.m, n.id)]|))
  {
    var all := have + {n.i};
    var k := Tiles(|sent[(n.m, n.id)]|);
    assert Name(n.m, n.id, n.i) == n;
    assert n.i !in have;
    assert |all| == |have| + 1;
    if |all| == k {
      FullSet(all, k);
    }
    if Whole(seen + {n}, n.m, n.id, k) {
      forall j | 0 <= j < k ensures j in all { assert Name(n.m, n.id, j) in seen + {n}; }
      AllIn(all, k);
    }
  }

  /** What has been missed stays missed: no tile arrives twice. */
  lemma MissedStep(bufs: seq<Buffer>, have: seq<set<nat>>, seen: set<Name>, sent: Traffic, size: nat, p: Packet, n: Name, m: nat, id: nat, i: nat, j: nat)
    returns (have': seq<set<nat>>)
    requires Inv(bufs, have, seen, sent, size) && IsTile(p, n, sent) && n !in seen
    requires m != 0 && j < (if (m, id) in sent then Tiles(|sent[(m, id)]|) else 0)
    requires Missed(bufs, have, seen, m, id, i, j)
          || (Holds(bufs, have, seen, m, id, i) && Name(m, id, j) in seen && n.m == m && n.id > id)
    ensures p.seqStart + |p.data| <= size
    ensures Inv(Received(bufs, p, size).0, have', seen + {n}, sent, size)
    ensures Missed(Received(bufs, p, size).0, have', seen + {n}, m, id, i, j)
    ensures (n.m, n.id) == (m, id) ==> Received(bufs, p, size).1.None?
  {
    hide Received, Collecting, Inv, WholeMessage;
    HoldsIndex(bufs, have, seen, sent, size, i);
    if n.m != m {
      have' := OtherModule(bufs, have, seen, sent, size, p, n, m, i);
    } else {
      have' := OwnModule(bufs, have, seen, sent, size, p, n, i);
      assert Name(m, id, n.i) == n || n.id != id;
      if n.id == id { StillMissed(bufs[i], have[i], seen, sent, p, n, j); }
    }
  }

  lemma StillMissed(b: Buffer, have: set<nat>, seen: set<Name>, sent: Traffic, p: Packet, n: Name, j: nat)
    requires Collecting(b, have, seen, sent) && IsTile(p, n, sent) && n !in seen && p.seqStart + |p.data| <= |b.readMsg|
    requires b.moduleId == n.m && j < Tiles(|sent[(n.m, n.id)]|) && Name(n.m, n.id, j) in seen
    requires b.isFree || b.readMsgId != n.id || j !in have
    ensures Inserted(b, p).received != Inserted(b, p).number && Inserted(b, p).moduleId == n.m
    ensures Inserted(b, p).readMsgId == n.id ==> j !in TilesAfter(b, have, n)
  {
    var k := Tiles(|sent[(n.m, n.id)]|);
    assert n == Name(n.m, n.id, n.i) && n.i != j;
    if !b.isFree && b.readMsgId == n.id {
      var all := have + {n.i};
      assert n.i !in have && |all| == |have| + 1;
      if |all| == k { FullSet(all, k); }
    }
  }

  // ----- whole runs -----

  lemma ArrivalsHead(ps: seq<Packet>, ns: seq<Name>, sent: Traffic, seen: set<Name>, k: nat)
    requires Arrivals(ps, ns, sent) && 0 < k < |ps| && forall j :: 0 <= j < |ns| ==> ns[j] !in seen
    ensures IsTile(ps[0], ns[0], sent) && ns[0] !in seen && ns[k] !in seen + {ns[0]}
    ensures Arrivals(ps[1..], ns[1..], sent) && forall j :: 0 <= j < |ns[1..]| ==> ns[1..][j] !in seen + {ns[0]}
  {
  }

  /** The last of the packets is one of message `id` of module `m`, and all its `n` tiles have arrived with it. */
  ghost predicate LastOf(ns: seq<Name>, seen: set<Name>, m: nat, id: nat, n: nat) {
    && ns != [] && (ns[|ns| - 1].m, ns[|ns| - 1].id) == (m, id)
    && forall j :: 0 <= j < n ==> Name(m, id, j) in seen || Name(m, id, j) in ns
  }

  lemma LastTail(ns: seq<Name>, seen: set<Name>, m: nat, id: nat, n: nat)
    requires LastOf(ns, seen, m, id, n) && |ns| > 1
    ensures LastOf(ns[1..], seen + {ns[0]}, m, id, n)
  {
  }

  /**
   From any sound state in which a message is being collected: it is consumed on the last of
   its tiles, whatever arrives in between, as long as no newer message of its module does.
   */
  lemma {:induction false} CollectedIsConsumed(bufs: seq<Buffer>, have: seq<set<nat>>, seen: set<Name>, ps: seq<Packet>, ns: seq<Name>,
                                               sent: Traffic, size: nat, m: nat, id: nat, i: nat)
    requires Inv(bufs, have, seen, sent, size) && Arrivals(ps, ns, sent) && AllFit(ps, size)
    requires forall j :: 0 <= j < |ns| ==> ns[j] !in seen
    requires m != 0 && id != 0 && (m, id) in sent && Holds(bufs, have, seen, m, id, i)
    requires LastOf(ns, seen, m, id, Tiles(|sent[(m, id)]|))
    requires forall k :: 0 <= k < |ns| && ns[k].m == m ==> ns[k].id <= id
    ensures Outputs(bufs, ps, size)[|ps| - 1].Some?
    decreases |ps|
  {
    hide Received, Inv, Holds, IsTile, WholeMessage, Tiles, Collecting;
    var last := |ps| - 1;
    Parts(bufs, have, seen, ps, ns, sent, size);
    var have' := HoldsStep(bufs, have, seen, sent, size, ps[0], ns[0], m, id, i);
    if last == 0 {
      LastWhole(ns, seen, m, id, Tiles(|sent[(m, id)]|));
    } else {
      ArrivalsHead(ps, ns, sent, seen, last);
      LastTail(ns, seen, m, id, Tiles(|sent[(m, id)]|));
      if (ns[0].m, ns[0].id) == (m, id) { NotYet(ps, ns, seen, sent, m, id); }
      OutputsTail(bufs, ps, size, last);
      CollectedIsConsumed(Received(bufs, ps[0], size).0, have', seen + {ns[0]}, ps[1..], ns[1..], sent, size, m, id, i);
    }
  }

  lemma Parts(bufs: seq<Buffer>, have: seq<set<nat>>, seen: set<Name>, ps: seq<Packet>, ns: seq<Name>, sent: Traffic, size: nat)
    requires Inv(bufs, have, seen, sent, size) && Arrivals(ps, ns, sent) && ps != []
    requires forall j :: 0 <= j < |ns| ==> ns[j] !in seen
    ensures Sized(bufs, size) && IsTile(ps[0], ns[0], sent) && ns[0] !in seen && |ns| == |ps|
  {
  }

  lemma LastWhole(ns: seq<Name>, seen: set<Name>, m: nat, id: nat, n: nat)
    requires LastOf(ns, seen, m, id, n) && |ns| == 1
    ensures Whole(seen + {ns[0]}, m, id, n)
  {
  }

  /** A tile before the last is not the one that completes the message. */
  lemma NotYet(ps: seq<Packet>, ns: seq<Name>, seen: set<Name>, sent: Traffic, m: nat, id: nat)
    requires Arrivals(ps, ns, sent) && |ns| > 1 && (ns[|ns| - 1].m, ns[|ns| - 1].id) == (m, id) && (m, id) in sent
    requires forall j :: 0 <= j < |ns| ==> ns[j] !in seen
    ensures !Whole(seen + {ns[0]}, m, id, Tiles(|sent[(m, id)]|))
  {
    var z := ns[|ns| - 1];
    assert IsTile(ps[|ns| - 1], z, sent);
    assert z == Name(m, id, z.i) && z !in seen + {ns[0]};
  }

  /** A message a tile of which has been missed is not consumed any more. */
  lemma {:induction false} MissedIsLost(bufs: seq<Buffer>, have: seq<set<nat>>, seen: set<Name>, ps: seq<Packet>, ns: seq<Name>,
                                        sent: Traffic, size: nat, m: nat, id: nat, i: nat, j: nat)
    requires Inv(bufs, have, seen, sent, size) && Arrivals(ps, ns, sent) && AllFit(ps, size) && ps != []
    requires forall k :: 0 <= k < |ns| ==> ns[k] !in seen
    requires m != 0 && (m, id) in sent && j < Tiles(|sent[(m, id)]|)
    requires Missed(bufs, have, seen, m, id, i, j)
          || (Holds(bufs, have, seen, m, id, i) && Name(m, id, j) in seen && ns[0].m == m && ns[0].id > id)
    requires (ns[|ns| - 1].m, ns[|ns| - 1].id) == (m, id)
    ensures Outputs(bufs, ps, size)[|ps| - 1].None?
    decreases |ps|
  {
    hide Received, Inv, Holds, Missed, IsTile, WholeMessage, Tiles, Collecting;
    var last := |ps| - 1;
    Parts(bufs, have, seen, ps, ns, sent, size);
    var have' := MissedStep(bufs, have, seen, sent, size, ps[0], ns[0], m, id, i, j);
    if last > 0 {
      ArrivalsHead(ps, ns, sent, seen, last);
      OutputsTail(bufs, ps, size, last);
      MissedIsLost(Received(bufs, ps[0], size).0, have', seen + {ns[0]}, ps[1..], ns[1..], sent, size, m, id, i, j);
    }
  }

  /** So a newer message of the module, arriving in between, loses the older one. */
  lemma {:induction false} NewerLosesIt(bufs: seq<Buffer>, have: seq<set<nat>>, seen: set<Name>, ps: seq<Packet>, ns: seq<Name>,
                                        sent: Traffic, size: nat, m: nat, id: nat, i: nat, j: nat, k: nat)
    requires Inv(bufs, have, seen, sent, size) && Arrivals(ps, ns, sent) && AllFit(ps, size)
    requires forall k :: 0 <= k < |ns| ==> ns[k] !in seen
    requires m != 0 && id != 0 && (m, id) in sent && j < Tiles(|sent[(m, id)]|)
    requires Holds(bufs, have, seen, m, id, i) && Name(m, id, j) in seen
    requires k < |ns| && ns[k].m == m && ns[k].id > id && (forall l :: 0 <= l < k && ns[l].m == m ==> ns[l].id <= id)
    requires (ns[|ns| - 1].m, ns[|ns| - 1].id) == (m, id)
    ensures Outputs(bufs, ps, size)[|ps| - 1].None?
    decreases k
  {
    hide Received, Inv, Holds, Missed, IsTile, WholeMessage, Tiles, Collecting, Outputs;
    if k == 0 {
      MissedIsLost(bufs, have, seen, ps, ns, sent, size, m, id, i, j);
    } else {
      var last := |ps| - 1;
      Parts(bufs, have, seen, ps, ns, sent, size);
      var have' := HoldsStep(bufs, have, seen, sent, size, ps[0], ns[0], m, id, i);
      ArrivalsHead(ps, ns, sent, seen, last);
      if (ns[0].m, ns[0].id) == (m, id) { NotYet(ps, ns, seen, sent, m, id); }
      OutputsTail(bufs, ps, size, last);
      NewerLosesIt(Received(bufs, ps[0], size).0, have', seen + {ns[0]}, ps[1..], ns[1..], sent, size, m, id, i, j, k - 1);
    }
  }

  /** Where the first tile of a message goes. */
  lemma FirstTile(bufs: seq<Buffer>, have: seq<set<nat>>, seen: set<Name>, sent: Traffic, size: nat, p: Packet, n: Name)
    returns (have': seq<set<nat>>, i: nat)
    requires Inv(bufs, have, seen, sent, size) && IsTile(p, n, sent) && forall j :: Name(n.m, n.id, j) !in seen
    ensures p.seqStart + |p.data| <= size && Inv(Received(bufs, p, size).0, have', seen + {n}, sent, size)
    ensures NoRoom(bufs, n.m) ==> Received(bufs, p, size) == (bufs, None)
    ensures !NoRoom(bufs, n.m) && NoneNewer(bufs, n.m, n.id) ==>
              var (bufs', out) := Received(bufs, p, size);
              && (out.Some? <==> Whole(seen + {n}, n.m, n.id, Tiles(|sent[(n.m, n.id)]|)))
              && (out.None? ==> Holds(bufs', have', seen + {n}, n.m, n.id, i))
    ensures !NoRoom(bufs, n.m) && !NoneNewer(bufs, n.m, n.id) ==>
              Received(bufs, p, size).1.None? && Missed(Received(bufs, p, size).0, have', seen + {n}, n.m, n.id, i, n.i)
  {
    hide Received, IsTile, WholeMessage, Collecting, Inserted;
    IsNamed(p, n, sent);
    PickFinds(bufs, n.m, 0, None);
    PickNone(bufs, n.m, 0, None);
    have' := ReceivedTiles(bufs, have, seen, sent, size, p, n);
    i := 0;
    if Pick(bufs, n.m, 0, None).Some? {
      i := Pick(bufs, n.m, 0, None).value;
      FirstInserted(Assigned(bufs[i], n.m), have[i], seen, sent, p, n);
    }
  }

  /** No buffer is collecting a newer message of the module. */
  ghost predicate NoneNewer(bufs: seq<Buffer>, m: nat, id: nat) {
    forall i :: 0 <= i < |bufs| && bufs[i].moduleId == m && !bufs[i].isFree ==> bufs[i].readMsgId <= id
  }

  lemma {:induction false} PickNone(bufs: seq<Buffer>, m: nat, from: nat, free: Option<nat>)
    requires from <= |bufs| && OwnBuffers(bufs) && (free.Some? ==> free.value < from)
    ensures Pick(bufs, m, from, free).None? <==>
              free.None? && forall i :: from <= i < |bufs| ==> bufs[i].moduleId != m && bufs[i].moduleId != 0
    decreases |bufs| - from
  {
    if from < |bufs| && bufs[from].moduleId != m {
      PickNone(bufs, m, from + 1, if free.None? && bufs[from].isFree && bufs[from].moduleId == 0 then Some(from) else free);
    }
  }

  lemma FirstInserted(b: Buffer, have: set<nat>, seen: set<Name>, sent: Traffic, p: Packet, n: Name)
    requires b.isFree || b.readMsgId == 0 || Collecting(b, have, seen, sent)
    requires b.moduleId == n.m && IsTile(p, n, sent) && p.seqStart + |p.data| <= |b.readMsg| && forall j :: Name(n.m, n.id, j) !in seen
    ensures var b' := Inserted(b, p);
            if b.isFree || b.readMsgId <= n.id then
              && b'.moduleId == n.m && !b'.isFree && b'.readMsgId == n.id && TilesAfter(b, have, n) == {n.i}
              && (b'.received == b'.number <==> Whole(seen + {n}, n.m, n.id, Tiles(|sent[(n.m, n.id)]|)))
            else
              b' == b && b.received != b.number
  {
    var k := Tiles(|sent[(n.m, n.id)]|);
    var second: nat := 1;
    assert n == Name(n.m, n.id, n.i);
    if !b.isFree && b.readMsgId == n.id { CollectingIs(b, have, seen, sent, n.m, n.id); assert have == {}; }
    if Whole(seen + {n}, n.m, n.id, k) {
      assert Name(n.m, n.id, 0) in seen + {n};
      assert k > 1 ==> Name(n.m, n.id, second) in seen + {n};
    }
  }

  /** With no buffer left for the module nothing of it is ever consumed. */
  lemma {:induction false} NoRoomIsLost(bufs: seq<Buffer>, have: seq<set<nat>>, seen: set<Name>, ps: seq<Packet>, ns: seq<Name>,
                                        sent: Traffic, size: nat, m: nat)
    requires Inv(bufs, have, seen, sent, size) && Arrivals(ps, ns, sent) && AllFit(ps, size) && ps != []
    requires forall k :: 0 <= k < |ns| ==> ns[k] !in seen
    requires NoRoom(bufs, m) && ns[|ns| - 1].m == m
    ensures Outputs(bufs, ps, size)[|ps| - 1].None?
    decreases |ps|
  {
    hide Received, Inv, IsTile, WholeMessage, Tiles, Collecting, NoRoom;
    var last := |ps| - 1;
    Parts(bufs, have, seen, ps, ns, sent, size);
    var have' := NoRoomStep(bufs, have, seen, sent, size, ps[0], ns[0], m);
    if last > 0 {
      ArrivalsHead(ps, ns, sent, seen, last);
      OutputsTail(bufs, ps, size, last);
      NoRoomIsLost(Received(bufs, ps[0], size).0, have', seen + {ns[0]}, ps[1..], ns[1..], sent, size, m);
    }
  }

  lemma NoRoomStep(bufs: seq<Buffer>, have: seq<set<nat>>, seen: set<Name>, sent: Traffic, size: nat, p: Packet, n: Name, m: nat)
    returns (have': seq<set<nat>>)
    requires Inv(bufs, have, seen, sent, size) && IsTile(p, n, sent) && n !in seen && NoRoom(bufs, m)
    ensures p.seqStart + |p.data| <= size && Inv(Received(bufs, p, size).0, have', seen + {n}, sent, size)
    ensures NoRoom(Received(bufs, p, size).0, m) && (n.m == m ==> Received(bufs, p, size).1.None?)
  {
    hide Received, IsTile, WholeMessage, Collecting;
    IsNamed(p, n, sent);
    PickFinds(bufs, n.m, 0, None);
    PickNone(bufs, n.m, 0, None);
    have' := ReceivedTiles(bufs, have, seen, sent, size, p, n);
  }

  /**
   Exactly when a message is consumed whose tiles all arrive, with any packets of any modules
   in between: there is a buffer for its module, no newer message of the module was being
   collected when its first tile came, and none has arrived since.
   */
  lemma ConsumedIff(bufs: seq<Buffer>, have: seq<set<nat>>, seen: set<Name>, ps: seq<Packet>, ns: seq<Name>,
                    sent: Traffic, size: nat, m: nat, id: nat)
    requires Inv(bufs, have, seen, sent, size) && Arrivals(ps, ns, sent) && ps != []
    requires (forall k :: 0 <= k < |ns| ==> ns[k] !in seen) && forall j :: Name(m, id, j) !in seen
    requires (m, id) in sent && (ns[0].m, ns[0].id) == (m, id) == (ns[|ns| - 1].m, ns[|ns| - 1].id)
    requires forall j :: 0 <= j < Tiles(|sent[(m, id)]|) ==> Name(m, id, j) in ns
    ensures Sized(bufs, size) && AllFit(ps, size)
    ensures Outputs(bufs, ps, size)[|ps| - 1].Some? <==>
              && (exists i :: 0 <= i < |bufs| && (bufs[i].moduleId == m || bufs[i].moduleId == 0))
              && (forall i :: 0 <= i < |bufs| && bufs[i].moduleId == m && !bufs[i].isFree ==> bufs[i].readMsgId <= id)
              && (forall k :: 0 <= k < |ns| && ns[k].m == m ==> ns[k].id <= id)
    ensures var out := Outputs(bufs, ps, size)[|ps| - 1];
            out.Some? ==> |out.value| == size && out.value[..|sent[(m, id)]|] == sent[(m, id)]
  {
    ArrivalsFit(ps, ns, sent, size);
    RunOk(bufs, have, seen, ps, ns, sent, size, |ps| - 1);
    assert NoRoom(bufs, m) || exists i :: 0 <= i < |bufs| && (bufs[i].moduleId == m || bufs[i].moduleId == 0);
    if NoRoom(bufs, m) {
      NoRoomIsLost(bufs, have, seen, ps, ns, sent, size, m);
    } else {
      FirstTileDecides(bufs, have, seen, ps, ns, sent, size, m, id);
    }
  }

  lemma FirstTileDecides(bufs: seq<Buffer>, have: seq<set<nat>>, seen: set<Name>, ps: seq<Packet>, ns: seq<Name>,
                         sent: Traffic, size: nat, m: nat, id: nat)
    requires Inv(bufs, have, seen, sent, size) && Arrivals(ps, ns, sent) && ps != [] && AllFit(ps, size)
    requires (forall k :: 0 <= k < |ns| ==> ns[k] !in seen) && forall j :: Name(m, id, j) !in seen
    requires (m, id) in sent && (ns[0].m, ns[0].id) == (m, id) && LastOf(ns, seen, m, id, Tiles(|sent[(m, id)]|))
    requires !NoRoom(bufs, m)
    ensures Sized(bufs, size)
    ensures Outputs(bufs, ps, size)[|ps| - 1].Some? <==>
              NoneNewer(bufs, m, id) && forall k :: 0 <= k < |ns| && ns[k].m == m ==> ns[k].id <= id
  {
    hide Received, Inv, Holds, Missed, IsTile, WholeMessage, Tiles, Collecting, NoneNewer, NoRoom, Arrivals, Outputs;
    var last := |ps| - 1;
    Parts(bufs, have, seen, ps, ns, sent, size);
    IsNamed(ps[0], ns[0], sent);
    var have', i := FirstTile(bufs, have, seen, sent, size, ps[0], ns[0]);
    if last == 0 {
      LastWhole(ns, seen, m, id, Tiles(|sent[(m, id)]|));
      FirstOutput(bufs, ps, size);
    } else {
      NotYet(ps, ns, seen, sent, m, id);
      ArrivalsHead(ps, ns, sent, seen, last);
      OutputsTail(bufs, ps, size, last);
      LastTail(ns, seen, m, id, Tiles(|sent[(m, id)]|));
      NewerInTail(ns, m, id);
      var (bufs', seen') := (Received(bufs, ps[0], size).0, seen + {ns[0]});
      if NoneNewer(bufs, m, id) {
        RestDecides(bufs', have', seen', ps[1..], ns[1..], sent, size, m, id, i, ns[0].i);
      } else {
        MissedIsLost(bufs', have', seen', ps[1..], ns[1..], sent, size, m, id, i, ns[0].i);
      }
    }
  }

  lemma FirstOutput(bufs: seq<Buffer>, ps: seq<Packet>, size: nat)
    requires Sized(bufs, size) && AllFit(ps, size) && ps != []
    ensures Outputs(bufs, ps, size)[0] == Received(bufs, ps[0], size).1
  {
  }

  lemma NewerInTail(ns: seq<Name>, m: nat, id: nat)
    requires ns != [] && ns[0].id == id
    ensures (forall k :: 0 <= k < |ns[1..]| && ns[1..][k].m == m ==> ns[1..][k].id <= id)
        <==> forall k :: 0 <= k < |ns| && ns[k].m == m ==> ns[k].id <= id
  {
    assert forall k :: 0 < k < |ns| ==> ns[k] == ns[1..][k - 1];
  }

  lemma RestDecides(bufs: seq<Buffer>, have: seq<set<nat>>, seen: set<Name>, ps: seq<Packet>, ns: seq<Name>,
                    sent: Traffic, size: nat, m: nat, id: nat, i: nat, j: nat)
    requires Inv(bufs, have, seen, sent, size) && Arrivals(ps, ns, sent) && AllFit(ps, size)
    requires forall k :: 0 <= k < |ns| ==> ns[k] !in seen
    requires m != 0 && id != 0 && (m, id) in sent && j < Tiles(|sent[(m, id)]|)
    requires Holds(bufs, have, seen, m, id, i) && Name(m, id, j) in seen && LastOf(ns, seen, m, id, Tiles(|sent[(m, id)]|))
    ensures Outputs(bufs, ps, size)[|ps| - 1].Some? <==> forall k :: 0 <= k < |ns| && ns[k].m == m ==> ns[k].id <= id
  {
    hide Inv, Holds, Outputs, IsTile;
    if k :| 0 <= k < |ns| && ns[k].m == m && ns[k].id > id {
      var first := FirstNewer(ns, m, id, k);
      NewerLosesIt(bufs, have, seen, ps, ns, sent, size, m, id, i, j, first);
    } else {
      CollectedIsConsumed(bufs, have, seen, ps, ns, sent, size, m, id, i);
    }
  }

  lemma IsNamed(p: Packet, n: Name, sent: Traffic)
    requires IsTile(p, n, sent)
    ensures n == Name(n.m, n.id, n.i) && n.m != 0 && n.id != 0 && n.i < Tiles(|sent[(n.m, n.id)]|)
  {
  }

  lemma {:induction false} FirstNewer(ns: seq<Name>, m: nat, id: nat, k: nat) returns (f: nat)
    requires k < |ns| && ns[k].m == m && ns[k].id > id
    ensures f <= k && ns[f].m == m && ns[f].id > id && forall l :: 0 <= l < f && ns[l].m == m ==> ns[l].id <= id
    decreases k
  {
    if l :| 0 <= l < k && ns[l].m == m && ns[l].id > id {
      f := FirstNewer(ns, m, id, l);
    } else {
      f := k;
    }
  }
}
