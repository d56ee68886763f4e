/**
 Senders that start every message from the same counter, as the callers of
 ldp_ELI_udp_msg_fragment_and_send in lib/ldp_VD.c:304 and lib/ldp_mod_container_util.c:175 do.
 A receiver cannot tell fragment 1 of one message from fragment 1 of the next, so losses can
 splice messages.
 */
module EliRestart {
  import opened Common
  import opened EliFragment
  import opened EliSession

  /** What goes on the wire. */
  function Restarted(msgs: seq<Message>, pf: Byte, ch: Byte, c: nat, first: nat): seq<Tagged> {
    if msgs == [] then [] else Tags(msgs[0], pf, ch, c, first) + Restarted(msgs[1..], pf, ch, c, first + 1)
  }

  /** Messages that fit the buffer and a counter that does not wrap within one. */
  ghost predicate Sendable(msgs: seq<Message>, c: nat, max: nat) {
    forall k :: 0 <= k < |msgs| ==> |msgs[k]| <= max && c + Count(|msgs[k]|) < U16
  }

  // ----- splices -----

  /** Bytes of fragment `j` of a message. */
  function Piece(m: seq<Byte>, j: nat): seq<Byte>
    requires j < Count(|m|)
  {
    m[Upto(m, j)..Upto(m, j + 1)]
  }

  /**
   Fragment 0 of message ks[0], fragment 1 of message ks[1], and so on, in the order of
   sending. When the consumer gives its channel back after each message, only the last of
   them may be the last one of its message.
   */
  ghost predicate Chain(msgs: seq<Message>, ks: seq<nat>, release: bool) {
    && ks != []
    && (forall j :: 0 <= j < |ks| ==> ks[j] < |msgs| && j < Count(|msgs[ks[j]]|))
    && (forall j :: 0 < j < |ks| ==> ks[j - 1] <= ks[j])
    && (release ==> forall j :: 0 <= j < |ks| - 1 ==> j + 1 < Count(|msgs[ks[j]]|))
  }

  ghost function Splice(msgs: seq<Message>, ks: seq<nat>): seq<Byte>
    requires forall j :: 0 <= j < |ks| ==> ks[j] < |msgs| && j < Count(|msgs[ks[j]]|)
  {
    if ks == [] then []
    else Splice(msgs, ks[..|ks| - 1]) + Piece(msgs[ks[|ks| - 1]], |ks| - 1)
  }

  /** It ends with the last fragment of a message. */
  ghost predicate Ends(msgs: seq<Message>, ks: seq<nat>, release: bool) {
    Chain(msgs, ks, release) && |ks| == Count(|msgs[ks[|ks| - 1]]|)
  }

  lemma ChainMore(msgs: seq<Message>, ks: seq<nat>, k: nat, release: bool)
    requires Chain(msgs, ks, release) && k < |msgs| && ks[|ks| - 1] <= k && |ks| < Count(|msgs[k]|)
    requires release ==> |ks| < Count(|msgs[ks[|ks| - 1]]|)
    ensures Chain(msgs, ks + [k], release)
    ensures Splice(msgs, ks + [k]) == Splice(msgs, ks) + Piece(msgs[k], |ks|)
  {
    hide Splice, Piece, Count;
    assert Chain(msgs, ks + [k], release);
    SpliceAppend(msgs, ks, k);
  }

  lemma SpliceAppend(msgs: seq<Message>, ks: seq<nat>, k: nat)
    requires forall j :: 0 <= j < |ks + [k]| ==> (ks + [k])[j] < |msgs| && j < Count(|msgs[(ks + [k])[j]]|)
    ensures (forall j :: 0 <= j < |ks| ==> ks[j] < |msgs| && j < Count(|msgs[ks[j]]|)) && k < |msgs| && |ks| < Count(|msgs[k]|)
    ensures Splice(msgs, ks + [k]) == Splice(msgs, ks) + Piece(msgs[k], |ks|)
  {
    hide Piece, Count;
    assert (ks + [k])[..|ks|] == ks && (ks + [k])[|ks|] == k;
    forall j | 0 <= j < |ks| ensures ks[j] < |msgs| && j < Count(|msgs[ks[j]]|) {
      assert (ks + [k])[j] == ks[j];
    }
  }

  lemma ChainOne(msgs: seq<Message>, k: nat, release: bool)
    requires k < |msgs|
    ensures Chain(msgs, [k], release) && Splice(msgs, [k]) == Piece(msgs[k], 0)
  {
    assert [k][..0] == [];
    assert Splice(msgs, [k]) == Splice(msgs, []) + Piece(msgs[k], 0);
  }

  lemma PieceSize(m: seq<Byte>, j: nat)
    requires j < Count(|m|)
    ensures |Piece(m, j)| <= TILE && Start(j) + |Piece(m, j)| <= |m| && Start(j + 1) == Start(j) + TILE
  {
    Bounds(m, j);
    NextStart(j);
  }

  lemma {:induction false} SpliceSize(msgs: seq<Message>, ks: seq<nat>)
    requires forall j :: 0 <= j < |ks| ==> ks[j] < |msgs| && j < Count(|msgs[ks[j]]|)
    ensures |Splice(msgs, ks)| <= Start(|ks|)
    decreases |ks|
  {
    if ks != [] {
      SpliceSize(msgs, ks[..|ks| - 1]);
      PieceSize(msgs[ks[|ks| - 1]], |ks| - 1);
    }
  }

  // ----- what the session collects is a splice -----

  /** Fragment `j` of message `k`. */
  ghost predicate IsFragment(d: Datagram, msgs: seq<Message>, pf: Byte, ch: Byte, c: nat, k: nat, j: nat) {
    k < |msgs| && j < Count(|msgs[k]|) && d == Fragment(msgs[k], pf, ch, c, j)
  }

  /** The session has collected chain `ks`, whose last fragment is of a message not after `k`. */
  ghost predicate Collects(s: Session, msgs: seq<Message>, ks: seq<nat>, c: nat, k: nat, release: bool) {
    s.Open? ==>
      && Chain(msgs, ks, release) && s.counter == c + |ks| && s.data == Splice(msgs, ks) && ks[|ks| - 1] <= k
      && (release ==> |ks| < Count(|msgs[ks[|ks| - 1]]|))
  }

  lemma FragmentFields(d: Datagram, msgs: seq<Message>, pf: Byte, ch: Byte, c: nat, max: nat, k: nat, j: nat)
    requires Sendable(msgs, c, max) && IsFragment(d, msgs, pf, ch, c, k, j)
    ensures k < |msgs| && j < Count(|msgs[k]|) && d.counter == c + 1 + j && d.payload == Piece(msgs[k], j)
    ensures (d.Continues() <==> j > 0) && (d.Completes() <==> j + 1 == Count(|msgs[k]|))
  {
  }

  /** One datagram: whatever is delivered is a splice, and so is what is collected. */
  lemma CollectOne(s: Session, e: Event, msgs: seq<Message>, ks: seq<nat>, pf: Byte, ch: Byte, c: nat, max: nat, k: nat, j: nat)
      returns (ks': seq<nat>)
    requires Sendable(msgs, c, max) && IsFragment(e.d, msgs, pf, ch, c, k, j) && Collects(s, msgs, ks, c, k, e.release)
    ensures Collects(After(s, e, max), msgs, ks', c, k, e.release)
    ensures var o := Receive(s, e.d, max).1; o.Delivered? ==> Ends(msgs, ks', e.release) && o.msg == Splice(msgs, ks')
    ensures Receive(s, e.d, max).1 != Stale && Receive(s, e.d, max).1 != BufferError
    ensures e.d.Continues() && !(s.Open? && |ks| == j) ==> ks' == ks && Receive(s, e.d, max) == (if s.Open? then s else Fresh, LostPacket)
    ensures !e.d.Continues() ==> ks' == [k]
    ensures e.d.Continues() && s.Open? && |ks| == j ==> ks' == ks + [k]
    ensures !e.d.Continues() || (s.Open? && |ks| == j) ==>
              Receive(s, e.d, max).0.Open? && (e.d.Completes() <==> Receive(s, e.d, max).1.Delivered?)
  {
    hide Receive, Chain, Splice, Piece, IsFragment, Sendable, Count, Start, Upto;
    FragmentFields(e.d, msgs, pf, ch, c, max, k, j);
    FragmentFits(msgs, c, max, k, j);
    ReceiveKinds(s, e.d, max);
    if !e.d.Continues() {
      ks' := [k];
      ChainOne(msgs, k, e.release);
    } else if s.Open? && |ks| == j {
      ks' := ks + [k];
      ChainMore(msgs, ks, k, e.release);
      ChainFits(msgs, ks, c, max, k, e.release);
    } else {
      ks' := ks;
    }
  }

  lemma FragmentFits(msgs: seq<Message>, c: nat, max: nat, k: nat, j: nat)
    requires Sendable(msgs, c, max) && k < |msgs| && j < Count(|msgs[k]|)
    ensures |Piece(msgs[k], j)| <= max && j < Count(|msgs[k]|)
  {
    PieceSize(msgs[k], j);
  }

  lemma ChainFits(msgs: seq<Message>, ks: seq<nat>, c: nat, max: nat, k: nat, release: bool)
    requires Sendable(msgs, c, max) && Chain(msgs, ks, release) && k < |msgs| && |ks| < Count(|msgs[k]|)
    ensures |Splice(msgs, ks)| + |Piece(msgs[k], |ks|)| <= max
  {
    SpliceSize(msgs, ks);
    PieceSize(msgs[k], |ks|);
  }

  lemma ReceiveKinds(s: Session, d: Datagram, max: nat)
    ensures !d.Continues() && |d.payload| <= max ==>
              Receive(s, d, max) == (Open(d.counter, d.payload), if d.Completes() then Delivered(d.payload) else Incomplete)
    ensures d.Continues() && s.Open? && d.counter == s.counter + 1 && |s.data| + |d.payload| <= max ==>
              Receive(s, d, max) == (Open(d.counter, s.data + d.payload), if d.Completes() then Delivered(s.data + d.payload) else Incomplete)
    ensures d.Continues() && d.counter != LastCounter(s) + 1 ==> Receive(s, d, max) == (if s.Open? then s else Fresh, LostPacket)
  {
    assert [] + d.payload == d.payload;
  }

  lemma {:induction false} LocateIn(msgs: seq<Message>, pf: Byte, ch: Byte, c: nat, first: nat, q: nat) returns (j: nat)
    requires q < |Restarted(msgs, pf, ch, c, first)|
    ensures var x := Restarted(msgs, pf, ch, c, first)[q];
            first <= x.msg < first + |msgs| && IsFragment(x.d, msgs, pf, ch, c, x.msg - first, j)
  {
    var a := Tags(msgs[0], pf, ch, c, first);
    if q < |a| {
      j := q;
    } else {
      j := LocateIn(msgs[1..], pf, ch, c, first + 1, q - |a|);
    }
  }

  lemma {:induction false} SendingOrder(msgs: seq<Message>, pf: Byte, ch: Byte, c: nat, first: nat, q: nat, r: nat)
    requires q <= r < |Restarted(msgs, pf, ch, c, first)|
    ensures Restarted(msgs, pf, ch, c, first)[q].msg <= Restarted(msgs, pf, ch, c, first)[r].msg
  {
    var a := Tags(msgs[0], pf, ch, c, first);
    if r >= |a| {
      if q >= |a| {
        SendingOrder(msgs[1..], pf, ch, c, first + 1, q - |a|, r - |a|);
      } else {
        var _ := LocateIn(msgs[1..], pf, ch, c, first + 1, r - |a|);
      }
    }
  }

  /** All deliveries are ends of chains. */
  ghost predicate AllSplices(dels: seq<seq<Byte>>, msgs: seq<Message>, release: bool) {
    forall i :: 0 <= i < |dels| ==> IsSplice(dels[i], msgs, release)
  }

  ghost predicate IsSplice(m: seq<Byte>, msgs: seq<Message>, release: bool) {
    exists ks :: Ends(msgs, ks, release) && m == Splice(msgs, ks)
  }

  ghost predicate Releasing(es: seq<Event>, release: bool) {
    forall k :: 0 <= k < |es| ==> es[k].release == release
  }

  lemma {:induction false} DeliveriesAreSplices(s: Session, es: seq<Event>, msgs: seq<Message>, ks: seq<nat>, pf: Byte, ch: Byte, c: nat,
                                                max: nat, release: bool, kept: seq<nat>, k: nat)
    requires Sendable(msgs, c, max) && Releasing(es, release) && Arrives(es, Restarted(msgs, pf, ch, c, 0), kept)
    requires Collects(s, msgs, ks, c, k, release)
    requires kept != [] ==> k <= Restarted(msgs, pf, ch, c, 0)[kept[0]].msg
    ensures AllSplices(Deliveries(s, es, max), msgs, release)
    decreases |es|
  {
    hide Restarted, Collects, Receive, IsFragment, Ends, Splice, Sendable, Count, Arrives, After, AllSplices, Deliveries;
    NoDeliveries(s, max);
    if es == [] {
      NoSplices(msgs, release);
    } else {
      var st := Restarted(msgs, pf, ch, c, 0);
      FirstArrives(es, st, kept);
      var j := LocateIn(msgs, pf, ch, c, 0, kept[0]);
      var k' := st[kept[0]].msg;
      CollectsLater(s, msgs, ks, c, k, k', release);
      var ks' := CollectOne(s, es[0], msgs, ks, pf, ch, c, max, k', j);
      if |kept| > 1 { SendingOrder(msgs, pf, ch, c, 0, kept[0], kept[1]); }
      DeliveriesAreSplices(After(s, es[0], max), es[1..], msgs, ks', pf, ch, c, max, release, kept[1..], k');
      SplicesCons(s, es, max, msgs, ks', release);
    }
  }

  lemma SplicesCons(s: Session, es: seq<Event>, max: nat, msgs: seq<Message>, ks: seq<nat>, release: bool)
    requires es != [] && AllSplices(Deliveries(After(s, es[0], max), es[1..], max), msgs, release)
    requires var o := Receive(s, es[0].d, max).1; o.Delivered? ==> Ends(msgs, ks, release) && o.msg == Splice(msgs, ks)
    ensures AllSplices(Deliveries(s, es, max), msgs, release)
  {
    hide Receive, After, Ends, Splice;
    var o, rest := Receive(s, es[0].d, max).1, Deliveries(After(s, es[0], max), es[1..], max);
    if o.Delivered? {
      assert IsSplice(o.msg, msgs, release);
      assert Deliveries(s, es, max) == [o.msg] + rest;
    } else {
      assert Deliveries(s, es, max) == [] + rest == rest;
    }
  }

  lemma NoDeliveries(s: Session, max: nat)
    ensures Deliveries(s, [], max) == []
  {
  }

  lemma NoSplices(msgs: seq<Message>, release: bool)
    ensures AllSplices([], msgs, release)
  {
  }

  lemma FirstArrives(es: seq<Event>, st: seq<Tagged>, kept: seq<nat>)
    requires Arrives(es, st, kept) && es != []
    ensures kept != [] && kept[0] < |st| && es[0].d == st[kept[0]].d && Arrives(es[1..], st, kept[1..])
    ensures |kept| > 1 ==> kept[0] <= kept[1] < |st|
  {
    ArrivesTail(es, st, kept);
  }

  lemma CollectsLater(s: Session, msgs: seq<Message>, ks: seq<nat>, c: nat, k: nat, k': nat, release: bool)
    requires Collects(s, msgs, ks, c, k, release) && k <= k'
    ensures Collects(s, msgs, ks, c, k', release)
  {
  }

  // ----- every splice is delivered by some loss -----

  /** Place of fragment `j` of message `k` on the wire. */
  function Place(msgs: seq<Message>, k: nat, j: nat): nat
    requires k < |msgs|
  {
    if k == 0 then j else Count(|msgs[0]|) + Place(msgs[1..], k - 1, j)
  }

  lemma {:induction false} PlaceOf(msgs: seq<Message>, pf: Byte, ch: Byte, c: nat, first: nat, k: nat, j: nat)
    requires k < |msgs| && j < Count(|msgs[k]|)
    ensures Place(msgs, k, j) < |Restarted(msgs, pf, ch, c, first)|
    ensures Restarted(msgs, pf, ch, c, first)[Place(msgs, k, j)].d == Fragment(msgs[k], pf, ch, c, j)
  {
    if k > 0 { PlaceOf(msgs[1..], pf, ch, c, first + 1, k - 1, j); }
  }

  lemma {:induction false} PlacesGrow(msgs: seq<Message>, k: nat, j: nat, k': nat, j': nat)
    requires k <= k' < |msgs| && j < Count(|msgs[k]|) && j < j'
    ensures Place(msgs, k, j) < Place(msgs, k', j')
  {
    if k > 0 { PlacesGrow(msgs[1..], k - 1, j, k' - 1, j'); }
  }

  function Surviving(msgs: seq<Message>, ks: seq<nat>, pf: Byte, ch: Byte, c: nat, release: bool): seq<Event>
    requires forall j :: 0 <= j < |ks| ==> ks[j] < |msgs| && j < Count(|msgs[ks[j]]|)
  {
    seq(|ks|, j requires 0 <= j < |ks| => Event(Fragment(msgs[ks[j]], pf, ch, c, j), release))
  }

  lemma {:induction false} LaterMessage(msgs: seq<Message>, ks: seq<nat>, release: bool, i: nat, j: nat)
    requires Chain(msgs, ks, release) && i <= j < |ks|
    ensures ks[i] <= ks[j]
  {
    if i < j { LaterMessage(msgs, ks, release, i, j - 1); }
  }

  lemma SurvivingArrives(msgs: seq<Message>, ks: seq<nat>, pf: Byte, ch: Byte, c: nat, release: bool) returns (kept: seq<nat>)
    requires Chain(msgs, ks, release)
    ensures Arrives(Surviving(msgs, ks, pf, ch, c, release), Restarted(msgs, pf, ch, c, 0), kept)
  {
    kept := seq(|ks|, j requires 0 <= j < |ks| => Place(msgs, ks[j], j));
    forall j | 0 <= j < |kept|
      ensures kept[j] < |Restarted(msgs, pf, ch, c, 0)|
      ensures Surviving(msgs, ks, pf, ch, c, release)[j].d == Restarted(msgs, pf, ch, c, 0)[kept[j]].d {
      PlaceOf(msgs, pf, ch, c, 0, ks[j], j);
    }
    forall i, j | 0 <= i < j < |kept| ensures kept[i] < kept[j] {
      LaterMessage(msgs, ks, release, i, j);
      PlacesGrow(msgs, ks[i], i, ks[j], j);
    }
  }

  lemma {:induction false} ChainDelivered(s: Session, msgs: seq<Message>, ks: seq<nat>, pf: Byte, ch: Byte, c: nat, max: nat, release: bool, n: nat)
    requires Sendable(msgs, c, max) && Ends(msgs, ks, release) && n < |ks|
    requires if n == 0 then s == Closed else s.Open? && Collects(s, msgs, ks[..n], c, ks[n - 1], release)
    ensures Splice(msgs, ks) in Deliveries(s, Surviving(msgs, ks, pf, ch, c, release)[n..], max)
    decreases |ks| - n
  {
    hide Sendable, Collects, Splice, Receive, Fragment, IsFragment, After;
    var es := Surviving(msgs, ks, pf, ch, c, release);
    var e, k := es[n], ks[n];
    assert es[n..][0] == e && es[n..][1..] == es[n + 1..];
    var s', o := ChainStep(s, e, msgs, ks, pf, ch, c, max, release, n);
    if n + 1 < |ks| {
      ChainDelivered(s', msgs, ks, pf, ch, c, max, release, n + 1);
      var rest := Deliveries(s', es[n + 1..], max);
      assert Deliveries(s, es[n..], max) == (if o.Delivered? then [o.msg] else []) + rest;
    } else {
      assert Deliveries(s, es[n..], max)[0] == o.msg;
    }
  }

  lemma ChainStep(s: Session, e: Event, msgs: seq<Message>, ks: seq<nat>, pf: Byte, ch: Byte, c: nat, max: nat, release: bool, n: nat)
      returns (s': Session, o: Outcome)
    requires Sendable(msgs, c, max) && Ends(msgs, ks, release) && n < |ks| && e == Surviving(msgs, ks, pf, ch, c, release)[n]
    requires if n == 0 then s == Closed else s.Open? && Collects(s, msgs, ks[..n], c, ks[n - 1], release)
    ensures s' == After(s, e, max) && o == Receive(s, e.d, max).1
    ensures n + 1 < |ks| ==> s'.Open? && Collects(s', msgs, ks[..n + 1], c, ks[n], release)
    ensures n + 1 == |ks| ==> o == Delivered(Splice(msgs, ks))
  {
    hide Receive, Splice, Piece, Sendable, Count;
    s', o := After(s, e, max), Receive(s, e.d, max).1;
    var k := ks[n];
    assert IsFragment(e.d, msgs, pf, ch, c, k, n);
    FragmentFields(e.d, msgs, pf, ch, c, max, k, n);
    assert ks[..n + 1] == ks[..n] + [k];
    if n == 0 {
      var ks' := CollectOne(s, e, msgs, [k], pf, ch, c, max, k, n);
      assert ks' == ks[..1];
    } else {
      CollectsLater(s, msgs, ks[..n], c, ks[n - 1], k, release);
      var ks' := CollectOne(s, e, msgs, ks[..n], pf, ch, c, max, k, n);
      assert ks' == ks[..n + 1];
    }
    if n + 1 == |ks| { assert ks[..n + 1] == ks; }
  }

  // ----- the exact condition -----

  /** Every splice is itself one of the messages. */
  ghost predicate ClosedUnderSplices(msgs: seq<Message>, release: bool) {
    forall ks :: Ends(msgs, ks, release) ==> Splice(msgs, ks) in msgs
  }

  /** Whatever is lost, every message delivered is one of those sent. */
  ghost predicate SafeUnderLoss(msgs: seq<Message>, pf: Byte, ch: Byte, c: nat, max: nat, release: bool) {
    forall es, kept {:trigger Arrives(es, Restarted(msgs, pf, ch, c, 0), kept)} ::
      Arrives(es, Restarted(msgs, pf, ch, c, 0), kept) && Releasing(es, release) ==>
        forall i :: 0 <= i < |Deliveries(Closed, es, max)| ==> Deliveries(Closed, es, max)[i] in msgs
  }

  /**
   Any number of messages that fit the buffer are sent, each from the same counter, and any
   datagrams are lost. Every message delivered is one of those sent, if and only if every
   splice of them is: with channels given back after each message, and with channels kept.
   */
  lemma RestartedSafeIff(msgs: seq<Message>, pf: Byte, ch: Byte, c: nat, max: nat, release: bool)
    requires Sendable(msgs, c, max)
    ensures SafeUnderLoss(msgs, pf, ch, c, max, release) <==> ClosedUnderSplices(msgs, release)
  {
    if SafeUnderLoss(msgs, pf, ch, c, max, release) {
      forall ks | Ends(msgs, ks, release) ensures Splice(msgs, ks) in msgs {
        var es := Surviving(msgs, ks, pf, ch, c, release);
        var kept := SurvivingArrives(msgs, ks, pf, ch, c, release);
        ChainDelivered(Closed, msgs, ks, pf, ch, c, max, release, 0);
        assert es[0..] == es;
      }
    }
    if ClosedUnderSplices(msgs, release) {
      forall es, kept | Arrives(es, Restarted(msgs, pf, ch, c, 0), kept) && Releasing(es, release)
        ensures forall i :: 0 <= i < |Deliveries(Closed, es, max)| ==> Deliveries(Closed, es, max)[i] in msgs {
        DeliveriesAreSplices(Closed, es, msgs, [], pf, ch, c, max, release, kept, 0);
        forall i | 0 <= i < |Deliveries(Closed, es, max)| ensures Deliveries(Closed, es, max)[i] in msgs {
          assert IsSplice(Deliveries(Closed, es, max)[i], msgs, release);
        }
      }
    }
  }

  // ----- conditions a caller can check -----

  ghost predicate Several(m: seq<Byte>) {
    Count(|m|) > 1
  }

  lemma {:induction false} WholeMessage(msgs: seq<Message>, ks: seq<nat>, k: nat)
    requires k < |msgs| && |ks| <= Count(|msgs[k]|) && forall j :: 0 <= j < |ks| ==> ks[j] == k
    ensures Splice(msgs, ks) == msgs[k][..Upto(msgs[k], |ks|)]
    decreases |ks|
  {
    var m := msgs[k];
    if ks == [] {
      assert m[..Upto(m, 0)] == [];
    } else {
      var n := |ks| - 1;
      WholeMessage(msgs, ks[..n], k);
      Bounds(m, n);
      assert m[..Upto(m, n)] + m[Upto(m, n)..Upto(m, n + 1)] == m[..Upto(m, n + 1)];
    }
  }

  /** With at most one message of several fragments, and channels given back, nothing can be mixed. */
  lemma OneFragmentedIsSafe(msgs: seq<Message>, pf: Byte, ch: Byte, c: nat, max: nat)
    requires Sendable(msgs, c, max)
    requires forall p, q :: 0 <= p < q < |msgs| ==> !(Several(msgs[p]) && Several(msgs[q]))
    ensures SafeUnderLoss(msgs, pf, ch, c, max, true)
  {
    forall ks | Ends(msgs, ks, true) ensures Splice(msgs, ks) in msgs {
      var k := ks[0];
      forall j | 0 <= j < |ks| ensures ks[j] == k {
        if j > 0 {
          LaterMessage(msgs, ks, true, 0, j);
          assert Several(msgs[ks[j]]) && Several(msgs[k]);
        }
      }
      WholeMessage(msgs, ks, k);
      assert msgs[k][..|msgs[k]|] == msgs[k];
    }
    RestartedSafeIff(msgs, pf, ch, c, max, true);
  }

  /**
   Two fragmented messages whose splice is not sent can be mixed: some loss delivers the
   beginning of the earlier with the rest of the later.
   */
  lemma TwoFragmentedMix(msgs: seq<Message>, pf: Byte, ch: Byte, c: nat, max: nat, p: nat, q: nat)
    requires Sendable(msgs, c, max) && p < q < |msgs| && Several(msgs[p]) && Several(msgs[q])
    ensures |msgs[p]| > TILE && |msgs[q]| > TILE
    ensures msgs[p][..TILE] + msgs[q][TILE..] !in msgs ==> !SafeUnderLoss(msgs, pf, ch, c, max, true)
  {
    FirstThenRest(msgs, p, q, true);
    RestartedSafeIff(msgs, pf, ch, c, max, true);
  }

  /**
   With channels kept after a delivery a message of one fragment is enough: the second
   fragment of the next one is accepted behind it.
   */
  lemma KeptChannelsMix(msgs: seq<Message>, pf: Byte, ch: Byte, c: nat, max: nat, p: nat, q: nat)
    requires Sendable(msgs, c, max) && p < q < |msgs| && !Several(msgs[p]) && Several(msgs[q])
    ensures |msgs[q]| > TILE
    ensures msgs[p] + msgs[q][TILE..] !in msgs ==> !SafeUnderLoss(msgs, pf, ch, c, max, false)
  {
    FirstThenRest(msgs, p, q, false);
    Bounds(msgs[p], 0);
    RestartedSafeIff(msgs, pf, ch, c, max, false);
    assert msgs[p][..|msgs[p]|] == msgs[p];
  }

  /** The first fragment of message `p`, then the others of message `q`. */
  lemma FirstThenRest(msgs: seq<Message>, p: nat, q: nat, release: bool)
    requires p < q < |msgs| && Several(msgs[q]) && (release ==> Several(msgs[p]))
    ensures |msgs[q]| > TILE && Upto(msgs[p], 1) <= |msgs[p]| && (Several(msgs[p]) ==> Upto(msgs[p], 1) == TILE < |msgs[p]|)
    ensures exists ks :: Ends(msgs, ks, release) && Splice(msgs, ks) == msgs[p][..Upto(msgs[p], 1)] + msgs[q][TILE..]
  {
    var n := Count(|msgs[q]|);
    var ks := FirstThen(msgs, p, q, release);
    Bounds(msgs[q], 0);
    Bounds(msgs[p], 0);
    hide Splice, Upto, Start, Ends, Count;
    RestOf(msgs, ks, p, q, n);
    WholeUpto(msgs[q]);
    assert ks[..n] == ks;
  }

  lemma FirstThen(msgs: seq<Message>, p: nat, q: nat, release: bool) returns (ks: seq<nat>)
    requires p < q < |msgs| && Several(msgs[q]) && (release ==> Several(msgs[p]))
    ensures |ks| == Count(|msgs[q]|) && Ends(msgs, ks, release) && Valid(msgs, ks)
    ensures forall j :: 0 <= j < |ks| ==> ks[j] == if j == 0 then p else q
  {
    SeveralCount(msgs[q]);
    if release { SeveralCount(msgs[p]); }
    SomeFragment(msgs[p]);
    hide Count, Several;
    ks := seq(Count(|msgs[q]|), j requires 0 <= j < Count(|msgs[q]|) => if j == 0 then p else q);
  }

  lemma SomeFragment(m: Message)
    ensures Count(|m|) > 0
  {
  }

  lemma SeveralCount(m: seq<Byte>)
    requires Several(m)
    ensures Count(|m|) > 1
  {
  }

  lemma WholeUpto(m: seq<Byte>)
    ensures Upto(m, Count(|m|)) == |m|
  {
  }

  ghost predicate Valid(msgs: seq<Message>, ks: seq<nat>) {
    forall j :: 0 <= j < |ks| ==> ks[j] < |msgs| && j < Count(|msgs[ks[j]]|)
  }

  lemma SpliceMore(msgs: seq<Message>, ks: seq<nat>, n: nat)
    requires Valid(msgs, ks) && 0 < n <= |ks|
    ensures Valid(msgs, ks[..n]) && Valid(msgs, ks[..n - 1])
    ensures ks[n - 1] < |msgs| && n - 1 < Count(|msgs[ks[n - 1]]|)
    ensures Splice(msgs, ks[..n]) == Splice(msgs, ks[..n - 1]) + msgs[ks[n - 1]][Upto(msgs[ks[n - 1]], n - 1)..Upto(msgs[ks[n - 1]], n)]
  {
    assert ks[..n][..n - 1] == ks[..n - 1];
  }

  lemma {:induction false} RestOf(msgs: seq<Message>, ks: seq<nat>, p: nat, q: nat, n: nat)
    requires p < |msgs| && q < |msgs| && 1 <= n <= |ks| <= Count(|msgs[q]|) && Several(msgs[q]) && Valid(msgs, ks)
    requires forall j :: 0 <= j < |ks| ==> ks[j] == if j == 0 then p else q
    ensures TILE <= Upto(msgs[q], n) && Valid(msgs, ks[..n])
    ensures Splice(msgs, ks[..n]) == msgs[p][..Upto(msgs[p], 1)] + msgs[q][TILE..Upto(msgs[q], n)]
  {
    hide Splice, Count, Upto, Start, Several;
    var a, b := msgs[p], msgs[q];
    FirstTile(b, n);
    SpliceMore(msgs, ks, n);
    if n == 1 {
      NoBytes(msgs, ks, a);
    } else {
      RestOf(msgs, ks, p, q, n - 1);
      Rejoin(a[..Upto(a, 1)], b, TILE, Upto(b, n - 1), Upto(b, n));
    }
  }

  lemma Rejoin(a: seq<Byte>, b: seq<Byte>, i: nat, j: nat, k: nat)
    requires i <= j <= k <= |b|
    ensures (a + b[i..j]) + b[j..k] == a + b[i..k]
  {
    assert b[i..j] + b[j..k] == b[i..k];
  }

  lemma NoBytes(msgs: seq<Message>, ks: seq<nat>, a: seq<Byte>)
    requires Valid(msgs, ks[..0])
    ensures Splice(msgs, ks[..0]) == [] && Upto(a, 0) == 0
  {
  }

  lemma FirstTile(b: seq<Byte>, n: nat)
    requires 1 <= n <= Count(|b|) && Several(b)
    ensures Upto(b, 1) == TILE <= Upto(b, n) <= |b| && Upto(b, n - 1) <= Upto(b, n)
    ensures n > 1 ==> TILE <= Upto(b, n - 1)
  {
    Bounds(b, 0);
    Bounds(b, n - 1);
    if n > 1 { Bounds(b, n - 2); }
  }
}
