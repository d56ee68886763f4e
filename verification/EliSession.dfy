/**
 What one channel ID sees of ldp_ELI_udp_msg_defragment, and what it delivers when
 datagrams are lost. EliLink.dfy joins such sessions to a table.
 */
module EliSession {
  import opened Common
  import opened EliFragment

  /**
   Closed: no channel carries the ID. Fresh: a channel was taken for a datagram that could
   not start a message, so its buffer still holds bytes of an earlier user. Open: the last
   accepted counter and the bytes collected.
   */
  datatype Session = Closed | Fresh | Open(counter: nat, data: seq<Byte>)

  datatype Outcome = Delivered(msg: seq<Byte>) | Incomplete | LostPacket | BufferError | Stale

  /** A received datagram, and whether the consumer gives the channel back if it completes a message. */
  datatype Event = Event(d: Datagram, release: bool)

  function LastCounter(s: Session): nat {
    if s.Open? then s.counter else 0
  }

  /** update_channel_buffer on a channel that holds `held`. */
  function Accept(s: Session, d: Datagram, held: seq<Byte>, max: nat): (Session, Outcome) {
    if |held| + |d.payload| > max then (Open(LastCounter(s), []), BufferError)
    else (Open(d.counter, held + d.payload), if d.Completes() then Delivered(held + d.payload) else Incomplete)
  }

  function Receive(s: Session, d: Datagram, max: nat): (Session, Outcome) {
    if !d.Continues() then Accept(s, d, [], max)
    // the C test compares promoted ints: counter 0 follows nothing
    else if LastCounter(s) as int != d.counter as int - 1 then (if s.Open? then s else Fresh, LostPacket)
    else if !s.Open? then (Fresh, Stale)
    else Accept(s, d, s.data, max)
  }

  function After(s: Session, e: Event, max: nat): Session {
    var (s', o) := Receive(s, e.d, max);
    if o.Delivered? && e.release then Closed else s'
  }

  function Deliveries(s: Session, es: seq<Event>, max: nat): seq<seq<Byte>>
    decreases |es|
  {
    if es == [] then []
    else
      var o := Receive(s, es[0].d, max).1;
      (if o.Delivered? then [o.msg] else []) + Deliveries(After(s, es[0], max), es[1..], max)
  }

  predicate NeverStale(s: Session, es: seq<Event>, max: nat)
    decreases |es|
  {
    es == [] || (Receive(s, es[0].d, max).1 != Stale && NeverStale(After(s, es[0], max), es[1..], max))
  }

  // ----- what a sender that threads its counter puts on the wire -----

  /** A datagram with the message it belongs to and the bytes of that message before it. */
  datatype Tagged = Tagged(d: Datagram, msg: nat, before: seq<Byte>)

  function Tags(m: seq<Byte>, pf: Byte, ch: Byte, counter: nat, index: nat): seq<Tagged> {
    seq(Count(|m|), i requires 0 <= i < Count(|m|) => Tagged(Fragment(m, pf, ch, counter, i), index, m[..Upto(m, i)]))
  }

  /** Successive calls of fragment_and_send, the counter passed from one to the next. */
  function Stream(msgs: seq<Message>, pf: Byte, ch: Byte, counter: nat, first: nat): seq<Tagged> {
    if msgs == [] then []
    else Tags(msgs[0], pf, ch, counter, first)
         + Stream(msgs[1..], pf, ch, Wrap(counter + Count(|msgs[0]|)), first + 1)
  }

  ghost predicate ElementOk(x: Tagged, q: nat, msgs: seq<Message>, first: nat, c0: nat) {
    && x.d.counter == c0 + 1 + q
    && (!x.d.Continues() ==> x.before == [])
    && first <= x.msg < first + |msgs|
    && (x.d.Completes() ==> x.before + x.d.payload == msgs[x.msg - first])
  }

  /** `y` may follow `x` on the wire. */
  ghost predicate Follows(x: Tagged, y: Tagged) {
    && (y.d.Continues() ==> !x.d.Completes() && y.msg == x.msg && y.before == x.before + x.d.payload)
    && x.msg <= y.msg
    && (x.d.Completes() ==> x.msg < y.msg)
  }

  ghost predicate WellSent(st: seq<Tagged>, msgs: seq<Message>, first: nat, c0: nat) {
    && (forall q :: 0 <= q < |st| ==> ElementOk(st[q], q, msgs, first, c0))
    && (forall q :: 0 < q < |st| ==> Follows(st[q - 1], st[q]))
    && (st != [] ==> !st[0].d.Continues())
  }

  lemma TagsWellSent(m: Message, pf: Byte, ch: Byte, counter: nat, index: nat)
    requires counter + Count(|m|) < U16
    ensures WellSent(Tags(m, pf, ch, counter, index), [m], index, counter)
    ensures var st := Tags(m, pf, ch, counter, index);
            forall q :: 0 <= q < |st| ==> st[q].msg == index && (st[q].d.Completes() <==> q == |st| - 1)
  {
    hide Wrap, Upto, ElementOk, Follows;
    var st := Tags(m, pf, ch, counter, index);
    forall q | 0 <= q < |st| ensures ElementOk(st[q], q, [m], index, counter) {
      TagOk(m, pf, ch, counter, index, q);
    }
    forall q | 0 < q < |st| ensures Follows(st[q - 1], st[q]) {
      TagFollows(m, pf, ch, counter, index, q);
    }
  }

  lemma TagFollows(m: Message, pf: Byte, ch: Byte, counter: nat, index: nat, q: nat)
    requires counter + Count(|m|) < U16 && 0 < q < Count(|m|)
    ensures Follows(Tags(m, pf, ch, counter, index)[q - 1], Tags(m, pf, ch, counter, index)[q])
  {
    hide Wrap, Upto, Start, Count;
    TagFields(m, pf, ch, counter, index, q - 1);
    TagFields(m, pf, ch, counter, index, q);
    assert m[..Upto(m, q)] == m[..Upto(m, q - 1)] + m[Upto(m, q - 1)..Upto(m, q)];
  }

  lemma TagOk(m: Message, pf: Byte, ch: Byte, counter: nat, index: nat, q: nat)
    requires counter + Count(|m|) < U16 && q < Count(|m|)
    ensures ElementOk(Tags(m, pf, ch, counter, index)[q], q, [m], index, counter)
  {
    hide Wrap, Upto, Start, Count;
    NoWrap(counter + 1 + q);
    TagFields(m, pf, ch, counter, index, q);
    if q + 1 == Count(|m|) {
      assert m[..Upto(m, q)] + m[Upto(m, q)..Upto(m, q + 1)] == m;
    }
  }

  lemma NoWrap(x: nat)
    requires x < U16
    ensures Wrap(x) == x
  {
  }

  lemma TagFields(m: Message, pf: Byte, ch: Byte, counter: nat, index: nat, q: nat)
    requires q < Count(|m|)
    ensures Tags(m, pf, ch, counter, index)[q] == Tagged(Fragment(m, pf, ch, counter, q), index, m[..Upto(m, q)])
    ensures Upto(m, q) <= Upto(m, q + 1) <= |m| && (q == 0 ==> m[..Upto(m, q)] == []) && (q + 1 == Count(|m|) ==> Upto(m, q + 1) == |m|)
    ensures var d := Fragment(m, pf, ch, counter, q);
            (d.Continues() <==> q > 0) && (d.Completes() <==> q + 1 == Count(|m|))
  {
    Bounds(m, q);
  }

  lemma {:induction false} StreamWellSent(msgs: seq<Message>, pf: Byte, ch: Byte, counter: nat, first: nat)
    requires counter + |Stream(msgs, pf, ch, counter, first)| < U16
    ensures WellSent(Stream(msgs, pf, ch, counter, first), msgs, first, counter)
  {
    if msgs != [] {
      var a := Tags(msgs[0], pf, ch, counter, first);
      var c := counter + |a|;
      var b := Stream(msgs[1..], pf, ch, c, first + 1);
      assert Wrap(counter + Count(|msgs[0]|)) == c;
      TagsWellSent(msgs[0], pf, ch, counter, first);
      StreamWellSent(msgs[1..], pf, ch, c, first + 1);
      JoinWellSent(a, b, msgs, first, counter);
    }
  }

  lemma JoinWellSent(a: seq<Tagged>, b: seq<Tagged>, msgs: seq<Message>, first: nat, counter: nat)
    requires msgs != [] && a != []
    requires WellSent(a, [msgs[0]], first, counter) && WellSent(b, msgs[1..], first + 1, counter + |a|)
    requires forall q :: 0 <= q < |a| ==> a[q].msg == first
    ensures WellSent(a + b, msgs, first, counter)
  {
    var st := a + b;
    forall q | 0 <= q < |st| ensures ElementOk(st[q], q, msgs, first, counter) {
      if q < |a| {
        assert ElementOk(a[q], q, [msgs[0]], first, counter);
      } else {
        assert ElementOk(b[q - |a|], q - |a|, msgs[1..], first + 1, counter + |a|);
      }
    }
    forall q | 0 < q < |st| ensures Follows(st[q - 1], st[q]) {
      if q < |a| {
        assert Follows(a[q - 1], a[q]);
      } else if q > |a| {
        assert Follows(b[q - |a| - 1], b[q - |a|]);
      } else {
        assert ElementOk(b[0], 0, msgs[1..], first + 1, counter + |a|);
      }
    }
  }

  // ----- loss -----

  lemma {:induction false} MessageOrder(st: seq<Tagged>, msgs: seq<Message>, first: nat, c0: nat, q: nat, r: nat)
    requires WellSent(st, msgs, first, c0) && q < r < |st|
    ensures st[q].msg <= st[r].msg && (st[q].d.Completes() ==> st[q].msg < st[r].msg)
    decreases r
  {
    assert Follows(st[r - 1], st[r]);
    if q < r - 1 { MessageOrder(st, msgs, first, c0, q, r - 1); }
  }

  /** The session is consistent with a sender whose datagrams from `p` on are still to come. */
  ghost predicate Consistent(s: Session, st: seq<Tagged>, c0: nat, p: nat) {
    s.Open? ==>
      && s.counter <= c0 + p
      && forall q :: p <= q < |st| && st[q].d.Continues() && s.counter == c0 + q ==> s.data == st[q].before
  }

  /** `es` is what arrives of `st`: datagrams may be missing, none is repeated or overtaken. */
  ghost predicate Arrives(es: seq<Event>, st: seq<Tagged>, kept: seq<nat>) {
    && |es| == |kept|
    && (forall k :: 0 <= k < |kept| ==> kept[k] < |st| && es[k].d == st[kept[k]].d)
    && (forall j, k :: 0 <= j < k < |kept| ==> kept[j] < kept[k])
  }

  lemma ArrivesTail(es: seq<Event>, st: seq<Tagged>, kept: seq<nat>)
    requires Arrives(es, st, kept) && es != []
    ensures Arrives(es[1..], st, kept[1..]) && forall k :: 0 <= k < |kept[1..]| ==> kept[0] < kept[1..][k]
  {
  }

  lemma ReceiveOne(s: Session, e: Event, st: seq<Tagged>, msgs: seq<Message>, first: nat, c0: nat, p: nat, q: nat, max: nat)
    requires WellSent(st, msgs, first, c0) && p <= q < |st| && e.d == st[q].d
    requires Consistent(s, st, c0, p)
    ensures Receive(s, e.d, max).1 != Stale
    ensures Receive(s, e.d, max).1.Delivered? ==> st[q].d.Completes() && Receive(s, e.d, max).1.msg == msgs[st[q].msg - first]
    ensures Consistent(After(s, e, max), st, c0, q + 1)
    ensures first <= st[q].msg < first + |msgs|
  {
    assert ElementOk(st[q], q, msgs, first, c0);
    var s' := Receive(s, e.d, max).0;
    if s'.Open? && s'.counter == e.d.counter && q + 1 < |st| {
      assert Follows(st[q], st[q + 1]);
    }
  }

  /** `dels` are the messages of indices `which`, increasing and not below `low`. */
  ghost predicate InOrder(which: seq<nat>, dels: seq<seq<Byte>>, msgs: seq<Message>, first: nat, low: nat) {
    && |which| == |dels|
    && (forall k :: 0 <= k < |which| ==> low <= which[k] && first <= which[k] < first + |msgs|)
    && (forall k :: 0 <= k < |which| ==> dels[k] == msgs[which[k] - first])
    && (forall j, k :: 0 <= j < k < |which| ==> which[j] < which[k])
  }

  lemma InOrderCons(m: nat, d: seq<Byte>, which: seq<nat>, dels: seq<seq<Byte>>, msgs: seq<Message>, first: nat, low: nat)
    requires InOrder(which, dels, msgs, first, m + 1)
    requires low <= m && first <= m < first + |msgs| && d == msgs[m - first]
    ensures InOrder([m] + which, [d] + dels, msgs, first, low)
  {
  }

  /** The indices of the messages delivered, in the order of delivery. */
  lemma {:induction false} LossySession(s: Session, es: seq<Event>, st: seq<Tagged>, msgs: seq<Message>, first: nat, c0: nat,
                                        kept: seq<nat>, p: nat, low: nat, max: nat) returns (which: seq<nat>)
    requires WellSent(st, msgs, first, c0) && Arrives(es, st, kept) && Consistent(s, st, c0, p)
    requires forall k :: 0 <= k < |kept| ==> p <= kept[k]
    requires forall q :: p <= q < |st| ==> low <= st[q].msg
    ensures NeverStale(s, es, max)
    ensures InOrder(which, Deliveries(s, es, max), msgs, first, low)
    decreases |es|
  {
    hide Receive, After, Consistent, WellSent, InOrder;
    if es == [] {
      which := [];
      assert InOrder(which, Deliveries(s, es, max), msgs, first, low) by { EmptyInOrder(msgs, first, low); }
    } else {
      var q, s' := kept[0], After(s, es[0], max);
      ReceiveOne(s, es[0], st, msgs, first, c0, p, q, max);
      ArrivesTail(es, st, kept);
      var o := Receive(s, es[0].d, max).1;
      if o.Delivered? {
        var m := st[q].msg;
        forall r | q + 1 <= r < |st| ensures m + 1 <= st[r].msg { MessageOrder(st, msgs, first, c0, q, r); }
        var rest := LossySession(s', es[1..], st, msgs, first, c0, kept[1..], q + 1, m + 1, max);
        InOrderCons(m, o.msg, rest, Deliveries(s', es[1..], max), msgs, first, low);
        which := [m] + rest;
      } else {
        which := LossySession(s', es[1..], st, msgs, first, c0, kept[1..], q + 1, low, max);
        assert Deliveries(s, es, max) == Deliveries(s', es[1..], max);
      }
    }
  }

  lemma EmptyInOrder(msgs: seq<Message>, first: nat, low: nat)
    ensures InOrder([], [], msgs, first, low)
  {
  }

  /**
   Safety under loss. A sender threads its counter through any number of messages without
   passing 2^16; any of the datagrams are lost. Every message delivered is one that was
   sent, byte for byte, in the order of sending and at most once, whatever the buffer
   size and whether or not the consumer releases the channel.
   */
  lemma DeliveredMessagesWereSent(msgs: seq<Message>, pf: Byte, ch: Byte, c0: nat,
                                  es: seq<Event>, kept: seq<nat>, max: nat) returns (which: seq<nat>)
    requires c0 + |Stream(msgs, pf, ch, c0, 0)| < U16
    requires Arrives(es, Stream(msgs, pf, ch, c0, 0), kept)
    ensures NeverStale(Closed, es, max)
    ensures InOrder(which, Deliveries(Closed, es, max), msgs, 0, 0)
  {
    var st := Stream(msgs, pf, ch, c0, 0);
    StreamWellSent(msgs, pf, ch, c0, 0);
    which := LossySession(Closed, es, st, msgs, 0, c0, kept, 0, 0, max);
  }

  // ----- one message on a channel that loses nothing -----

  ghost predicate Carries(es: seq<Event>, ds: seq<Datagram>) {
    |es| == |ds| && forall i :: 0 <= i < |es| ==> es[i].d == ds[i]
  }

  /** The C comparison lets no MIDDLE or END fragment with counter 0 through. */
  ghost predicate ZeroFree(ds: seq<Datagram>, from: nat) {
    forall i :: from <= i < |ds| && ds[i].Continues() ==> ds[i].counter != 0
  }

  lemma PredecessorCounter(c: nat, k: nat)
    ensures Wrap(c + 1 + k) != 0 ==> Wrap(c + 1 + k) == Wrap(c + k) + 1
    ensures Wrap(c + 1 + k) == 0 ==> Wrap(c + k) == U16 - 1
  {
  }

  /** What the next fragment does to a session that has the first `k`. */
  lemma NextFragment(m: Message, pf: Byte, ch: Byte, c: nat, k: nat, max: nat)
    requires 1 <= k < Count(|m|) && |m| <= max
    ensures var s := Open(Wrap(c + k), m[..Upto(m, k)]);
            Receive(s, Fragment(m, pf, ch, c, k), max)
            == if Wrap(c + 1 + k) == 0 then (s, LostPacket)
               else (Open(Wrap(c + 1 + k), m[..Upto(m, k + 1)]), if k + 1 < Count(|m|) then Incomplete else Delivered(m))
  {
    hide Wrap;
    PredecessorCounter(c, k);
    Bounds(m, k);
    hide Upto, Start, Count;
    assert m[..Upto(m, k)] + m[Upto(m, k)..Upto(m, k + 1)] == m[..Upto(m, k + 1)];
    if k + 1 == Count(|m|) { assert m[..Upto(m, k + 1)] == m; }
  }

  /** A session whose last counter is 65535 accepts no further fragment. */
  lemma {:induction false} StuckAtMaximum(data: seq<Byte>, es: seq<Event>, max: nat)
    requires forall i :: 0 <= i < |es| ==> es[i].d.Continues() && es[i].d.counter < U16
    ensures Deliveries(Open(U16 - 1, data), es, max) == []
    decreases |es|
  {
    if es != [] { StuckAtMaximum(data, es[1..], max); }
  }

  lemma FragmentContinues(m: Message, pf: Byte, ch: Byte, c: nat, k: nat)
    requires 1 <= k < Count(|m|)
    ensures Fragment(m, pf, ch, c, k).Continues() && Fragment(m, pf, ch, c, k).counter == Wrap(c + 1 + k)
  {
  }

  /** After `k` accepted fragments the rest completes the message, unless a counter is 0. */
  lemma {:induction false} RestOfMessage(m: Message, pf: Byte, ch: Byte, c: nat, es: seq<Event>, k: nat, max: nat)
    requires Carries(es, Fragments(m, pf, ch, c)) && 1 <= k < |es| && |m| <= max
    ensures Deliveries(Open(Wrap(c + k), m[..Upto(m, k)]), es[k..], max)
         == if ZeroFree(Fragments(m, pf, ch, c), k) then [m] else []
    decreases |es| - k
  {
    hide Receive, Wrap, Upto, Count, Fragment;
    var ds := Fragments(m, pf, ch, c);
    NextFragment(m, pf, ch, c, k, max);
    FragmentContinues(m, pf, ch, c, k);
    PredecessorCounter(c, k);
    assert es[k].d == ds[k] == Fragment(m, pf, ch, c, k);
    assert es[k..][0] == es[k] && es[k..][1..] == es[k + 1..];
    if Wrap(c + 1 + k) == 0 {
      forall i | 0 <= i < |es[k..]| ensures es[k..][i].d.Continues() && es[k..][i].d.counter < U16 {
        FragmentContinues(m, pf, ch, c, k + i);
        assert es[k..][i].d == ds[k + i] == Fragment(m, pf, ch, c, k + i);
      }
      StuckAtMaximum(m[..Upto(m, k)], es[k..], max);
    } else if k + 1 < |es| {
      RestOfMessage(m, pf, ch, c, es, k + 1, max);
    }
  }

  lemma {:induction false} DeliveriesFit(s: Session, es: seq<Event>, max: nat)
    ensures forall i :: 0 <= i < |Deliveries(s, es, max)| ==> |Deliveries(s, es, max)[i]| <= max
    decreases |es|
  {
    if es != [] { DeliveriesFit(After(s, es[0], max), es[1..], max); }
  }

  /**
   Round trip. From any earlier state of the channel, the fragments of a message received
   in order deliver exactly that message if and only if it fits the channel buffer and no
   fragment after the first one is sent with counter 0.
   */
  lemma RoundTrip(s: Session, m: Message, pf: Byte, ch: Byte, c: nat, es: seq<Event>, max: nat)
    requires Carries(es, Fragments(m, pf, ch, c))
    ensures Deliveries(s, es, max) == [m] <==> |m| <= max && ZeroFree(Fragments(m, pf, ch, c), 1)
  {
    var ds := Fragments(m, pf, ch, c);
    Bounds(m, 0);
    assert es[0].d == ds[0] == Fragment(m, pf, ch, c, 0);
    if |m| > max {
      DeliveriesFit(s, es, max);
      assert Deliveries(s, es, max) == [] || |Deliveries(s, es, max)[0]| <= max;
    } else if |ds| == 1 {
      assert m[..|m|] == m;
      assert [] + es[0].d.payload == m && es[1..] == [];
      assert Deliveries(After(s, es[0], max), es[1..], max) == [];
    } else {
      assert [] + ds[0].payload == m[..Upto(m, 1)];
      RestOfMessage(m, pf, ch, c, es, 1, max);
    }
  }

  // ----- continuations out of sequence -----

  /**
   `es` is the datagrams `ds` with strays among them: continuations of the same ID, such as
   duplicates or tails of other messages, that do not carry the counter after the one
   accepted last, which is `last` at first.
   */
  ghost predicate Among(es: seq<Event>, ds: seq<Datagram>, last: nat)
    decreases |es|
  {
    if es == [] || ds == [] then es == [] && ds == []
    else
      || (es[0].d == ds[0] && Among(es[1..], ds[1..], ds[0].counter))
      || (es[0].d.Continues() && es[0].d.counter < U16 && es[0].d.counter as int != last as int + 1 && Among(es[1..], ds, last))
  }

  lemma {:induction false} AllContinue(es: seq<Event>, ds: seq<Datagram>, last: nat)
    requires Among(es, ds, last) && forall i :: 0 <= i < |ds| ==> ds[i].Continues() && ds[i].counter < U16
    ensures forall i :: 0 <= i < |es| ==> es[i].d.Continues() && es[i].d.counter < U16
    decreases |es|
  {
    if es != [] && ds != [] {
      if es[0].d == ds[0] && Among(es[1..], ds[1..], ds[0].counter) {
        AllContinue(es[1..], ds[1..], ds[0].counter);
      } else {
        AllContinue(es[1..], ds, last);
      }
      assert forall i :: 0 < i < |es| ==> es[i] == es[1..][i - 1];
    }
  }

  lemma FragmentsTail(m: Message, pf: Byte, ch: Byte, c: nat, k: nat)
    requires 1 <= k < Count(|m|)
    ensures var ds := Fragments(m, pf, ch, c);
            && |ds| == Count(|m|) && ds[k] == ds[k..][0] == Fragment(m, pf, ch, c, k) && ds[k..][1..] == ds[k + 1..]
            && (forall i :: 0 <= i < |ds[k..]| ==> ds[k..][i].Continues() && ds[k..][i].counter < U16)
            && (Wrap(c + 1 + k) == 0 ==> !ZeroFree(ds, k) && Wrap(c + k) == U16 - 1)
            && (Wrap(c + 1 + k) != 0 ==> (ZeroFree(ds, k) <==> ZeroFree(ds, k + 1)))
  {
    PredecessorCounter(c, k);
    var ds := Fragments(m, pf, ch, c);
    assert ds[k].counter == Wrap(c + 1 + k);
    forall i | 0 <= i < |ds[k..]| ensures ds[k..][i].Continues() && ds[k..][i].counter < U16 {
      FragmentContinues(m, pf, ch, c, k + i);
    }
  }

  /** After `k` accepted fragments the rest completes the message, whatever strays come in between. */
  lemma {:induction false} RestAmongStrays(m: Message, pf: Byte, ch: Byte, c: nat, es: seq<Event>, k: nat, max: nat)
    requires 1 <= k < Count(|m|) && |m| <= max && Among(es, Fragments(m, pf, ch, c)[k..], Wrap(c + k))
    ensures Deliveries(Open(Wrap(c + k), m[..Upto(m, k)]), es, max) == if ZeroFree(Fragments(m, pf, ch, c), k) then [m] else []
    decreases |es|
  {
    hide Fragment, Fragments, Upto, Wrap, Count, ZeroFree;
    var (ds, s) := (Fragments(m, pf, ch, c), Open(Wrap(c + k), m[..Upto(m, k)]));
    FragmentsTail(m, pf, ch, c, k);
    NextFragment(m, pf, ch, c, k, max);
    if Wrap(c + 1 + k) == 0 {
      AllContinue(es, ds[k..], Wrap(c + k));
      StuckAtMaximum(m[..Upto(m, k)], es, max);
    } else if es[0].d == ds[k] && Among(es[1..], ds[k + 1..], ds[k].counter) {
      FragmentContinues(m, pf, ch, c, k);
      if k + 1 < Count(|m|) {
        RestAmongStrays(m, pf, ch, c, es[1..], k + 1, max);
      } else {
        LastFragment(m, pf, ch, c, es, ds[k].counter);
      }
    } else {
      RestAmongStrays(m, pf, ch, c, es[1..], k, max);
    }
  }

  lemma LastFragment(m: Message, pf: Byte, ch: Byte, c: nat, es: seq<Event>, last: nat)
    requires es != [] && Among(es[1..], Fragments(m, pf, ch, c)[Count(|m|)..], last)
    ensures es[1..] == [] && ZeroFree(Fragments(m, pf, ch, c), Count(|m|))
  {
  }

  /**
   Strays do no harm: the fragments of a message received in order deliver exactly it,
   under the same condition, with any continuations that are out of sequence in between.
   */
  lemma RoundTripAmongStrays(s: Session, m: Message, pf: Byte, ch: Byte, c: nat, es: seq<Event>, max: nat)
    requires es != [] && es[0].d == Fragment(m, pf, ch, c, 0)
    requires Among(es[1..], Fragments(m, pf, ch, c)[1..], Fragment(m, pf, ch, c, 0).counter)
    ensures Deliveries(s, es, max) == [m] <==> |m| <= max && ZeroFree(Fragments(m, pf, ch, c), 1)
  {
    Bounds(m, 0);
    if |m| > max {
      DeliveriesFit(s, es, max);
      assert Deliveries(s, es, max) == [] || |Deliveries(s, es, max)[0]| <= max;
    } else if Count(|m|) == 1 {
      LastFragment(m, pf, ch, c, es, Fragment(m, pf, ch, c, 0).counter);
      assert [] + es[0].d.payload == m;
    } else {
      assert [] + es[0].d.payload == m[..Upto(m, 1)];
      RestAmongStrays(m, pf, ch, c, es[1..], 1, max);
    }
  }

  // ----- senders that restart the counter for each message -----

  /**
   Callers that start every message from the same counter lose the guarantee: if the tail
   of one fragmented message and the BEGIN of the next are lost, the receiver joins them.
   What it delivers was sent only if the two messages agree on the joined part.
   */
  lemma RestartedCounterMixes(a: Message, b: Message, pf: Byte, ch: Byte, c: nat, es: seq<Event>, max: nat)
    requires Count(|a|) > 1 && Count(|b|) > 1 && c + Count(|b|) < U16 && |b| <= max
    requires Carries(es, [Fragments(a, pf, ch, c)[0]] + Fragments(b, pf, ch, c)[1..])
    ensures TILE <= |a| && TILE <= |b|
    ensures Deliveries(Closed, es, max) == [a[..TILE] + b[TILE..]]
    ensures a[..TILE] + b[TILE..] == b <==> a[..TILE] == b[..TILE]
    ensures a[..TILE] + b[TILE..] == a <==> a[TILE..] == b[TILE..]
  {
    Bounds(a, 0);
    Bounds(b, 0);
    var x: Message := a[..TILE] + b[TILE..];
    assert b == b[..TILE] + b[TILE..] && a == a[..TILE] + a[TILE..];
    assert x[..TILE] == a[..TILE] && x[TILE..] == b[TILE..];
    JoinedFragments(a, b, x, pf, ch, c);
    NoWrapNoZero(x, pf, ch, c);
    RoundTrip(Closed, x, pf, ch, c, es, max);
  }

  lemma NoWrapNoZero(x: Message, pf: Byte, ch: Byte, c: nat)
    requires c + Count(|x|) < U16
    ensures ZeroFree(Fragments(x, pf, ch, c), 1)
  {
  }

  lemma TailSlice(x: seq<Byte>, b: seq<Byte>, t: nat, lo: nat, hi: nat)
    requires t <= lo <= hi <= |x| && |x| == |b| && x[t..] == b[t..]
    ensures x[lo..hi] == b[lo..hi]
  {
    forall k | lo <= k < hi ensures x[k] == b[k] {
      assert x[k] == x[t..][k - t] && b[k] == b[t..][k - t];
    }
  }

  lemma SameCount(a: seq<Byte>, b: seq<Byte>, i: nat)
    requires |a| == |b|
    ensures Count(|a|) == Count(|b|) && Upto(a, i) == Upto(b, i)
  {
  }

  /** Fragment `i` of the joined message. */
  lemma JoinedFragment(a: Message, b: Message, x: Message, pf: Byte, ch: Byte, c: nat, i: nat)
    requires |a| > TILE && |b| > TILE && |x| == |b| && x[..TILE] == a[..TILE] && x[TILE..] == b[TILE..] && i < Count(|x|)
    ensures Count(|a|) > 1 && Count(|b|) > 1 && i < Count(|b|)
    ensures Fragment(x, pf, ch, c, i) == if i == 0 then Fragment(a, pf, ch, c, 0) else Fragment(b, pf, ch, c, i)
  {
    hide Wrap;
    SameCount(x, b, i);
    SameCount(x, b, i + 1);
    if i == 0 {
      Bounds(a, 0);
      Bounds(x, 0);
    } else {
      Bounds(x, i);
      TailSlice(x, b, TILE, Upto(x, i), Upto(x, i + 1));
    }
  }

  /** The fragments of the joined message: the first one of `a`, then those of `b`. */
  lemma JoinedFragments(a: Message, b: Message, x: Message, pf: Byte, ch: Byte, c: nat)
    requires |a| > TILE && |b| > TILE && |x| == |b| && x[..TILE] == a[..TILE] && x[TILE..] == b[TILE..]
    ensures Fragments(x, pf, ch, c) == [Fragments(a, pf, ch, c)[0]] + Fragments(b, pf, ch, c)[1..]
  {
    hide Fragment, Count;
    var dx, da, db := Fragments(x, pf, ch, c), Fragments(a, pf, ch, c), Fragments(b, pf, ch, c);
    SameCount(x, b, 0);
    forall i | 0 <= i < |dx| ensures dx[i] == if i == 0 then da[0] else db[i] {
      JoinedFragment(a, b, x, pf, ch, c, i);
    }
  }

  /** Messages of one fragment need no counter: each FULL datagram that fits is delivered as it came. */
  lemma {:induction false} SingleFragmentsAreSafe(s: Session, es: seq<Event>, max: nat)
    requires forall i :: 0 <= i < |es| ==> es[i].d.part == Full && |es[i].d.payload| <= max
    ensures |Deliveries(s, es, max)| == |es|
    ensures forall i :: 0 <= i < |es| ==> Deliveries(s, es, max)[i] == es[i].d.payload
    decreases |es|
  {
    if es != [] {
      assert [] + es[0].d.payload == es[0].d.payload;
      SingleFragmentsAreSafe(After(s, es[0], max), es[1..], max);
    }
  }
}
