/**
 Bytes of an earlier user of a channel (lib/eli/ldp_ELI_udp.c:98-204): a channel is taken
 without resetting its offset, so what it held stays in front until a message starts.
 */
module EliStale {
  import opened Common
  import opened EliFragment
  import opened EliSession
  import opened EliLink

  /**
   What a channel holds for its present user: the bytes it was taken with, as long as they
   are still there, then those collected since; and the counter.
   */
  datatype Holding = Holding(foreign: Option<seq<Byte>>, own: seq<Byte>, counter: nat)

  function Content(h: Holding): seq<Byte> {
    (if h.foreign.Some? then h.foreign.value else []) + h.own
  }

  /** A channel just taken. */
  function Taken(stale: seq<Byte>): Holding {
    Holding(Some(stale), [], 0)
  }

  function Hold(h: Holding, d: Datagram, max: nat): (Holding, Outcome) {
    if d.Continues() && h.counter as int != d.counter as int - 1 then (h, LostPacket)
    else
      var kept := if d.Continues() then h else h.(foreign := None, own := []);
      if |Content(kept)| + |d.payload| > max then (h.(foreign := None, own := []), BufferError)
      else
        var now := Holding(kept.foreign, kept.own + d.payload, d.counter);
        (now, if d.Completes() then Delivered(Content(now)) else Incomplete)
  }

  function Held(h: Holding, ds: seq<Datagram>, max: nat): Holding
    decreases |ds|
  {
    if ds == [] then h else Held(Hold(h, ds[0], max).0, ds[1..], max)
  }

  /** No datagram of `ds` overflows the buffer. */
  predicate NoneOverflows(h: Holding, ds: seq<Datagram>, max: nat)
    decreases |ds|
  {
    ds == [] || (Hold(h, ds[0], max).1 != BufferError && NoneOverflows(Hold(h, ds[0], max).0, ds[1..], max))
  }

  /** The channel holds what `h` says. */
  ghost predicate Shows(ch: Channel, h: Holding) {
    ch.offset <= |ch.buffer| && ch.buffer[..ch.offset] == Content(h) && ch.counter == h.counter
  }

  /** Every datagram, without exception, does to a channel what Hold says. */
  lemma FillHolds(ch: Channel, d: Received, max: nat, h: Holding)
    requires ch.offset <= max == |ch.buffer| && max + U16 <= 0x1_0000_0000 && Shows(ch, h)
    ensures var (ch', st) := Fill(ch, d, max);
            var (h', o) := Hold(h, d, max);
            && ch'.offset <= max == |ch'.buffer| && ch'.isUsed == ch.isUsed && ch'.channelId == ch.channelId && Shows(ch', h')
            && (o.Delivered? <==> st == ELI_OK) && (o.Delivered? ==> ch'.buffer[..ch'.offset] == o.msg)
            && (o == Incomplete <==> st == INCOMPLETE_MSG) && (o == LostPacket <==> st == LOST_PACKET)
            && (o == BufferError <==> st == MEMORY_BUFFER_ERROR)
  {
    var (ch', st) := Fill(ch, d, max);
    var (h', o) := Hold(h, d, max);
    if st == ELI_OK || st == INCOMPLETE_MSG {
      var from := if d.Continues() then ch.offset else 0;
      assert ch'.buffer[..ch'.offset] == ch.buffer[..from] + d.payload;
      assert Content(h') == (if d.Continues() then Content(h) else []) + d.payload;
    }
  }

  /** Channel `i` serves `id` and holds what `h` says. */
  ghost predicate At(chs: seq<Channel>, i: nat, id: Byte, h: Holding) {
    i < |chs| && Serves(chs[i], id) && Shows(chs[i], h)
  }

  /** A datagram of the ID goes to its channel; one of another ID leaves it alone. */
  lemma TableHolds(chs: seq<Channel>, i: nat, id: Byte, h: Holding, d: Received, max: nat)
    requires Table(chs, max) && At(chs, i, id, h)
    ensures var (chs', _, done) := Defragmented(chs, d, max);
            var (h', o) := Hold(h, d, max);
            if d.channelId == id
            then At(chs', i, id, h') && (o.Delivered? <==> done == Some(i)) && (o.Delivered? <==> done.Some?) && (o.Delivered? ==> chs'[i].buffer[..chs'[i].offset] == o.msg)
            else At(chs', i, id, h)
  {
    if d.channelId == id {
      assert Carrier(chs, id) == Some(i);
      FillHolds(chs[i], d, max, h);
    } else {
      var a := Acquire(chs, d.channelId);
      if a.Some? {
        assert a.value.1 != i;
        assert Defragmented(chs, d, max).0[i] == chs[i];
      }
    }
  }

  /** A first datagram finds a free channel: its earlier bytes are still in front. */
  lemma TakingHolds(chs: seq<Channel>, d: Received, max: nat)
    requires Table(chs, max) && Carrier(chs, d.channelId).None? && FreeChannel(chs).Some?
    ensures var i := FreeChannel(chs).value;
            var (chs', _, done) := Defragmented(chs, d, max);
            && chs[i].offset <= |chs[i].buffer|
            && var (h', o) := Hold(Taken(chs[i].buffer[..chs[i].offset]), d, max);
               At(chs', i, d.channelId, h') && (o.Delivered? <==> done == Some(i)) && (o.Delivered? ==> chs'[i].buffer[..chs'[i].offset] == o.msg)
  {
    var i := FreeChannel(chs).value;
    var stale := chs[i].buffer[..chs[i].offset];
    assert stale + [] == stale;
    FillHolds(chs[i].(isUsed := true, channelId := d.channelId, counter := 0), d, max, Taken(stale));
  }

  function TableAfter(chs: seq<Channel>, es: seq<LinkEvent>, max: nat): (r: seq<Channel>)
    requires Sized(chs, max) && AllPossible(es, |chs|)
    ensures |r| == |chs| && Sized(r, max)
    decreases |es|
  {
    if es == [] then chs else TableAfter(LinkNext(chs, es[0], max), es[1..], max)
  }

  predicate AllPossible(es: seq<LinkEvent>, n: nat) {
    forall k :: 0 <= k < |es| ==> match es[k] case Incoming(d) => |d.payload| < U16 && d.counter < U16 case Released(j) => j < n
  }

  /** The datagrams of `id` among what happens. */
  function Of(es: seq<LinkEvent>, id: Byte): seq<Datagram> {
    if es == [] then []
    else (if es[0].Incoming? && es[0].d.channelId == id then [es[0].d] else []) + Of(es[1..], id)
  }

  /** As long as the channel is not given back it holds what its own datagrams say, whatever else happens. */
  lemma {:induction false} RunHolds(chs: seq<Channel>, i: nat, id: Byte, h: Holding, es: seq<LinkEvent>, max: nat)
    requires Table(chs, max) && At(chs, i, id, h) && AllPossible(es, |chs|)
    requires forall k :: 0 <= k < |es| ==> es[k] != Released(i)
    ensures Table(TableAfter(chs, es, max), max) && At(TableAfter(chs, es, max), i, id, Held(h, Of(es, id), max))
    decreases |es|
  {
    if es != [] {
      var next := LinkNext(chs, es[0], max);
      if es[0].Incoming? {
        TableHolds(chs, i, id, h, es[0].d, max);
        TableKept(chs, es[0].d, max);
      } else {
        assert es[0] != Released(i);
      }
      var own := es[0].Incoming? && es[0].d.channelId == id;
      var h' := if own then Hold(h, es[0].d, max).0 else h;
      assert Of(es, id) == (if own then [es[0].d] else []) + Of(es[1..], id);
      assert own ==> Of(es, id)[0] == es[0].d && Of(es, id)[1..] == Of(es[1..], id);
      assert !own ==> Of(es, id) == Of(es[1..], id);
      RunHolds(next, i, id, h', es[1..], max);
    }
  }

  // ----- when the earlier bytes are delivered -----

  /** None of `ds` starts a message and none overflows the buffer, which would empty it. */
  predicate Untouched(h: Holding, ds: seq<Datagram>, max: nat) {
    NoneOverflows(h, ds, max) && forall i :: 0 <= i < |ds| ==> ds[i].Continues()
  }

  lemma {:induction false} ForeignIff(h: Holding, ds: seq<Datagram>, max: nat)
    ensures Held(h, ds, max).foreign == if Untouched(h, ds, max) then h.foreign else None
    decreases |ds|
  {
    if ds != [] {
      var n := Hold(h, ds[0], max).0;
      ForeignIff(n, ds[1..], max);
      if ds[0].Continues() && Hold(h, ds[0], max).1 != BufferError {
        assert (forall i :: 0 <= i < |ds| ==> ds[i].Continues()) <==> forall i :: 0 <= i < |ds[1..]| ==> ds[1..][i].Continues() by {
          assert forall i :: 0 < i < |ds| ==> ds[i] == ds[1..][i - 1];
        }
      } else {
        assert n.foreign.None?;
      }
    }
  }

  /** A counter above zero comes from an accepted datagram, and the first accepted continuation has counter 1. */
  lemma {:induction false} FirstAccepted(stale: seq<Byte>, ds: seq<Datagram>, max: nat)
    requires NoneOverflows(Taken(stale), ds, max) && forall i :: 0 <= i < |ds| ==> ds[i].Continues()
    ensures Held(Taken(stale), ds, max) == Taken(stale) || exists i :: 0 <= i < |ds| && ds[i].counter == 1
    decreases |ds|
  {
    if ds != [] {
      if ds[0].counter != 1 {
        FirstAccepted(stale, ds[1..], max);
        if i :| 0 <= i < |ds[1..]| && ds[1..][i].counter == 1 { assert ds[i + 1].counter == 1; }
      } else {
        assert ds[0].counter == 1;
      }
    }
  }

  /**
   A channel is taken, `ds` are the datagrams of its new user, and then `last` completes a
   message. Bytes of an earlier user stand in front of the message if and only if none of
   the datagrams starts one or overflows the buffer; and then one of them carries counter 1.
   */
  lemma StaleExactly(stale: seq<Byte>, ds: seq<Datagram>, last: Datagram, max: nat)
    requires Hold(Held(Taken(stale), ds, max), last, max).1.Delivered?
    ensures var h := Hold(Held(Taken(stale), ds, max), last, max).0;
            && Hold(Held(Taken(stale), ds, max), last, max).1 == Delivered(Content(h))
            && (h.foreign == Some(stale) <==> Untouched(Taken(stale), ds + [last], max))
            && (h.foreign != Some(stale) ==> h.foreign == None)
            && (h.foreign == Some(stale) ==> exists i :: 0 <= i < |ds + [last]| && (ds + [last])[i].counter == 1)
  {
    var all := ds + [last];
    HeldAppend(Taken(stale), ds, last, max);
    ForeignIff(Taken(stale), all, max);
    if Untouched(Taken(stale), all, max) {
      FirstAccepted(stale, all, max);
      var h := Held(Taken(stale), ds, max);
      assert last.Continues() by { assert all[|ds|] == last; }
    }
  }

  /**
   The same on a link. A datagram takes a free channel for its ID, other things happen and
   the channel is not given back, then a datagram of the ID completes a message there. The
   consumer reads bytes of an earlier user in front of it if and only if each of these
   datagrams is a MIDDLE or END and none overflows the buffer; and then one of them carries
   counter 1.
   */
  lemma StaleBytesAreDeliveredIff(chs: seq<Channel>, first: Received, es: seq<LinkEvent>, last: Received, max: nat)
    requires Table(chs, max) && Carrier(chs, first.channelId).None? && FreeChannel(chs).Some? && first.channelId == last.channelId
    requires AllPossible(es, |chs|) && forall k :: 0 <= k < |es| ==> es[k] != Released(FreeChannel(chs).value)
    requires chs[FreeChannel(chs).value].offset <= |chs[FreeChannel(chs).value].buffer|
    ensures var i := FreeChannel(chs).value;
            var stale := chs[i].buffer[..chs[i].offset];
            var ds := [first] + Of(es, first.channelId) + [last];
            var (after, st, done) := Defragmented(TableAfter(Defragmented(chs, first, max).0, es, max), last, max);
            st == ELI_OK ==>
              && done == Some(i)
              && var h := Held(Taken(stale), ds, max);
                 && after[i].buffer[..after[i].offset] == Content(h)
                 && h.foreign == (if Untouched(Taken(stale), ds, max) then Some(stale) else None)
                 && (h.foreign.Some? ==> exists k :: 0 <= k < |ds| && ds[k].counter == 1)
  {
    hide NoneOverflows, Hold, Of, TableAfter, Shows, Carrier;
    var i, id := FreeChannel(chs).value, first.channelId;
    var stale, ds := chs[i].buffer[..chs[i].offset], [first] + Of(es, id);
    TakingHolds(chs, first, max);
    TableKept(chs, first, max);
    var chs1 := Defragmented(chs, first, max).0;
    var h1 := Hold(Taken(stale), first, max).0;
    RunHolds(chs1, i, id, h1, es, max);
    assert ds[1..] == Of(es, id);
    var h2 := Held(Taken(stale), ds, max);
    var chs2 := TableAfter(chs1, es, max);
    TableHolds(chs2, i, id, h2, last, max);
    DoneIsOk(chs2, last, max);
    HeldAppend(Taken(stale), ds, last, max);
    if Defragmented(chs2, last, max).1 == ELI_OK {
      StaleExactly(stale, ds, last, max);
    }
  }

  lemma DoneIsOk(chs: seq<Channel>, d: Received, max: nat)
    requires Sized(chs, max)
    ensures Defragmented(chs, d, max).1 == ELI_OK <==> Defragmented(chs, d, max).2.Some?
  {
  }

  lemma {:induction false} HeldAppend(h: Holding, ds: seq<Datagram>, last: Datagram, max: nat)
    ensures Held(h, ds + [last], max) == Hold(Held(h, ds, max), last, max).0
    decreases |ds|
  {
    if ds == [] {
      assert ds + [last] == [last] && [last][1..] == [];
      assert Held(h, [last], max) == Held(Hold(h, last, max).0, [], max);
    } else {
      assert (ds + [last])[1..] == ds[1..] + [last];
      HeldAppend(Hold(h, ds[0], max).0, ds[1..], last, max);
    }
  }

  /**
   A sender that threads its counter past 2^16. It sends `a` in one datagram (counter 65535)
   and `b` in two (counters 0 and 1), and the BEGIN of `b` is lost. On a link with one
   channel, given back after each message, the END of `b` is delivered behind `a`: a message
   that was never sent.
   */
  lemma WrappedSenderDeliversStale(chs: seq<Channel>, a: Message, b: Message, pf: Byte, ch: Byte, max: nat, es: seq<Event>)
    requires Sized(chs, max) && |chs| == 1 && !chs[0].isUsed && AllReceived(es)
    requires Count(|a|) == 1 && Count(|b|) == 2 && |a| + |b| <= max && a != []
    requires var st := Stream([a, b], pf, ch, U16 - 2, 0);
             |st| == 3 ==> es == [Event(st[0].d, true), Event(st[2].d, true)]
    ensures |Stream([a, b], pf, ch, U16 - 2, 0)| == 3 && |b| > TILE
    ensures LinkDeliveries(chs, es, max) == [(ch, a), (ch, a + b[TILE..])]
    ensures a + b[TILE..] != a
  {
    var st := Stream([a, b], pf, ch, U16 - 2, 0);
    StreamOfTwo(a, b, pf, ch);
    var d0, d2 := st[0].d, st[2].d;
    assert AllReceived(es) && es[0].d == d0 && es[1].d == d2;
    TakingHolds(chs, d0, max);
    var stale := chs[0].buffer[..chs[0].offset];
    var (chs1, _, done) := Defragmented(chs, d0, max);
    assert Content(Hold(Taken(stale), d0, max).0) == a;
    assert done == Some(0) && chs1[0].buffer[..chs1[0].offset] == a;
    var chs2 := Consumed(chs1, done, true);
    TakingHolds(chs2, d2, max);
    var (chs3, _, done2) := Defragmented(chs2, d2, max);
    assert Content(Hold(Taken(a), d2, max).0) == a + b[TILE..] by { assert a + ([] + b[TILE..]) == a + b[TILE..]; }
    assert done2 == Some(0);
    assert es[1..] == [es[1]] && es[1..][1..] == [];
    assert LinkDeliveries(Consumed(chs3, done2, true), [], max) == [];
  }

  /** Their datagrams. */
  lemma StreamOfTwo(a: Message, b: Message, pf: Byte, ch: Byte)
    requires Count(|a|) == 1 && Count(|b|) == 2
    ensures var st := Stream([a, b], pf, ch, U16 - 2, 0);
            && |st| == 3 && |b| > TILE
            && st[0].d == Datagram(Full, pf, ch, U16 - 1, a)
            && st[2].d == Datagram(End, pf, ch, 1, b[TILE..])
  {
    Bounds(a, 0);
    Bounds(b, 0);
    Bounds(b, 1);
    assert [a, b][1..] == [b] && [b][1..] == [];
    assert a[..|a|] == a;
    assert Stream([b], pf, ch, U16 - 1, 1) == Tags(b, pf, ch, U16 - 1, 1) + Stream([], pf, ch, Wrap(U16 - 1 + 2), 2);
  }
}
