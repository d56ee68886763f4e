/**
 The receiving side of a platform link: a fixed table of channels, each lent to one
 channel ID at a time (lib/eli/ldp_ELI_udp.c, ldp_ELI_udp_msg_defragment).
 */
module EliLink {
  import opened Common
  import opened EliFragment
  import opened EliSession

  datatype Channel = Channel(isUsed: bool, channelId: Byte, counter: nat, offset: nat, buffer: seq<Byte>)

  datatype Status = ELI_OK | INCOMPLETE_MSG | LOST_PACKET | MEMORY_BUFFER_ERROR | NO_CHANNEL_AVAILABLE

  /** What a UDP socket can hand over: at most 65535 bytes. */
  type Received = d: Datagram | |d.payload| < U16 && d.counter < U16
    witness Datagram(Full, 0, 0, 0, [])

  function Add32(a: nat, b: nat): nat { (a + b) % 0x1_0000_0000 }

  function Carrier(chs: seq<Channel>, id: Byte, from: nat := 0): (r: Option<nat>)
    requires from <= |chs|
    ensures r.Some? ==> from <= r.value < |chs| && chs[r.value].isUsed && chs[r.value].channelId == id
    ensures r.None? ==> forall i :: from <= i < |chs| ==> !(chs[i].isUsed && chs[i].channelId == id)
    decreases |chs| - from
  {
    if from == |chs| then None
    else if chs[from].isUsed && chs[from].channelId == id then Some(from)
    else Carrier(chs, id, from + 1)
  }

  function FreeChannel(chs: seq<Channel>, from: nat := 0): (r: Option<nat>)
    requires from <= |chs|
    ensures r.Some? ==> from <= r.value < |chs| && !chs[r.value].isUsed
    ensures r.None? ==> forall i :: from <= i < |chs| ==> chs[i].isUsed
    decreases |chs| - from
  {
    if from == |chs| then None
    else if !chs[from].isUsed then Some(from)
    else FreeChannel(chs, from + 1)
  }

  /** The channel that serves `id`, taken if necessary. */
  function Acquire(chs: seq<Channel>, id: Byte): Option<(seq<Channel>, nat)> {
    var c := Carrier(chs, id);
    if c.Some? then Some((chs, c.value))
    else
      var f := FreeChannel(chs);
      if f.None? then None
      else Some((chs[f.value := chs[f.value].(isUsed := true, channelId := id, counter := 0)], f.value))
  }

  /** update_channel_buffer; the first component is the channel, the second says whether it fitted. */
  function UpdateBuffer(ch: Channel, payload: seq<Byte>, counter: nat, max: nat): (r: (Channel, bool))
    requires ch.offset <= max == |ch.buffer|
    requires max + |payload| < 0x1_0000_0000
    ensures r.0.offset <= max == |r.0.buffer|
  {
    if Add32(ch.offset, |payload|) > max then (ch.(offset := 0), false)
    else (ch.(buffer := ch.buffer[..ch.offset] + payload + ch.buffer[ch.offset + |payload|..],
              offset := ch.offset + |payload|, counter := counter), true)
  }

  function Fill(ch: Channel, d: Datagram, max: nat): (r: (Channel, Status))
    requires ch.offset <= max == |ch.buffer|
    requires max + |d.payload| < 0x1_0000_0000
    ensures r.0.offset <= max == |r.0.buffer|
  {
    if d.Continues() && ch.counter as int != d.counter as int - 1 then (ch, LOST_PACKET)
    else
      var (ch', ok) := UpdateBuffer(if d.Continues() then ch else ch.(offset := 0), d.payload, d.counter, max);
      (ch', if !ok then MEMORY_BUFFER_ERROR else if d.Completes() then ELI_OK else INCOMPLETE_MSG)
  }

  predicate Sized(chs: seq<Channel>, max: nat) {
    max + U16 <= 0x1_0000_0000 && forall i :: 0 <= i < |chs| ==> chs[i].offset <= max == |chs[i].buffer|
  }

  function Defragmented(chs: seq<Channel>, d: Received, max: nat): (r: (seq<Channel>, Status, Option<nat>))
    requires Sized(chs, max)
    ensures |r.0| == |chs| && Sized(r.0, max)
    ensures r.2.Some? ==> r.2.value < |r.0|
  {
    var a := Acquire(chs, d.channelId);
    if a.None? then (chs, NO_CHANNEL_AVAILABLE, None)
    else
      var (chs', i) := a.value;
      var (ch, st) := Fill(chs'[i], d, max);
      (chs'[i := ch], st, if st == ELI_OK then Some(i) else None)
  }

  /**
   What a datagram does to the table, told without the functions above: the channel `i` that
   carries its ID, or else the first free one, which is then taken for it with counter 0.
   A continuation that does not carry the next counter changes nothing more. Anything else
   goes behind what the channel holds, or to its beginning when it starts a message; when
   there is no room for it the channel is emptied and keeps its counter.
   */
  lemma DefragmentCases(chs: seq<Channel>, d: Received, max: nat, i: nat)
    requires Sized(chs, max) && i < |chs|
    requires if chs[i].isUsed then chs[i].channelId == d.channelId && forall j :: 0 <= j < i ==> !(chs[j].isUsed && chs[j].channelId == d.channelId)
             else (forall j :: 0 <= j < |chs| ==> !(chs[j].isUsed && chs[j].channelId == d.channelId)) && forall j :: 0 <= j < i ==> chs[j].isUsed
    ensures var ((after, status, completed), ch) := (Defragmented(chs, d, max),
                                                     if chs[i].isUsed then chs[i] else chs[i].(isUsed := true, channelId := d.channelId, counter := 0));
            var continues := d.part == Middle || d.part == End;
            var start := if continues then ch.offset else 0;
            && (continues && ch.counter as int + 1 != d.counter as int ==>
                  after == chs[i := ch] && status == LOST_PACKET && completed == None)
            && (!(continues && ch.counter as int + 1 != d.counter as int) && start + |d.payload| > max ==>
                  after == chs[i := ch.(offset := 0)] && status == MEMORY_BUFFER_ERROR && completed == None)
            && (!(continues && ch.counter as int + 1 != d.counter as int) && start + |d.payload| <= max ==>
                  && |ch.buffer| == max
                  && after == chs[i := ch.(buffer := ch.buffer[..start] + d.payload + ch.buffer[start + |d.payload|..],
                                           offset := start + |d.payload|, counter := d.counter)]
                  && status == (if d.part == End || d.part == Full then ELI_OK else INCOMPLETE_MSG)
                  && completed == (if d.part == End || d.part == Full then Some(i) else None))
  {
    ServingChannel(chs, d.channelId, i);
  }

  lemma ServingChannel(chs: seq<Channel>, id: Byte, i: nat)
    requires i < |chs|
    requires if chs[i].isUsed then chs[i].channelId == id && forall j :: 0 <= j < i ==> !(chs[j].isUsed && chs[j].channelId == id)
             else (forall j :: 0 <= j < |chs| ==> !(chs[j].isUsed && chs[j].channelId == id)) && forall j :: 0 <= j < i ==> chs[j].isUsed
    ensures Acquire(chs, id) == if chs[i].isUsed then Some((chs, i))
                                else Some((chs[i := chs[i].(isUsed := true, channelId := id, counter := 0)], i))
  {
    if chs[i].isUsed { FirstCarrier(chs, id, i, 0); } else { FirstFreeChannel(chs, i, 0); }
  }

  lemma {:induction false} FirstCarrier(chs: seq<Channel>, id: Byte, i: nat, from: nat)
    requires from <= i < |chs| && chs[i].isUsed && chs[i].channelId == id
    requires forall j :: from <= j < i ==> !(chs[j].isUsed && chs[j].channelId == id)
    ensures Carrier(chs, id, from) == Some(i)
    decreases i - from
  {
    if from < i { FirstCarrier(chs, id, i, from + 1); }
  }

  lemma {:induction false} FirstFreeChannel(chs: seq<Channel>, i: nat, from: nat)
    requires from <= i < |chs| && !chs[i].isUsed && forall j :: from <= j < i ==> chs[j].isUsed
    ensures FreeChannel(chs, from) == Some(i)
    decreases i - from
  {
    if from < i { FirstFreeChannel(chs, i, from + 1); }
  }

  class Link {
    const bufferSize: nat
    const channels: array<Channel>

    ghost predicate Valid()
      reads channels
    {
      Sized(channels[..], bufferSize)
    }

    /** ldp_initialized_PF_link; the buffers come from malloc with any content. */
    constructor (buffers: seq<seq<Byte>>, bufferSize: nat)
      requires bufferSize + U16 <= 0x1_0000_0000
      requires forall i :: 0 <= i < |buffers| ==> |buffers[i]| == bufferSize
      ensures Valid() && this.bufferSize == bufferSize && channels.Length == |buffers|
      ensures forall i :: 0 <= i < |buffers| ==> channels[i] == Channel(false, 0, 0, 0, buffers[i])
    {
      this.bufferSize := bufferSize;
      channels := new Channel[|buffers|](i requires 0 <= i < |buffers| => Channel(false, 0, 0, 0, buffers[i]));
    }

    method UpdateChannelBuffer(i: nat, payload: seq<Byte>, counter: nat) returns (ok: bool)
      requires Valid() && i < channels.Length && |payload| < U16
      modifies channels
      ensures Valid()
      ensures (channels[i], ok) == UpdateBuffer(old(channels[i]), payload, counter, bufferSize)
      ensures channels[..] == old(channels[..])[i := channels[i]]
      ensures ok <==> old(channels[i].offset) + |payload| <= bufferSize
      ensures !ok ==> channels[i] == old(channels[i]).(offset := 0)
      ensures ok ==> var was := old(channels[i]);
                     && was.offset + |payload| <= |was.buffer|
                     && channels[i] == was.(buffer := was.buffer[..was.offset] + payload + was.buffer[was.offset + |payload|..],
                                            offset := was.offset + |payload|, counter := counter)
    {
      if Add32(channels[i].offset, |payload|) > bufferSize {
        channels[i] := channels[i].(offset := 0);
        return false;
      }
      var ch := channels[i];
      channels[i] := ch.(buffer := ch.buffer[..ch.offset] + payload + ch.buffer[ch.offset + |payload|..]);
      channels[i] := channels[i].(offset := ch.offset + |payload|);
      channels[i] := channels[i].(counter := counter);
      return true;
    }

    /** ldp_ELI_udp_msg_defragment. */
    method Defragment(d: Received) returns (status: Status, completed: Option<nat>)
      requires Valid()
      modifies channels
      ensures Valid()
      ensures (channels[..], status, completed) == Defragmented(old(channels[..]), d, bufferSize)
    {
      var channel: Option<nat> := None;
      var j := 0;
      while j < channels.Length && channel.None?
        decreases channels.Length - j, channel.None?
        invariant 0 <= j <= channels.Length
        invariant Carrier(channels[..], d.channelId) == if channel.Some? then channel else Carrier(channels[..], d.channelId, j)
      {
        if channels[j].isUsed && channels[j].channelId == d.channelId {
          channel := Some(j);
        } else {
          j := j + 1;
        }
      }
      if channel.None? {
        j := 0;
        while j < channels.Length && channels[j].isUsed
          invariant 0 <= j <= channels.Length
          invariant FreeChannel(channels[..]) == FreeChannel(channels[..], j)
        {
          j := j + 1;
        }
        if j == channels.Length {
          return NO_CHANNEL_AVAILABLE, None;
        }
        channel := Some(j);
        channels[j] := channels[j].(isUsed := true);
        channels[j] := channels[j].(channelId := d.channelId);
        channels[j] := channels[j].(counter := 0);
        assert channels[..] == old(channels[..])[j := channels[j]];
      }
      var i := channel.value;
      assert Acquire(old(channels[..]), d.channelId) == Some((channels[..], i));
      label acquired:
      if d.Continues() && channels[i].counter as int != d.counter as int - 1 {
        assert channels[..][i := channels[i]] == channels[..];
        return LOST_PACKET, None;
      }
      if !d.Continues() {
        channels[i] := channels[i].(offset := 0);
      }
      var ok := UpdateChannelBuffer(i, d.payload, d.counter);
      assert channels[..] == old@acquired(channels[..])[i := channels[i]];
      if !ok {
        return MEMORY_BUFFER_ERROR, None;
      }
      if d.Completes() {
        return ELI_OK, Some(i);
      }
      return INCOMPLETE_MSG, None;
    }
  }

  // ----- the table refines one session for each ID -----

  ghost predicate Serves(ch: Channel, id: Byte) {
    ch.isUsed && ch.channelId == id
  }

  /** No two used channels share an ID. */
  ghost predicate UniqueIds(chs: seq<Channel>) {
    forall i, j, id :: 0 <= i < j < |chs| && Serves(chs[i], id) ==> !Serves(chs[j], id)
  }

  ghost predicate Table(chs: seq<Channel>, max: nat) {
    && Sized(chs, max)
    && UniqueIds(chs)
  }

  ghost predicate Matches(ch: Channel, s: Session) {
    match s
    case Closed => false
    case Fresh => ch.counter == 0
    case Open(c, data) => ch.counter == c && ch.offset == |data| && ch.offset <= |ch.buffer| && ch.buffer[..ch.offset] == data
  }

  /** Session `s` is what the table knows about `id`. */
  ghost predicate Rel(chs: seq<Channel>, id: Byte, s: Session) {
    && (s.Closed? ==> forall i :: 0 <= i < |chs| ==> !Serves(chs[i], id))
    && (!s.Closed? ==> exists i :: 0 <= i < |chs| && Serves(chs[i], id) && Matches(chs[i], s))
  }

  lemma FillRefines(ch: Channel, d: Received, max: nat, s: Session)
    requires ch.offset <= max == |ch.buffer| && max + U16 <= 0x1_0000_0000
    requires if s.Closed? then ch.counter == 0 else Matches(ch, s)
    requires Receive(s, d, max).1 != Stale
    ensures var (s', o) := Receive(s, d, max);
            var (ch', st) := Fill(ch, d, max);
            && ch'.offset <= max == |ch'.buffer| && ch'.isUsed == ch.isUsed && ch'.channelId == ch.channelId
            && Matches(ch', s')
            && (o.Delivered? <==> st == ELI_OK)
            && (o.Delivered? ==> ch'.buffer[..ch'.offset] == o.msg)
            && (o == Incomplete <==> st == INCOMPLETE_MSG)
            && (o == LostPacket <==> st == LOST_PACKET)
            && (o == BufferError <==> st == MEMORY_BUFFER_ERROR)
  {
  }

  /** Whether the table can serve `id`. */
  ghost predicate HasRoom(chs: seq<Channel>, id: Byte) {
    exists i :: 0 <= i < |chs| && (Serves(chs[i], id) || !chs[i].isUsed)
  }

  lemma AcquireRefines(chs: seq<Channel>, id: Byte, max: nat, s: Session)
    requires Table(chs, max) && Rel(chs, id, s)
    ensures Acquire(chs, id).Some? <==> HasRoom(chs, id)
    ensures Acquire(chs, id).Some? ==>
              var (chs', i) := Acquire(chs, id).value;
              && |chs'| == |chs| && i < |chs| && Table(chs', max) && Serves(chs'[i], id)
              && (if s.Closed? then chs'[i].counter == 0 else Matches(chs'[i], s))
              && (forall j :: 0 <= j < |chs| && j != i ==> chs'[j] == chs[j])
              && (!chs[i].isUsed || chs[i] == chs'[i])
  {
    if Carrier(chs, id).Some? && !s.Closed? {
      var i :| 0 <= i < |chs| && Serves(chs[i], id) && Matches(chs[i], s);
      assert i == Carrier(chs, id).value;
    }
  }

  /** The channel table after one datagram, seen from its own ID. */
  lemma OwnSession(chs: seq<Channel>, d: Received, max: nat, s: Session)
    requires Table(chs, max)
    requires Rel(chs, d.channelId, s) && HasRoom(chs, d.channelId) && Receive(s, d, max).1 != Stale
    ensures var (s', o) := Receive(s, d, max);
            var (chs', st, done) := Defragmented(chs, d, max);
            && |chs'| == |chs| && Table(chs', max) && Rel(chs', d.channelId, s')
            && (o.Delivered? <==> st == ELI_OK) && (o.Delivered? <==> done.Some?)
            && (done.Some? ==> done.value < |chs'| && Serves(chs'[done.value], d.channelId)
                               && chs'[done.value].offset <= |chs'[done.value].buffer|
                               && chs'[done.value].buffer[..chs'[done.value].offset] == o.msg)
            && (o == LostPacket <==> st == LOST_PACKET) && (o == BufferError <==> st == MEMORY_BUFFER_ERROR)
  {
    AcquireRefines(chs, d.channelId, max, s);
    var (chs1, i) := Acquire(chs, d.channelId).value;
    FillRefines(chs1[i], d, max, s);
    hide Fill, Receive, Acquire;
    var chs' := Defragmented(chs, d, max).0;
    assert Serves(chs'[i], d.channelId) && Matches(chs'[i], Receive(s, d, max).0);
  }

  /** ... and from any other ID. */
  lemma OtherSession(chs: seq<Channel>, d: Received, max: nat, other: Byte, t: Session)
    requires Table(chs, max)
    requires other != d.channelId && Rel(chs, other, t)
    ensures Rel(Defragmented(chs, d, max).0, other, t)
  {
    var chs' := Defragmented(chs, d, max).0;
    var a := Acquire(chs, d.channelId);
    if a.Some? {
      var (chs1, i) := a.value;
      assert chs'[i].isUsed && chs'[i].channelId == d.channelId;
      assert !Serves(chs[i], other);
      hide Fill, Acquire;
      assert forall j :: 0 <= j < |chs| && j != i ==> chs'[j] == chs[j];
      if !t.Closed? {
        var j :| 0 <= j < |chs| && Serves(chs[j], other) && Matches(chs[j], t);
        assert chs'[j] == chs[j];
      }
    }
  }

  /** A datagram that finds no channel changes nothing, and its ID had none. */
  lemma Refused(chs: seq<Channel>, d: Received, max: nat)
    requires Table(chs, max)
    ensures Defragmented(chs, d, max).1 == NO_CHANNEL_AVAILABLE <==> !HasRoom(chs, d.channelId)
    ensures !HasRoom(chs, d.channelId) ==> Defragmented(chs, d, max) == (chs, NO_CHANNEL_AVAILABLE, None)
    ensures !HasRoom(chs, d.channelId) ==> Rel(chs, d.channelId, Closed)
  {
  }

  /** No two used channels share an ID, whatever arrives: lost, stale, oversized or refused datagrams included. */
  lemma TableKept(chs: seq<Channel>, d: Received, max: nat)
    requires Table(chs, max)
    ensures Table(Defragmented(chs, d, max).0, max)
  {
    var a := Acquire(chs, d.channelId);
    if a.Some? {
      var (chs1, i) := a.value;
      var chs' := Defragmented(chs, d, max).0;
      assert chs1[i].isUsed && chs1[i].channelId == d.channelId;
      assert chs'[i].isUsed && chs'[i].channelId == d.channelId;
      hide Fill, Defragmented;
      assert forall j :: 0 <= j < |chs| && j != i ==> chs'[j] == chs[j] && !Serves(chs[j], d.channelId);
    }
  }

  // ----- whole runs -----

  /** The consumer reads the completed message and may give the channel back. */
  function Consumed(chs: seq<Channel>, done: Option<nat>, release: bool): (r: seq<Channel>)
    requires done.Some? ==> done.value < |chs|
    ensures |r| == |chs|
  {
    if done.Some? && release then chs[done.value := chs[done.value].(isUsed := false)] else chs
  }

  predicate AllReceived(es: seq<Event>) {
    forall k :: 0 <= k < |es| ==> |es[k].d.payload| < U16 && es[k].d.counter < U16
  }

  /** What the link hands to the consumer, with the channel IDs. */
  function LinkDeliveries(chs: seq<Channel>, es: seq<Event>, max: nat): seq<(Byte, seq<Byte>)>
    requires Sized(chs, max) && AllReceived(es)
    decreases |es|
  {
    if es == [] then []
    else
      var (chs', _, done) := Defragmented(chs, es[0].d, max);
      (if done.Some? then [(es[0].d.channelId, chs'[done.value].buffer[..chs'[done.value].offset])] else [])
      + LinkDeliveries(Consumed(chs', done, es[0].release), es[1..], max)
  }

  function Only(es: seq<Event>, id: Byte): seq<Event> {
    if es == [] then [] else (if es[0].d.channelId == id then [es[0]] else []) + Only(es[1..], id)
  }

  function Of(dels: seq<(Byte, seq<Byte>)>, id: Byte): seq<seq<Byte>> {
    if dels == [] then [] else (if dels[0].0 == id then [dels[0].1] else []) + Of(dels[1..], id)
  }

  lemma ConsumedTable(chs: seq<Channel>, done: Option<nat>, release: bool, max: nat)
    requires Table(chs, max) && (done.Some? ==> done.value < |chs|)
    ensures Table(Consumed(chs, done, release), max)
  {
  }

  /** Releasing a completed channel closes its session, and no other. */
  lemma ConsumedRefines(chs: seq<Channel>, done: Option<nat>, release: bool, own: Byte, max: nat, id: Byte, s: Session)
    requires Table(chs, max) && Rel(chs, id, s)
    requires done.Some? ==> done.value < |chs| && Serves(chs[done.value], own)
    ensures Rel(Consumed(chs, done, release), id, if done.Some? && release && id == own then Closed else s)
  {
    if done.Some? && release && id != own && !s.Closed? {
      var j :| 0 <= j < |chs| && Serves(chs[j], id) && Matches(chs[j], s);
      assert Consumed(chs, done, release)[j] == chs[j];
    }
  }

  /** Every ID ever used belongs to `ids`, and the table is large enough for all of them. */
  ghost predicate Fits(chs: seq<Channel>, ids: set<Byte>) {
    |ids| <= |chs| && forall i :: 0 <= i < |chs| && chs[i].isUsed ==> chs[i].channelId in ids
  }

  function InFlight(chs: seq<Channel>): set<Byte> {
    set i | 0 <= i < |chs| && chs[i].isUsed :: chs[i].channelId
  }

  lemma InFlightStep(chs: seq<Channel>)
    requires chs != [] && UniqueIds(chs)
    ensures var (rest, last) := (chs[..|chs| - 1], chs[|chs| - 1]);
            && UniqueIds(rest) && (last.isUsed ==> last.channelId !in InFlight(rest))
            && InFlight(chs) == InFlight(rest) + if last.isUsed then {last.channelId} else {}
  {
    var rest, last := chs[..|chs| - 1], chs[|chs| - 1];
    if last.isUsed && last.channelId in InFlight(rest) {
      var i :| 0 <= i < |rest| && rest[i].isUsed && rest[i].channelId == last.channelId;
      assert Serves(chs[i], last.channelId) && Serves(chs[|chs| - 1], last.channelId);
    }
    forall id ensures id in InFlight(chs) <==> id in InFlight(rest) || (last.isUsed && id == last.channelId) {
      if id in InFlight(rest) {
        var i :| 0 <= i < |rest| && rest[i].isUsed && rest[i].channelId == id;
        assert chs[i] == rest[i];
      }
      if last.isUsed && id == last.channelId { assert chs[|chs| - 1].channelId == id; }
    }
  }

  /** As many IDs in flight as there are channels means that every channel is used. */
  lemma {:induction false} AllBusyIff(chs: seq<Channel>)
    requires UniqueIds(chs)
    ensures |InFlight(chs)| <= |chs|
    ensures |InFlight(chs)| == |chs| <==> forall i :: 0 <= i < |chs| ==> chs[i].isUsed
  {
    if chs == [] {
      assert InFlight(chs) == {};
    } else {
      InFlightStep(chs);
      hide InFlight, UniqueIds, Serves;
      AllBusyIff(chs[..|chs| - 1]);
    }
  }

  // ----- every run of a link -----

  /** A datagram arrives, or the consumer gives a channel back, at any time. */
  datatype LinkEvent = Incoming(d: Datagram) | Released(i: nat)

  predicate Possible(chs: seq<Channel>, e: LinkEvent) {
    match e
    case Incoming(d) => |d.payload| < U16 && d.counter < U16
    case Released(i) => i < |chs|
  }

  function LinkNext(chs: seq<Channel>, e: LinkEvent, max: nat): (r: seq<Channel>)
    requires Sized(chs, max) && Possible(chs, e)
    ensures |r| == |chs| && Sized(r, max)
  {
    match e
    case Incoming(d) => Defragmented(chs, d, max).0
    case Released(i) => chs[i := chs[i].(isUsed := false)]
  }

  ghost predicate LinkRun(tables: seq<seq<Channel>>, es: seq<LinkEvent>, max: nat) {
    && |tables| == |es| + 1
    && Sized(tables[0], max) && (forall i :: 0 <= i < |tables[0]| ==> !tables[0][i].isUsed)
    && forall k {:trigger es[k]} :: 0 <= k < |es| ==>
         Sized(tables[k], max) && Possible(tables[k], es[k]) && tables[k + 1] == LinkNext(tables[k], es[k], max)
  }

  /** In every run of a link no two used channels share an ID. */
  lemma {:induction false} ChannelIdsAreUnique(tables: seq<seq<Channel>>, es: seq<LinkEvent>, max: nat, k: nat)
    requires LinkRun(tables, es, max) && k < |tables|
    ensures Table(tables[k], max) && |tables[k]| == |tables[0]|
  {
    if k > 0 {
      ChannelIdsAreUnique(tables, es, max, k - 1);
      var e := es[k - 1];
      assert tables[k] == LinkNext(tables[k - 1], e, max);
      if e.Incoming? { TableKept(tables[k - 1], e.d, max); }
    }
  }

  /**
   In every run of a link NO_CHANNEL_AVAILABLE is returned exactly when as many other IDs as
   there are channels are in flight, and then nothing changes.
   */
  lemma NoChannelIffAllBusy(tables: seq<seq<Channel>>, es: seq<LinkEvent>, max: nat, k: nat, d: Received)
    requires LinkRun(tables, es, max) && k < |tables|
    ensures Sized(tables[k], max)
    ensures Defragmented(tables[k], d, max).1 == NO_CHANNEL_AVAILABLE
            <==> |InFlight(tables[k])| == |tables[k]| && d.channelId !in InFlight(tables[k])
    ensures Defragmented(tables[k], d, max).1 == NO_CHANNEL_AVAILABLE ==> Defragmented(tables[k], d, max).0 == tables[k]
  {
    ChannelIdsAreUnique(tables, es, max, k);
    var chs := tables[k];
    Refused(chs, d, max);
    AllBusyIff(chs);
    hide Defragmented;
  }

  lemma RoomForAll(chs: seq<Channel>, ids: set<Byte>, id: Byte, max: nat)
    requires Table(chs, max) && Fits(chs, ids) && id in ids
    ensures HasRoom(chs, id)
  {
    if !HasRoom(chs, id) {
      assert forall i :: 0 <= i < |chs| ==> chs[i].isUsed && chs[i].channelId != id;
      AllBusyIff(chs);
      SubsetSize(InFlight(chs), ids - {id});
    }
  }

  lemma StillFits(chs: seq<Channel>, e: Event, ids: set<Byte>, max: nat)
    requires Sized(chs, max) && AllReceived([e]) && Fits(chs, ids) && e.d.channelId in ids
    ensures var r := Defragmented(chs, [e][0].d, max); Fits(Consumed(r.0, r.2, e.release), ids)
  {
  }

  lemma OnlyHead(es: seq<Event>, x: Byte)
    requires es != []
    ensures var own := es[0].d.channelId;
            if x == own then Only(es, x) != [] && Only(es, x)[0] == es[0] && Only(es, x)[1..] == Only(es[1..], x)
            else Only(es, x) == Only(es[1..], x)
  {
  }

  /** One datagram of the ID itself that finds a channel: the table takes the step of the session. */
  lemma OwnStep(chs: seq<Channel>, e: Event, max: nat, s: Session)
    requires Table(chs, max) && AllReceived([e]) && HasRoom(chs, e.d.channelId) && Rel(chs, e.d.channelId, s)
    requires Receive(s, e.d, max).1 != Stale
    ensures Sized(chs, max) && |e.d.payload| < U16 && e.d.counter < U16
    ensures var r := Defragmented(chs, e.d, max);
            var o := Receive(s, e.d, max).1;
            && Table(Consumed(r.0, r.2, e.release), max) && Rel(Consumed(r.0, r.2, e.release), e.d.channelId, After(s, e, max))
            && (r.2.Some? <==> o.Delivered?)
            && (r.2.Some? ==> r.0[r.2.value].offset <= |r.0[r.2.value].buffer| && r.0[r.2.value].buffer[..r.0[r.2.value].offset] == o.msg)
  {
    assert |[e][0].d.payload| < U16 && [e][0].d.counter < U16;
    var own := e.d.channelId;
    OwnSession(chs, e.d, max, s);
    TableKept(chs, e.d, max);
    var (chs1, _, done) := Defragmented(chs, e.d, max);
    ConsumedTable(chs1, done, e.release, max);
    ConsumedRefines(chs1, done, e.release, own, max, own, Receive(s, e.d, max).0);
  }

  /** One datagram of another ID, whatever it does there. */
  lemma OtherStep(chs: seq<Channel>, e: Event, max: nat, id: Byte, s: Session)
    requires Table(chs, max) && AllReceived([e]) && id != e.d.channelId && Rel(chs, id, s)
    ensures Sized(chs, max) && |e.d.payload| < U16 && e.d.counter < U16
    ensures var r := Defragmented(chs, e.d, max);
            Table(Consumed(r.0, r.2, e.release), max) && Rel(Consumed(r.0, r.2, e.release), id, s)
  {
    assert |[e][0].d.payload| < U16 && [e][0].d.counter < U16;
    OtherSession(chs, e.d, max, id, s);
    TableKept(chs, e.d, max);
    var (chs1, _, done) := Defragmented(chs, e.d, max);
    DoneServes(chs, e.d, max);
    ConsumedTable(chs1, done, e.release, max);
    ConsumedRefines(chs1, done, e.release, e.d.channelId, max, id, s);
  }

  lemma DoneServes(chs: seq<Channel>, d: Received, max: nat)
    requires Table(chs, max)
    ensures var (chs', _, done) := Defragmented(chs, d, max); done.Some? ==> Serves(chs'[done.value], d.channelId)
  {
  }

  /** The datagrams of `id` that find a channel. */
  function Served(chs: seq<Channel>, es: seq<Event>, id: Byte, max: nat): seq<Event>
    requires Sized(chs, max) && AllReceived(es)
    decreases |es|
  {
    if es == [] then []
    else
      var (chs', st, done) := Defragmented(chs, es[0].d, max);
      (if es[0].d.channelId == id && st != NO_CHANNEL_AVAILABLE then [es[0]] else [])
      + Served(Consumed(chs', done, es[0].release), es[1..], id, max)
  }

  lemma ServedHead(chs: seq<Channel>, es: seq<Event>, id: Byte, max: nat)
    requires Table(chs, max) && AllReceived(es) && es != []
    ensures var (chs', _, done) := Defragmented(chs, es[0].d, max);
            var tail := Served(Consumed(chs', done, es[0].release), es[1..], id, max);
            if es[0].d.channelId == id && HasRoom(chs, id)
            then Served(chs, es, id, max) != [] && Served(chs, es, id, max)[0] == es[0] && Served(chs, es, id, max)[1..] == tail
            else Served(chs, es, id, max) == tail
  {
    Refused(chs, es[0].d, max);
  }

  /**
   Non-interference, for any table and any traffic. The datagrams of all IDs arrive
   interleaved in any way, some of them refused, others in any state. Then an ID whose own
   datagrams do not go stale is delivered exactly what those of them that found a channel
   would have delivered alone.
   */
  lemma {:induction false} Noninterference(chs: seq<Channel>, es: seq<Event>, max: nat, id: Byte, s: Session)
    requires Table(chs, max) && Rel(chs, id, s) && AllReceived(es)
    requires NeverStale(s, Served(chs, es, id, max), max)
    ensures Of(LinkDeliveries(chs, es, max), id) == Deliveries(s, Served(chs, es, id, max), max)
    decreases |es|
  {
    hide Table, Rel, HasRoom, Defragmented, Consumed, Receive, After, Served, LinkDeliveries, Of;
    TableSized(chs, max);
    if es == [] {
      NothingDelivered(chs, max, id);
    } else {
      var e := es[0];
      ServedHead(chs, es, id, max);
      OfHead(chs, es, max, id);
      var r := Defragmented(chs, e.d, max);
      var next := Consumed(r.0, r.2, e.release);
      if e.d.channelId != id {
        OtherStep(chs, e, max, id, s);
        Noninterference(next, es[1..], max, id, s);
      } else if HasRoom(chs, id) {
        OwnStep(chs, e, max, s);
        Noninterference(next, es[1..], max, id, After(s, e, max));
      } else {
        RefusedStep(chs, e, max);
        Noninterference(next, es[1..], max, id, s);
      }
    }
  }

  lemma RefusedStep(chs: seq<Channel>, e: Event, max: nat)
    requires Table(chs, max) && AllReceived([e]) && !HasRoom(chs, e.d.channelId)
    ensures Sized(chs, max) && |e.d.payload| < U16 && e.d.counter < U16
    ensures var r := Defragmented(chs, e.d, max); Consumed(r.0, r.2, e.release) == chs && r.2.None?
  {
    assert |[e][0].d.payload| < U16 && [e][0].d.counter < U16;
    Refused(chs, e.d, max);
  }

  lemma TableSized(chs: seq<Channel>, max: nat)
    requires Table(chs, max)
    ensures Sized(chs, max)
  {
  }

  /** With a channel for every ID in use nothing is refused. */
  lemma {:induction false} NothingRefused(chs: seq<Channel>, es: seq<Event>, max: nat, ids: set<Byte>, id: Byte)
    requires Table(chs, max) && AllReceived(es) && Fits(chs, ids) && forall k :: 0 <= k < |es| ==> es[k].d.channelId in ids
    ensures Served(chs, es, id, max) == Only(es, id)
    decreases |es|
  {
    hide Defragmented, Consumed, HasRoom, Fits, Table, Served, Only;
    TableSized(chs, max);
    if es == [] {
      NoneServed(chs, id, max);
    } else {
      var e := es[0];
      RoomForAll(chs, ids, e.d.channelId, max);
      ServedHead(chs, es, id, max);
      OnlyHead(es, id);
      StillFits(chs, e, ids, max);
      AnyStep(chs, e, max);
      var r := Defragmented(chs, e.d, max);
      NothingRefused(Consumed(r.0, r.2, e.release), es[1..], max, ids, id);
      var a, b := Served(chs, es, id, max), Only(es, id);
      if e.d.channelId == id { assert a == [a[0]] + a[1..] && b == [b[0]] + b[1..]; }
    }
  }

  lemma NoneServed(chs: seq<Channel>, id: Byte, max: nat)
    requires Sized(chs, max)
    ensures Served(chs, [], id, max) == Only([], id)
  {
  }

  lemma NothingDelivered(chs: seq<Channel>, max: nat, id: Byte)
    requires Sized(chs, max)
    ensures Of(LinkDeliveries(chs, [], max), id) == [] && Served(chs, [], id, max) == []
  {
  }

  lemma OfHead(chs: seq<Channel>, es: seq<Event>, max: nat, id: Byte)
    requires Sized(chs, max) && AllReceived(es) && es != []
    ensures var (chs', _, done) := Defragmented(chs, es[0].d, max);
            Of(LinkDeliveries(chs, es, max), id)
            == (if done.Some? && es[0].d.channelId == id then [chs'[done.value].buffer[..chs'[done.value].offset]] else [])
               + Of(LinkDeliveries(Consumed(chs', done, es[0].release), es[1..], max), id)
  {
    var (chs', _, done) := Defragmented(chs, es[0].d, max);
    var rest := LinkDeliveries(Consumed(chs', done, es[0].release), es[1..], max);
    if done.Some? {
      var x := (es[0].d.channelId, chs'[done.value].buffer[..chs'[done.value].offset]);
      assert ([x] + rest)[1..] == rest;
    } else {
      assert [] + rest == rest;
    }
  }

  // ----- several senders, with loss -----

  /** A sender: its messages, its logical platform, its first counter, and what survives of its datagrams. */
  datatype Sender = Sender(msgs: seq<Message>, pf: Byte, c0: nat, kept: seq<nat>)

  ghost predicate SentBy(es: seq<Event>, x: Sender, id: Byte) {
    && x.c0 + |Stream(x.msgs, x.pf, id, x.c0, 0)| < U16
    && Arrives(Only(es, id), Stream(x.msgs, x.pf, id, x.c0, 0), x.kept)
  }

  ghost predicate AllIn(a: seq<nat>, b: seq<nat>) {
    forall k :: 0 <= k < |a| ==> a[k] in b
  }

  /** What a table refuses is lost like what the network loses. */
  lemma {:induction false} ServedArrives(chs: seq<Channel>, es: seq<Event>, max: nat, id: Byte, st: seq<Tagged>, kept: seq<nat>)
      returns (served: seq<nat>)
    requires Table(chs, max) && AllReceived(es) && Arrives(Only(es, id), st, kept)
    ensures Arrives(Served(chs, es, id, max), st, served) && AllIn(served, kept)
    decreases |es|
  {
    hide Table, Defragmented, Consumed, HasRoom, Served, Only, Arrives, AllIn;
    ServedNone(chs, max, id, st, kept);
    if es == [] {
      served := [];
    } else {
      TableSized(chs, max);
      ServedHead(chs, es, id, max);
      OnlyHead(es, id);
      AnyStep(chs, es[0], max);
      var r := Defragmented(chs, es[0].d, max);
      var next := Consumed(r.0, r.2, es[0].release);
      if es[0].d.channelId != id {
        served := ServedArrives(next, es[1..], max, id, st, kept);
      } else {
        ArrivesParts(Only(es, id), st, kept);
        var rest := ServedArrives(next, es[1..], max, id, st, kept[1..]);
        ArrivesCons(Served(next, es[1..], id, max), es[0], st, kept, rest);
        served := if HasRoom(chs, id) then [kept[0]] + rest else rest;
        var all := Served(chs, es, id, max);
        if HasRoom(chs, id) { assert all == [all[0]] + all[1..]; }
      }
    }
  }

  lemma ServedNone(chs: seq<Channel>, max: nat, id: Byte, st: seq<Tagged>, kept: seq<nat>)
    requires Table(chs, max)
    ensures Sized(chs, max) && Served(chs, [], id, max) == [] && Arrives([], st, []) && AllIn([], kept)
  {
  }

  lemma AnyStep(chs: seq<Channel>, e: Event, max: nat)
    requires Table(chs, max) && |e.d.payload| < U16 && e.d.counter < U16
    ensures Sized(chs, max)
    ensures var r := Defragmented(chs, e.d, max); Table(Consumed(r.0, r.2, e.release), max) && Sized(Consumed(r.0, r.2, e.release), max)
  {
    TableKept(chs, e.d, max);
    var r := Defragmented(chs, e.d, max);
    ConsumedTable(r.0, r.2, e.release, max);
  }

  lemma ArrivesParts(es: seq<Event>, st: seq<Tagged>, kept: seq<nat>)
    requires Arrives(es, st, kept) && es != []
    ensures kept != [] && kept[0] < |st| && es[0].d == st[kept[0]].d && Arrives(es[1..], st, kept[1..])
    ensures forall k :: 0 <= k < |kept[1..]| ==> kept[0] < kept[1..][k]
  {
    ArrivesTail(es, st, kept);
  }

  lemma ArrivesCons(tail: seq<Event>, e: Event, st: seq<Tagged>, kept: seq<nat>, rest: seq<nat>)
    requires kept != [] && kept[0] < |st| && e.d == st[kept[0]].d && Arrives(tail, st, rest) && AllIn(rest, kept[1..])
    requires forall k :: 0 <= k < |kept[1..]| ==> kept[0] < kept[1..][k]
    ensures Arrives([e] + tail, st, [kept[0]] + rest) && AllIn(rest, kept) && AllIn([kept[0]] + rest, kept)
  {
    forall k | 0 <= k < |rest| ensures kept[0] < rest[k] && rest[k] in kept {
      assert rest[k] in kept[1..];
    }
  }

  /**
   Up to 256 senders, one for each channel ID, and a link with any number of channels. A
   sender that threads its counter gets its own messages only through to the consumer,
   whole, in order and at most once, whatever the network drops, however it interleaves the
   datagrams, whatever the other senders send, and whatever the link refuses.
   */
  lemma InterleavedLossySenders(chs: seq<Channel>, es: seq<Event>, max: nat, x: Sender, id: Byte) returns (which: seq<nat>)
    requires Sized(chs, max) && AllReceived(es) && SentBy(es, x, id)
    requires forall i :: 0 <= i < |chs| ==> !chs[i].isUsed
    ensures InOrder(which, Of(LinkDeliveries(chs, es, max), id), x.msgs, 0, 0)
  {
    var st := Stream(x.msgs, x.pf, id, x.c0, 0);
    var served := ServedArrives(chs, es, max, id, st, x.kept);
    which := DeliveredMessagesWereSent(x.msgs, x.pf, id, x.c0, Served(chs, es, id, max), served, max);
    Noninterference(chs, es, max, id, Closed);
  }
}
