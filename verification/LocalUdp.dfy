/**
 The UDP transport between protection domains of one platform (lib/ldp_core_udp.c):
 messages cut into numbered tiles, and reassembly buffers that place tiles by offset and
 count them.
 */
module LocalUdp {
  import opened Common

  const DATA_SIZE: nat := 512

  datatype Packet = Packet(msgId: nat, seqStart: nat, number: nat, moduleId: nat, data: seq<Byte>)

  // ----- sending -----

  function Start(i: nat): (b: nat)
    ensures i == 0 ==> b == 0
  {
    i * 512
  }

  /** Number of tiles of a message; the packet number field is 16 bits wide. */
  function Tiles(length: nat): nat {
    length / 512 + (if length % 512 != 0 then 1 else 0)
  }

  function TileEnd(length: nat, i: nat): (e: nat)
    ensures e <= length && e <= Start(i) + DATA_SIZE
    ensures Start(i) <= length ==> e >= Start(i)
  {
    if i * 512 + 512 <= length then i * 512 + 512 else length
  }

  /** Messages that are sent whole: neither empty nor over 65535 tiles. */
  type Message = m: seq<Byte> | 1 <= |m| && Tiles(|m|) < 0x1_0000 witness [0]

  /** What the uint16_t packet number field keeps of the number of tiles. */
  function PacketNumber(length: nat): (n: nat)
    ensures n < 0x1_0000
  {
    Tiles(length) % 0x1_0000
  }

  /** The locals of the sending loop: packets sent, size and offset of the next one. */
  datatype Loop = Loop(count: nat, size: nat, start: nat)

  /** The locals after `n` passes of the loop over a message of `length` bytes. */
  function Passes(length: nat, n: nat): Loop {
    if n == 0 then Loop(0, if PacketNumber(length) > 1 then DATA_SIZE else length, 0)
    else
      var count := Passes(length, n - 1).count + 1;
      Loop(count, if count == PacketNumber(length) - 1 && length % 512 != 0 then length % 512 else DATA_SIZE, DATA_SIZE * count)
  }

  /** The exit test after pass `n`: `sent_count != packet_number` fails. */
  predicate Exits(length: nat, n: nat) {
    n > 0 && Passes(length, n).count == PacketNumber(length)
  }

  lemma {:induction false} PassCount(length: nat, n: nat)
    ensures Passes(length, n).count == n && Passes(length, n).start == Start(n)
  {
    if n > 0 { PassCount(length, n - 1); }
  }

  function Tile(msg: Message, msgId: nat, moduleId: nat, i: nat): Packet
    requires i < Tiles(|msg|)
  {
    Packet(msgId, Start(i), Tiles(|msg|), moduleId, msg[Start(i)..TileEnd(|msg|, i)])
  }

  lemma TileBounds(length: nat, i: nat)
    requires i < Tiles(length)
    ensures Start(i) < TileEnd(length, i) <= length
    ensures i + 1 < Tiles(length) ==> TileEnd(length, i) == Start(i) + DATA_SIZE == Start(i + 1)
    ensures i + 1 == Tiles(length) ==> TileEnd(length, i) == length
    ensures i + 1 == Tiles(length) && i > 0 ==> length - Start(i) == if length % 512 != 0 then length % 512 else DATA_SIZE
  {
  }

  /** Every packet lies within the message, and for a message that can be sent whole it is a tile of it. */
  lemma PassBounds(length: nat, i: nat)
    requires i < PacketNumber(length)
    ensures Passes(length, i).start == Start(i) && Start(i) + Passes(length, i).size <= length
    ensures 1 <= length && Tiles(length) < 0x1_0000 ==>
              PacketNumber(length) == Tiles(length) && Start(i) + Passes(length, i).size == TileEnd(length, i)
  {
    PassCount(length, i);
    if i > 0 { PassCount(length, i - 1); }
  }

  /** The packet that pass `i` sends. */
  function PacketAt(msg: seq<Byte>, msgId: nat, moduleId: nat, i: nat): Packet
    requires i < PacketNumber(|msg|)
  {
    PassBounds(|msg|, i);
    var l := Passes(|msg|, i);
    Packet(msgId, l.start, PacketNumber(|msg|), moduleId, msg[l.start..l.start + l.size])
  }

  /**
   ldp_UDP_write: the packets handed to the socket, and the new message ID. The loop makes
   passes until its exit test holds for the first time, which it must at some time.
   */
  method Write(msg: seq<Byte>, moduleId: nat, msgId: nat) returns (sent: seq<Packet>, msgId': nat)
    requires msgId < 0x1_0000 && PacketNumber(|msg|) != 0
    ensures msgId' == (msgId + 1) % 0x1_0000
    ensures Exits(|msg|, |sent|) && forall n :: 0 <= n < |sent| ==> !Exits(|msg|, n)
    ensures |sent| == PacketNumber(|msg|) && forall i :: 0 <= i < |sent| ==> sent[i] == PacketAt(msg, msgId', moduleId, i)
    ensures 1 <= |msg| && Tiles(|msg|) < 0x1_0000 ==>
              |sent| == Tiles(|msg|) && forall i :: 0 <= i < |sent| ==> sent[i] == Tile(msg, msgId', moduleId, i)
  {
    hide Tiles, TileEnd, Passes, PacketNumber, Exits;
    var number := PacketNumber(|msg|);
    var size: nat := if number > 1 then DATA_SIZE else |msg|;
    msgId' := (msgId + 1) % 0x1_0000;
    sent := [];
    var start: nat := 0;
    FirstPass(|msg|);
    while true
      invariant |sent| < number == PacketNumber(|msg|)
      invariant Loop(|sent|, size, start) == Passes(|msg|, |sent|)
      invariant forall n :: 0 <= n <= |sent| ==> !Exits(|msg|, n)
      invariant forall i :: 0 <= i < |sent| ==> sent[i] == PacketAt(msg, msgId', moduleId, i)
      decreases number - |sent|
    {
      PassBounds(|msg|, |sent|);
      NextPass(|msg|, |sent|);
      sent := sent + [Packet(msgId', start, number, moduleId, msg[start..start + size])];
      size := if |sent| == number - 1 && |msg| % 512 != 0 then |msg| % 512 else DATA_SIZE;
      start := DATA_SIZE * |sent|;
      if |sent| == number { break; }
    }
    if 1 <= |msg| && Tiles(|msg|) < 0x1_0000 { AreTiles(msg, sent, msgId', moduleId); }
  }

  lemma FirstPass(length: nat)
    ensures Passes(length, 0) == Loop(0, if PacketNumber(length) > 1 then DATA_SIZE else length, 0) && !Exits(length, 0)
  {
  }

  lemma NextPass(length: nat, n: nat)
    ensures Passes(length, n + 1) == Loop(n + 1, if n + 1 == PacketNumber(length) - 1 && length % 512 != 0 then length % 512 else DATA_SIZE,
                                          DATA_SIZE * (n + 1))
    ensures Exits(length, n + 1) <==> n + 1 == PacketNumber(length)
  {
    PassCount(length, n);
  }

  lemma AreTiles(msg: Message, sent: seq<Packet>, msgId: nat, moduleId: nat)
    requires |sent| == PacketNumber(|msg|) && forall i :: 0 <= i < |sent| ==> sent[i] == PacketAt(msg, msgId, moduleId, i)
    ensures |sent| == Tiles(|msg|) && forall i :: 0 <= i < |sent| ==> sent[i] == Tile(msg, msgId, moduleId, i)
  {
    hide TileEnd, Start, Passes;
    WholeNumber(msg);
    forall i | 0 <= i < |sent| ensures sent[i] == Tile(msg, msgId, moduleId, i) {
      PassBounds(|msg|, i);
    }
  }

  lemma WholeNumber(msg: Message)
    ensures PacketNumber(|msg|) == Tiles(|msg|)
  {
  }

  /** As many tiles as it takes: all of 512 bytes but the last, which is not empty. */
  lemma TileCount(length: nat)
    ensures length <= 512 * Tiles(length) && (length > 0 ==> 512 * (Tiles(length) - 1) < length) && (length == 0 ==> Tiles(length) == 0)
    ensures PacketNumber(length) == Tiles(length) % 0x1_0000
  {
  }

  /** Every tile carries its 512 bytes of the message, the last one the rest, with their offset. */
  lemma TilesCut(msg: Message, msgId: nat, moduleId: nat, i: nat)
    requires i < Tiles(|msg|)
    ensures 512 * i <= |msg|
    ensures Tile(msg, msgId, moduleId, i)
         == Packet(msgId, 512 * i, Tiles(|msg|), moduleId, msg[512 * i..if 512 * (i + 1) <= |msg| then 512 * (i + 1) else |msg|])
  {
  }

  // ----- reassembly buffers -----

  /** ldp_udp_read_message */
  datatype Buffer = Buffer(readMsg: seq<Byte>, readMsgId: nat, received: nat, number: nat, moduleId: nat, isFree: bool)

  function Overwrite(s: seq<Byte>, at: nat, data: seq<Byte>): (r: seq<Byte>)
    requires at + |data| <= |s|
    ensures |r| == |s|
    ensures forall k :: 0 <= k < |s| ==> r[k] == if at <= k < at + |data| then data[k - at] else s[k]
  {
    s[..at] + data + s[at + |data|..]
  }

  /** Buffer of the module, or else the first unassigned one. */
  function Pick(bufs: seq<Buffer>, moduleId: nat, from: nat, free: Option<nat>): (r: Option<nat>)
    requires from <= |bufs| && (free.Some? ==> free.value < from)
    ensures r.Some? ==> r.value < |bufs|
    decreases |bufs| - from
  {
    if from == |bufs| then free
    else if bufs[from].moduleId == moduleId then Some(from)
    else Pick(bufs, moduleId, from + 1,
              if free.None? && bufs[from].isFree && bufs[from].moduleId == 0 then Some(from) else free)
  }

  function Assigned(b: Buffer, moduleId: nat): Buffer {
    if b.moduleId == moduleId then b else b.(moduleId := moduleId, isFree := false)
  }

  /** insert_msg_into_buffer */
  function Inserted(b: Buffer, p: Packet): Buffer
    requires p.seqStart + |p.data| <= |b.readMsg|
  {
    var copied := Overwrite(b.readMsg, p.seqStart, p.data);
    if b.isFree || b.readMsgId < p.msgId then
      b.(readMsg := copied, readMsgId := p.msgId, received := 1, number := p.number, isFree := false)
    else if b.readMsgId == p.msgId then
      b.(readMsg := copied, received := b.received + 1)
    else b
  }

  class Interface {
    const bufs: array<Buffer>
    const size: nat

    ghost predicate Valid()
      reads bufs
    {
      forall i :: 0 <= i < bufs.Length ==> |bufs[i].readMsg| == size
    }

    constructor (count: nat, size: nat)
      ensures Valid() && this.size == size && bufs.Length == if count == 0 then 1 else count
      ensures forall i :: 0 <= i < bufs.Length ==> bufs[i] == Buffer(seq(size, _ => 0), 0, 0, 0, 0, true)
    {
      var blank := Buffer(seq(size, _ => 0), 0, 0, 0, 0, true);
      this.size := size;
      bufs := new Buffer[if count == 0 then 1 else count](_ => blank);
    }

    /** pick_msg_buffer */
    method PickMsgBuffer(moduleId: nat) returns (r: Option<nat>)
      requires Valid()
      modifies bufs
      ensures Valid() && r == Pick(old(bufs[..]), moduleId, 0, None)
      ensures bufs[..] == if r.None? then old(bufs[..])
                          else old(bufs[..])[r.value := Assigned(old(bufs[r.value]), moduleId)]
      ensures r.None? ==> bufs[..] == old(bufs[..])
                          && forall j :: 0 <= j < bufs.Length ==> bufs[j].moduleId != moduleId && !(bufs[j].isFree && bufs[j].moduleId == 0)
      ensures r.Some? ==> r.value < bufs.Length && forall j :: 0 <= j < r.value ==> old(bufs[j].moduleId) != moduleId
      ensures r.Some? && old(bufs[r.value].moduleId) == moduleId ==> bufs[..] == old(bufs[..])
      ensures r.Some? && old(bufs[r.value].moduleId) != moduleId ==>
                && old(bufs[r.value].isFree) && old(bufs[r.value].moduleId) == 0
                && (forall j :: 0 <= j < bufs.Length ==> old(bufs[j].moduleId) != moduleId)
                && (forall j :: 0 <= j < r.value ==> !(old(bufs[j].isFree) && old(bufs[j].moduleId) == 0))
                && bufs[..] == old(bufs[..])[r.value := old(bufs[r.value]).(moduleId := moduleId, isFree := false)]
    {
      var free: Option<nat> := None;
      var i := 0;
      while i < bufs.Length
        invariant 0 <= i <= bufs.Length && bufs[..] == old(bufs[..])
        invariant forall j :: 0 <= j < i ==> bufs[j].moduleId != moduleId
        invariant free.Some? ==> free.value < i && bufs[free.value].isFree && bufs[free.value].moduleId == 0
        invariant forall j :: 0 <= j < (if free.Some? then free.value else i) ==> !(bufs[j].isFree && bufs[j].moduleId == 0)
        invariant Pick(bufs[..], moduleId, 0, None) == Pick(bufs[..], moduleId, i, free)
      {
        if bufs[i].moduleId == moduleId {
          assert bufs[..][i := bufs[i]] == bufs[..];
          return Some(i);
        }
        if free.None? && bufs[i].isFree && bufs[i].moduleId == 0 {
          free := Some(i);
        }
        i := i + 1;
      }
      if free.Some? {
        bufs[free.value] := bufs[free.value].(moduleId := moduleId);
        bufs[free.value] := bufs[free.value].(isFree := false);
      }
      return free;
    }

    /**
     ldp_UDP_read after the recv: the buffer that serves the module of the packet, none when
     the read fails, and whether that buffer holds as many packets as its message has.
     */
    method Read(p: Packet) returns (at: Option<nat>, complete: bool)
      requires Valid() && p.seqStart + |p.data| <= size
      modifies bufs
      ensures Valid() && at == Pick(old(bufs[..]), p.moduleId, 0, None)
      ensures bufs[..] == if at.None? then old(bufs[..])
                          else old(bufs[..])[at.value := Inserted(Assigned(old(bufs[at.value]), p.moduleId), p)]
      ensures complete <==> at.Some? && bufs[at.value].number == bufs[at.value].received
      ensures at.None? ==> forall j :: 0 <= j < bufs.Length ==> bufs[j].moduleId != p.moduleId && (bufs[j].moduleId != 0 || !bufs[j].isFree)
      ensures at.Some? ==>
                && at.value < bufs.Length && bufs[..] == old(bufs[..])[at.value := bufs[at.value]]
                && var (was, now) := (old(bufs[at.value]), bufs[at.value]);
                   var free := was.isFree && was.moduleId == p.moduleId;
                   var placed := was.readMsg[..p.seqStart] + p.data + was.readMsg[p.seqStart + |p.data|..];
                   && (was.moduleId == p.moduleId || (was.moduleId == 0 && was.isFree
                                                      && forall j :: 0 <= j < bufs.Length ==> old(bufs[j].moduleId) != p.moduleId))
                   && (free || was.readMsgId < p.msgId ==> now == Buffer(placed, p.msgId, 1, p.number, p.moduleId, false))
                   && (!free && was.readMsgId == p.msgId ==>
                         now == Buffer(placed, p.msgId, was.received + 1, was.number, p.moduleId, false))
                   && (!free && was.readMsgId > p.msgId ==> now == was.(moduleId := p.moduleId, isFree := false))
    {
      at := PickMsgBuffer(p.moduleId);
      if at.None? {
        return at, false;
      }
      var b := bufs[at.value];
      bufs[at.value] := Inserted(b, p);
      complete := bufs[at.value].number == bufs[at.value].received;
    }

    /** get_first_read_message: the first complete buffer, which becomes free again. */
    method GetFirstReadMessage() returns (r: Option<nat>)
      requires Valid()
      modifies bufs
      ensures Valid()
      ensures r.Some? ==> r.value < bufs.Length && Complete(old(bufs[r.value]))
                          && bufs[..] == old(bufs[..])[r.value := old(bufs[r.value]).(isFree := true)]
                          && forall j :: 0 <= j < r.value ==> !Complete(old(bufs[j]))
      ensures r.None? ==> bufs[..] == old(bufs[..]) && forall j :: 0 <= j < bufs.Length ==> !Complete(bufs[j])
    {
      var i := 0;
      while i < bufs.Length
        invariant 0 <= i <= bufs.Length && bufs[..] == old(bufs[..])
        invariant forall j :: 0 <= j < i ==> !Complete(bufs[j])
      {
        if bufs[i].received == bufs[i].number && !bufs[i].isFree {
          bufs[i] := bufs[i].(isFree := true);
          return Some(i);
        }
        i := i + 1;
      }
      return None;
    }

    /**
     One pass of the server loop: read a packet, and when `len` says so consume a message.
     The servers leave `len` set from one pass to the next; with no complete buffer lying
     about that changes nothing.
     */
    method ServerPass(p: Packet, len: bool) returns (out: Option<seq<Byte>>, len': bool)
      requires Valid() && p.seqStart + |p.data| <= size
      modifies bufs
      ensures Valid()
      ensures !len || (forall j :: 0 <= j < bufs.Length ==> !Complete(old(bufs[j]))) ==>
                Sized(old(bufs[..]), size) && (bufs[..], out) == Received(old(bufs[..]), p, size)
    {
      var at, complete := Read(p);
      len' := len || complete;
      out := None;
      label placed:
      if len' {
        var first := GetFirstReadMessage();
        if first.Some? {
          out := Some(bufs[first.value].readMsg);
        }
        assert first == FirstComplete(old@placed(bufs[..]), 0);
      }
    }
  }

  predicate Complete(b: Buffer) {
    b.received == b.number && !b.isFree
  }

  // ----- any order, any loss -----

  /** What was sent: the message of each (module, message ID). */
  type Traffic = map<(nat, nat), Message>

  /** Tile `i` of message `id` of module `m`. */
  datatype Name = Name(m: nat, id: nat, i: nat)

  ghost predicate IsTile(p: Packet, n: Name, sent: Traffic) {
    && n.m != 0 && n.id != 0 && (n.m, n.id) in sent
    && n.i < Tiles(|sent[(n.m, n.id)]|)
    && p == Tile(sent[(n.m, n.id)], n.id, n.m, n.i)
  }

  /** `c` agrees with `msg` on tile `i`. */
  ghost predicate Agrees(c: seq<Byte>, msg: seq<Byte>, i: nat) {
    forall k :: Start(i) <= k < TileEnd(|msg|, i) && k < |c| && k < |msg| ==> c[k] == msg[k]
  }

  /**
   Buffer `b` holds exactly the tiles `have` of the message it is collecting, all of them
   among the packets `seen`, and is not complete.
   */
  ghost predicate Collecting(b: Buffer, have: set<nat>, seen: set<Name>, sent: Traffic) {
    b.moduleId != 0 && !b.isFree ==>
      && (b.moduleId, b.readMsgId) in sent
      && var msg := sent[(b.moduleId, b.readMsgId)];
         && b.number == Tiles(|msg|) && b.received == |have| < b.number
         && (forall i :: i in have ==> i < b.number && Name(b.moduleId, b.readMsgId, i) in seen && Agrees(b.readMsg, msg, i))
  }

  /** One reassembly buffer for each module that has sent something. */
  ghost predicate OwnBuffers(bufs: seq<Buffer>) {
    && (forall i, j :: 0 <= i < j < |bufs| && bufs[i].moduleId != 0 ==> bufs[i].moduleId != bufs[j].moduleId)
    && forall i :: 0 <= i < |bufs| && bufs[i].moduleId == 0 ==> bufs[i].isFree
  }

  ghost predicate Inv(bufs: seq<Buffer>, have: seq<set<nat>>, seen: set<Name>, sent: Traffic, size: nat) {
    && |have| == |bufs| && OwnBuffers(bufs)
    && (forall i :: 0 <= i < |bufs| ==> |bufs[i].readMsg| == size && Collecting(bufs[i], have[i], seen, sent))
    && (forall i :: 0 <= i < |bufs| && bufs[i].moduleId == 0 ==> bufs[i].readMsgId == 0)
    && forall x :: x in sent ==> |sent[x]| <= size
  }

  lemma {:induction false} PickFinds(bufs: seq<Buffer>, moduleId: nat, from: nat, free: Option<nat>)
    requires from <= |bufs| && moduleId != 0
    requires free.Some? ==> free.value < from && bufs[free.value].moduleId == 0
    requires forall j :: 0 <= j < from ==> bufs[j].moduleId != moduleId
    ensures var r := Pick(bufs, moduleId, from, free);
            r.Some? ==> bufs[r.value].moduleId == moduleId
                        || (bufs[r.value].moduleId == 0 && forall j :: 0 <= j < |bufs| ==> bufs[j].moduleId != moduleId)
    decreases |bufs| - from
  {
    if from < |bufs| && bufs[from].moduleId != moduleId {
      PickFinds(bufs, moduleId, from + 1,
                if free.None? && bufs[from].isFree && bufs[from].moduleId == 0 then Some(from) else free);
    }
  }

  lemma AllTilesAgree(c: seq<Byte>, msg: Message)
    requires |msg| <= |c|
    requires forall i :: 0 <= i < Tiles(|msg|) ==> Agrees(c, msg, i)
    ensures c[..|msg|] == msg
  {
    forall k | 0 <= k < |msg| ensures c[k] == msg[k] {
      var i := k / 512;
      assert Agrees(c, msg, i);
      assert Start(i) <= k < TileEnd(|msg|, i);
    }
  }

  lemma {:induction false} FullSet(have: set<nat>, n: nat)
    requires |have| == n && forall i :: i in have ==> i < n
    ensures forall i :: 0 <= i < n ==> i in have
  {
    if n > 0 {
      if n - 1 in have {
        FullSet(have - {n - 1}, n - 1);
      } else {
        Bounded(have, n - 1);
      }
    }
  }

  lemma {:induction false} Bounded(have: set<nat>, n: nat)
    requires forall i :: i in have ==> i < n
    ensures |have| <= n
  {
    if n == 0 {
      assert have == {};
    } else {
      Bounded(have - {n - 1}, n - 1);
    }
  }

  /** Placing tile `i` keeps the other tiles and makes tile `i` agree. */
  lemma PlaceTile(c: seq<Byte>, msg: Message, msgId: nat, m: nat, i: nat, j: nat)
    requires i < Tiles(|msg|) && j < Tiles(|msg|) && |msg| <= |c|
    requires j != i ==> Agrees(c, msg, j)
    ensures var p := Tile(msg, msgId, m, i);
            p.seqStart + |p.data| <= |c| && Agrees(Overwrite(c, p.seqStart, p.data), msg, j)
  {
    TileBounds(|msg|, i);
    TileBounds(|msg|, j);
  }

  /** First complete buffer from `from` on. */
  function FirstComplete(bufs: seq<Buffer>, from: nat): (r: Option<nat>)
    requires from <= |bufs|
    ensures r.Some? ==> from <= r.value < |bufs| && Complete(bufs[r.value]) && forall j :: from <= j < r.value ==> !Complete(bufs[j])
    ensures r.None? ==> forall j :: from <= j < |bufs| ==> !Complete(bufs[j])
    decreases |bufs| - from
  {
    if from == |bufs| then None else if Complete(bufs[from]) then Some(from) else FirstComplete(bufs, from + 1)
  }

  predicate Sized(bufs: seq<Buffer>, size: nat) {
    forall i :: 0 <= i < |bufs| ==> |bufs[i].readMsg| == size
  }

  /** One pass of the server loop: read a packet, and consume a message if the read says one is complete. */
  function Received(bufs: seq<Buffer>, p: Packet, size: nat): (r: (seq<Buffer>, Option<seq<Byte>>))
    requires Sized(bufs, size) && p.seqStart + |p.data| <= size
    ensures |r.0| == |bufs| && Sized(r.0, size)
  {
    var i := Pick(bufs, p.moduleId, 0, None);
    if i.None? then (bufs, None)
    else
      var b := Inserted(Assigned(bufs[i.value], p.moduleId), p);
      var bufs' := bufs[i.value := b];
      var f := if b.number == b.received then FirstComplete(bufs', 0) else None;
      if f.None? then (bufs', None)
      else (bufs'[f.value := bufs'[f.value].(isFree := true)], Some(bufs'[f.value].readMsg))
  }

  /** The tiles held once a buffer that holds `have` has taken tile `n`. */
  ghost function TilesAfter(b: Buffer, have: set<nat>, n: Name): set<nat> {
    if b.isFree || b.readMsgId < n.id then {n.i} else if b.readMsgId == n.id then have + {n.i} else have
  }

  /** The buffer that takes the packet, between insertion and consumption. */
  lemma InsertTile(b: Buffer, have: set<nat>, seen: set<Name>, sent: Traffic, size: nat, p: Packet, n: Name) returns (have': set<nat>)
    requires IsTile(p, n, sent) && n !in seen && |sent[(n.m, n.id)]| <= size == |b.readMsg|
    requires b.moduleId == n.m && (b.isFree || b.readMsgId == 0 || Collecting(b, have, seen, sent))
    ensures p.seqStart + |p.data| <= size && have' == TilesAfter(b, have, n)
    ensures var b' := Inserted(b, p);
            && b'.moduleId == b.moduleId && !b'.isFree && (b'.readMsgId == b.readMsgId || b'.readMsgId == n.id)
            && if b'.received == b'.number then
                 && b'.readMsgId == n.id && b'.readMsg[..|sent[(n.m, n.id)]|] == sent[(n.m, n.id)]
                 && forall i :: 0 <= i < Tiles(|sent[(n.m, n.id)]|) ==> Name(n.m, n.id, i) in seen + {n}
               else Collecting(b', have', seen + {n}, sent)
  {
    var msg := sent[(n.m, n.id)];
    TileBounds(|msg|, n.i);
    var b' := Inserted(b, p);
    if b.isFree || b.readMsgId < n.id {
      have' := {n.i};
    } else if b.readMsgId == n.id {
      have' := have + {n.i};
    } else {
      return have;
    }
    forall j | j in have' ensures j < b'.number && Name(n.m, n.id, j) in seen + {n} && Agrees(b'.readMsg, msg, j) {
      PlaceTile(b.readMsg, msg, n.id, n.m, n.i, j);
    }
    assert b'.received == |have'|;
    if b'.received == b'.number {
      FullSet(have', b'.number);
      AllTilesAgree(b'.readMsg, msg);
    } else {
      Bounded(have', b'.number);
    }
  }

  lemma CollectingGrows(b: Buffer, have: set<nat>, seen: set<Name>, n: Name, sent: Traffic)
    requires Collecting(b, have, seen, sent)
    ensures Collecting(b, have, seen + {n}, sent)
  {
  }

  /** `out` begins with the message tile `n` belongs to, all of whose tiles have arrived. */
  ghost predicate WholeMessage(out: seq<Byte>, n: Name, sent: Traffic, arrived: set<Name>, size: nat) {
    && (n.m, n.id) in sent
    && var msg := sent[(n.m, n.id)];
       && |msg| <= size == |out| && out[..|msg|] == msg
       && forall i :: 0 <= i < Tiles(|msg|) ==> Name(n.m, n.id, i) in arrived
  }

  /** Only the buffer of the packet's module changes. */
  lemma InsertKeepsInv(bufs: seq<Buffer>, have: seq<set<nat>>, seen: set<Name>, sent: Traffic, size: nat, n: Name,
                       i: nat, b: Buffer, h: set<nat>)
    requires Inv(bufs, have, seen, sent, size) && i < |bufs|
    requires bufs[i].moduleId == n.m || forall j :: 0 <= j < |bufs| ==> bufs[j].moduleId != n.m
    requires n.m != 0 && b.moduleId == n.m && |b.readMsg| == size && Collecting(b, h, seen + {n}, sent)
    ensures Inv(bufs[i := b], have[i := h], seen + {n}, sent, size)
  {
    forall j | 0 <= j < |bufs| ensures Collecting(bufs[j], have[j], seen + {n}, sent) {
      CollectingGrows(bufs[j], have[j], seen, n, sent);
    }
  }

  /** One packet: whatever is consumed is the whole message the packet belongs to. */
  lemma ReceivedOk(bufs: seq<Buffer>, have: seq<set<nat>>, seen: set<Name>, sent: Traffic, size: nat, p: Packet, n: Name)
      returns (have': seq<set<nat>>)
    requires Inv(bufs, have, seen, sent, size) && IsTile(p, n, sent) && n !in seen
    ensures p.seqStart + |p.data| <= size
    ensures Inv(Received(bufs, p, size).0, have', seen + {n}, sent, size)
    ensures var out := Received(bufs, p, size).1; out.Some? ==> WholeMessage(out.value, n, sent, seen + {n}, size)
  {
    hide *;
    have' := ReceivedTiles(bufs, have, seen, sent, size, p, n);
  }

  lemma ReceivedTiles(bufs: seq<Buffer>, have: seq<set<nat>>, seen: set<Name>, sent: Traffic, size: nat, p: Packet, n: Name)
      returns (have': seq<set<nat>>)
    requires Inv(bufs, have, seen, sent, size) && IsTile(p, n, sent) && n !in seen
    ensures p.seqStart + |p.data| <= size
    ensures Inv(Received(bufs, p, size).0, have', seen + {n}, sent, size)
    ensures var out := Received(bufs, p, size).1; out.Some? ==> WholeMessage(out.value, n, sent, seen + {n}, size)
    ensures var at := Pick(bufs, n.m, 0, None);
            if at.None? then Received(bufs, p, size) == (bufs, None) && have' == have
            else
              var a := Assigned(bufs[at.value], n.m);
              var b := Inserted(a, p);
              && have' == have[at.value := TilesAfter(a, have[at.value], n)]
              && Received(bufs, p, size).0 == bufs[at.value := if b.received == b.number then b.(isFree := true) else b]
              && (Received(bufs, p, size).1.Some? <==> b.received == b.number)
  {
    TileBounds(|sent[(n.m, n.id)]|, n.i);
    PickFinds(bufs, n.m, 0, None);
    var at := Pick(bufs, n.m, 0, None);
    if at.None? {
      have' := have;
      forall j | 0 <= j < |bufs| ensures Collecting(bufs[j], have[j], seen + {n}, sent) {
        CollectingGrows(bufs[j], have[j], seen, n, sent);
      }
      return;
    }
    var i := at.value;
    var a := Assigned(bufs[i], n.m);
    var h := InsertTile(a, have[i], seen, sent, size, p, n);
    have' := have[i := h];
    var b := Inserted(a, p);
    if Complete(b) { OnlyOneCompletes(bufs, have, seen, sent, size, i, b); }
    hide Inserted, Pick, Collecting;
    if b.received == b.number {
      FreeIsCollecting(b.(isFree := true), h, seen + {n}, sent);
      InsertKeepsInv(bufs, have, seen, sent, size, n, i, b.(isFree := true), h);
      assert bufs[i := b][i := b.(isFree := true)] == bufs[i := b.(isFree := true)];
    } else {
      InsertKeepsInv(bufs, have, seen, sent, size, n, i, b, h);
    }
  }

  lemma FreeIsCollecting(b: Buffer, have: set<nat>, seen: set<Name>, sent: Traffic)
    requires b.isFree
    ensures Collecting(b, have, seen, sent)
  {
  }

  lemma OnlyOneCompletes(bufs: seq<Buffer>, have: seq<set<nat>>, seen: set<Name>, sent: Traffic, size: nat, i: nat, b: Buffer)
    requires Inv(bufs, have, seen, sent, size) && i < |bufs| && Complete(b)
    ensures FirstComplete(bufs[i := b], 0) == Some(i)
  {
    var bufs' := bufs[i := b];
    assert Complete(bufs'[i]);
    forall j | 0 <= j < |bufs| && j != i ensures !Complete(bufs'[j]) {
      assert Collecting(bufs[j], have[j], seen, sent);
    }
  }

  predicate AllFit(ps: seq<Packet>, size: nat) {
    forall k :: 0 <= k < |ps| ==> ps[k].seqStart + |ps[k].data| <= size
  }

  /** What each packet makes the server consume. */
  function Outputs(bufs: seq<Buffer>, ps: seq<Packet>, size: nat): (r: seq<Option<seq<Byte>>>)
    requires Sized(bufs, size) && AllFit(ps, size)
    ensures |r| == |ps|
    decreases |ps|
  {
    if ps == [] then []
    else
      var (bufs', out) := Received(bufs, ps[0], size);
      [out] + Outputs(bufs', ps[1..], size)
  }

  /** `ps` are tiles of sent messages, none of them twice. */
  ghost predicate Arrivals(ps: seq<Packet>, ns: seq<Name>, sent: Traffic) {
    && |ps| == |ns|
    && (forall k :: 0 <= k < |ps| ==> IsTile(ps[k], ns[k], sent))
    && forall j, k :: 0 <= j < k < |ns| ==> ns[j] != ns[k]
  }

  ghost predicate Untouched(bufs: seq<Buffer>, sent: Traffic, size: nat) {
    && (forall i :: 0 <= i < |bufs| ==> bufs[i].moduleId == 0 && bufs[i].readMsgId == 0 && bufs[i].isFree)
    && Sized(bufs, size)
    && forall x :: x in sent ==> |sent[x]| <= size
  }

  lemma ArrivalsFit(ps: seq<Packet>, ns: seq<Name>, sent: Traffic, size: nat)
    requires Arrivals(ps, ns, sent) && forall x :: x in sent ==> |sent[x]| <= size
    ensures AllFit(ps, size)
  {
    forall k | 0 <= k < |ps| ensures ps[k].seqStart + |ps[k].data| <= size {
      TileBounds(|sent[(ns[k].m, ns[k].id)]|, ns[k].i);
    }
  }

  function Names(ns: seq<Name>): set<Name> {
    set n | n in ns
  }

  lemma OutputsTail(bufs: seq<Buffer>, ps: seq<Packet>, size: nat, k: nat)
    requires Sized(bufs, size) && AllFit(ps, size) && 0 < k < |ps|
    ensures AllFit(ps[1..], size)
    ensures Outputs(bufs, ps, size)[k] == Outputs(Received(bufs, ps[0], size).0, ps[1..], size)[k - 1]
  {
  }

  lemma ArrivalsTail(ps: seq<Packet>, ns: seq<Name>, sent: Traffic, seen: set<Name>)
    requires Arrivals(ps, ns, sent) && ps != [] && forall j :: 0 <= j < |ns| ==> ns[j] !in seen
    ensures Arrivals(ps[1..], ns[1..], sent)
    ensures forall j :: 0 <= j < |ns[1..]| ==> ns[1..][j] !in seen + {ns[0]}
  {
  }

  lemma NamesStep(ns: seq<Name>, seen: set<Name>, k: nat)
    requires k < |ns|
    ensures seen + {ns[0]} + (if k == 0 then {} else Names(ns[1..][..k])) == seen + Names(ns[..k + 1])
  {
    assert ns[..k + 1] == [ns[0]] + ns[1..][..k];
  }

  lemma {:induction false} RunOk(bufs: seq<Buffer>, have: seq<set<nat>>, seen: set<Name>, ps: seq<Packet>, ns: seq<Name>,
                                 sent: Traffic, size: nat, k: nat)
    requires Inv(bufs, have, seen, sent, size) && Arrivals(ps, ns, sent) && AllFit(ps, size) && k < |ps|
    requires forall j :: 0 <= j < |ns| ==> ns[j] !in seen
    ensures var out := Outputs(bufs, ps, size)[k];
            out.Some? ==> WholeMessage(out.value, ns[k], sent, seen + Names(ns[..k + 1]), size)
    decreases k
  {
    assert Sized(bufs, size) && IsTile(ps[0], ns[0], sent);
    hide Received, Inv, IsTile, WholeMessage, AllFit, Sized, Names;
    var have' := ReceivedOk(bufs, have, seen, sent, size, ps[0], ns[0]);
    NamesStep(ns, seen, k);
    if k > 0 {
      OutputsTail(bufs, ps, size, k);
      ArrivalsTail(ps, ns, sent, seen);
      hide Outputs, Arrivals;
      var bufs' := Received(bufs, ps[0], size).0;
      RunOk(bufs', have', seen + {ns[0]}, ps[1..], ns[1..], sent, size, k - 1);
    }
  }

  /**
   Reassembly under loss and reordering. Packets of any modules arrive in any order, any
   of them missing, none twice. Whatever the server consumes on a packet begins with
   exactly the bytes of the message that packet belongs to, and by then every one of its
   tiles has arrived.
   */
  lemma ConsumedMessagesWereSent(bufs: seq<Buffer>, ps: seq<Packet>, ns: seq<Name>, sent: Traffic, size: nat, k: nat)
    requires Untouched(bufs, sent, size) && Arrivals(ps, ns, sent) && k < |ps|
    ensures AllFit(ps, size)
    ensures var out := Outputs(bufs, ps, size)[k];
            out.Some? ==>
              && |out.value| == size && out.value[..|sent[(ns[k].m, ns[k].id)]|] == sent[(ns[k].m, ns[k].id)]
              && forall i :: 0 <= i < Tiles(|sent[(ns[k].m, ns[k].id)]|) ==> Name(ns[k].m, ns[k].id, i) in ns[..k + 1]
  {
    ArrivalsFit(ps, ns, sent, size);
    RunOk(bufs, seq(|bufs|, _ => {}), {}, ps, ns, sent, size, k);
  }

  /** No message is consumed twice. */
  lemma ConsumedAtMostOnce(bufs: seq<Buffer>, ps: seq<Packet>, ns: seq<Name>, sent: Traffic, size: nat, j: nat, k: nat)
    requires Untouched(bufs, sent, size) && Arrivals(ps, ns, sent) && j < k < |ps|
    ensures AllFit(ps, size)
    ensures Outputs(bufs, ps, size)[j].Some? && Outputs(bufs, ps, size)[k].Some? ==>
              (ns[j].m, ns[j].id) != (ns[k].m, ns[k].id)
  {
    ConsumedMessagesWereSent(bufs, ps, ns, sent, size, j);
    assert IsTile(ps[k], ns[k], sent) && ns[k] !in ns[..j + 1];
    assert ns[k] == Name(ns[k].m, ns[k].id, ns[k].i);
  }

  // ----- a message whose tiles all arrive -----

  /** Buffer `i` serves module `m`, or is the one it will be given. */
  ghost predicate Ready(bufs: seq<Buffer>, m: nat, id: nat, i: nat) {
    && Pick(bufs, m, 0, None) == Some(i) && i < |bufs|
    && (bufs[i].isFree || bufs[i].readMsgId < id)
  }

  lemma {:induction false} PickAgain(bufs: seq<Buffer>, m: nat, i: nat, from: nat, free: Option<nat>)
    requires i < |bufs| && bufs[i].moduleId == m && from <= i && (free.Some? ==> free.value < from)
    requires forall j :: 0 <= j < |bufs| && j != i ==> bufs[j].moduleId != m
    ensures Pick(bufs, m, from, free) == Some(i)
    decreases i - from
  {
    if from < i {
      PickAgain(bufs, m, i, from + 1, if free.None? && bufs[from].isFree && bufs[from].moduleId == 0 then Some(from) else free);
    }
  }

  /** `c` tiles are in, the tiles `order[c..]` complete the message with the last of them. */
  lemma {:induction false} RemainingTiles(bufs: seq<Buffer>, have: seq<set<nat>>, seen: set<Name>, msg: Message, m: nat, id: nat, i: nat,
                                          c: nat, ps: seq<Packet>, ns: seq<Name>, sent: Traffic, size: nat)
    requires Inv(bufs, have, seen, sent, size) && Arrivals(ps, ns, sent) && AllFit(ps, size)
    requires (m, id) in sent && sent[(m, id)] == msg && m != 0 && id != 0
    requires forall k :: 0 <= k < |ns| ==> ns[k].m == m && ns[k].id == id && ns[k] !in seen
    requires c + |ps| == Tiles(|msg|) && ps != []
    requires if c == 0 then Ready(bufs, m, id, i)
             else i < |bufs| && bufs[i].moduleId == m && !bufs[i].isFree && bufs[i].readMsgId == id && bufs[i].received == c
    ensures forall k :: 0 <= k < |ps| - 1 ==> Outputs(bufs, ps, size)[k].None?
    ensures Outputs(bufs, ps, size)[|ps| - 1].Some?
    decreases |ps|
  {
    var have' := ReceivedOk(bufs, have, seen, sent, size, ps[0], ns[0]);
    OneMoreTile(bufs, have, seen, msg, m, id, i, c, ps[0], ns[0], sent, size);
    if |ps| > 1 {
      var bufs' := Received(bufs, ps[0], size).0;
      hide Received, Inv, IsTile, Ready;
      RemainingTiles(bufs', have', seen + {ns[0]}, msg, m, id, i, c + 1, ps[1..], ns[1..], sent, size);
    }
  }

  lemma OneMoreTile(bufs: seq<Buffer>, have: seq<set<nat>>, seen: set<Name>, msg: Message, m: nat, id: nat, i: nat, c: nat,
                    p: Packet, n: Name, sent: Traffic, size: nat)
    requires Inv(bufs, have, seen, sent, size) && IsTile(p, n, sent) && p.seqStart + |p.data| <= size
    requires (m, id) in sent && sent[(m, id)] == msg && n.m == m && n.id == id && c < Tiles(|msg|)
    requires if c == 0 then Ready(bufs, m, id, i)
             else i < |bufs| && bufs[i].moduleId == m && !bufs[i].isFree && bufs[i].readMsgId == id && bufs[i].received == c
    ensures var (bufs', out) := Received(bufs, p, size);
            && (out.Some? <==> c + 1 == Tiles(|msg|))
            && (out.None? ==> i < |bufs'| && bufs'[i].moduleId == m && !bufs'[i].isFree
                              && bufs'[i].readMsgId == id && bufs'[i].received == c + 1)
  {
    if c > 0 { PickAgain(bufs, m, i, 0, None); }
    PickFinds(bufs, m, 0, None);
    var b := Inserted(Assigned(bufs[i], m), p);
    assert b.received == c + 1 && b.number == Tiles(|msg|);
    if c + 1 == Tiles(|msg|) {
      assert Complete(bufs[i := b][i]);
    }
  }

  /**
   Order does not matter: when all tiles of a message arrive, in any order and with no
   other packet in between, the message is consumed on the last of them and not before.
   */
  lemma AnyOrderCompletes(bufs: seq<Buffer>, msg: Message, m: nat, id: nat, i: nat, ps: seq<Packet>, ns: seq<Name>, sent: Traffic, size: nat)
    requires Untouched(bufs, sent, size) && bufs != [] && Arrivals(ps, ns, sent)
    requires (m, id) in sent && sent[(m, id)] == msg && m != 0 && id != 0
    requires |ps| == Tiles(|msg|) && forall k :: 0 <= k < |ns| ==> ns[k].m == m && ns[k].id == id
    ensures AllFit(ps, size) && |ps| > 0
    ensures forall k :: 0 <= k < |ps| - 1 ==> Outputs(bufs, ps, size)[k].None?
    ensures var out := Outputs(bufs, ps, size)[|ps| - 1]; out.Some? && |out.value| == size && out.value[..|msg|] == msg
  {
    ArrivalsFit(ps, ns, sent, size);
    FirstIsPicked(bufs, m, 1);
    RemainingTiles(bufs, seq(|bufs|, _ => {}), {}, msg, m, id, 0, 0, ps, ns, sent, size);
    ConsumedMessagesWereSent(bufs, ps, ns, sent, size, |ps| - 1);
  }

  lemma {:induction false} FirstIsPicked(bufs: seq<Buffer>, m: nat, from: nat)
    requires 1 <= from <= |bufs| && m != 0
    requires forall i :: 0 <= i < |bufs| ==> bufs[i].moduleId == 0 && bufs[i].isFree
    ensures Pick(bufs, m, from, Some(0)) == Some(0)
    decreases |bufs| - from
  {
    if from < |bufs| { FirstIsPicked(bufs, m, from + 1); }
  }
}
