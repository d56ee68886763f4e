/**
 Cutting an ELI message into UDP datagrams (lib/eli/ldp_ELI_udp.c, the sending side of the
 UDP binding of the ECOA Logical Interface).
 */
module EliFragment {
  import opened Common

  const MSG_MAXSIZE := 65507
  const HEADER_SIZE := 4
  const TILE: nat := 65503
  const U16 := 0x1_0000

  /** First byte of tile `i`. */
  function Start(i: nat): (b: nat)
    ensures i == 0 ==> b == 0
    ensures i > 0 ==> b >= TILE
  {
    i * 65503
  }

  datatype Part = Begin | Middle | End | Full

  datatype Datagram = Datagram(part: Part, platformId: Byte, channelId: Byte, counter: nat, payload: seq<Byte>) {
    /** Must extend what the channel already holds. */
    predicate Continues() { part.Middle? || part.End? }

    predicate Completes() { part.End? || part.Full? }
  }

  datatype Cut = Cut(number: nat, fragmentSize: nat, lastSize: nat)

  /** A message whose length fits the uint32_t size parameter. */
  type Message = m: seq<Byte> | |m| < 0x1_0000_0000

  /** ldp_ELI_udp_compute_fragment. */
  method ComputeFragment(size: nat) returns (c: Cut)
    ensures c.number >= 1 && c.lastSize <= TILE
    ensures c.number == 1 ==> c.lastSize == size
    ensures c.number > 1 ==> c.fragmentSize == TILE && c.lastSize >= 1
    ensures Start(c.number - 1) + c.lastSize == size
    ensures c.number == Count(size)
  {
    if size < MSG_MAXSIZE - HEADER_SIZE {
      c := Cut(1, 0, size);
    } else {
      var number, last := size / 65503, size % 65503;
      if last == 0 {
        last := TILE;
      } else {
        number := number + 1;
      }
      c := Cut(number, TILE, last);
    }
  }

  /** The least number of tiles that hold `size` bytes, and one for an empty message. */
  function Count(size: nat): (n: nat)
    ensures n >= 1
    ensures size <= Start(n)
    ensures n > 1 ==> Start(n - 1) < size
  {
    if size <= TILE then 1 else 1 + (size - 1) / 65503
  }

  /** The value of a uint16_t counter after `x` increments from zero. */
  function Wrap(x: nat): (r: nat)
    ensures r < U16
  {
    x % U16
  }

  lemma WrapIs(x: nat)
    ensures Wrap(x) == x % 0x1_0000
  {
  }

  function PartOf(i: nat, n: nat): Part {
    if n == 1 then Full else if i == 0 then Begin else if i + 1 < n then Middle else End
  }

  function Upto(msg: seq<Byte>, i: nat): (e: nat)
    ensures e <= |msg| && e <= Start(i)
    ensures i < Count(|msg|) ==> e == Start(i)
    ensures i >= Count(|msg|) ==> e == |msg|
    ensures i > 0 ==> e >= Upto(msg, i - 1)
  {
    if Start(i) < |msg| then Start(i) else |msg|
  }

  /** Fragment `i` of a message sent on a channel whose counter was `counter`. */
  function Fragment(msg: seq<Byte>, platformId: Byte, channelId: Byte, counter: nat, i: nat): Datagram
    requires i < Count(|msg|)
  {
    Datagram(PartOf(i, Count(|msg|)), platformId, channelId, Wrap(counter + 1 + i),
             msg[Upto(msg, i)..Upto(msg, i + 1)])
  }

  function Fragments(msg: seq<Byte>, platformId: Byte, channelId: Byte, counter: nat): seq<Datagram> {
    seq(Count(|msg|), i requires 0 <= i < Count(|msg|) => Fragment(msg, platformId, channelId, counter, i))
  }

  lemma Bounds(msg: seq<Byte>, i: nat)
    requires i < Count(|msg|)
    ensures Upto(msg, i) == Start(i)
    ensures Upto(msg, i + 1) == if i + 1 < Count(|msg|) then Start(i) + TILE else |msg|
    ensures |msg| >= Start(i) && (i + 1 == Count(|msg|) ==> |msg| <= Start(i) + TILE)
  {
  }

  lemma FragmentIs(msg: seq<Byte>, platformId: Byte, channelId: Byte, counter: nat, i: nat, end: nat)
    requires i < Count(|msg|)
    requires end == if i + 1 < Count(|msg|) then Start(i) + TILE else |msg|
    ensures Start(i) <= end <= |msg|
    ensures Fragment(msg, platformId, channelId, counter, i)
         == Datagram(PartOf(i, Count(|msg|)), platformId, channelId, Wrap(counter + 1 + i), msg[Start(i)..end])
  {
    Bounds(msg, i);
  }

  lemma NextStart(i: nat)
    ensures Start(i + 1) == Start(i) + TILE
  {
  }

  lemma NextCounter(counter: nat, i: nat)
    ensures Wrap(Wrap(counter + i) + 1) == Wrap(counter + 1 + i)
  {
  }

  /**
   ldp_ELI_udp_msg_fragment_and_send: the datagrams given to the sending function, and the
   new value of the caller's counter.
   */
  method FragmentAndSend(msg: Message, platformId: Byte, channelId: Byte, counter: nat)
      returns (sent: seq<Datagram>, counter': nat)
    requires counter < U16
    ensures sent == Fragments(msg, platformId, channelId, counter)
    ensures counter' == Wrap(counter + |sent|) == (counter + |sent|) % 0x1_0000
  {
    hide Upto, Count, Wrap, Fragment, Start;
    var offset := 0;
    var cut := ComputeFragment(|msg|);
    var n := cut.number;
    var c := Wrap(counter + 1);
    Bounds(msg, 0);
    FragmentIs(msg, platformId, channelId, counter, 0, if n == 1 then |msg| else TILE);
    if n == 1 {
      sent := [Datagram(Full, platformId, channelId, c, msg[..cut.lastSize])];
    } else {
      sent := [Datagram(Begin, platformId, channelId, c, msg[..cut.fragmentSize])];
      offset := cut.fragmentSize;
      var i := 1;
      NextStart(0);
      while i < n - 1
        invariant 1 <= i <= n - 1
        invariant offset == Start(i)
        invariant c == Wrap(counter + i)
        invariant |sent| == i
        invariant forall j :: 0 <= j < i ==> sent[j] == Fragment(msg, platformId, channelId, counter, j)
      {
        FragmentIs(msg, platformId, channelId, counter, i, offset + TILE);
        NextCounter(counter, i);
        NextStart(i);
        c := Wrap(c + 1);
        sent := sent + [Datagram(Middle, platformId, channelId, c, msg[offset..offset + cut.fragmentSize])];
        offset := offset + cut.fragmentSize;
        i := i + 1;
      }
      FragmentIs(msg, platformId, channelId, counter, n - 1, |msg|);
      NextCounter(counter, n - 1);
      c := Wrap(c + 1);
      sent := sent + [Datagram(End, platformId, channelId, c, msg[offset..offset + cut.lastSize])];
    }
    counter' := Wrap(counter + n);
    WrapIs(counter + n);
  }

  function Payloads(ds: seq<Datagram>): seq<Byte> {
    if ds == [] then [] else Payloads(ds[..|ds| - 1]) + ds[|ds| - 1].payload
  }

  lemma {:induction false} PayloadsUpto(msg: seq<Byte>, platformId: Byte, channelId: Byte, counter: nat, k: nat)
    requires k <= Count(|msg|)
    ensures Payloads(Fragments(msg, platformId, channelId, counter)[..k]) == msg[..Upto(msg, k)]
  {
    var ds := Fragments(msg, platformId, channelId, counter);
    if k > 0 {
      PayloadsUpto(msg, platformId, channelId, counter, k - 1);
      assert ds[..k][..k - 1] == ds[..k - 1];
    }
  }

  /**
   The datagrams tile the message for every size: in order they carry exactly its bytes,
   each fits a UDP datagram, and the parts are one FULL, or BEGIN, MIDDLE ... MIDDLE, END.
   */
  lemma FragmentsTile(msg: Message, platformId: Byte, channelId: Byte, counter: nat)
    ensures var ds := Fragments(msg, platformId, channelId, counter);
            && Payloads(ds) == msg
            && (forall i :: 0 <= i < |ds| ==> |ds[i].payload| + HEADER_SIZE <= MSG_MAXSIZE)
            && (forall i :: 0 <= i < |ds| ==> (ds[i].Continues() <==> i > 0) && (ds[i].Completes() <==> i == |ds| - 1))
            && (forall i :: 0 <= i < |ds| - 1 ==> |ds[i].payload| == TILE)
            && (forall i :: 0 <= i < |ds| ==>
                  && ds[i].part == (if |ds| == 1 then Full else if i == 0 then Begin else if i < |ds| - 1 then Middle else End)
                  && ds[i].platformId == platformId && ds[i].channelId == channelId && ds[i].counter == (counter + 1 + i) % 0x1_0000)
  {
    hide Upto;
    var ds := Fragments(msg, platformId, channelId, counter);
    assert Upto(msg, |ds|) == |msg|;
    PayloadsUpto(msg, platformId, channelId, counter, |ds|);
    assert ds[..|ds|] == ds;
    forall i | 0 <= i < |ds|
      ensures |ds[i].payload| <= TILE && (i + 1 < |ds| ==> |ds[i].payload| == TILE)
    {
      Bounds(msg, i);
    }
  }
}
