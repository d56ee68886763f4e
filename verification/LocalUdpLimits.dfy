/** Where the transport of lib/ldp_core_udp.c stops being one: sizes it cannot send, and duplicated packets. */
module LocalUdpLimits {
  import opened Common
  import opened LocalUdp

  // ----- the sending loop -----

  lemma TilesPositive(length: nat)
    ensures Tiles(length) == 0 <==> length == 0
  {
  }

  /**
   The exit test of the loop holds after some pass if and only if the number of tiles is not
   a multiple of 65536; an empty message has none.
   */
  lemma LoopEndsIff(length: nat)
    ensures (exists n :: Exits(length, n)) <==> Tiles(length) % 0x1_0000 != 0
  {
    PassCount(length, PacketNumber(length));
    if n :| Exits(length, n) { PassCount(length, n); }
    if Tiles(length) % 0x1_0000 != 0 { assert Exits(length, PacketNumber(length)); }
  }

  /** Pass `i` sends tile `i`. */
  predicate SendsTile(length: nat, i: nat) {
    Passes(length, i).start == Start(i) && Passes(length, i).start + Passes(length, i).size == TileEnd(length, i)
  }

  /** The loop ends after `n` passes, which have sent the tiles of the message, all of them. */
  predicate SendsAll(length: nat, n: nat) {
    Exits(length, n) && n == Tiles(length) && forall i :: 0 <= i < n ==> SendsTile(length, i)
  }

  /**
   The loop ends with the tiles of the message sent, each once, if and only if the message is
   not empty and has at most 65535 tiles. A longer one is cut short, if the loop ends at all.
   */
  lemma SentWholeIff(length: nat)
    ensures (exists n :: SendsAll(length, n)) <==> 0 < length && Tiles(length) <= 0xFFFF
    ensures Tiles(length) > 0xFFFF ==> forall n: nat :: Exits(length, n) ==> n < Tiles(length)
  {
    forall n | Exits(length, n) ensures n == PacketNumber(length) { PassCount(length, n); }
    if 0 < length && Tiles(length) <= 0xFFFF {
      var n := Tiles(length);
      PassCount(length, n);
      forall i | 0 <= i < n ensures SendsTile(length, i) { PassBounds(length, i); }
      assert SendsAll(length, n);
    }
  }

  // ----- duplicates -----

  predicate TileIndices(msg: Message, tiles: seq<nat>) {
    forall k :: 0 <= k < |tiles| ==> tiles[k] < Tiles(|msg|)
  }

  /** A buffer that takes packets of the message, in any order and with any repetition. */
  function InsertAll(b: Buffer, msg: Message, id: nat, m: nat, tiles: seq<nat>): (r: Buffer)
    requires |msg| <= |b.readMsg| && TileIndices(msg, tiles)
    ensures |r.readMsg| == |b.readMsg|
    decreases |tiles|
  {
    if tiles == [] then b
    else
      var n := |tiles| - 1;
      var before := InsertAll(b, msg, id, m, tiles[..n]);
      TileBounds(|msg|, tiles[n]);
      Inserted(before, Tile(msg, id, m, tiles[n]))
  }

  /** A buffer that a first packet of message `id` takes over. */
  predicate TakesOver(b: Buffer, id: nat, size: nat) {
    |b.readMsg| == size && (b.isFree || b.readMsgId < id)
  }

  /** Every packet is counted, and the first one takes the buffer over. */
  lemma {:induction false} Counted(b: Buffer, msg: Message, id: nat, m: nat, tiles: seq<nat>, size: nat)
    requires |msg| <= size && TakesOver(b, id, size) && TileIndices(msg, tiles) && tiles != []
    ensures var r := InsertAll(b, msg, id, m, tiles); !r.isFree && r.readMsgId == id && r.received == |tiles| && r.number == Tiles(|msg|)
    decreases |tiles|
  {
    hide Tiles, Overwrite, TileEnd;
    var n := |tiles| - 1;
    TileBounds(|msg|, tiles[n]);
    if n > 0 { Counted(b, msg, id, m, tiles[..n], size); } else { assert tiles[..n] == []; }
  }

  /** The tiles that came are the message's, the others are what the buffer held. */
  lemma {:induction false} Collected(b: Buffer, msg: Message, id: nat, m: nat, tiles: seq<nat>, size: nat, p: nat, i: nat)
    requires |msg| <= size && TakesOver(b, id, size) && TileIndices(msg, tiles) && p < |msg| && InTile(msg, p, i)
    ensures InsertAll(b, msg, id, m, tiles).readMsg[p] == if i in tiles then msg[p] else b.readMsg[p]
    decreases |tiles|
  {
    hide Tiles, TileEnd, Start;
    if tiles != [] {
      var n := |tiles| - 1;
      TileBounds(|msg|, tiles[n]);
      Collected(b, msg, id, m, tiles[..n], size, p, i);
      if n > 0 { Counted(b, msg, id, m, tiles[..n], size); } else { assert tiles[..n] == []; }
      assert i in tiles <==> i in tiles[..n] || i == tiles[n];
      SameTile(msg, p, i, tiles[n]);
    }
  }

  /** Byte `p` of the message is in tile `i`. */
  predicate InTile(msg: Message, p: nat, i: nat) {
    i < Tiles(|msg|) && Start(i) <= p < TileEnd(|msg|, i)
  }

  lemma SameTile(msg: Message, p: nat, i: nat, j: nat)
    requires InTile(msg, p, i) && j < Tiles(|msg|)
    ensures Start(j) <= p < TileEnd(|msg|, j) <==> i == j
  {
  }

  lemma TileOf(msg: Message, p: nat) returns (i: nat)
    requires p < |msg|
    ensures InTile(msg, p, i)
  {
    i := p / 512;
  }

  // ----- as many packets as tiles -----

  ghost function Below(n: nat): (s: set<nat>)
    ensures forall i: nat :: i in s <==> i < n
  {
    if n == 0 then {} else Below(n - 1) + {n - 1}
  }

  lemma {:induction false} BelowSize(n: nat)
    ensures |Below(n)| == n
  {
    if n > 0 {
      BelowSize(n - 1);
    }
  }

  ghost function Members(s: seq<nat>): set<nat> {
    set i | i in s
  }

  lemma {:induction false} MembersSize(s: seq<nat>)
    ensures |Members(s)| <= |s| && (|Members(s)| == |s| <==> Distinct(s))
  {
    if s == [] {
      assert Members(s) == {};
    } else {
      var n := |s| - 1;
      MembersSize(s[..n]);
      assert forall i :: i in s <==> i in s[..n] || i == s[n];
      assert Members(s) == Members(s[..n]) + {s[n]};
      assert s[n] in Members(s[..n]) <==> s[n] in s[..n];
      if Distinct(s) { assert s[n] !in s[..n]; }
    }
  }

  /** Among as many indices as there are tiles none repeats exactly when none is missing. */
  lemma AllOnceIff(tiles: seq<nat>)
    requires forall k :: 0 <= k < |tiles| ==> tiles[k] < |tiles|
    ensures Distinct(tiles) <==> forall i: nat :: i < |tiles| ==> i in tiles
  {
    MembersSize(tiles);
    BelowSize(|tiles|);
    assert Members(tiles) <= Below(|tiles|);
    if Distinct(tiles) {
      SameSize(Members(tiles), Below(|tiles|));
      forall i: nat | i < |tiles| ensures i in tiles {
        assert i in Members(tiles);
      }
    }
    if forall i: nat :: i < |tiles| ==> i in tiles {
      assert Members(tiles) == Below(|tiles|);
    }
  }

  lemma SameSize(a: set<nat>, b: set<nat>)
    requires a <= b && |a| == |b|
    ensures a == b
  {
    forall x | x in b ensures x in a {
      if x !in a { Smaller(a, b, x); }
    }
  }

  /**
   A buffer is complete once it has taken as many packets of a message as the message has
   tiles, whichever they were. It then holds the message, whatever it held before, if and
   only if none of the packets is a duplicate.
   */
  lemma DuplicatesIff(msg: Message, id: nat, m: nat, tiles: seq<nat>, size: nat)
    requires |msg| <= size && TileIndices(msg, tiles) && |tiles| == Tiles(|msg|)
    ensures forall b :: TakesOver(b, id, size) ==> Complete(InsertAll(b, msg, id, m, tiles))
    ensures (forall b :: TakesOver(b, id, size) ==> InsertAll(b, msg, id, m, tiles).readMsg[..|msg|] == msg) <==> Distinct(tiles)
  {
    TilesPositive(|msg|);
    AllOnceIff(tiles);
    forall b | TakesOver(b, id, size) ensures Complete(InsertAll(b, msg, id, m, tiles)) {
      Counted(b, msg, id, m, tiles, size);
    }
    if Distinct(tiles) {
      forall b | TakesOver(b, id, size) ensures InsertAll(b, msg, id, m, tiles).readMsg[..|msg|] == msg {
        forall p | 0 <= p < |msg| ensures InsertAll(b, msg, id, m, tiles).readMsg[p] == msg[p] {
          var i := TileOf(msg, p);
          Collected(b, msg, id, m, tiles, size, p, i);
        }
      }
    } else {
      var i: nat :| i < |tiles| && i !in tiles;
      MissingTile(msg, id, m, tiles, size, i);
    }
  }

  lemma MissingTile(msg: Message, id: nat, m: nat, tiles: seq<nat>, size: nat, i: nat)
    requires |msg| <= size && TileIndices(msg, tiles) && tiles != [] && i < Tiles(|msg|) && i !in tiles
    ensures exists b :: TakesOver(b, id, size) && InsertAll(b, msg, id, m, tiles).readMsg[..|msg|] != msg
  {
    TileBounds(|msg|, i);
    var p := Start(i);
    var other: Byte := if msg[p] == 0 then 1 else 0;
    var b := Buffer(seq(size, _ => other), 0, 0, 0, 0, true);
    assert InTile(msg, p, i);
    Collected(b, msg, id, m, tiles, size, p, i);
    assert InsertAll(b, msg, id, m, tiles).readMsg[..|msg|][p] == other;
  }

  // ----- duplicates over time -----

  /**
   Buffer `i` is the one of module `m`, or will be, and has taken `c` of the `n` packets after
   which it is complete. The server consumes a message as soon as it is complete.
   */
  ghost predicate Serving(bufs: seq<Buffer>, m: nat, id: nat, i: nat, c: nat, n: nat, size: nat) {
    && m != 0 && id != 0 && c < n && OwnBuffers(bufs) && Sized(bufs, size)
    && (forall j :: 0 <= j < |bufs| ==> !Complete(bufs[j]) && (bufs[j].moduleId == 0 ==> bufs[j].readMsgId == 0))
    && if c == 0 then Ready(bufs, m, id, i)
       else i < |bufs| && bufs[i].moduleId == m && !bufs[i].isFree && bufs[i].readMsgId == id && bufs[i].received == c && bufs[i].number == n
  }

  lemma ServeOne(bufs: seq<Buffer>, msg: Message, m: nat, id: nat, i: nat, c: nat, size: nat, t: nat)
    requires Serving(bufs, m, id, i, c, Tiles(|msg|), size) && |msg| <= size && t < Tiles(|msg|)
    ensures Start(t) + |Tile(msg, id, m, t).data| <= size
    ensures var (bufs', out) := Received(bufs, Tile(msg, id, m, t), size);
            && (out.Some? <==> c + 1 == Tiles(|msg|))
            && Serving(bufs', m, id, i, if c + 1 == Tiles(|msg|) then 0 else c + 1, Tiles(|msg|), size)
  {
    var n, p := Tiles(|msg|), Tile(msg, id, m, t);
    TileBounds(|msg|, t);
    PickFinds(bufs, m, 0, None);
    if c > 0 { PickAgain(bufs, m, i, 0, None); }
    var b := Inserted(Assigned(bufs[i], m), p);
    var next := bufs[i := b];
    assert b.received == c + 1 && b.number == n && b.moduleId == m && !b.isFree && b.readMsgId == id;
    assert forall j :: 0 <= j < |bufs| && j != i ==> next[j] == bufs[j] && bufs[j].moduleId != m;
    if c + 1 == n {
      assert Complete(next[i]);
      assert FirstComplete(next, 0) == Some(i);
      var freed := next[i := b.(isFree := true)];
      PickAgain(freed, m, i, 0, None);
    }
  }

  lemma Multiple(d: int, n: nat)
    ensures d >= 1 ==> d * n >= n
    ensures d <= -1 ==> d * n + n <= 0
  {
    if d <= -1 { assert (d + 1) * n <= 0; }
  }

  lemma Quotient(a: int, n: nat, q: int, r: nat)
    requires r < n && a == q * n + r
    ensures a % n == r
  {
    var d := a / n - q;
    assert a == (a / n) * n + a % n;
    assert d * n == r - a % n by { assert d * n == (a / n) * n - q * n; }
    Multiple(d, n);
    assert d == 0;
  }

  lemma Period(k: nat, n: nat)
    requires n > 0
    ensures (n + k) % n == k % n
  {
    var q, r := k / n, k % n;
    assert k == q * n + r;
    assert n + k == (q + 1) * n + r;
    Quotient(n + k, n, q + 1, r);
  }

  predicate IsTileOf(p: Packet, msg: Message, m: nat, id: nat) {
    exists t :: 0 <= t < Tiles(|msg|) && p == Tile(msg, id, m, t)
  }

  /** Packets of one message. */
  predicate Repeats(ps: seq<Packet>, msg: Message, m: nat, id: nat) {
    forall k :: 0 <= k < |ps| ==> IsTileOf(ps[k], msg, m, id)
  }

  lemma RepeatsFit(ps: seq<Packet>, msg: Message, m: nat, id: nat, size: nat)
    requires Repeats(ps, msg, m, id) && |msg| <= size
    ensures AllFit(ps, size)
  {
    forall k | 0 <= k < |ps| ensures ps[k].seqStart + |ps[k].data| <= size {
      assert IsTileOf(ps[k], msg, m, id);
      var t :| 0 <= t < Tiles(|msg|) && ps[k] == Tile(msg, id, m, t);
      TileBounds(|msg|, t);
    }
  }

  lemma {:induction false} ServeAll(bufs: seq<Buffer>, msg: Message, m: nat, id: nat, i: nat, c: nat, ps: seq<Packet>, size: nat, k: nat)
    requires Serving(bufs, m, id, i, c, Tiles(|msg|), size) && |msg| <= size && Repeats(ps, msg, m, id) && k < |ps| && AllFit(ps, size)
    ensures Outputs(bufs, ps, size)[k].Some? <==> (c + k + 1) % Tiles(|msg|) == 0
    decreases k
  {
    hide Received, Outputs, Serving, Tiles, Tile;
    var n := Tiles(|msg|);
    assert IsTileOf(ps[0], msg, m, id);
    var t: nat :| t < n && ps[0] == Tile(msg, id, m, t);
    ServeOne(bufs, msg, m, id, i, c, size, t);
    ServingCount(bufs, m, id, i, c, n, size);
    FirstOutput(bufs, ps, size);
    if k > 0 {
      RepeatsTail(ps, msg, m, id);
      OutputsTail(bufs, ps, size, k);
      ServeAll(Received(bufs, ps[0], size).0, msg, m, id, i, if c + 1 == n then 0 else c + 1, ps[1..], size, k - 1);
      NextRound(c, k, n);
    } else {
      Remainder(c + 1, n);
    }
  }

  lemma FirstOutput(bufs: seq<Buffer>, ps: seq<Packet>, size: nat)
    requires Sized(bufs, size) && AllFit(ps, size) && ps != []
    ensures Outputs(bufs, ps, size)[0] == Received(bufs, ps[0], size).1
  {
  }

  lemma ServingCount(bufs: seq<Buffer>, m: nat, id: nat, i: nat, c: nat, n: nat, size: nat)
    requires Serving(bufs, m, id, i, c, n, size)
    ensures c < n && Sized(bufs, size)
  {
  }

  lemma RepeatsTail(ps: seq<Packet>, msg: Message, m: nat, id: nat)
    requires Repeats(ps, msg, m, id) && ps != []
    ensures Repeats(ps[1..], msg, m, id)
  {
  }

  lemma NextRound(c: nat, k: nat, n: nat)
    requires c < n
    ensures ((if c + 1 == n then 0 else c + 1) + k) % n == (c + k + 1) % n
  {
    if c + 1 == n { Period(k, n); }
  }

  lemma Remainder(a: nat, n: nat)
    requires 0 < a <= n
    ensures a % n == 0 <==> a == n
  {
  }

  /**
   Packets of one message, in any order and with any repetition, reach a server that has not
   seen the module. It consumes a message on every packet whose number is a multiple of the
   number of tiles: once the first time, and once more whenever as many packets again have
   come. A message of one tile is consumed as often as it arrives.
   */
  lemma ConsumedAgainIff(bufs: seq<Buffer>, msg: Message, m: nat, id: nat, ps: seq<Packet>, sent: Traffic, size: nat, k: nat)
    requires LocalUdp.Untouched(bufs, sent, size) && bufs != [] && m != 0 && id != 0 && |msg| <= size
    requires Repeats(ps, msg, m, id) && k < |ps|
    ensures AllFit(ps, size)
    ensures Outputs(bufs, ps, size)[k].Some? <==> (k + 1) % Tiles(|msg|) == 0
  {
    hide Outputs, Received, Repeats, Serving, Tiles;
    RepeatsFit(ps, msg, m, id, size);
    ServingBegins(bufs, msg, m, id, sent, size);
    ServeAll(bufs, msg, m, id, 0, 0, ps, size, k);
  }

  lemma ServingBegins(bufs: seq<Buffer>, msg: Message, m: nat, id: nat, sent: Traffic, size: nat)
    requires LocalUdp.Untouched(bufs, sent, size) && bufs != [] && m != 0 && id != 0
    ensures Serving(bufs, m, id, 0, 0, Tiles(|msg|), size) && Tiles(|msg|) > 0
  {
    TilesPositive(|msg|);
    FirstIsPicked(bufs, m, 1);
  }
}
