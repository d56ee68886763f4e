/**
 Messages over a TCP stream (lib/tcp/ldp_tcp_comp_server.c, lib/tcp/ldp_tcp.c,
 lib/ldp_network.c): a 12-byte header, then the parameters, parsed out of a buffer that
 recv fills with chunks of any size.
 */
module StreamFraming {
  import opened Common
  import Words

  const HEADER_SIZE: nat := 12
  const ID_KILL: nat := 4

  datatype Frame = Frame(op: nat, params: seq<Byte>)

  /** The fields of the header are 32 bits wide. */
  predicate Encodable(fs: seq<Frame>) {
    forall i :: 0 <= i < |fs| ==> fs[i].op < 0x1_0000_0000 && |fs[i].params| < 0x1_0000_0000
  }

  /** ldp_written_IP_header */
  function Header(op: nat, paramSize: nat): (b: seq<Byte>)
    requires op < 0x1_0000_0000 && paramSize < 0x1_0000_0000
    ensures |b| == HEADER_SIZE
  {
    [0x0E, 0x0C, 0x00, 0x0A] + Words.ToBytes(paramSize) + Words.ToBytes(op)
  }

  function Encode(f: Frame): (b: seq<Byte>)
    requires f.op < 0x1_0000_0000 && |f.params| < 0x1_0000_0000
    ensures |b| == HEADER_SIZE + |f.params|
  {
    Header(f.op, |f.params|) + f.params
  }

  function EncodeAll(fs: seq<Frame>): seq<Byte>
    requires Encodable(fs)
  {
    if fs == [] then [] else Encode(fs[0]) + EncodeAll(fs[1..])
  }

  /** ldp_read_IP_header: the operation and the parameter size, when the magic and the size are right. */
  function ReadHeader(b: seq<Byte>, maximum: nat): (r: Option<(nat, nat)>)
    requires |b| == HEADER_SIZE
  {
    if b[..4] == [0x0E, 0x0C, 0x00, 0x0A] && Words.FromBytes(b[4..8]) <= maximum then
      Some((Words.FromBytes(b[8..12]), Words.FromBytes(b[4..8])))
    else None
  }

  lemma HeaderIsRead(op: nat, paramSize: nat, maximum: nat)
    requires op < 0x1_0000_0000 && paramSize < 0x1_0000_0000
    ensures ReadHeader(Header(op, paramSize), maximum) == if paramSize <= maximum then Some((op, paramSize)) else None
    ensures var b := Header(op, paramSize);
            && b[0] == 0x0E && b[1] == 0x0C && b[2] == 0x00 && b[3] == 0x0A
            && paramSize == b[4] as nat + b[5] as nat * 0x100 + b[6] as nat * 0x1_0000 + b[7] as nat * 0x100_0000
            && op == b[8] as nat + b[9] as nat * 0x100 + b[10] as nat * 0x1_0000 + b[11] as nat * 0x100_0000
  {
    var b := Header(op, paramSize);
    assert b[..4] == [0x0E, 0x0C, 0x00, 0x0A] && b[4..8] == Words.ToBytes(paramSize) && b[8..12] == Words.ToBytes(op);
    Words.RoundTrip(op);
    Words.RoundTrip(paramSize);
  }

  /**
   One past the last byte of the buffer that a message of `size` bytes occupies once
   ldp_complete_msg has completed it: it stays where it is if it is there already, and is
   moved to the start otherwise.
   */
  function Extent(offset: nat, bytesRead: nat, size: nat): nat
    requires offset <= bytesRead
  {
    if bytesRead - offset >= size then offset + size else size
  }

  /**
   The header test lets parameters as long as the whole buffer pass. Completing a message
   whose header was accepted writes beyond the buffer if and only if its parameters are
   longer than what the header leaves of it.
   */
  lemma AcceptedOverrunsIff(op: nat, paramSize: nat, length: nat, offset: nat, bytesRead: nat)
    requires op < 0x1_0000_0000 && paramSize < 0x1_0000_0000 && offset <= bytesRead <= length
    requires ReadHeader(Header(op, paramSize), length).Some?
    ensures Extent(offset, bytesRead, paramSize + HEADER_SIZE) > length <==> paramSize + HEADER_SIZE > length
    ensures paramSize <= length
  {
    HeaderIsRead(op, paramSize, length);
  }

  /**
   What becomes of a frame in a server with a buffer of `size` bytes: it is consumed, it is
   consumed and ends the connection, its header is refused, or it is accepted but completing
   it would write beyond the buffer.
   */
  datatype Fate = Consumed | Killed | Refused | Overrun

  function FateOf(f: Frame, size: nat): Fate {
    if |f.params| > size then Refused
    else if HEADER_SIZE + |f.params| > size then Overrun
    else if f.op == ID_KILL then Killed
    else Consumed
  }

  /** The frames a server consumes, up to the first that ends it. */
  function Delivered(fs: seq<Frame>, size: nat): seq<Frame> {
    if fs == [] then []
    else match FateOf(fs[0], size)
      case Consumed => [fs[0]] + Delivered(fs[1..], size)
      case Killed => [fs[0]]
      case _ => []
  }

  /** How it ends: with the first frame that is not just consumed. */
  function EndOf(fs: seq<Frame>, size: nat): Fate {
    if fs == [] then Consumed else if FateOf(fs[0], size) == Consumed then EndOf(fs[1..], size) else FateOf(fs[0], size)
  }

  predicate AllConsumed(fs: seq<Frame>, size: nat) {
    forall i :: 0 <= i < |fs| ==> FateOf(fs[i], size) == Consumed
  }

  /** After `k` frames that are just consumed. */
  lemma {:induction false} DeliveredAfter(fs: seq<Frame>, k: nat, size: nat)
    requires k <= |fs| && AllConsumed(fs[..k], size)
    ensures Delivered(fs, size) == fs[..k] + Delivered(fs[k..], size) && EndOf(fs, size) == EndOf(fs[k..], size)
  {
    if k == 0 {
      assert fs[0..] == fs;
    } else {
      assert fs[..k][0] == fs[0] && fs[1..][..k - 1] == fs[..k][1..] && fs[1..][k - 1..] == fs[k..];
      DeliveredAfter(fs[1..], k - 1, size);
      assert fs[..k] == [fs[0]] + fs[1..][..k - 1];
    }
  }

  /** What the stream begins with. */
  lemma FirstFrame(fs: seq<Frame>)
    requires Encodable(fs) && fs != []
    ensures Encodable(fs[1..])
    ensures var s, n := EncodeAll(fs), HEADER_SIZE + |fs[0].params|;
            && |s| >= n && s[..HEADER_SIZE] == Header(fs[0].op, |fs[0].params|)
            && s[HEADER_SIZE..n] == fs[0].params && s[n..] == EncodeAll(fs[1..])
  {
    assert Encode(fs[0])[..HEADER_SIZE] == Header(fs[0].op, |fs[0].params|);
  }

  class Connection {
    const buffer: array<Byte>
    /** What the peer has written and recv has not returned yet. */
    var stream: seq<Byte>
    /** The calls of domain_proc_consume_msg. */
    var consumed: seq<Frame>

    constructor (size: nat, stream: seq<Byte>)
      ensures fresh(buffer) && buffer.Length == size && this.stream == stream && consumed == []
    {
      buffer := new Byte[size](_ => 0);
      this.stream := stream;
      consumed := [];
    }

    /** recv returns between 1 and `len` of the bytes there are; nothing says how many. */
    method Recv(at: nat, len: nat) returns (n: nat)
      requires at + len <= buffer.Length && len > 0 && stream != []
      modifies this`stream, buffer
      ensures 1 <= n <= len && n <= |old(stream)|
      ensures buffer[at..at + n] == old(stream)[..n] && stream == old(stream)[n..]
      ensures forall i :: 0 <= i < buffer.Length && !(at <= i < at + n) ==> buffer[i] == old(buffer[i])
    {
      assert 1 <= 1 <= len && 1 <= |stream|;
      n :| 1 <= n <= len && n <= |stream|;
      for i := 0 to n
        invariant i <= n <= |stream| && forall k :: 0 <= k < i ==> buffer[at + k] == stream[k]
        invariant forall k :: 0 <= k < buffer.Length && !(at <= k < at + i) ==> buffer[k] == old(buffer[k])
        invariant stream == old(stream)
      {
        buffer[at + i] := stream[i];
      }
      stream := stream[n..];
    }

    /** ldp_IP_read_exactly */
    method ReadExactly(at: nat, len: nat)
      requires at + len <= buffer.Length && len <= |stream|
      modifies this`stream, buffer
      ensures buffer[at..at + len] == old(stream)[..len] && stream == old(stream)[len..]
      ensures forall i :: 0 <= i < buffer.Length && !(at <= i < at + len) ==> buffer[i] == old(buffer[i])
    {
      var missing := len;
      while missing != 0
        invariant 0 <= missing <= len && stream == old(stream)[len - missing..]
        invariant buffer[at..at + len - missing] == old(stream)[..len - missing]
        invariant forall i :: 0 <= i < buffer.Length && !(at <= i < at + len - missing) ==> buffer[i] == old(buffer[i])
        decreases missing
      {
        ghost var done, before := len - missing, buffer[at..at + len - missing];
        var n := Recv(at + len - missing, missing);
        missing := missing - n;
        assert buffer[at..at + done] == before;
        Joined(at, done, n);
        NextBytes(old(stream), done, n);
      }
    }

    lemma Joined(at: nat, done: nat, n: nat)
      requires at + done + n <= buffer.Length
      ensures buffer[at..at + done + n] == buffer[at..at + done] + buffer[at + done..at + done + n]
    {
    }

    lemma NextBytes(s: seq<Byte>, done: nat, n: nat)
      requires done + n <= |s|
      ensures s[..done] + s[done..][..n] == s[..done + n] && s[done..][n..] == s[done + n..]
    {
    }

    /** The bytes read and not parsed yet, and those still to come. */
    ghost function Pending(offset: nat, bytesRead: nat): seq<Byte>
      requires offset <= bytesRead <= buffer.Length
      reads this, buffer
    {
      buffer[offset..bytesRead] + stream
    }

    /**
     ldp_complete_msg: makes at least `size` bytes available at the returned offset. The code
     does not compare with the size of the buffer; where it would write beyond it, nothing is
     done here and `ok` is false.
     */
    method CompleteMsg(offset: nat, bytesRead: nat, size: nat) returns (ok: bool, offset': nat, bytesRead': nat)
      requires offset <= bytesRead <= buffer.Length && size <= |Pending(offset, bytesRead)|
      modifies this`stream, buffer
      ensures ok <==> Extent(offset, bytesRead, size) <= buffer.Length
      ensures ok <==> size <= bytesRead - offset || size <= buffer.Length
      ensures ok ==> (offset', bytesRead') == if size <= bytesRead - offset then (offset, bytesRead) else (0, size)
      ensures offset' <= bytesRead' <= buffer.Length
      ensures ok ==> bytesRead' - offset' >= size && offset' + size == Extent(offset, bytesRead, size)
      ensures Pending(offset', bytesRead') == old(Pending(offset, bytesRead))
      ensures |stream| <= |old(stream)|
    {
      var remaining := bytesRead - offset;
      if remaining >= size {
        return true, offset, bytesRead;
      }
      if size > buffer.Length {
        return false, offset, bytesRead;
      }
      ghost var was := buffer[offset..bytesRead];
      for i := 0 to remaining
        invariant forall k :: 0 <= k < i ==> buffer[k] == was[k]
        invariant forall k :: i <= k < remaining ==> buffer[offset + k] == was[k]
        invariant stream == old(stream)
      {
        buffer[i] := buffer[offset + i];
      }
      assert buffer[..remaining] == was;
      ReadExactly(remaining, size - remaining);
      assert buffer[..remaining] == was;
      assert buffer[..size] == buffer[..remaining] + buffer[remaining..size];
      Taken(was, old(stream), size - remaining);
      return true, 0, size;
    }

    lemma Taken(a: seq<Byte>, b: seq<Byte>, n: nat)
      requires n <= |b|
      ensures a + b[..n] + b[n..] == a + b
    {
    }

    /** The header of the first pending frame is completed and read; the frame stays pending. */
    method ParseHeader(offset: nat, bytesRead: nat, ghost fs: seq<Frame>) returns (offset': nat, bytesRead': nat, header: Option<(nat, nat)>)
      requires HEADER_SIZE <= buffer.Length && offset <= bytesRead <= buffer.Length && fs != [] && Encodable(fs)
      requires Pending(offset, bytesRead) == EncodeAll(fs)
      modifies this`stream, buffer
      ensures offset' <= bytesRead' <= buffer.Length && |stream| <= |old(stream)|
      ensures Pending(offset', bytesRead') == EncodeAll(fs)
      ensures header == if FateOf(fs[0], buffer.Length) == Refused then None else Some((fs[0].op, |fs[0].params|))
    {
      hide Encode, EncodeAll, ReadHeader, Header;
      FirstFrame(fs);
      HeaderIsRead(fs[0].op, |fs[0].params|, buffer.Length);
      ghost var all := EncodeAll(fs);
      var ok;
      ok, offset', bytesRead' := CompleteMsg(offset, bytesRead, HEADER_SIZE);
      Window(buffer[offset'..bytesRead'], stream, all, HEADER_SIZE);
      assert buffer[offset'..offset' + HEADER_SIZE] == buffer[offset'..bytesRead'][..HEADER_SIZE];
      header := ReadHeader(buffer[offset'..offset' + HEADER_SIZE], buffer.Length);
    }

    /** One pass of the parsing loop: the first pending frame meets its fate. */
    method ParseOne(offset: nat, bytesRead: nat, ghost fs: seq<Frame>) returns (offset': nat, bytesRead': nat, fate: Fate)
      requires HEADER_SIZE <= buffer.Length && offset <= bytesRead <= buffer.Length && fs != [] && Encodable(fs)
      requires Pending(offset, bytesRead) == EncodeAll(fs)
      modifies this, buffer
      ensures offset' <= bytesRead' <= buffer.Length && |stream| <= |old(stream)|
      ensures fate == FateOf(fs[0], buffer.Length)
      ensures consumed == old(consumed) + if fate == Consumed || fate == Killed then [fs[0]] else []
      ensures Encodable(fs[1..])
      ensures fate == Consumed || fate == Killed ==> Pending(offset', bytesRead') == EncodeAll(fs[1..])
    {
      hide Encode, EncodeAll, ReadHeader, Header;
      FirstFrame(fs);
      var header;
      offset', bytesRead', header := ParseHeader(offset, bytesRead, fs);
      if header.None? {
        return offset', bytesRead', Refused;
      }
      var op, paramSize := header.value.0, header.value.1;
      var ok;
      ok, offset', bytesRead' := CompleteMsg(offset', bytesRead', paramSize + HEADER_SIZE);
      if !ok {
        return offset', bytesRead', Overrun;
      }
      Consume(offset', bytesRead', op, paramSize, fs);
      fate := if op == ID_KILL then Killed else Consumed;
      offset' := offset' + paramSize;
      offset' := offset' + HEADER_SIZE;
    }

    /** domain_proc_consume_msg gets the first pending frame, which is complete. */
    method Consume(offset: nat, bytesRead: nat, op: nat, paramSize: nat, ghost fs: seq<Frame>)
      requires fs != [] && Encodable(fs) && op == fs[0].op && paramSize == |fs[0].params|
      requires offset + HEADER_SIZE + paramSize <= bytesRead <= buffer.Length && Pending(offset, bytesRead) == EncodeAll(fs)
      modifies this`consumed
      ensures consumed == old(consumed) + [fs[0]] && Encodable(fs[1..])
      ensures Pending(offset + HEADER_SIZE + paramSize, bytesRead) == EncodeAll(fs[1..])
    {
      hide Encode, EncodeAll, Header;
      ghost var n := HEADER_SIZE + paramSize;
      FrameTaken(buffer[offset..bytesRead], stream, fs);
      Slice(offset, bytesRead, HEADER_SIZE, n);
      Slice(offset, bytesRead, n, bytesRead - offset);
      consumed := consumed + [Frame(op, buffer[offset + HEADER_SIZE..offset + HEADER_SIZE + paramSize])];
    }

    lemma Slice(offset: nat, bytesRead: nat, a: nat, b: nat)
      requires a <= b && offset + b <= bytesRead <= buffer.Length
      ensures buffer[offset..bytesRead][a..b] == buffer[offset + a..offset + b]
    {
      forall k | 0 <= k < b - a ensures buffer[offset..bytesRead][a..b][k] == buffer[offset + a..offset + b][k] {
        assert buffer[offset..bytesRead][a + k] == buffer[offset + a + k];
      }
    }

    /** What the window and the stream agree on. */
    lemma Window(window: seq<Byte>, stream: seq<Byte>, all: seq<Byte>, n: nat)
      requires window + stream == all && n <= |window|
      ensures n <= |all| && window[..n] == all[..n] && window[n..] + stream == all[n..]
    {
    }

    /** The first frame in the window. */
    lemma FrameTaken(window: seq<Byte>, stream: seq<Byte>, fs: seq<Frame>)
      requires fs != [] && Encodable(fs) && window + stream == EncodeAll(fs) && HEADER_SIZE + |fs[0].params| <= |window|
      ensures var n := HEADER_SIZE + |fs[0].params|;
              window[HEADER_SIZE..n] == fs[0].params && Encodable(fs[1..]) && window[n..] + stream == EncodeAll(fs[1..])
    {
      hide Encode, EncodeAll, Header;
      var all, n := EncodeAll(fs), HEADER_SIZE + |fs[0].params|;
      FirstFrame(fs);
      Window(window, stream, all, n);
      assert window[HEADER_SIZE..n] == window[..n][HEADER_SIZE..] && all[HEADER_SIZE..n] == all[..n][HEADER_SIZE..];
    }

    /**
     TCP_read_and_parse_buffer. `fs` are the frames that begin in the buffer; `k` of them
     are just consumed, and unless the next one ends the connection the call ends on a frame
     boundary.
     */
    method ParseBuffer(bytesRead: nat, ghost fs: seq<Frame>) returns (fate: Fate, ghost k: nat)
      requires HEADER_SIZE <= buffer.Length && bytesRead <= buffer.Length && Encodable(fs) && Pending(0, bytesRead) == EncodeAll(fs)
      modifies this, buffer
      ensures k <= |fs| && AllConsumed(fs[..k], buffer.Length) && |stream| <= |old(stream)|
      ensures fate == Consumed ==> Encodable(fs[k..]) && stream == EncodeAll(fs[k..]) && consumed == old(consumed) + fs[..k]
      ensures fate != Consumed ==>
                && k < |fs| && fate == FateOf(fs[k], buffer.Length)
                && consumed == old(consumed) + fs[..k] + if fate == Killed then [fs[k]] else []
    {
      hide Encode, EncodeAll, ReadHeader, Header, FateOf;
      var offset: nat, bytes: nat := 0, bytesRead;
      k := 0;
      assert fs[0..] == fs;
      while offset < bytes
        invariant offset <= bytes <= buffer.Length && k <= |fs| && |stream| <= |old(stream)|
        invariant Encodable(fs[k..]) && Pending(offset, bytes) == EncodeAll(fs[k..])
        invariant consumed == old(consumed) + fs[..k] && AllConsumed(fs[..k], buffer.Length)
        decreases |fs| - k
      {
        SomeFrame(fs[k..]);
        assert |Pending(offset, bytes)| > 0;
        offset, bytes, fate := ParseOne(offset, bytes, fs[k..]);
        if fate != Consumed {
          return fate, k;
        }
        assert fs[k..][1..] == fs[k + 1..] && fs[..k + 1] == fs[..k] + [fs[k]];
        k := k + 1;
      }
      assert Pending(offset, bytes) == stream;
      fate := Consumed;
    }

    lemma SomeFrame(fs: seq<Frame>)
      requires Encodable(fs)
      ensures EncodeAll(fs) != [] <==> fs != []
    {
    }

    /**
     The server loop on one connection: whatever the sizes recv returns, the messages
     consumed are the frames written, in order, up to the first that ends it: a KILL, which
     is consumed, a frame whose header is refused, or one that would overrun the buffer.
     */
    method Serve(ghost fs: seq<Frame>) returns (end: Fate, ghost k: nat)
      requires HEADER_SIZE <= buffer.Length && Encodable(fs) && stream == EncodeAll(fs)
      modifies this, buffer
      ensures consumed == old(consumed) + Delivered(fs, buffer.Length) && end == EndOf(fs, buffer.Length)
      ensures k <= |fs| && forall i :: 0 <= i < k ==> 12 + |fs[i].params| <= buffer.Length && fs[i].op != 4
      ensures k == |fs| ==> consumed == old(consumed) + fs && end == Consumed
      ensures k < |fs| ==>
                && (|fs[k].params| > buffer.Length ==> consumed == old(consumed) + fs[..k] && end == Refused)
                && (|fs[k].params| <= buffer.Length < 12 + |fs[k].params| ==> consumed == old(consumed) + fs[..k] && end == Overrun)
                && (12 + |fs[k].params| <= buffer.Length ==>
                      fs[k].op == 4 && consumed == old(consumed) + fs[..k + 1] && end == Killed)
    {
      hide EncodeAll, Encode, Delivered, EndOf, FateOf, AllConsumed, Encodable;
      k := 0;
      assert fs[0..] == fs;
      NothingYet(buffer.Length);
      end := Consumed;
      while stream != []
        invariant k <= |fs| && AllConsumed(fs[..k], buffer.Length) && consumed == old(consumed) + fs[..k] && end == Consumed
        invariant Encodable(fs[k..]) && stream == EncodeAll(fs[k..])
        decreases |stream|
      {
        ghost var before := stream;
        var n := Recv(0, buffer.Length);
        assert Pending(0, n) == before;
        ghost var rest := fs[k..];
        ghost var j;
        end, j := ParseBuffer(n, rest);
        assert fs[..k + j] == fs[..k] + rest[..j] && rest[j..] == fs[k + j..];
        BothConsumed(fs[..k], rest[..j], buffer.Length);
        k := k + j;
        if end != Consumed {
          assert fs[k..][0] == rest[j] == fs[k];
          DeliveredAfter(fs, k, buffer.Length);
          Ends(fs[k..], buffer.Length);
          FatesAt(fs, k, buffer.Length);
          assert fs[..k + 1] == fs[..k] + [fs[k]];
          return;
        }
      }
      SomeFrame(fs[k..]);
      assert fs[..k] == fs;
      FatesAt(fs, k, buffer.Length);
      DeliveredAfter(fs, k, buffer.Length);
      assert Delivered(fs[k..], buffer.Length) == [] && EndOf(fs[k..], buffer.Length) == Consumed by { NothingMore(buffer.Length); }
    }
  }

  lemma Ends(fs: seq<Frame>, size: nat)
    requires fs != [] && FateOf(fs[0], size) != Consumed
    ensures Delivered(fs, size) == (if FateOf(fs[0], size) == Killed then [fs[0]] else []) && EndOf(fs, size) == FateOf(fs[0], size)
  {
  }

  /** In terms of sizes and operations: what came before place `k`, and what is there. */
  lemma FatesAt(fs: seq<Frame>, k: nat, size: nat)
    requires k <= |fs| && AllConsumed(fs[..k], size)
    ensures forall i :: 0 <= i < k ==> 12 + |fs[i].params| <= size && fs[i].op != 4
    ensures k < |fs| ==>
              && (FateOf(fs[k], size) == Refused <==> |fs[k].params| > size)
              && (FateOf(fs[k], size) == Overrun <==> |fs[k].params| <= size < 12 + |fs[k].params|)
              && (FateOf(fs[k], size) == Killed <==> 12 + |fs[k].params| <= size && fs[k].op == 4)
              && (FateOf(fs[k], size) == Consumed <==> 12 + |fs[k].params| <= size && fs[k].op != 4)
  {
    forall i | 0 <= i < k ensures 12 + |fs[i].params| <= size && fs[i].op != 4 { assert fs[..k][i] == fs[i]; }
  }

  lemma NothingYet(size: nat)
    ensures AllConsumed([], size)
  {
  }

  lemma BothConsumed(a: seq<Frame>, b: seq<Frame>, size: nat)
    requires AllConsumed(a, size) && AllConsumed(b, size)
    ensures AllConsumed(a + b, size)
  {
  }

  lemma NothingMore(size: nat)
    ensures Delivered([], size) == [] && EndOf([], size) == Consumed
  {
  }
}
