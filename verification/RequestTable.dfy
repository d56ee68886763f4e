/**
 Pending requests of a module (lib/ldp_request_response.c): one list of requests received
 and one of requests sent, whose IDs come from a single generator.
 */
module RequestTable {
  import opened Common
  import opened IntrusiveList

  datatype Connection = Module | LocalSocket | External

  /** ldp_req_received: a request whose answer must be sent. */
  datatype Received = Received(id: nat, connection: Connection, sequenceNum: nat, client: nat, opId: nat, clientReqId: nat, synchronous: bool)

  /** ldp_req_sent: a request whose answer is awaited. */
  datatype Sent = Sent(id: nat, connection: Connection, opId: nat, opIndex: nat, synchronous: bool, activating: bool, timeout: nat)

  /** Both lists, oldest request first, their capacities and the generator. */
  datatype Table = Table(received: seq<Received>, receivedSize: nat, sent: seq<Sent>, sentSize: nat, generator: nat)

  /** ECOA__uint32 increment. */
  function NextId(g: nat): nat {
    (g + 1) % 0x1_0000_0000
  }

  function AddReceived(t: Table, r: Received): Table {
    if |t.received| == t.receivedSize then t
    else t.(received := t.received + [r.(id := NextId(t.generator))], generator := NextId(t.generator))
  }

  function AddSent(t: Table, s: Sent): Table {
    if |t.sent| == t.sentSize then t
    else t.(sent := t.sent + [s.(id := NextId(t.generator))], generator := NextId(t.generator))
  }

  /** Newest of the first `n` requests received that has this ID: the search walks from the tail. */
  function FindReceived(r: seq<Received>, id: nat, n: nat): (k: Option<nat>)
    requires n <= |r|
    ensures k.Some? ==> k.value < n && r[k.value].id == id && forall j :: k.value < j < n ==> r[j].id != id
    ensures k.None? ==> forall j :: 0 <= j < n ==> r[j].id != id
  {
    if n == 0 then None else if r[n - 1].id == id then Some(n - 1) else FindReceived(r, id, n - 1)
  }

  function FindSent(s: seq<Sent>, id: nat, n: nat): (k: Option<nat>)
    requires n <= |s|
    ensures k.Some? ==> k.value < n && s[k.value].id == id && forall j :: k.value < j < n ==> s[j].id != id
    ensures k.None? ==> forall j :: 0 <= j < n ==> s[j].id != id
  {
    if n == 0 then None else if s[n - 1].id == id then Some(n - 1) else FindSent(s, id, n - 1)
  }

  function DropReceived(r: seq<Received>, id: nat): seq<Received> {
    var k := FindReceived(r, id, |r|);
    if k.None? then r else Without(r, k.value)
  }

  function DropSent(s: seq<Sent>, id: nat): seq<Sent> {
    var k := FindSent(s, id, |s|);
    if k.None? then s else Without(s, k.value)
  }

  lemma AddedReceived(t: Table, r: Received)
    ensures |t.received| == t.receivedSize ==> AddReceived(t, r) == t
    ensures |t.received| != t.receivedSize ==>
              var id := (t.generator + 1) % 0x1_0000_0000;
              && id == NextId(t.generator)
              && AddReceived(t, r) == t.(generator := id,
                                         received := t.received + [Received(id, r.connection, r.sequenceNum, r.client, r.opId, r.clientReqId, r.synchronous)])
              && r.(id := id) == Received(id, r.connection, r.sequenceNum, r.client, r.opId, r.clientReqId, r.synchronous)
  {
  }

  lemma AddedSent(t: Table, s: Sent)
    ensures |t.sent| == t.sentSize ==> AddSent(t, s) == t
    ensures |t.sent| != t.sentSize ==>
              var id := (t.generator + 1) % 0x1_0000_0000;
              && id == NextId(t.generator)
              && AddSent(t, s) == t.(generator := id,
                                     sent := t.sent + [Sent(id, s.connection, s.opId, s.opIndex, s.synchronous, s.activating, s.timeout)])
              && s.(id := id) == Sent(id, s.connection, s.opId, s.opIndex, s.synchronous, s.activating, s.timeout)
  {
  }

  /** A node is taken from the list and filled. */
  method AddNode<T(0)>(l: List<T>, value: T) returns (ok: bool)
    requires l.Valid()
    modifies l, l.prev, l.next, l.data
    ensures l.Valid() && ok == (|old(l.used)| < l.maxSize)
    ensures l.Contents() == if ok then old(l.Contents()) + [value] else old(l.Contents())
  {
    l.NodesOfContents();
    var node := l.AddLast();
    if node == NULL {
      return false;
    }
    LoadAppend(l.data[..], old(l.used), node, value);
    l.data[node] := value;
    return true;
  }

  /** ldp_find_req_received_no_MT on the list of requests received: the node found, or NULL. */
  method FindReceivedNode(l: List<Received>, id: nat) returns (node: int)
    requires l.Valid()
    ensures |l.Contents()| == |l.used|
    ensures var k := FindReceived(l.Contents(), id, |l.Contents()|);
            if k.None? then node == NULL else node == l.used[k.value] && node != NULL
    ensures node == NULL ==> forall j :: 0 <= j < |l.Contents()| ==> l.Contents()[j].id != id
    ensures node != NULL ==> exists k :: 0 <= k < |l.Contents()| && l.used[k] == node && l.Contents()[k].id == id
                                         && forall j :: k < j < |l.Contents()| ==> l.Contents()[j].id != id
  {
    ghost var u, c, p := l.used, l.Contents(), l.prev[..];
    l.NodesOfContents();
    assert PrevChain(p, l.usedTail, u);
    hide PrevChain, NextChain, Distinct, Apart, PrevOk, NextOk, Load;
    var current := l.usedTail;
    ghost var n := |u|;
    if n > 0 { PrevLink(p, current, u, n - 1); }
    assert current == (if n == 0 then NULL else u[n - 1]);
    while current != NULL
      invariant 0 <= n <= |u| && current == (if n == 0 then NULL else u[n - 1])
      invariant FindReceived(c, id, |c|) == FindReceived(c, id, n)
      decreases n
    {
      if l.data[current].id == id {
        return current;
      }
      PrevLink(p, l.usedTail, u, n - 1);
      current := l.prev[current];
      n := n - 1;
    }
    return NULL;
  }

  /** ldp_find_req_sent_no_MT on the list of requests sent: the node found, or NULL. */
  method FindSentNode(l: List<Sent>, id: nat) returns (node: int)
    requires l.Valid()
    ensures |l.Contents()| == |l.used|
    ensures var k := FindSent(l.Contents(), id, |l.Contents()|);
            if k.None? then node == NULL else node == l.used[k.value] && node != NULL
    ensures node == NULL ==> forall j :: 0 <= j < |l.Contents()| ==> l.Contents()[j].id != id
    ensures node != NULL ==> exists k :: 0 <= k < |l.Contents()| && l.used[k] == node && l.Contents()[k].id == id
                                         && forall j :: k < j < |l.Contents()| ==> l.Contents()[j].id != id
  {
    ghost var u, c, p := l.used, l.Contents(), l.prev[..];
    l.NodesOfContents();
    assert PrevChain(p, l.usedTail, u);
    hide PrevChain, NextChain, Distinct, Apart, PrevOk, NextOk, Load;
    var current := l.usedTail;
    ghost var n := |u|;
    if n > 0 { PrevLink(p, current, u, n - 1); }
    assert current == (if n == 0 then NULL else u[n - 1]);
    while current != NULL
      invariant 0 <= n <= |u| && current == (if n == 0 then NULL else u[n - 1])
      invariant FindSent(c, id, |c|) == FindSent(c, id, n)
      decreases n
    {
      if l.data[current].id == id {
        return current;
      }
      PrevLink(p, l.usedTail, u, n - 1);
      current := l.prev[current];
      n := n - 1;
    }
    return NULL;
  }

  /** ldp_find_and_clean on the list of requests received. */
  method FindAndCleanReceived(l: List<Received>, id: nat)
    requires l.Valid()
    modifies l, l.prev, l.next
    ensures l.Valid() && l.Contents() == DropReceived(old(l.Contents()), id)
  {
    ghost var k := FindReceived(l.Contents(), id, |l.Contents()|);
    var node := FindReceivedNode(l, id);
    if node != NULL {
      l.NodesOfContents();
      LoadWithout(l.data[..], l.used, k.value);
      hide PrevChain, NextChain, Distinct, Apart, PrevOk, NextOk;
      var _ := l.RemoveNode(node, k.value);
    }
  }

  /** ldp_find_and_clean on the list of requests sent. */
  method FindAndCleanSent(l: List<Sent>, id: nat)
    requires l.Valid()
    modifies l, l.prev, l.next
    ensures l.Valid() && l.Contents() == DropSent(old(l.Contents()), id)
  {
    ghost var k := FindSent(l.Contents(), id, |l.Contents()|);
    var node := FindSentNode(l, id);
    if node != NULL {
      l.NodesOfContents();
      LoadWithout(l.data[..], l.used, k.value);
      hide PrevChain, NextChain, Distinct, Apart, PrevOk, NextOk;
      var _ := l.RemoveNode(node, k.value);
    }
  }

  class RequestResponse {
    const received: List<Received>
    const sent: List<Sent>
    var idGenerator: nat

    ghost const Repr: set<object>

    ghost predicate Valid()
      reads this, Repr
    {
      && Repr == {this} + received.Repr() + sent.Repr() && received.Repr() !! sent.Repr()
      && received.Valid() && sent.Valid() && idGenerator < 0x1_0000_0000
    }

    ghost function View(): (t: Table)
      reads this, Repr
      requires Valid()
    {
      Table(received.Contents(), received.maxSize, sent.Contents(), sent.maxSize, idGenerator)
    }

    /** ldp_init_request_response */
    constructor (receivedSize: int, sentSize: int)
      ensures Valid() && fresh(Repr)
      ensures View() == Table([], if receivedSize < 2 then 2 else receivedSize, [], if sentSize < 2 then 2 else sentSize, 0x64)
    {
      idGenerator := 0x64;
      var r := new List<Received>(if receivedSize < 2 then 2 else receivedSize);
      var s := new List<Sent>(if sentSize < 2 then 2 else sentSize);
      received := r;
      sent := s;
      Repr := {this} + r.Repr() + s.Repr();
    }

    /** ldp_add_req_received; the ID of `request` is replaced by a generated one, when there is a node for it. */
    method AddRequestReceived(request: Received) returns (id: Option<nat>)
      requires Valid()
      modifies Repr
      ensures Valid() && View() == AddReceived(old(View()), request)
      ensures id == if |old(View()).received| == old(View()).receivedSize then None else Some(NextId(old(idGenerator)))
      ensures id.None? ==> |old(View()).received| == old(View()).receivedSize && View() == old(View())
      ensures id.Some? ==>
                var was := old(View());
                && |was.received| != was.receivedSize && id.value == (was.generator + 1) % 0x1_0000_0000
                && View() == was.(generator := id.value,
                                  received := was.received + [Received(id.value, request.connection, request.sequenceNum, request.client,
                                                                       request.opId, request.clientReqId, request.synchronous)])
    {
      hide AddReceived, NextId, PrevChain, NextChain, Distinct, Apart, PrevOk, NextOk, Load;
      AddedReceived(View(), request);
      var newId := (idGenerator + 1) % 0x1_0000_0000;
      var ok := AddNode(received, request.(id := newId));
      if !ok {
        return None;
      }
      idGenerator := newId;
      return Some(newId);
    }

    /** ldp_add_req_sent */
    method AddRequestSent(request: Sent) returns (id: Option<nat>)
      requires Valid()
      modifies Repr
      ensures Valid() && View() == AddSent(old(View()), request)
      ensures id == if |old(View()).sent| == old(View()).sentSize then None else Some(NextId(old(idGenerator)))
      ensures id.None? ==> |old(View()).sent| == old(View()).sentSize && View() == old(View())
      ensures id.Some? ==>
                var was := old(View());
                && |was.sent| != was.sentSize && id.value == (was.generator + 1) % 0x1_0000_0000
                && View() == was.(generator := id.value,
                                  sent := was.sent + [Sent(id.value, request.connection, request.opId, request.opIndex,
                                                           request.synchronous, request.activating, request.timeout)])
    {
      hide AddSent, NextId, PrevChain, NextChain, Distinct, Apart, PrevOk, NextOk, Load;
      AddedSent(View(), request);
      var newId := (idGenerator + 1) % 0x1_0000_0000;
      var ok := AddNode(sent, request.(id := newId));
      if !ok {
        return None;
      }
      idGenerator := newId;
      return Some(newId);
    }

    /** ldp_find_and_clean */
    method FindAndClean(id: nat, isSent: bool)
      requires Valid()
      modifies Repr
      ensures Valid()
      ensures var was := old(View());
              View() == if isSent then was.(sent := DropSent(was.sent, id)) else was.(received := DropReceived(was.received, id))
      ensures var (was, now) := (old(View()), View());
              isSent ==>
                && now == was.(sent := now.sent)
                && (|| (now.sent == was.sent && forall j :: 0 <= j < |was.sent| ==> was.sent[j].id != id)
                    || exists k :: 0 <= k < |was.sent| && was.sent[k].id == id && now.sent == was.sent[..k] + was.sent[k + 1..]
                                   && forall j :: k < j < |was.sent| ==> was.sent[j].id != id)
      ensures var (was, now) := (old(View()), View());
              !isSent ==>
                && now == was.(received := now.received)
                && (|| (now.received == was.received && forall j :: 0 <= j < |was.received| ==> was.received[j].id != id)
                    || exists k :: 0 <= k < |was.received| && was.received[k].id == id
                                   && now.received == was.received[..k] + was.received[k + 1..]
                                   && forall j :: k < j < |was.received| ==> was.received[j].id != id)
    {
      if isSent {
        FindAndCleanSent(sent, id);
      } else {
        FindAndCleanReceived(received, id);
      }
    }

    /** ldp_request_response_clean */
    method Clean()
      requires Valid()
      modifies Repr
      ensures Valid() && View() == old(View()).(received := [], sent := [])
    {
      received.Clean();
      sent.Clean();
    }
  }
}
