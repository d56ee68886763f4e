/**
 The bounded list of lib/ldp_list.c: an array of nodes threaded by `prev` and `next` into
 a used chain and an unused chain, each known by its tail.
 */
module IntrusiveList {
  import opened Common

  /** Node links are indices of the node array; NULL is -1. */
  const NULL: int := -1

  /** The `prev` link of the `k`-th node of chain `c`. */
  ghost predicate PrevOk(prev: seq<int>, c: seq<int>, k: nat) {
    k < |c| && 0 <= c[k] < |prev| && prev[c[k]] == if k == 0 then NULL else c[k - 1]
  }

  ghost predicate NextOk(next: seq<int>, c: seq<int>, k: nat) {
    k < |c| && 0 <= c[k] < |next| && next[c[k]] == if k == |c| - 1 then NULL else c[k + 1]
  }

  /** Walking `prev` from `tail` meets the nodes of `c` from last to first. */
  ghost predicate PrevChain(prev: seq<int>, tail: int, c: seq<int>) {
    && tail == (if c == [] then NULL else c[|c| - 1])
    && forall k :: 0 <= k < |c| ==> PrevOk(prev, c, k)
  }

  ghost predicate NextChain(next: seq<int>, c: seq<int>) {
    forall k :: 0 <= k < |c| ==> NextOk(next, c, k)
  }

  ghost predicate Apart(c: seq<int>, d: seq<int>) {
    forall j, k :: 0 <= j < |c| && 0 <= k < |d| ==> c[j] != d[k]
  }

  /** `c` without its `k`-th node. */
  function Without<T>(c: seq<T>, k: nat): (r: seq<T>)
    requires k < |c|
    ensures |r| == |c| - 1
    ensures forall j :: 0 <= j < |r| ==> r[j] == if j < k then c[j] else c[j + 1]
  {
    c[..k] + c[k + 1..]
  }

  function Reversed<T>(c: seq<T>): (r: seq<T>)
    ensures |r| == |c|
  {
    if c == [] then [] else [c[|c| - 1]] + Reversed(c[..|c| - 1])
  }

  // ----- link surgery -----

  lemma PrevLink(prev: seq<int>, tail: int, c: seq<int>, k: nat)
    requires PrevChain(prev, tail, c) && k < |c|
    ensures 0 <= c[k] < |prev| && prev[c[k]] == if k == 0 then NULL else c[k - 1]
    ensures prev[c[k]] == NULL <==> k == 0
  {
    assert PrevOk(prev, c, k);
    if k > 0 { assert PrevOk(prev, c, k - 1); }
  }

  lemma NodesInRange(prev: seq<int>, tail: int, c: seq<int>)
    requires PrevChain(prev, tail, c)
    ensures InBounds(c, |prev|)
  {
    forall k | 0 <= k < |c| ensures 0 <= c[k] < |prev| {
      PrevLink(prev, tail, c, k);
    }
  }

  lemma PrevAppend(prev: seq<int>, tail: int, c: seq<int>, node: int)
    requires PrevChain(prev, tail, c) && 0 <= node < |prev| && node !in c
    ensures PrevChain(prev[node := tail], node, c + [node])
  {
    var p, d := prev[node := tail], c + [node];
    forall k | 0 <= k < |d| ensures PrevOk(p, d, k) {
      if k < |c| { assert PrevOk(prev, c, k); }
    }
  }

  lemma NextAppend(next: seq<int>, c: seq<int>, node: int)
    requires NextChain(next, c) && 0 <= node < |next| && node !in c && Distinct(c)
    ensures c != [] ==> 0 <= c[|c| - 1] < |next|
    ensures var linked := if c == [] then next else next[c[|c| - 1] := node];
            NextChain(linked[node := NULL], c + [node])
  {
    if c != [] { assert NextOk(next, c, |c| - 1); }
    var linked := (if c == [] then next else next[c[|c| - 1] := node])[node := NULL];
    var d := c + [node];
    forall k | 0 <= k < |d| ensures NextOk(linked, d, k) {
      if k < |c| { assert NextOk(next, c, k); }
    }
  }

  lemma PrevDropLast(prev: seq<int>, tail: int, c: seq<int>)
    requires PrevChain(prev, tail, c) && c != []
    ensures 0 <= tail < |prev| && PrevChain(prev, prev[tail], c[..|c| - 1])
  {
    PrevLink(prev, tail, c, |c| - 1);
    var d := c[..|c| - 1];
    forall k | 0 <= k < |d| ensures PrevOk(prev, d, k) {
      assert PrevOk(prev, c, k);
    }
  }

  lemma PrevUntouched(prev: seq<int>, tail: int, c: seq<int>, node: int, link: int)
    requires PrevChain(prev, tail, c) && 0 <= node < |prev| && node !in c
    ensures PrevChain(prev[node := link], tail, c)
  {
    var p := prev[node := link];
    forall k | 0 <= k < |c| ensures PrevOk(p, c, k) {
      assert PrevOk(prev, c, k);
    }
  }

  lemma NextUntouched(next: seq<int>, c: seq<int>, node: int, link: int)
    requires NextChain(next, c) && 0 <= node < |next| && node !in c
    ensures NextChain(next[node := link], c)
  {
    var n := next[node := link];
    forall k | 0 <= k < |c| ensures NextOk(n, c, k) {
      assert NextOk(next, c, k);
    }
  }

  lemma PrevUnlink(prev: seq<int>, tail: int, c: seq<int>, k: nat)
    requires PrevChain(prev, tail, c) && Distinct(c) && k < |c| - 1
    ensures 0 <= c[k + 1] < |prev| && 0 <= c[k] < |prev| && tail != c[k]
    ensures PrevChain(prev[c[k + 1] := prev[c[k]]], tail, Without(c, k))
  {
    assert PrevOk(prev, c, k) && PrevOk(prev, c, k + 1);
    var d, p := Without(c, k), prev[c[k + 1] := prev[c[k]]];
    forall j | 0 <= j < |d| ensures PrevOk(p, d, j) {
      var i := if j < k then j else j + 1;
      assert PrevOk(prev, c, i);
      assert i != k + 1 ==> c[i] != c[k + 1];
    }
  }

  lemma NextUnlink(next: seq<int>, c: seq<int>, k: nat)
    requires NextChain(next, c) && Distinct(c) && k < |c|
    ensures 0 <= c[k] < |next| && next[c[k]] == if k == |c| - 1 then NULL else c[k + 1]
    ensures k > 0 ==> 0 <= c[k - 1] < |next|
    ensures NextChain(if k == 0 then next else next[c[k - 1] := next[c[k]]], Without(c, k))
  {
    assert NextOk(next, c, k);
    if k > 0 { assert NextOk(next, c, k - 1); }
    var d := Without(c, k);
    var n := if k == 0 then next else next[c[k - 1] := next[c[k]]];
    forall j | 0 <= j < |d| ensures NextOk(n, d, j) {
      var i := if j < k then j else j + 1;
      assert NextOk(next, c, i);
      assert k > 0 && i != k - 1 ==> c[i] != c[k - 1];
    }
  }

  lemma WithoutKeeps(c: seq<int>, d: seq<int>, k: nat)
    requires Distinct(c) && Distinct(d) && Apart(c, d) && k < |c|
    ensures Distinct(Without(c, k)) && Distinct(d + [c[k]]) && Apart(Without(c, k), d + [c[k]])
    ensures c[k] !in Without(c, k) && c[k] !in d
  {
  }

  lemma MoveKeeps(c: seq<int>, d: seq<int>)
    requires Distinct(c) && Distinct(d) && Apart(c, d) && d != []
    ensures var node, rest := d[|d| - 1], d[..|d| - 1];
            && Distinct(c + [node]) && Distinct(rest) && Apart(c + [node], rest)
            && node !in c && node !in rest && (rest != [] ==> rest[|rest| - 1] !in c)
  {
  }

  /** The links after ldp_add_last has moved the last unused node to the end of the used chain. */
  lemma LinkLast(p: seq<int>, n: seq<int>, tail: int, unusedTail: int, c: seq<int>, d: seq<int>)
    requires PrevChain(p, tail, c) && NextChain(n, c) && PrevChain(p, unusedTail, d) && |p| == |n| && d != []
    requires Distinct(c) && Distinct(d) && Apart(c, d)
    ensures 0 <= unusedTail < |p| && -1 <= p[unusedTail] < |p| && -1 <= tail < |p|
    ensures var node, rest := unusedTail, d[..|d| - 1];
            var p1 := p[node := tail];
            var n0 := if p[node] != NULL then n[p[node] := NULL] else n;
            var n1 := (if tail != NULL then n0[tail := node] else n0)[node := NULL];
            && node == d[|d| - 1] && PrevChain(p1, node, c + [node]) && NextChain(n1, c + [node]) && PrevChain(p1, p[node], rest)
            && Distinct(c + [node]) && Distinct(rest) && Apart(c + [node], rest)
  {
    var node, rest := unusedTail, d[..|d| - 1];
    PrevDropLast(p, unusedTail, d);
    MoveKeeps(c, d);
    PrevLink(p, unusedTail, d, |d| - 1);
    if |d| > 1 { PrevLink(p, unusedTail, d, |d| - 2); }
    if c != [] { PrevLink(p, tail, c, |c| - 1); }
    assert tail == NULL <==> c == [];
    if p[node] != NULL {
      NextUntouched(n, c, p[node], NULL);
    }
    hide PrevChain, NextChain, Distinct;
    NextAppend(if p[node] != NULL then n[p[node] := NULL] else n, c, node);
    PrevAppend(p, tail, c, node);
    PrevUntouched(p, p[node], rest, node, tail);
  }

  /** The links after ldp_remove_node has taken the `k`-th used node and filed it as unused. */
  lemma UnlinkBoth(p: seq<int>, n: seq<int>, tail: int, unusedTail: int, c: seq<int>, d: seq<int>, k: nat)
    requires PrevChain(p, tail, c) && NextChain(n, c) && PrevChain(p, unusedTail, d) && |p| == |n| && k < |c|
    requires Distinct(c) && Distinct(d) && Apart(c, d)
    ensures 0 <= c[k] < |p| && -1 <= p[c[k]] < |p| && -1 <= n[c[k]] < |p|
    ensures var node := c[k];
            var p1 := (if n[node] != NULL then p[n[node] := p[node]] else p)[node := unusedTail];
            var n1 := (if p[node] != NULL then n[p[node] := n[node]] else n)[node := NULL];
            && PrevChain(p1, if node == tail then p[node] else tail, Without(c, k))
            && NextChain(n1, Without(c, k))
            && PrevChain(p1, node, d + [node])
            && Distinct(Without(c, k)) && Distinct(d + [node]) && Apart(Without(c, k), d + [node])
  {
    var node, w := c[k], Without(c, k);
    PrevLink(p, tail, c, k);
    if k > 0 { PrevLink(p, tail, c, k - 1); }
    if k < |c| - 1 { PrevLink(p, tail, c, k + 1); }
    NextUnlink(n, c, k);
    WithoutKeeps(c, d, k);
    var newTail := if node == tail then p[node] else tail;
    var p0 := if n[node] != NULL then p[n[node] := p[node]] else p;
    var n0 := if p[node] != NULL then n[p[node] := n[node]] else n;
    if k < |c| - 1 {
      PrevUnlink(p, tail, c, k);
      PrevUntouched(p, unusedTail, d, c[k + 1], p[node]);
    } else {
      PrevDropLast(p, tail, c);
      assert w == c[..|c| - 1];
    }
    hide PrevChain, NextChain, Distinct, Apart;
    PrevUntouched(p0, newTail, w, node, unusedTail);
    NextUntouched(n0, w, node, NULL);
    PrevAppend(p0, unusedTail, d, node);
  }

  ghost predicate InBounds(c: seq<int>, n: nat) {
    forall k :: 0 <= k < |c| ==> 0 <= c[k] < n
  }

  /** The data at the nodes `c`. */
  ghost function Load<T>(data: seq<T>, c: seq<int>): (s: seq<T>)
    requires InBounds(c, |data|)
    ensures |s| == |c| && forall k :: 0 <= k < |c| ==> s[k] == data[c[k]]
  {
    seq(|c|, k requires 0 <= k < |c| => data[c[k]])
  }

  lemma LoadAppend<T>(data: seq<T>, c: seq<int>, node: int, v: T)
    requires InBounds(c, |data|) && 0 <= node < |data| && node !in c
    ensures InBounds(c + [node], |data|) && Load(data[node := v], c + [node]) == Load(data, c) + [v]
  {
  }

  lemma LoadWithout<T>(data: seq<T>, c: seq<int>, k: nat)
    requires InBounds(c, |data|) && k < |c|
    ensures InBounds(Without(c, k), |data|) && Load(data, Without(c, k)) == Without(Load(data, c), k)
  {
  }

  class List<T(0)> {
    const maxSize: nat
    const prev: array<int>
    const next: array<int>
    const data: array<T>
    var currentSize: nat
    var usedTail: int
    var unusedTail: int
    /** The nodes in use, oldest first. */
    ghost var used: seq<int>
    /** The nodes not in use; `unusedTail` is the last. */
    ghost var unused: seq<int>

    ghost function Repr(): set<object> {
      {this, prev, next, data}
    }

    /**
     The used chain is linked both ways. The unused chain is linked by `prev` only: its
     `next` links may be stale.
     */
    ghost predicate Valid()
      reads this, prev, next
    {
      && prev != next && (data as object) !in {prev, next} && prev.Length == next.Length == data.Length == maxSize >= 2
      && PrevChain(prev[..], usedTail, used) && NextChain(next[..], used)
      && PrevChain(prev[..], unusedTail, unused)
      && Distinct(used) && Distinct(unused) && Apart(used, unused)
      && currentSize == |used| && |used| + |unused| == maxSize
    }

    /** What the used nodes hold, oldest first. */
    ghost function Contents(): (s: seq<T>)
      reads this, prev, next, data
      requires Valid()
    {
      NodesInRange(prev[..], usedTail, used);
      Load(data[..], used)
    }

    lemma NodesOfContents()
      requires Valid()
      ensures InBounds(used, data.Length) && InBounds(used, prev.Length) && |Contents()| == |used|
      ensures forall k :: 0 <= k < |used| ==> Contents()[k] == data[used[k]]
    {
      NodesInRange(prev[..], usedTail, used);
    }

    /** ldp_init_list */
    constructor (size: int)
      ensures Valid() && fresh(prev) && fresh(next) && fresh(data)
      ensures maxSize == (if size <= 1 then 2 else size) && used == []
    {
      var n := if size <= 1 then 2 else size;
      maxSize := n;
      prev := new int[n];
      next := new int[n];
      data := new T[n];
      currentSize := 0;
      usedTail := NULL;
      unusedTail := n - 1;
      used := [];
      unused := seq(n, i => i);
      new;
      prev[0] := NULL;
      next[0] := 1;
      for i := 1 to n - 1
        modifies prev, next
        invariant prev[0] == NULL && forall k :: 1 <= k < i ==> prev[k] == k - 1
      {
        prev[i] := i - 1;
        next[i] := i + 1;
      }
      prev[n - 1] := n - 2;
      next[n - 1] := NULL;
    }

    /** ldp_add_last: the node that becomes the newest, or NULL when all nodes are used. */
    method AddLast() returns (node: int)
      requires Valid()
      modifies this, prev, next
      ensures Valid()
      ensures node == NULL <==> |old(used)| == maxSize
      ensures node == NULL ==> used == old(used) && unused == old(unused)
      ensures node != NULL ==> 0 <= node < data.Length && node in old(unused) && node !in old(used)
      ensures node != NULL ==> used == old(used) + [node] && unused + [node] == old(unused)
    {
      if unused != [] { PrevLink(prev[..], unusedTail, unused, |unused| - 1); }
      if currentSize == maxSize || unusedTail == NULL {
        return NULL;
      }
      LinkLast(prev[..], next[..], usedTail, unusedTail, used, unused);
      hide PrevChain, NextChain, Distinct, Apart;
      currentSize := currentSize + 1;
      node := unusedTail;
      unusedTail := prev[unusedTail];
      if unusedTail != NULL {
        next[unusedTail] := NULL;
      }
      if usedTail != NULL {
        next[usedTail] := node;
      }
      prev[node] := usedTail;
      next[node] := NULL;
      usedTail := node;
      used := used + [node];
      unused := unused[..|unused| - 1];
    }

    /** ldp_remove_node on the `k`-th oldest used node. */
    method RemoveNode(node: int, ghost k: nat) returns (ok: bool)
      requires Valid() && (used != [] ==> k < |used| && used[k] == node)
      modifies this, prev, next
      ensures Valid() && ok == (old(used) != [])
      ensures !ok ==> used == [] && unused == old(unused)
      ensures ok ==> used == Without(old(used), k) && unused == old(unused) + [node]
    {
      if currentSize == 0 {
        return false;
      }
      ghost var p, n, d := prev[..], next[..], Without(used, k);
      UnlinkBoth(p, n, usedTail, unusedTail, used, unused, k);
      hide PrevChain, NextChain, Distinct, Apart;
      if node == usedTail {
        usedTail := prev[node];
      }
      if next[node] != NULL {
        prev[next[node]] := prev[node];
      }
      if prev[node] != NULL {
        next[prev[node]] := next[node];
      }
      prev[node] := unusedTail;
      next[node] := NULL;
      unusedTail := node;
      currentSize := currentSize - 1;
      used := d;
      unused := unused + [node];
      return true;
    }

    /** ldp_remove_first_node: takes the oldest node, found by walking `prev` from the tail. */
    method RemoveFirst() returns (node: int)
      requires Valid()
      modifies this, prev, next
      ensures Valid() && (node == NULL <==> old(used) == [])
      ensures node == NULL ==> used == [] && unused == old(unused)
      ensures node != NULL ==> node == old(used)[0] && used == old(used)[1..] && unused == old(unused) + [node]
    {
      if used != [] { PrevLink(prev[..], usedTail, used, |used| - 1); }
      if currentSize == 0 || usedTail == NULL {
        return NULL;
      }
      node := usedTail;
      ghost var p, k := prev[..], |used| - 1;
      PrevLink(p, usedTail, used, k);
      while prev[node] != NULL
        invariant Valid() && used == old(used) && unused == old(unused) && prev[..] == p
        invariant 0 <= k < |used| && node == used[k] && 0 <= node < prev.Length
        decreases k
      {
        PrevLink(p, usedTail, used, k);
        node := prev[node];
        k := k - 1;
        PrevLink(p, usedTail, used, k);
      }
      PrevLink(p, usedTail, used, k);
      var _ := RemoveNode(node, 0);
    }

    /** ldp_clean_list: ends, with every node unused. */
    method Clean()
      requires Valid()
      modifies this, prev, next
      ensures Valid() && used == [] && unused == old(unused) + Reversed(old(used))
    {
      while usedTail != NULL
        invariant Valid() && |used| <= |old(used)| && used == old(used)[..|used|]
        invariant unused + Reversed(used) == old(unused) + Reversed(old(used))
        decreases |used|
      {
        ghost var was := used;
        PrevLink(prev[..], usedTail, used, |used| - 1);
        var _ := RemoveNode(usedTail, |used| - 1);
        assert used == was[..|was| - 1];
        assert Reversed(was) == [was[|was| - 1]] + Reversed(used);
      }
      if used != [] { PrevLink(prev[..], usedTail, used, |used| - 1); }
    }
  }

  /** The two chains of a valid list hold every node of the array, each once. */
  lemma ChainsPartitionTheNodes<T(0)>(l: List<T>, node: int)
    requires l.Valid() && 0 <= node < l.maxSize
    ensures (node in l.used) != (node in l.unused)
  {
    NodesInRange(l.prev[..], l.usedTail, l.used);
    NodesInRange(l.prev[..], l.unusedTail, l.unused);
    if node !in l.used && node !in l.unused {
      Pigeonhole(l.used + l.unused, l.maxSize, node);
    }
  }

  lemma WithoutTop(c: seq<int>, n: nat, k: nat)
    requires Distinct(c) && (forall j :: 0 <= j < |c| ==> 0 <= c[j] < n) && k < |c| && c[k] == n - 1
    ensures Distinct(Without(c, k)) && forall j :: 0 <= j < |c| - 1 ==> 0 <= Without(c, k)[j] < n - 1
  {
    forall j | 0 <= j < |c| - 1 ensures 0 <= Without(c, k)[j] < n - 1 {
      var i := if j < k then j else j + 1;
      assert c[i] != c[k];
    }
  }

  /** Distinct nodes below `n` that leave one out are fewer than `n`. */
  lemma {:induction false} Pigeonhole(c: seq<int>, n: nat, missing: int)
    requires Distinct(c) && forall k :: 0 <= k < |c| ==> 0 <= c[k] < n && c[k] != missing
    requires 0 <= missing < n
    ensures |c| < n
  {
    if n - 1 == missing {
      InRange(c, n - 1);
    } else if n - 1 in c {
      var k :| 0 <= k < |c| && c[k] == n - 1;
      WithoutTop(c, n, k);
      Pigeonhole(Without(c, k), n - 1, missing);
    } else {
      Pigeonhole(c, n - 1, missing);
    }
  }

  lemma {:induction false} InRange(c: seq<int>, n: nat)
    requires Distinct(c) && forall k :: 0 <= k < |c| ==> 0 <= c[k] < n
    ensures |c| <= n
  {
    assert |c| > 0 ==> 0 <= c[0] < n;
    if n > 0 {
      if n - 1 in c {
        var k :| 0 <= k < |c| && c[k] == n - 1;
        WithoutTop(c, n, k);
        InRange(Without(c, k), n - 1);
      } else {
        InRange(c, n - 1);
      }
    }
  }
}
