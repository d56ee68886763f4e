/**
 Any number of concurrent read and write accesses to one Versioned Data repository.

 An activity is one access of the API, from its first to its last statement; a thread
 holding several handles is several activities. Every section run under the repository
 mutex is one step, every statement outside it is a step of its own and the unlocked
 memcpy moves one byte per step, so all interleavings of the C code are runs here.

 `log`, `ver`, `finished` and `sent` are history: the bytes of every publication, the
 publication each copy holds, the completed read accesses and the messages sent to
 socket readers. No step looks at them to decide what it does.
 */
module VdProtocol {
  import opened Common
  import opened VdRepository

  datatype WriteMode = WriteOnly | ReadWrite

  datatype Activity =
    | Idle
    | ReadChecked(start: nat, after: nat)
    | ReadPinned(src: nat, start: nat, after: nat, version: nat, buf: seq<Byte>)
    | ReadCopied(start: nat, after: nat, version: nat, buf: seq<Byte>)
    | SlotLost
    | Filling(own: nat, src: nat, version: nat, k: nat)
    | Owning(own: nat)
    | Notifying(own: nat)
    | NotifyCopying(own: nat, src: nat, version: nat, buf: seq<Byte>)

  /** A completed read: stamp and number of completed reads at call start, publication returned,
      bytes, and the stamp put in the handle. */
  datatype Read = Read(start: nat, after: nat, version: nat, bytes: seq<Byte>, handleStamp: nat)

  /** A message built for a socket reader while publication `announced` is notified. */
  datatype Sent = Sent(announced: nat, version: nat, bytes: seq<Byte>)

  datatype State = State(repo: Repo, size: nat, acts: seq<Activity>,
                         log: seq<seq<Byte>>, ver: seq<nat>, finished: seq<Read>, sent: seq<Sent>)

  datatype Action =
    | ReadBegin | ReadPin | ReadByte | ReadUnpin | ReadEnd
    | WriteTake(mode: WriteMode) | FillByte | FillDone | WriteData(k: nat, b: Byte)
    | Publish | PublishQuietly | Cancel
    | NotifyPin | NotifyByte | NotifyUnpin | NotifyEnd

  predicate Publishes(a: Action) {
    a.Publish? || a.PublishQuietly?
  }

  // ----- steps -----

  ghost predicate ActShape(s: State, a: Activity) {
    match a
    case ReadPinned(src, _, _, _, buf) => src < |s.repo.copies| && |buf| <= s.size
    case Filling(own, src, _, k) => own < |s.repo.copies| && src < |s.repo.copies| && k <= s.size
    case Owning(own) => own < |s.repo.copies|
    case Notifying(own) => own < |s.repo.copies|
    case NotifyCopying(own, src, _, buf) => own < |s.repo.copies| && src < |s.repo.copies| && |buf| <= s.size
    case _ => true
  }

  ghost predicate Shape(s: State) {
    && |s.ver| == |s.repo.copies|
    && s.repo.InRange()
    && (forall c :: 0 <= c < |s.repo.copies| ==> |s.repo.copies[c].data| == s.size)
    && forall t :: 0 <= t < |s.acts| ==> ActShape(s, s.acts[t])
  }

  ghost predicate Enabled(s: State, t: nat, a: Action) {
    && t < |s.acts|
    && var act := s.acts[t];
       match a
       case ReadBegin => act.Idle? && s.repo.ptr.Some?
       case ReadPin => act.ReadChecked?
       case ReadByte => act.ReadPinned? && |act.buf| < s.size
       case ReadUnpin => act.ReadPinned? && |act.buf| == s.size
       case ReadEnd => act.ReadCopied?
       case WriteTake(_) => act.Idle?
       case FillByte => act.Filling? && act.k < s.size
       case FillDone => act.Filling? && act.k == s.size
       case WriteData(k, _) => act.Owning? && k < s.size
       case Publish => act.Owning?
       case PublishQuietly => act.Owning?
       case Cancel => act.Owning?
       case NotifyPin => act.Notifying? && s.repo.ptr.Some?
       case NotifyByte => act.NotifyCopying? && |act.buf| < s.size
       case NotifyUnpin => act.NotifyCopying? && |act.buf| == s.size
       case NotifyEnd => act.Notifying?
  }

  ghost function Become(s: State, t: nat, a: Activity): State
    requires t < |s.acts|
  {
    s.(acts := s.acts[t := a])
  }

  ghost function Published(s: State, own: nat): State
    requires Shape(s) && own < |s.repo.copies|
  {
    s.(repo := MovePtr(s.repo, own),
       log := s.log + [s.repo.copies[own].data],
       ver := s.ver[own := |s.log| + 1])
  }

  ghost function Step(s: State, t: nat, a: Action): State
    requires Shape(s) && Enabled(s, t, a)
  {
    var act := s.acts[t];
    match a
    // ldp_get_read_access tests repository_ptr without the mutex
    case ReadBegin => Become(s, t, ReadChecked(s.repo.stamp, |s.finished|))
    // first section of ldp_copy_VD_data
    case ReadPin =>
      if s.repo.ptr.None? then Become(s, t, SlotLost)
      else
        var c := s.repo.ptr.value;
        Become(s.(repo := Pin(s.repo, c)), t, ReadPinned(c, act.start, act.after, s.ver[c], []))
    case ReadByte =>
      Become(s, t, ReadPinned(act.src, act.start, act.after, act.version,
                              act.buf + [s.repo.copies[act.src].data[|act.buf|]]))
    case ReadUnpin =>
      Become(s.(repo := Unpin(s.repo, act.src)), t, ReadCopied(act.start, act.after, act.version, act.buf))
    // handle->stamp is read after the mutex is released
    case ReadEnd =>
      Become(s.(finished := s.finished + [Read(act.start, act.after, act.version, act.buf, s.repo.stamp)]), t, Idle)
    case WriteTake(mode) =>
      var free := FirstFree(s.repo.copies);
      if free.None? then s
      else
        var taken := SetState(s.repo, free.value, Used);
        if mode == ReadWrite && s.repo.ptr.Some? then
          var p := s.repo.ptr.value;
          Become(s.(repo := Pin(taken, p)), t, Filling(free.value, p, s.ver[p], 0))
        else
          Become(s.(repo := taken), t, Owning(free.value))
    case FillByte =>
      Become(s.(repo := WriteByte(s.repo, act.own, act.k, s.repo.copies[act.src].data[act.k])), t, Filling(act.own, act.src, act.version, act.k + 1))
    case FillDone => Become(s.(repo := Unpin(s.repo, act.src)), t, Owning(act.own))
    case WriteData(k, b) => s.(repo := WriteByte(s.repo, act.own, k, b))
    case Publish =>
      var p := Published(s, act.own);
      Become(p.(repo := Pin(p.repo, act.own)), t, Notifying(act.own))
    // ldp_update_repository publishes without pinning
    case PublishQuietly => Become(Published(s, act.own), t, Idle)
    // ldp_cancel_written_access frees the copy without the mutex
    case Cancel => Become(s.(repo := SetState(s.repo, act.own, Free)), t, Idle)
    case NotifyPin =>
      var c := s.repo.ptr.value;
      Become(s.(repo := Pin(s.repo, c)), t, NotifyCopying(act.own, c, s.ver[c], []))
    case NotifyByte =>
      Become(s, t, NotifyCopying(act.own, act.src, act.version, act.buf + [s.repo.copies[act.src].data[|act.buf|]]))
    case NotifyUnpin =>
      Become(s.(repo := Unpin(s.repo, act.src), sent := s.sent + [Sent(s.ver[act.own], act.version, act.buf)]),
             t, Notifying(act.own))
    case NotifyEnd => Become(s.(repo := Unpin(s.repo, act.own)), t, Idle)
  }

  // ----- what an activity holds -----

  ghost function Pins(a: Activity, c: nat): nat {
    match a
    case ReadPinned(src, _, _, _, _) => if src == c then 1 else 0
    case Filling(_, src, _, _) => if src == c then 1 else 0
    case Notifying(own) => if own == c then 1 else 0
    case NotifyCopying(own, src, _, _) => (if own == c then 1 else 0) + (if src == c then 1 else 0)
    case _ => 0
  }

  ghost predicate Owns(a: Activity, c: nat) {
    (a.Filling? || a.Owning?) && a.own == c
  }

  ghost function PinCount(acts: seq<Activity>, c: nat): nat {
    if acts == [] then 0 else Pins(acts[0], c) + PinCount(acts[1..], c)
  }

  lemma {:induction false} PinCountUpdate(acts: seq<Activity>, t: nat, a: Activity, c: nat)
    requires t < |acts|
    ensures PinCount(acts[t := a], c) == PinCount(acts, c) - Pins(acts[t], c) + Pins(a, c)
  {
    if t == 0 {
      assert acts[t := a][1..] == acts[1..];
    } else {
      PinCountUpdate(acts[1..], t - 1, a, c);
      assert acts[t := a][1..] == acts[1..][t - 1 := a];
    }
  }

  lemma {:induction false} PinCountAtLeast(acts: seq<Activity>, t: nat, c: nat)
    requires t < |acts|
    ensures PinCount(acts, c) >= Pins(acts[t], c)
  {
    PinCountUpdate(acts, t, Idle, c);
  }

  lemma {:induction false} PinCountPair(acts: seq<Activity>, t: nat, u: nat, c: nat)
    requires t < |acts| && u < |acts| && t != u
    ensures PinCount(acts, c) >= Pins(acts[t], c) + Pins(acts[u], c)
  {
    PinCountUpdate(acts, t, Idle, c);
    PinCountAtLeast(acts[t := Idle], u, c);
  }

  // ----- the invariant -----

  ghost predicate IsPublished(s: State, c: nat) {
    s.repo.ptr == Some(c)
  }

  ghost predicate IsPrivate(s: State, c: nat) {
    exists t :: 0 <= t < |s.acts| && Owns(s.acts[t], c)
  }

  ghost predicate IsDraining(s: State, c: nat)
    requires c < |s.repo.copies|
  {
    s.repo.copies[c].toBeRelease
  }

  /** Holds the bytes of a publication. */
  ghost predicate Live(s: State, c: nat) {
    && c < |s.repo.copies| && c < |s.ver|
    && s.repo.copies[c].state == Used
    && (IsPublished(s, c) || IsDraining(s, c))
    && 1 <= s.ver[c] <= |s.log|
    && s.repo.copies[c].data == s.log[s.ver[c] - 1]
  }

  ghost predicate CopyOk(s: State, c: nat)
    requires Shape(s) && c < |s.repo.copies|
  {
    var cp := s.repo.copies[c];
    && cp.numReaders == PinCount(s.acts, c)
    && (cp.state == Used <==> IsPublished(s, c) || IsPrivate(s, c) || IsDraining(s, c))
    && (IsPublished(s, c) ==> !IsPrivate(s, c) && !IsDraining(s, c) && Live(s, c) && s.ver[c] == |s.log|)
    && (IsPrivate(s, c) ==> !IsDraining(s, c) && cp.numReaders == 0)
    && (IsDraining(s, c) ==> cp.numReaders > 0 && Live(s, c))
    && (cp.state == Free ==> cp.numReaders == 0)
  }

  /** The versions of the reads completed before this one started. */
  ghost predicate NotAfter(s: State, after: nat, start: nat) {
    && after <= |s.finished| && start <= |s.log|
    && forall i :: 0 <= i < after ==> s.finished[i].version <= start
  }

  ghost predicate ActOk(s: State, a: Activity)
    requires Shape(s) && ActShape(s, a)
  {
    match a
    case Idle => true
    case ReadChecked(start, after) => 1 <= start && NotAfter(s, after, start) && s.log != []
    case ReadPinned(src, start, after, version, buf) =>
      Live(s, src) && version == s.ver[src] && start <= version && NotAfter(s, after, start)
      && buf == s.log[version - 1][..|buf|]
    case ReadCopied(start, after, version, buf) =>
      1 <= version <= |s.log| && start <= version && NotAfter(s, after, start) && buf == s.log[version - 1]
    case SlotLost => false
    case Filling(own, src, version, k) =>
      Live(s, src) && version == s.ver[src] && s.repo.copies[own].data[..k] == s.log[version - 1][..k]
    case Owning(own) => true
    case Notifying(own) => Live(s, own)
    case NotifyCopying(own, src, version, buf) =>
      Live(s, own) && Live(s, src) && version == s.ver[src] && s.ver[own] <= version
      && buf == s.log[version - 1][..|buf|]
  }

  ghost predicate ReadOk(s: State, r: Read) {
    && 1 <= r.version <= |s.log| && r.bytes == s.log[r.version - 1]
    && r.start <= r.version <= r.handleStamp <= |s.log|
    && NotAfter(s, r.after, r.start)
  }

  ghost predicate SentOk(s: State, m: Sent) {
    1 <= m.announced <= m.version <= |s.log| && m.bytes == s.log[m.version - 1]
  }

  ghost predicate Inv(s: State) {
    && Shape(s)
    && s.repo.stamp == |s.log|
    && (s.repo.ptr.None? <==> s.log == [])
    && (forall i :: 0 <= i < |s.log| ==> |s.log[i]| == s.size)
    && (forall c :: 0 <= c < |s.repo.copies| ==> CopyOk(s, c))
    && (forall t :: 0 <= t < |s.acts| ==> ActOk(s, s.acts[t]))
    && (forall t, u, c :: 0 <= t < u < |s.acts| && Owns(s.acts[t], c) ==> !Owns(s.acts[u], c))
    && (forall i :: 0 <= i < |s.finished| ==> ReadOk(s, s.finished[i]))
    && (forall i :: 0 <= i < |s.sent| ==> SentOk(s, s.sent[i]))
  }

  ghost predicate Init(s: State) {
    && s.repo.ptr == None && s.repo.stamp == 0
    && (forall c :: 0 <= c < |s.repo.copies| ==>
          |s.repo.copies[c].data| == s.size && s.repo.copies[c].numReaders == 0
          && s.repo.copies[c].state == Free && !s.repo.copies[c].toBeRelease)
    && (forall t :: 0 <= t < |s.acts| ==> s.acts[t] == Idle)
    && |s.ver| == |s.repo.copies|
    && s.log == [] && s.finished == [] && s.sent == []
  }

  lemma {:induction false} NoPins(acts: seq<Activity>, c: nat)
    requires forall t :: 0 <= t < |acts| ==> acts[t] == Idle
    ensures PinCount(acts, c) == 0
  {
    if acts != [] { NoPins(acts[1..], c); }
  }

  lemma InitInv(s: State)
    requires Init(s)
    ensures Inv(s)
  {
    forall c | 0 <= c < |s.repo.copies| ensures PinCount(s.acts, c) == 0 { NoPins(s.acts, c); }
  }

  // ----- preservation, one kind of effect at a time -----

  /** Histories only grow. */
  ghost predicate Extends(s: State, s': State) {
    && s.size == s'.size && |s.repo.copies| == |s'.repo.copies|
    && s.log <= s'.log && s.finished <= s'.finished
  }

  /** The publication held by copy `c` stays where it is. */
  ghost predicate Keeps(s: State, s': State, c: nat) {
    Live(s, c) ==> Live(s', c) && s'.ver[c] == s.ver[c]
  }

  lemma NotAfterFrame(s: State, s': State, after: nat, start: nat)
    requires Extends(s, s') && NotAfter(s, after, start)
    ensures NotAfter(s', after, start)
  {
    forall i | 0 <= i < after ensures s'.finished[i].version <= start {
      assert s'.finished[i] == s.finished[i];
    }
  }

  lemma ActFrame(s: State, s': State, a: Activity)
    requires Shape(s) && Shape(s') && Extends(s, s')
    requires ActShape(s, a) && ActOk(s, a)
    requires forall c :: Pins(a, c) > 0 ==> Keeps(s, s', c)
    requires a.Filling? ==> s'.repo.copies[a.own].data == s.repo.copies[a.own].data
    ensures ActShape(s', a) && ActOk(s', a)
  {
    match a
    case ReadChecked(start, after) => NotAfterFrame(s, s', after, start);
    case ReadPinned(src, start, after, version, buf) =>
      assert Pins(a, src) > 0;
      NotAfterFrame(s, s', after, start);
    case ReadCopied(start, after, version, buf) => NotAfterFrame(s, s', after, start);
    case Filling(own, src, version, k) => assert Pins(a, src) > 0;
    case Notifying(own) => assert Pins(a, own) > 0;
    case NotifyCopying(own, src, version, buf) => assert Pins(a, own) > 0 && Pins(a, src) > 0;
    case _ =>
  }

  ghost predicate HistoryOk(s: State) {
    && s.repo.stamp == |s.log|
    && (s.repo.ptr.None? <==> s.log == [])
    && (forall i :: 0 <= i < |s.log| ==> |s.log[i]| == s.size)
    && (forall i :: 0 <= i < |s.finished| ==> ReadOk(s, s.finished[i]))
    && (forall i :: 0 <= i < |s.sent| ==> SentOk(s, s.sent[i]))
  }

  lemma HistoryFrame(s: State, s': State)
    requires HistoryOk(s) && Extends(s, s') && s'.sent == s.sent && s'.finished == s.finished
    requires s'.repo.stamp == |s'.log| && (s'.repo.ptr.None? <==> s'.log == [])
    requires forall i :: |s.log| <= i < |s'.log| ==> |s'.log[i]| == s'.size
    ensures HistoryOk(s')
  {
    forall i | 0 <= i < |s.finished| ensures ReadOk(s', s'.finished[i]) {
      NotAfterFrame(s, s', s.finished[i].after, s.finished[i].start);
    }
  }

  ghost predicate OwnersDistinct(acts: seq<Activity>) {
    forall t, u, c :: 0 <= t < u < |acts| && Owns(acts[t], c) ==> !Owns(acts[u], c)
  }

  lemma Others(s: State, s': State, t: nat)
    requires Inv(s) && Shape(s') && Extends(s, s')
    requires t < |s.acts| && |s'.acts| == |s.acts| && s'.acts == s.acts[t := s'.acts[t]]
    requires ActOk(s', s'.acts[t])
    requires forall u: nat, c: nat :: u < |s.acts| && u != t && Pins(s.acts[u], c) > 0 ==> Keeps(s, s', c)
    requires forall u: nat, c: nat :: u < |s.acts| && u != t && Owns(s.acts[u], c) && c < |s.repo.copies|
               ==> s'.repo.copies[c].data == s.repo.copies[c].data
    ensures forall u :: 0 <= u < |s'.acts| ==> ActOk(s', s'.acts[u])
  {
    forall u | 0 <= u < |s'.acts| ensures ActOk(s', s'.acts[u]) {
      if u != t {
        assert ActOk(s, s.acts[u]) && ActShape(s, s.acts[u]);
        if s.acts[u].Filling? { assert Owns(s.acts[u], s.acts[u].own); }
        ActFrame(s, s', s.acts[u]);
      }
    }
  }

  lemma PrivateFrame(s: State, s': State, t: nat, c: nat)
    requires t < |s.acts| && |s'.acts| == |s.acts| && s'.acts == s.acts[t := s'.acts[t]]
    requires Owns(s.acts[t], c) == Owns(s'.acts[t], c)
    ensures IsPrivate(s, c) == IsPrivate(s', c)
  {
    if IsPrivate(s, c) {
      var u :| 0 <= u < |s.acts| && Owns(s.acts[u], c);
      assert Owns(s'.acts[u], c);
    }
    if IsPrivate(s', c) {
      var u :| 0 <= u < |s'.acts| && Owns(s'.acts[u], c);
      assert Owns(s.acts[u], c);
    }
  }

  /** The activity moves on without touching the repository. */
  lemma LocalEffect(s: State, t: nat, a: Activity)
    requires Inv(s) && t < |s.acts| && ActShape(s, a) && ActOk(s, a)
    requires forall c :: Pins(a, c) == Pins(s.acts[t], c) && Owns(a, c) == Owns(s.acts[t], c)
    ensures Inv(Become(s, t, a))
  {
    var s' := Become(s, t, a);
    ActFrame(s, s', a);
    Others(s, s', t);
    HistoryFrame(s, s');
    forall c | 0 <= c < |s.repo.copies| ensures CopyOk(s', c) { LocalCopy(s, t, a, c); }
  }

  lemma LocalCopy(s: State, t: nat, a: Activity, c: nat)
    requires Inv(s) && t < |s.acts| && ActShape(s, a) && c < |s.repo.copies|
    requires Pins(a, c) == Pins(s.acts[t], c) && Owns(a, c) == Owns(s.acts[t], c)
    ensures Shape(Become(s, t, a)) && CopyOk(Become(s, t, a), c)
  {
    PinCountUpdate(s.acts, t, a, c);
    PrivateFrame(s, Become(s, t, a), t, c);
    assert CopyOk(s, c);
  }

  /** The activity pins a copy that holds a publication. */
  lemma PinEffect(s: State, t: nat, c0: nat, a: Activity)
    requires Inv(s) && t < |s.acts| && Live(s, c0) && ActShape(s, a) && ActOk(s, a)
    requires forall c :: Pins(a, c) == Pins(s.acts[t], c) + (if c == c0 then 1 else 0)
    requires forall c :: Owns(a, c) == Owns(s.acts[t], c)
    ensures Inv(Become(s.(repo := Pin(s.repo, c0)), t, a))
  {
    var s' := Become(s.(repo := Pin(s.repo, c0)), t, a);
    assert forall c :: Keeps(s, s', c);
    hide CopyOk, ActOk, Keeps;
    ActFrame(s, s', a);
    Others(s, s', t);
    HistoryFrame(s, s');
    forall c | 0 <= c < |s.repo.copies| ensures CopyOk(s', c) {
      PinCopy(s, t, c0, a, c);
    }
  }

  lemma PinCopy(s: State, t: nat, c0: nat, a: Activity, c: nat)
    requires Inv(s) && t < |s.acts| && Live(s, c0) && ActShape(s, a) && c < |s.repo.copies|
    requires Pins(a, c) == Pins(s.acts[t], c) + (if c == c0 then 1 else 0)
    requires Owns(a, c) == Owns(s.acts[t], c)
    ensures Shape(Become(s.(repo := Pin(s.repo, c0)), t, a))
    ensures CopyOk(Become(s.(repo := Pin(s.repo, c0)), t, a), c)
  {
    var s' := Become(s.(repo := Pin(s.repo, c0)), t, a);
    PinCountUpdate(s.acts, t, a, c);
    PrivateFrame(s, s', t, c);
    assert CopyOk(s, c);
  }

  /** Another pin on the copy, or no mark, keeps its publication through an unpin. */
  lemma UnpinKeeps(s: State, t: nat, c0: nat, a: Activity, c: nat)
    requires Inv(s) && t < |s.acts| && c0 < |s.repo.copies|
    requires Pins(s.acts[t], c0) == Pins(a, c0) + 1
    requires c == c0 ==> PinCount(s.acts, c0) >= 2
    ensures Keeps(s, Become(s.(repo := Unpin(s.repo, c0)), t, a), c)
  {
    assert CopyOk(s, c0);
  }

  lemma UnpinCopy(s: State, t: nat, c0: nat, a: Activity, c: nat)
    requires Inv(s) && t < |s.acts| && c0 < |s.repo.copies| && ActShape(s, a) && c < |s.repo.copies|
    requires Pins(s.acts[t], c) == Pins(a, c) + (if c == c0 then 1 else 0)
    requires Owns(a, c) == Owns(s.acts[t], c)
    ensures Shape(Become(s.(repo := Unpin(s.repo, c0)), t, a))
    ensures CopyOk(Become(s.(repo := Unpin(s.repo, c0)), t, a), c)
  {
    var s' := Become(s.(repo := Unpin(s.repo, c0)), t, a);
    PinCountUpdate(s.acts, t, a, c);
    PinCountAtLeast(s.acts, t, c);
    PrivateFrame(s, s', t, c);
    assert CopyOk(s, c);
  }

  /** The activity drops a pin; the last pin of a superseded copy frees it. */
  lemma UnpinEffect(s: State, t: nat, c0: nat, a: Activity)
    requires Inv(s) && t < |s.acts| && c0 < |s.repo.copies| && ActShape(s, a) && ActOk(s, a)
    requires forall c :: Pins(s.acts[t], c) == Pins(a, c) + (if c == c0 then 1 else 0)
    requires forall c :: Owns(a, c) == Owns(s.acts[t], c)
    ensures Inv(Become(s.(repo := Unpin(s.repo, c0)), t, a))
  {
    var s' := Become(s.(repo := Unpin(s.repo, c0)), t, a);
    forall c | 0 <= c < |s.repo.copies| ensures CopyOk(s', c) {
      UnpinCopy(s, t, c0, a, c);
    }
    forall c: nat | Pins(a, c) > 0 ensures Keeps(s, s', c) {
      PinCountAtLeast(s.acts, t, c0);
      UnpinKeeps(s, t, c0, a, c);
    }
    ActFrame(s, s', a);
    forall u: nat, c: nat | u < |s.acts| && u != t && Pins(s.acts[u], c) > 0 ensures Keeps(s, s', c) {
      PinCountPair(s.acts, t, u, c0);
      UnpinKeeps(s, t, c0, a, c);
    }
    Others(s, s', t);
    HistoryFrame(s, s');
  }

  /** A FREE copy becomes the private copy of an activity. */
  lemma TakeEffect(s: State, t: nat, c0: nat)
    requires Inv(s) && t < |s.acts| && s.acts[t] == Idle
    requires c0 < |s.repo.copies| && s.repo.copies[c0].state == Free
    ensures Inv(Become(s.(repo := SetState(s.repo, c0, Used)), t, Owning(c0)))
  {
    var s' := Become(s.(repo := SetState(s.repo, c0, Used)), t, Owning(c0));
    assert CopyOk(s, c0);
    Others(s, s', t);
    HistoryFrame(s, s');
    forall c | 0 <= c < |s.repo.copies| ensures CopyOk(s', c) { TakeCopy(s, t, c0, c); }
    assert OwnersDistinct(s'.acts) by {
      assert !IsPrivate(s, c0);
    }
  }

  lemma TakeCopy(s: State, t: nat, c0: nat, c: nat)
    requires Inv(s) && t < |s.acts| && s.acts[t] == Idle && c < |s.repo.copies|
    requires c0 < |s.repo.copies| && s.repo.copies[c0].state == Free
    ensures CopyOk(Become(s.(repo := SetState(s.repo, c0, Used)), t, Owning(c0)), c)
  {
    var s' := Become(s.(repo := SetState(s.repo, c0, Used)), t, Owning(c0));
    PinCountUpdate(s.acts, t, Owning(c0), c);
    assert CopyOk(s, c);
    if c == c0 {
      assert Owns(s'.acts[t], c0);
    } else {
      PrivateFrame(s, s', t, c);
    }
  }

  lemma OwnedIsPrivate(s: State, t: nat, c: nat)
    requires Inv(s) && t < |s.acts| && Owns(s.acts[t], c)
    ensures c < |s.repo.copies| && IsPrivate(s, c) && !Live(s, c)
    ensures s.repo.copies[c].state == Used && s.repo.copies[c].numReaders == 0 && !s.repo.copies[c].toBeRelease
    ensures !IsPublished(s, c)
    ensures forall u :: 0 <= u < |s.acts| ==> Pins(s.acts[u], c) == 0
    ensures forall u :: 0 <= u < |s.acts| && u != t ==> !Owns(s.acts[u], c)
  {
    assert ActShape(s, s.acts[t]);
    assert CopyOk(s, c);
    forall u | 0 <= u < |s.acts| ensures Pins(s.acts[u], c) == 0 { PinCountAtLeast(s.acts, u, c); }
  }

  /** The owner of a private copy writes one byte of it. */
  lemma WriteEffect(s: State, t: nat, c0: nat, k: nat, b: Byte, a: Activity)
    requires Inv(s) && t < |s.acts| && Owns(s.acts[t], c0) && c0 < |s.repo.copies| && k < s.size
    requires forall c :: Pins(a, c) == Pins(s.acts[t], c) && Owns(a, c) == Owns(s.acts[t], c)
    requires ActShape(s, a)
    ensures Shape(Become(s.(repo := WriteByte(s.repo, c0, k, b)), t, a))
    ensures ActOk(Become(s.(repo := WriteByte(s.repo, c0, k, b)), t, a), a)
            ==> Inv(Become(s.(repo := WriteByte(s.repo, c0, k, b)), t, a))
  {
    var s' := Become(s.(repo := WriteByte(s.repo, c0, k, b)), t, a);
    OwnedIsPrivate(s, t, c0);
    forall c | 0 <= c < |s.repo.copies| ensures CopyOk(s', c) { WriteCopy(s, t, c0, k, b, a, c); }
    HistoryFrame(s, s');
    if ActOk(s', a) {
      Others(s, s', t);
    }
  }

  lemma WriteCopy(s: State, t: nat, c0: nat, k: nat, b: Byte, a: Activity, c: nat)
    requires Inv(s) && t < |s.acts| && Owns(s.acts[t], c0) && c0 < |s.repo.copies| && k < s.size
    requires Pins(a, c) == Pins(s.acts[t], c) && Owns(a, c) == Owns(s.acts[t], c)
    requires ActShape(s, a) && c < |s.repo.copies|
    ensures var s' := Become(s.(repo := WriteByte(s.repo, c0, k, b)), t, a); Shape(s') && CopyOk(s', c)
  {
    OwnedIsPrivate(s, t, c0);
    PinCountUpdate(s.acts, t, a, c);
    PrivateFrame(s, Become(s.(repo := WriteByte(s.repo, c0, k, b)), t, a), t, c);
    assert CopyOk(s, c);
  }

  /** The owner gives its private copy up. */
  lemma CancelEffect(s: State, t: nat, c0: nat)
    requires Inv(s) && t < |s.acts| && s.acts[t] == Owning(c0) && c0 < |s.repo.copies|
    ensures Inv(Become(s.(repo := SetState(s.repo, c0, Free)), t, Idle))
  {
    var s' := Become(s.(repo := SetState(s.repo, c0, Free)), t, Idle);
    OwnedIsPrivate(s, t, c0);
    Others(s, s', t);
    HistoryFrame(s, s');
    forall c | 0 <= c < |s.repo.copies| ensures CopyOk(s', c) { CancelCopy(s, t, c0, c); }
  }

  lemma CancelCopy(s: State, t: nat, c0: nat, c: nat)
    requires Inv(s) && t < |s.acts| && s.acts[t] == Owning(c0) && c0 < |s.repo.copies| && c < |s.repo.copies|
    ensures var s' := Become(s.(repo := SetState(s.repo, c0, Free)), t, Idle); Shape(s') && CopyOk(s', c)
  {
    OwnedIsPrivate(s, t, c0);
    PinCountUpdate(s.acts, t, Idle, c);
    assert CopyOk(s, c);
    if c != c0 { PrivateFrame(s, Become(s.(repo := SetState(s.repo, c0, Free)), t, Idle), t, c); }
  }

  lemma PublishCopy(s: State, t: nat, own: nat, c: nat)
    requires Inv(s) && t < |s.acts| && s.acts[t] == Owning(own) && own < |s.repo.copies| && c < |s.repo.copies|
    ensures Shape(Become(Published(s, own), t, Idle))
    ensures CopyOk(Become(Published(s, own), t, Idle), c)
  {
    var s' := Become(Published(s, own), t, Idle);
    OwnedIsPrivate(s, t, own);
    PinCountUpdate(s.acts, t, Idle, c);
    assert CopyOk(s, c);
    if c != own {
      PrivateFrame(s, s', t, c);
    } else {
      assert !IsPrivate(s', own);
    }
  }

  /** The private copy becomes the published one; the old one is freed or left to drain. */
  lemma PublishEffect(s: State, t: nat, own: nat)
    requires Inv(s) && t < |s.acts| && s.acts[t] == Owning(own) && own < |s.repo.copies|
    ensures Inv(Become(Published(s, own), t, Idle))
  {
    var s' := Become(Published(s, own), t, Idle);
    OwnedIsPrivate(s, t, own);
    forall c | 0 <= c < |s.repo.copies| ensures CopyOk(s', c) { PublishCopy(s, t, own, c); }
    forall u: nat, c: nat | u < |s.acts| && u != t && Pins(s.acts[u], c) > 0 ensures Keeps(s, s', c) {
      PublishKeeps(s, t, own, u, c);
    }
    Others(s, s', t);
    HistoryFrame(s, s');
    assert OwnersDistinct(s'.acts);
  }

  lemma PublishKeeps(s: State, t: nat, own: nat, u: nat, c: nat)
    requires Inv(s) && t < |s.acts| && s.acts[t] == Owning(own) && own < |s.repo.copies|
    requires u < |s.acts| && Pins(s.acts[u], c) > 0
    ensures Keeps(s, Become(Published(s, own), t, Idle), c)
  {
    OwnedIsPrivate(s, t, own);
    PinCountAtLeast(s.acts, u, c);
    if Live(s, c) { assert CopyOk(s, c); }
  }

  /** Recording a correct read or message changes nothing else. */
  lemma HistoryAppend(m: State, s': State)
    requires Inv(m) && s' == m.(finished := s'.finished, sent := s'.sent) && m.finished <= s'.finished
    requires forall i :: |m.finished| <= i < |s'.finished| ==> ReadOk(s', s'.finished[i])
    requires m.sent <= s'.sent
    requires forall i :: |m.sent| <= i < |s'.sent| ==> SentOk(s', s'.sent[i])
    ensures Inv(s')
  {
    forall u | 0 <= u < |m.acts| ensures ActOk(s', s'.acts[u]) {
      assert ActOk(m, m.acts[u]);
      ActFrame(m, s', m.acts[u]);
    }
    forall i | 0 <= i < |m.finished| ensures ReadOk(s', s'.finished[i]) {
      assert ReadOk(m, m.finished[i]);
      NotAfterFrame(m, s', m.finished[i].after, m.finished[i].start);
    }
    forall i | 0 <= i < |m.sent| ensures SentOk(s', s'.sent[i]) { assert SentOk(m, m.sent[i]); }
    forall c | 0 <= c < |m.repo.copies| ensures CopyOk(s', c) { assert CopyOk(m, c); }
  }

  lemma ReadEndStep(s: State, t: nat)
    requires Inv(s) && Enabled(s, t, ReadEnd)
    ensures Inv(Step(s, t, ReadEnd))
  {
    var act := s.acts[t];
    assert ActOk(s, act);
    LocalEffect(s, t, Idle);
    var m := Become(s, t, Idle);
    var s' := Step(s, t, ReadEnd);
    NotAfterFrame(s, s', act.after, act.start);
    HistoryAppend(m, s');
  }

  lemma NotifyUnpinStep(s: State, t: nat)
    requires Inv(s) && Enabled(s, t, NotifyUnpin)
    ensures Inv(Step(s, t, NotifyUnpin))
  {
    var act := s.acts[t];
    assert ActOk(s, act) && ActShape(s, act);
    UnpinEffect(s, t, act.src, Notifying(act.own));
    var m := Become(s.(repo := Unpin(s.repo, act.src)), t, Notifying(act.own));
    HistoryAppend(m, Step(s, t, NotifyUnpin));
  }

  lemma WriteTakeStep(s: State, t: nat, mode: WriteMode)
    requires Inv(s) && Enabled(s, t, WriteTake(mode))
    ensures Inv(Step(s, t, WriteTake(mode)))
  {
    var free := FirstFree(s.repo.copies);
    if free.Some? {
      TakeEffect(s, t, free.value);
      if mode == ReadWrite && s.repo.ptr.Some? {
        var m := Become(s.(repo := SetState(s.repo, free.value, Used)), t, Owning(free.value));
        var p := s.repo.ptr.value;
        assert CopyOk(m, p);
        PinEffect(m, t, p, Filling(free.value, p, s.ver[p], 0));
        assert m.acts[t := Filling(free.value, p, s.ver[p], 0)] == s.acts[t := Filling(free.value, p, s.ver[p], 0)];
      }
    }
  }

  lemma PublishStep(s: State, t: nat)
    requires Inv(s) && Enabled(s, t, Publish)
    ensures Inv(Step(s, t, Publish))
  {
    var own := s.acts[t].own;
    PublishEffect(s, t, own);
    var m := Become(Published(s, own), t, Idle);
    assert CopyOk(m, own);
    PinEffect(m, t, own, Notifying(own));
    assert m.acts[t := Notifying(own)] == s.acts[t := Notifying(own)];
  }

  lemma FillByteStep(s: State, t: nat)
    requires Inv(s) && Enabled(s, t, FillByte)
    ensures Inv(Step(s, t, FillByte))
  {
    var act := s.acts[t];
    assert ActOk(s, act) && ActShape(s, act);
    var a := Filling(act.own, act.src, act.version, act.k + 1);
    var b := s.repo.copies[act.src].data[act.k];
    OwnedIsPrivate(s, t, act.own);
    WriteEffect(s, t, act.own, act.k, b, a);
    var s' := Step(s, t, FillByte);
    assert s'.repo.copies[act.own].data[..act.k + 1] == s.repo.copies[act.own].data[..act.k] + [b];
    assert s.log[act.version - 1][..act.k + 1] == s.log[act.version - 1][..act.k] + [b];
  }

  lemma CopyByte(s: State, t: nat, a: Activity, version: nat, buf: seq<Byte>, src: nat)
    requires Inv(s) && Live(s, src) && version == s.ver[src] && |buf| < s.size
    requires buf == s.log[version - 1][..|buf|]
    ensures var next := buf + [s.repo.copies[src].data[|buf|]]; next == s.log[version - 1][..|next|]
  {
  }

  lemma ReadPinStep(s: State, t: nat)
    requires Inv(s) && Enabled(s, t, ReadPin)
    ensures Inv(Step(s, t, ReadPin))
  {
    var act := s.acts[t];
    assert ActOk(s, act);
    var p := s.repo.ptr.value;
    assert CopyOk(s, p);
    PinEffect(s, t, p, ReadPinned(p, act.start, act.after, s.ver[p], []));
  }

  lemma ReadByteStep(s: State, t: nat)
    requires Inv(s) && Enabled(s, t, ReadByte)
    ensures Inv(Step(s, t, ReadByte))
  {
    var act := s.acts[t];
    assert ActOk(s, act) && ActShape(s, act);
    CopyByte(s, t, act, act.version, act.buf, act.src);
    LocalEffect(s, t, Step(s, t, ReadByte).acts[t]);
  }

  lemma ReadUnpinStep(s: State, t: nat)
    requires Inv(s) && Enabled(s, t, ReadUnpin)
    ensures Inv(Step(s, t, ReadUnpin))
  {
    var act := s.acts[t];
    assert ActOk(s, act) && ActShape(s, act);
    UnpinEffect(s, t, act.src, ReadCopied(act.start, act.after, act.version, act.buf));
  }

  lemma NotifyPinStep(s: State, t: nat)
    requires Inv(s) && Enabled(s, t, NotifyPin)
    ensures Inv(Step(s, t, NotifyPin))
  {
    var act := s.acts[t];
    assert ActOk(s, act) && ActShape(s, act);
    var p := s.repo.ptr.value;
    assert CopyOk(s, p);
    PinEffect(s, t, p, NotifyCopying(act.own, p, s.ver[p], []));
  }

  lemma NotifyByteStep(s: State, t: nat)
    requires Inv(s) && Enabled(s, t, NotifyByte)
    ensures Inv(Step(s, t, NotifyByte))
  {
    var act := s.acts[t];
    assert ActOk(s, act) && ActShape(s, act);
    CopyByte(s, t, act, act.version, act.buf, act.src);
    LocalEffect(s, t, Step(s, t, NotifyByte).acts[t]);
  }

  lemma FillDoneStep(s: State, t: nat)
    requires Inv(s) && Enabled(s, t, FillDone)
    ensures Inv(Step(s, t, FillDone))
  {
    var act := s.acts[t];
    assert ActOk(s, act) && ActShape(s, act);
    UnpinEffect(s, t, act.src, Owning(act.own));
  }

  lemma WriteDataStep(s: State, t: nat, k: nat, b: Byte)
    requires Inv(s) && Enabled(s, t, WriteData(k, b))
    ensures Inv(Step(s, t, WriteData(k, b)))
  {
    var act := s.acts[t];
    assert ActShape(s, act);
    WriteEffect(s, t, act.own, k, b, act);
    assert s.acts[t := act] == s.acts;
  }

  lemma NotifyEndStep(s: State, t: nat)
    requires Inv(s) && Enabled(s, t, NotifyEnd)
    ensures Inv(Step(s, t, NotifyEnd))
  {
    assert ActShape(s, s.acts[t]);
    UnpinEffect(s, t, s.acts[t].own, Idle);
  }

  /** Every enabled step keeps the invariant. */
  lemma StepInv(s: State, t: nat, a: Action)
    requires Inv(s) && Enabled(s, t, a)
    ensures Inv(Step(s, t, a))
  {
    match a
    case ReadBegin => LocalEffect(s, t, ReadChecked(s.repo.stamp, |s.finished|));
    case ReadPin => ReadPinStep(s, t);
    case ReadByte => ReadByteStep(s, t);
    case ReadUnpin => ReadUnpinStep(s, t);
    case ReadEnd => ReadEndStep(s, t);
    case WriteTake(mode) => WriteTakeStep(s, t, mode);
    case FillByte => FillByteStep(s, t);
    case FillDone => FillDoneStep(s, t);
    case WriteData(k, b) => WriteDataStep(s, t, k, b);
    case Publish => PublishStep(s, t);
    case PublishQuietly => PublishEffect(s, t, s.acts[t].own);
    case Cancel => CancelEffect(s, t, s.acts[t].own);
    case NotifyPin => NotifyPinStep(s, t);
    case NotifyByte => NotifyByteStep(s, t);
    case NotifyUnpin => NotifyUnpinStep(s, t);
    case NotifyEnd => NotifyEndStep(s, t);
  }
}
