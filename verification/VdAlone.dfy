/** The steps of an access that nobody disturbs end as the methods of VdAccess.dfy state. */
module VdAlone {
  import opened Common
  import opened VdRepository
  import opened VdProtocol
  import VdAccess

  /** `acts`, all taken by activity `t`, lead from `s` to `s'`. */
  ghost predicate Alone(s: State, t: nat, acts: seq<Action>, s': State)
    decreases |acts|
  {
    if acts == [] then s' == s
    else Shape(s) && Enabled(s, t, acts[0]) && Alone(Step(s, t, acts[0]), t, acts[1..], s')
  }

  lemma {:induction false} AloneThen(s: State, t: nat, acts: seq<Action>, m: State, more: seq<Action>, s': State)
    requires Alone(s, t, acts, m) && Alone(m, t, more, s')
    ensures Alone(s, t, acts + more, s')
    decreases |acts|
  {
    hide Enabled, Step, Shape;
    if acts == [] {
      assert acts + more == more;
    } else {
      assert (acts + more)[1..] == acts[1..] + more;
      AloneThen(Step(s, t, acts[0]), t, acts[1..], m, more, s');
    }
  }

  lemma AloneOnce(s: State, t: nat, a: Action) returns (s': State)
    requires Inv(s) && Enabled(s, t, a)
    ensures s' == Step(s, t, a) && Inv(s') && Alone(s, t, [a], s')
  {
    hide Enabled, Step, Inv;
    InvHasShape(s);
    StepInv(s, t, a);
    s' := Step(s, t, a);
    assert [a][1..] == [];
    assert Alone(s', t, [], s');
  }

  lemma InvHasShape(s: State)
    requires Inv(s)
    ensures Shape(s)
  {
  }

  lemma Nothing(s: State, t: nat)
    ensures Alone(s, t, [], s)
  {
  }

  ghost function Times(a: Action, n: nat): seq<Action> {
    seq(n, _ => a)
  }

  lemma OneMore(a: Action, n: nat)
    ensures [a] + Times(a, n) == Times(a, n + 1)
  {
  }

  // ----- a read -----

  /** The unlocked memcpy, byte by byte. */
  lemma {:induction false} BytesAlone(s: State, t: nat) returns (s': State)
    requires Inv(s) && t < |s.acts| && s.acts[t].ReadPinned?
    requires s.acts[t].src < |s.repo.copies| && |s.acts[t].buf| <= s.size
    requires s.acts[t].buf == s.repo.copies[s.acts[t].src].data[..|s.acts[t].buf|]
    ensures |s.acts[t].buf| <= s.size && Alone(s, t, Times(ReadByte, s.size - |s.acts[t].buf|), s') && Inv(s')
    ensures var a := s.acts[t];
            s' == s.(acts := s.acts[t := ReadPinned(a.src, a.start, a.after, a.version, s.repo.copies[a.src].data)])
    decreases s.size - |s.acts[t].buf|
  {
    var (a, data) := (s.acts[t], s.repo.copies[s.acts[t].src].data);
    if |a.buf| == s.size {
      assert a.buf == data;
      s' := s;
    } else {
      var m := AloneOnce(s, t, ReadByte);
      assert m.acts[t].buf == data[..|a.buf| + 1];
      s' := BytesAlone(m, t);
      OneMore(ReadByte, s.size - |a.buf| - 1);
      AloneThen(s, t, [ReadByte], m, Times(ReadByte, s.size - |a.buf| - 1), s');
    }
  }

  ghost function ReadSteps(size: nat): seq<Action> {
    [ReadBegin] + [ReadPin] + Times(ReadByte, size) + [ReadUnpin] + [ReadEnd]
  }

  /** ReaderManager.GetReadAccess: the published bytes, and no trace in the repository. */
  lemma ReadAlone(s: State, t: nat) returns (s': State)
    requires Inv(s) && t < |s.acts| && s.acts[t] == Idle && s.repo.ptr.Some?
    ensures Alone(s, t, ReadSteps(s.size), s') && Inv(s') && s.repo.ptr.value < |s.repo.copies|
    ensures s' == s.(finished := s.finished + [Read(s.repo.stamp, |s.finished|, s.repo.stamp,
                                                     s.repo.copies[s.repo.ptr.value].data, s.repo.stamp)])
  {
    hide Inv, Step, Enabled, Alone;
    var (p, v) := (s.repo.ptr.value, s.repo.stamp);
    var s2 := ReadStarts(s, t);
    var s3 := BytesAlone(s2, t);
    AloneThen(s, t, [ReadBegin] + [ReadPin], s2, Times(ReadByte, s.size), s3);
    ReadUnpinStep(s3, t);
    var s4 := AloneOnce(s3, t, ReadUnpin);
    AloneThen(s, t, [ReadBegin] + [ReadPin] + Times(ReadByte, s.size), s3, [ReadUnpin], s4);
    assert s4.repo.copies == s.repo.copies;
    ReadEndStep(s4, t);
    s' := AloneOnce(s4, t, ReadEnd);
    AloneThen(s, t, [ReadBegin] + [ReadPin] + Times(ReadByte, s.size) + [ReadUnpin], s4, [ReadEnd], s');
    assert s'.acts == s.acts;
  }

  lemma ReadStarts(s: State, t: nat) returns (s': State)
    requires Inv(s) && t < |s.acts| && s.acts[t] == Idle && s.repo.ptr.Some?
    ensures Alone(s, t, [ReadBegin] + [ReadPin], s') && Inv(s') && s.repo.ptr.value < |s.repo.copies|
    ensures var (p, was) := (s.repo.ptr.value, s.repo.copies);
            && |was[p].data| == s.size && was[p].numReaders >= 0 && !was[p].toBeRelease
            && s' == s.(acts := s.acts[t := ReadPinned(p, s.repo.stamp, |s.finished|, s.repo.stamp, [])],
                        repo := s.repo.(copies := was[p := was[p].(numReaders := was[p].numReaders + 1)]))
  {
    assert CopyOk(s, s.repo.ptr.value);
    var s1 := AloneOnce(s, t, ReadBegin);
    s' := AloneOnce(s1, t, ReadPin);
    AloneThen(s, t, [ReadBegin], s1, [ReadPin], s');
  }

  lemma ReadUnpinStep(s: State, t: nat)
    requires Inv(s) && t < |s.acts| && s.acts[t].ReadPinned? && |s.acts[t].buf| == s.size
    requires s.acts[t].src < |s.repo.copies| && !s.repo.copies[s.acts[t].src].toBeRelease
    ensures Enabled(s, t, ReadUnpin) && Shape(s)
    ensures var (a, was) := (s.acts[t], s.repo.copies);
            Step(s, t, ReadUnpin) == s.(acts := s.acts[t := ReadCopied(a.start, a.after, a.version, a.buf)],
                                        repo := s.repo.(copies := was[a.src := was[a.src].(numReaders := was[a.src].numReaders - 1)]))
  {
  }

  lemma ReadEndStep(s: State, t: nat)
    requires Inv(s) && t < |s.acts| && s.acts[t].ReadCopied?
    ensures Enabled(s, t, ReadEnd) && Shape(s)
    ensures var a := s.acts[t];
            Step(s, t, ReadEnd) == s.(acts := s.acts[t := Idle],
                                      finished := s.finished + [Read(a.start, a.after, a.version, a.buf, s.repo.stamp)])
  {
  }

  // ----- a write -----

  lemma {:induction false} FillAlone(s: State, t: nat) returns (s': State)
    requires Inv(s) && t < |s.acts| && s.acts[t].Filling?
    requires s.acts[t].own < |s.repo.copies| && s.acts[t].src < |s.repo.copies| && s.acts[t].own != s.acts[t].src
    requires s.acts[t].k <= s.size
    requires s.repo.copies[s.acts[t].own].data[..s.acts[t].k] == s.repo.copies[s.acts[t].src].data[..s.acts[t].k]
    ensures Alone(s, t, Times(FillByte, s.size - s.acts[t].k), s') && Inv(s')
    ensures var a := s.acts[t];
            s' == s.(acts := s.acts[t := a.(k := s.size)],
                     repo := s.repo.(copies := s.repo.copies[a.own := s.repo.copies[a.own].(data := s.repo.copies[a.src].data)]))
    decreases s.size - s.acts[t].k
  {
    hide Inv, Step, Enabled, Alone;
    var a := s.acts[t];
    FillStep(s, t);
    if a.k == s.size {
      s' := s;
      Nothing(s, t);
      assert Times(FillByte, s.size - a.k) == [];
      assert s.repo.copies[a.own].data[..a.k] == s.repo.copies[a.own].data;
      assert s.repo.copies[a.src].data[..a.k] == s.repo.copies[a.src].data;
    } else {
      var m := AloneOnce(s, t, FillByte);
      assert m.repo.copies[a.own].data[..a.k + 1] == s.repo.copies[a.src].data[..a.k + 1];
      s' := FillAlone(m, t);
      OneMore(FillByte, s.size - a.k - 1);
      AloneThen(s, t, [FillByte], m, Times(FillByte, s.size - a.k - 1), s');
    }
  }

  lemma FillStep(s: State, t: nat)
    requires Inv(s) && t < |s.acts| && s.acts[t].Filling? && s.acts[t].k <= s.size
    requires s.acts[t].own < |s.repo.copies| && s.acts[t].src < |s.repo.copies|
    ensures var (a, was) := (s.acts[t], s.repo.copies);
            && |was[a.own].data| == |was[a.src].data| == s.size
            && (a.k < s.size ==>
                  && Enabled(s, t, FillByte) && Shape(s)
                  && Step(s, t, FillByte) == s.(acts := s.acts[t := Filling(a.own, a.src, a.version, a.k + 1)],
                                                repo := s.repo.(copies := was[a.own := was[a.own].(data := was[a.own].data[a.k := was[a.src].data[a.k]])])))
  {
  }

  /**
   WriterManager.GetWrittenAccess: the first FREE copy becomes the private copy, with the
   published bytes in READ_WRITE mode, with its own old bytes in WRITE_ONLY mode.
   */
  lemma WriteAlone(s: State, t: nat, mode: WriteMode) returns (acts: seq<Action>, s': State)
    requires Inv(s) && t < |s.acts| && s.acts[t] == Idle
    ensures Alone(s, t, acts, s') && Inv(s') && Shape(s)
    ensures acts == (if mode == ReadWrite && s.repo.ptr.Some? && FirstFree(s.repo.copies).Some?
                     then [WriteTake(mode)] + Times(FillByte, s.size) + [FillDone] else [WriteTake(mode)])
    ensures FirstFree(s.repo.copies).None? ==> s' == s
    ensures FirstFree(s.repo.copies).Some? ==>
              && s'.repo == VdAccess.Acquired(s.repo, mode)
              && var (own, was) := (FirstFree(s.repo.copies).value, s.repo.copies);
                 s' == s.(acts := s.acts[t := Owning(own)],
                          repo := s.repo.(copies := was[own := was[own].(state := Used,
                            data := if mode == ReadWrite && s.repo.ptr.Some? then was[s.repo.ptr.value].data else was[own].data)]))
  {
    var free := FirstFree(s.repo.copies);
    if free.Some? && mode == ReadWrite && s.repo.ptr.Some? {
      s' := FilledAlone(s, t, free.value, s.repo.ptr.value);
      acts := [WriteTake(mode)] + Times(FillByte, s.size) + [FillDone];
    } else {
      s' := AloneOnce(s, t, WriteTake(mode));
      acts := [WriteTake(mode)];
    }
  }

  lemma FilledAlone(s: State, t: nat, own: nat, p: nat) returns (s': State)
    requires Inv(s) && t < |s.acts| && s.acts[t] == Idle && s.repo.ptr == Some(p) && FirstFree(s.repo.copies) == Some(own)
    ensures Alone(s, t, [WriteTake(ReadWrite)] + Times(FillByte, s.size) + [FillDone], s') && Inv(s') && p < |s.repo.copies|
    ensures s' == s.(acts := s.acts[t := Owning(own)],
                     repo := s.repo.(copies := s.repo.copies[own := s.repo.copies[own].(state := Used, data := s.repo.copies[p].data)]))
  {
    hide Inv, Step, Enabled, Alone;
    TakeStep(s, t, own, p);
    var s1 := AloneOnce(s, t, WriteTake(ReadWrite));
    var s2 := FillAlone(s1, t);
    AloneThen(s, t, [WriteTake(ReadWrite)], s1, Times(FillByte, s.size), s2);
    DoneStep(s2, t, own, p);
    s' := AloneOnce(s2, t, FillDone);
    AloneThen(s, t, [WriteTake(ReadWrite)] + Times(FillByte, s.size), s2, [FillDone], s');
    assert s'.repo.copies == s.repo.copies[own := s.repo.copies[own].(state := Used, data := s.repo.copies[p].data)];
    assert s'.acts == s.acts[t := Owning(own)];
  }

  lemma TakeStep(s: State, t: nat, own: nat, p: nat)
    requires Inv(s) && t < |s.acts| && s.acts[t] == Idle && s.repo.ptr == Some(p) && FirstFree(s.repo.copies) == Some(own)
    ensures Enabled(s, t, WriteTake(ReadWrite)) && Shape(s) && p < |s.repo.copies| && own != p
    ensures s.repo.copies[p].numReaders >= 0 && !s.repo.copies[p].toBeRelease
    ensures var (was, now) := (s.repo.copies, Step(s, t, WriteTake(ReadWrite)));
            && now == s.(acts := now.acts, repo := s.repo.(copies := now.repo.copies))
            && now.acts == s.acts[t := Filling(own, p, s.ver[p], 0)]
            && now.repo.copies == was[own := was[own].(state := Used)][p := was[p].(numReaders := was[p].numReaders + 1)]
  {
    assert CopyOk(s, p) && CopyOk(s, own);
  }

  lemma DoneStep(s: State, t: nat, own: nat, p: nat)
    requires Inv(s) && t < |s.acts| && s.acts[t].Filling? && s.acts[t].own == own && s.acts[t].src == p && s.acts[t].k == s.size
    requires p < |s.repo.copies| && !s.repo.copies[p].toBeRelease
    ensures Enabled(s, t, FillDone) && Shape(s)
    ensures var (was, now) := (s.repo.copies, Step(s, t, FillDone));
            && now == s.(acts := now.acts, repo := s.repo.(copies := now.repo.copies)) && now.acts == s.acts[t := Owning(own)]
            && now.repo.copies == was[p := was[p].(numReaders := was[p].numReaders - 1)]
  {
  }

  // ----- publication and cancellation -----

  lemma {:induction false} NotifyBytesAlone(s: State, t: nat) returns (s': State)
    requires Inv(s) && t < |s.acts| && s.acts[t].NotifyCopying?
    requires s.acts[t].src < |s.repo.copies| && |s.acts[t].buf| <= s.size
    requires s.acts[t].buf == s.repo.copies[s.acts[t].src].data[..|s.acts[t].buf|]
    ensures |s.acts[t].buf| <= s.size && Alone(s, t, Times(NotifyByte, s.size - |s.acts[t].buf|), s') && Inv(s')
    ensures var a := s.acts[t];
            s' == s.(acts := s.acts[t := NotifyCopying(a.own, a.src, a.version, s.repo.copies[a.src].data)])
    decreases s.size - |s.acts[t].buf|
  {
    var (a, data) := (s.acts[t], s.repo.copies[s.acts[t].src].data);
    if |a.buf| == s.size {
      assert a.buf == data;
      s' := s;
    } else {
      var m := AloneOnce(s, t, NotifyByte);
      assert m.acts[t].buf == data[..|a.buf| + 1];
      s' := NotifyBytesAlone(m, t);
      OneMore(NotifyByte, s.size - |a.buf| - 1);
      AloneThen(s, t, [NotifyByte], m, Times(NotifyByte, s.size - |a.buf| - 1), s');
    }
  }

  ghost function MessageSteps(size: nat): seq<Action> {
    [NotifyPin] + Times(NotifyByte, size) + [NotifyUnpin]
  }

  /** One message for a socket reader, built while the copy published last is still notified. */
  lemma MessageAlone(s: State, t: nat) returns (s': State)
    requires Inv(s) && t < |s.acts| && s.acts[t].Notifying? && s.repo.ptr == Some(s.acts[t].own)
    ensures Alone(s, t, MessageSteps(s.size), s') && Inv(s') && s.acts[t].own < |s.repo.copies|
    ensures s' == s.(sent := s.sent + [Sent(|s.log|, |s.log|, s.repo.copies[s.acts[t].own].data)])
  {
    hide Inv, Step, Enabled, Alone;
    var own := s.acts[t].own;
    PinStep(s, t);
    var s1 := AloneOnce(s, t, NotifyPin);
    var s2 := NotifyBytesAlone(s1, t);
    AloneThen(s, t, [NotifyPin], s1, Times(NotifyByte, s.size), s2);
    UnpinStep(s2, t);
    s' := AloneOnce(s2, t, NotifyUnpin);
    AloneThen(s, t, [NotifyPin] + Times(NotifyByte, s.size), s2, [NotifyUnpin], s');
    assert s'.repo.copies == s.repo.copies;
    assert s'.acts == s.acts;
  }

  lemma PinStep(s: State, t: nat)
    requires Inv(s) && t < |s.acts| && s.acts[t].Notifying? && s.repo.ptr == Some(s.acts[t].own)
    ensures Enabled(s, t, NotifyPin) && Shape(s) && s.acts[t].own < |s.repo.copies| && s.ver[s.acts[t].own] == |s.log|
    ensures var (own, now) := (s.acts[t].own, Step(s, t, NotifyPin));
            && s.repo.copies[own].numReaders >= 1 && !s.repo.copies[own].toBeRelease
            && now == s.(acts := now.acts, repo := s.repo.(copies := now.repo.copies))
            && now.acts == s.acts[t := NotifyCopying(own, own, |s.log|, [])]
            && now.repo.copies == s.repo.copies[own := s.repo.copies[own].(numReaders := s.repo.copies[own].numReaders + 1)]
  {
    assert CopyOk(s, s.acts[t].own);
    PinCountAtLeast(s.acts, t, s.acts[t].own);
  }

  lemma UnpinStep(s: State, t: nat)
    requires Inv(s) && t < |s.acts| && s.acts[t].NotifyCopying? && s.acts[t].src == s.acts[t].own && |s.acts[t].buf| == s.size
    requires s.acts[t].own < |s.repo.copies| && !s.repo.copies[s.acts[t].own].toBeRelease
    ensures Enabled(s, t, NotifyUnpin) && Shape(s)
    ensures var (own, now) := (s.acts[t].own, Step(s, t, NotifyUnpin));
            && now == s.(acts := s.acts[t := Notifying(own)], repo := s.repo.(copies := now.repo.copies),
                         sent := s.sent + [Sent(s.ver[own], s.acts[t].version, s.acts[t].buf)])
            && now.repo.copies == s.repo.copies[own := s.repo.copies[own].(numReaders := s.repo.copies[own].numReaders - 1)]
  {
  }

  ghost function MessagesSteps(size: nat, n: nat): seq<Action> {
    if n == 0 then [] else MessageSteps(size) + MessagesSteps(size, n - 1)
  }

  lemma {:induction false} MessagesAlone(s: State, t: nat, n: nat) returns (s': State)
    requires Inv(s) && t < |s.acts| && s.acts[t].Notifying? && s.repo.ptr == Some(s.acts[t].own)
    ensures Alone(s, t, MessagesSteps(s.size, n), s') && Inv(s') && s.acts[t].own < |s.repo.copies|
    ensures s' == s.(sent := s.sent + seq(n, _ => Sent(|s.log|, |s.log|, s.repo.copies[s.acts[t].own].data)))
    decreases n
  {
    hide Inv, Step, Enabled, Alone, MessageSteps;
    PinStep(s, t);
    if n == 0 {
      s' := s;
      Nothing(s, t);
    } else {
      var m := MessageAlone(s, t);
      s' := MessagesAlone(m, t, n - 1);
      AloneThen(s, t, MessageSteps(s.size), m, MessagesSteps(s.size, n - 1), s');
      var one := Sent(|s.log|, |s.log|, s.repo.copies[s.acts[t].own].data);
      assert [one] + seq(n - 1, _ => one) == seq(n, _ => one);
    }
  }

  ghost function PublishSteps(size: nat, n: nat): seq<Action> {
    [Publish] + MessagesSteps(size, n) + [NotifyEnd]
  }

  /** WriterManager.PublishWrittenAccess, with a message for each of `n` socket readers. */
  lemma PublishAlone(s: State, t: nat, n: nat) returns (s': State)
    requires Inv(s) && t < |s.acts| && s.acts[t].Owning?
    ensures Alone(s, t, PublishSteps(s.size, n), s') && Inv(s') && Shape(s) && s.acts[t].own < |s.repo.copies|
    ensures var (own, v) := (s.acts[t].own, |s.log| + 1);
            && s'.repo == MovePtr(s.repo, own) && s'.acts == s.acts[t := Idle]
            && s'.log == s.log + [s.repo.copies[own].data] && s'.ver == s.ver[own := v] && s'.finished == s.finished
            && s'.sent == s.sent + seq(n, _ => Sent(v, v, s.repo.copies[own].data))
  {
    hide Inv, Step, Enabled, Alone, MovePtr, PublishSteps;
    var own := s.acts[t].own;
    PublishStep(s, t);
    var s1 := AloneOnce(s, t, Publish);
    var s2 := MessagesAlone(s1, t, n);
    AloneThen(s, t, [Publish], s1, MessagesSteps(s.size, n), s2);
    NotifyEndStep(s2, t);
    s' := AloneOnce(s2, t, NotifyEnd);
    AloneThen(s, t, [Publish] + MessagesSteps(s.size, n), s2, [NotifyEnd], s');
    PublishStepsAre(s.size, n);
    assert s'.repo.copies == MovePtr(s.repo, own).copies;
    assert s'.acts == s.acts[t := Idle];
  }

  lemma PublishStepsAre(size: nat, n: nat)
    ensures PublishSteps(size, n) == [Publish] + MessagesSteps(size, n) + [NotifyEnd]
  {
  }

  lemma PublishStep(s: State, t: nat)
    requires Inv(s) && t < |s.acts| && s.acts[t].Owning?
    ensures Enabled(s, t, Publish) && Shape(s) && s.acts[t].own < |s.repo.copies|
    ensures var (own, now) := (s.acts[t].own, Step(s, t, Publish));
            var moved := MovePtr(s.repo, own);
            && |moved.copies| == |s.repo.copies| && moved.ptr == Some(own)
            && moved.copies[own].numReaders == 0 && !moved.copies[own].toBeRelease && moved.copies[own].data == s.repo.copies[own].data
            && now == s.(repo := moved.(copies := moved.copies[own := moved.copies[own].(numReaders := 1)]), acts := s.acts[t := Notifying(own)],
                         log := s.log + [s.repo.copies[own].data], ver := now.ver)
            && |s.ver| == |s.repo.copies| && now.ver == s.ver[own := |s.log| + 1]
  {
    OwnedIsPrivate(s, t, s.acts[t].own);
  }

  lemma NotifyEndStep(s: State, t: nat)
    requires Inv(s) && t < |s.acts| && s.acts[t].Notifying? && s.acts[t].own < |s.repo.copies|
    requires !s.repo.copies[s.acts[t].own].toBeRelease
    ensures Enabled(s, t, NotifyEnd) && Shape(s)
    ensures var (own, was) := (s.acts[t].own, s.repo.copies);
            Step(s, t, NotifyEnd) == s.(acts := s.acts[t := Idle],
                                        repo := s.repo.(copies := was[own := was[own].(numReaders := was[own].numReaders - 1)]))
  {
  }

  /** WriterManager.CancelWrittenAccess. */
  lemma CancelAlone(s: State, t: nat) returns (s': State)
    requires Inv(s) && t < |s.acts| && s.acts[t].Owning?
    ensures Alone(s, t, [Cancel], s') && Inv(s') && s.acts[t].own < |s.repo.copies|
    ensures s'.acts == s.acts[t := Idle] && s'.log == s.log
    ensures s'.repo == s.repo.(copies := s.repo.copies[s.acts[t].own := s.repo.copies[s.acts[t].own].(state := Free)])
  {
    OwnedIsPrivate(s, t, s.acts[t].own);
    s' := AloneOnce(s, t, Cancel);
  }
}
