/** What every run of the Versioned Data protocol guarantees. */
module VdTheorems {
  import opened Common
  import opened VdRepository
  import opened VdProtocol

  /** `sched[i]` is the activity and the action of step `i`. */
  ghost predicate Run(tr: seq<State>, sched: seq<(nat, Action)>) {
    && |tr| == |sched| + 1
    && Init(tr[0])
    && forall i {:trigger sched[i]} :: 0 <= i < |sched| ==> Next(tr[i], sched[i].0, sched[i].1, tr[i + 1])
  }

  ghost predicate Next(s: State, t: nat, a: Action, s': State) {
    Shape(s) && Enabled(s, t, a) && s' == Step(s, t, a)
  }

  lemma {:induction false} RunInv(tr: seq<State>, sched: seq<(nat, Action)>, i: nat)
    requires Run(tr, sched) && i < |tr|
    ensures Inv(tr[i])
  {
    if i == 0 {
      InitInv(tr[0]);
    } else {
      RunInv(tr, sched, i - 1);
      assert Next(tr[i - 1], sched[i - 1].0, sched[i - 1].1, tr[i]);
      StepInv(tr[i - 1], sched[i - 1].0, sched[i - 1].1);
    }
  }

  // ----- single steps -----

  lemma StampStep(s: State, t: nat, a: Action)
    requires Shape(s) && Enabled(s, t, a)
    ensures Step(s, t, a).repo.stamp == s.repo.stamp + (if Publishes(a) then 1 else 0)
    ensures s.log <= Step(s, t, a).log
  {
  }

  lemma OtherStep(s: State, t: nat, a: Action, u: nat)
    requires Shape(s) && Enabled(s, t, a) && u != t && u < |s.acts|
    ensures |Step(s, t, a).acts| == |s.acts| && Step(s, t, a).acts[u] == s.acts[u]
  {
  }

  lemma ReaderStep(s: State, t: nat, a: Action)
    requires Shape(s) && Enabled(s, t, a) && a != ReadEnd
    requires s.acts[t].ReadPinned? || s.acts[t].ReadCopied?
    ensures var a' := Step(s, t, a).acts[t];
            (a'.ReadPinned? || a'.ReadCopied?) && a'.version == s.acts[t].version
  {
  }

  lemma ReaderNext(s: State, step: (nat, Action), s': State, t: nat)
    requires Next(s, step.0, step.1, s') && step != (t, ReadEnd) && t < |s.acts|
    requires s.acts[t].ReadPinned? || s.acts[t].ReadCopied?
    ensures t < |s'.acts| && (s'.acts[t].ReadPinned? || s'.acts[t].ReadCopied?)
    ensures s'.acts[t].version == s.acts[t].version
  {
    if step.0 == t { ReaderStep(s, t, step.1); } else { OtherStep(s, step.0, step.1, t); }
  }

  lemma FillerStep(s: State, t: nat, a: Action)
    requires Shape(s) && Enabled(s, t, a) && a != FillDone && s.acts[t].Filling?
    ensures var a' := Step(s, t, a).acts[t]; a'.Filling? && a'.version == s.acts[t].version
  {
  }

  /** Bytes of the repository change only under the hand of their owner. */
  lemma DataStep(s: State, t: nat, a: Action, c: nat)
    requires Shape(s) && Enabled(s, t, a) && c < |s.repo.copies|
    ensures |Step(s, t, a).repo.copies| == |s.repo.copies|
    ensures Step(s, t, a).repo.copies[c].data != s.repo.copies[c].data ==> Owns(s.acts[t], c)
  {
  }

  // ----- what a copy is -----

  /**
   A USED copy is exactly one of published, private to one activity, or draining; a FREE
   copy is none of them; the reader count is the number of pins.
   */
  lemma CopyLifecycle(tr: seq<State>, sched: seq<(nat, Action)>, i: nat, c: nat)
    requires Run(tr, sched) && i < |tr| && c < |tr[i].repo.copies|
    ensures var s := tr[i];
            var cp := s.repo.copies[c];
            && cp.numReaders == PinCount(s.acts, c)
            && (cp.state == Used <==> IsPublished(s, c) || IsPrivate(s, c) || IsDraining(s, c))
            && !(IsPublished(s, c) && IsPrivate(s, c))
            && !(IsPublished(s, c) && IsDraining(s, c))
            && !(IsPrivate(s, c) && IsDraining(s, c))
            && (IsDraining(s, c) ==> cp.numReaders > 0)
            && (cp.state == Free ==> cp.numReaders == 0 && !cp.toBeRelease)
    ensures forall t, u :: 0 <= t < |tr[i].acts| && 0 <= u < |tr[i].acts| && t != u && Owns(tr[i].acts[t], c)
              ==> !Owns(tr[i].acts[u], c)
  {
    RunInv(tr, sched, i);
    assert CopyOk(tr[i], c);
  }

  /** No byte of a pinned copy changes, and no pinned copy is freed. */
  lemma PinnedCopiesAreStable(tr: seq<State>, sched: seq<(nat, Action)>, i: nat, c: nat)
    requires Run(tr, sched) && i < |sched| && c < |tr[i].repo.copies|
    ensures |tr[i + 1].repo.copies| == |tr[i].repo.copies|
    ensures tr[i + 1].repo.copies[c].data != tr[i].repo.copies[c].data ==> PinCount(tr[i].acts, c) == 0
    ensures tr[i + 1].repo.copies[c].state == Free ==> PinCount(tr[i + 1].acts, c) == 0
  {
    RunInv(tr, sched, i);
    RunInv(tr, sched, i + 1);
    var s, t, a := tr[i], sched[i].0, sched[i].1;
    assert Next(s, t, a, tr[i + 1]);
    DataStep(s, t, a, c);
    assert CopyOk(s, c);
    assert CopyOk(tr[i + 1], c);
  }

  // ----- reads -----

  /**
   Every completed read returns the bytes of one single publication, one that was
   current at some moment between the start of the call and the final stamp read.
   */
  lemma ReadsAreAtomic(tr: seq<State>, sched: seq<(nat, Action)>, i: nat, j: nat)
    requires Run(tr, sched) && i < |tr| && j < |tr[i].finished|
    ensures var r := tr[i].finished[j];
            && 1 <= r.version <= |tr[i].log|
            && r.bytes == tr[i].log[r.version - 1]
            && r.start <= r.version <= r.handleStamp
  {
    RunInv(tr, sched, i);
    assert ReadOk(tr[i], tr[i].finished[j]);
  }

  /** A read that starts after another one has completed never returns an older publication. */
  lemma ReadsNeverGoBack(tr: seq<State>, sched: seq<(nat, Action)>, i: nat, j: nat, k: nat)
    requires Run(tr, sched) && i < |tr| && k < |tr[i].finished| && j < tr[i].finished[k].after
    ensures j < |tr[i].finished|
    ensures tr[i].finished[j].version <= tr[i].finished[k].version
  {
    RunInv(tr, sched, i);
    assert ReadOk(tr[i], tr[i].finished[k]);
  }

  /** The branch that would lose a read slot (DATA_NOT_INITIALIZED after the first test) is dead. */
  lemma NoReadSlotIsLost(tr: seq<State>, sched: seq<(nat, Action)>, i: nat, t: nat)
    requires Run(tr, sched) && i < |tr| && t < |tr[i].acts|
    ensures tr[i].acts[t] != SlotLost
  {
    RunInv(tr, sched, i);
    assert ActOk(tr[i], tr[i].acts[t]);
  }

  /** A message built while publication v is notified carries v or a later publication, whole. */
  lemma NotificationsAreFresh(tr: seq<State>, sched: seq<(nat, Action)>, i: nat, j: nat)
    requires Run(tr, sched) && i < |tr| && j < |tr[i].sent|
    ensures var m := tr[i].sent[j];
            1 <= m.announced <= m.version <= |tr[i].log| && m.bytes == tr[i].log[m.version - 1]
  {
    RunInv(tr, sched, i);
    assert SentOk(tr[i], tr[i].sent[j]);
  }

  // ----- the stamp of a handle -----

  ghost function Publications(sched: seq<(nat, Action)>): nat {
    if sched == [] then 0
    else Publications(sched[..|sched| - 1]) + (if Publishes(sched[|sched| - 1].1) then 1 else 0)
  }

  lemma {:induction false} StampCountsPublications(tr: seq<State>, sched: seq<(nat, Action)>, i: nat, j: nat)
    requires Run(tr, sched) && i <= j < |tr|
    ensures tr[j].repo.stamp == tr[i].repo.stamp + Publications(sched[i..j])
    decreases j - i
  {
    hide Step, Enabled, Shape;
    if i < j {
      StampCountsPublications(tr, sched, i, j - 1);
      assert sched[i..j][..j - 1 - i] == sched[i..j - 1];
      assert Next(tr[j - 1], sched[j - 1].0, sched[j - 1].1, tr[j]);
      StampStep(tr[j - 1], sched[j - 1].0, sched[j - 1].1);
    }
  }

  lemma {:induction false} NoPublications(sched: seq<(nat, Action)>)
    ensures Publications(sched) == 0 <==> forall k :: 0 <= k < |sched| ==> !Publishes(sched[k].1)
  {
    if sched != [] {
      var rest := sched[..|sched| - 1];
      NoPublications(rest);
      assert forall k :: 0 <= k < |rest| ==> rest[k] == sched[k];
    }
  }

  lemma PinnedVersion(tr: seq<State>, sched: seq<(nat, Action)>, t: nat, i: nat)
    requires Run(tr, sched) && i < |sched| && sched[i] == (t, ReadPin)
    ensures t < |tr[i + 1].acts| && tr[i + 1].acts[t].ReadPinned?
    ensures tr[i + 1].acts[t].version == tr[i].repo.stamp
  {
    RunInv(tr, sched, i);
    var s := tr[i];
    assert Next(s, t, ReadPin, tr[i + 1]);
    assert ActOk(s, s.acts[t]);
    assert CopyOk(s, s.repo.ptr.value);
  }

  /** Between its pin and its last statement a read keeps the version it pinned. */
  lemma {:induction false} VersionIsKept(tr: seq<State>, sched: seq<(nat, Action)>, t: nat, i: nat, j: nat)
    requires Run(tr, sched) && i < j < |tr| && sched[i] == (t, ReadPin)
    requires forall k :: i < k < j ==> sched[k] != (t, ReadEnd)
    ensures t < |tr[j].acts| && (tr[j].acts[t].ReadPinned? || tr[j].acts[t].ReadCopied?)
    ensures tr[j].acts[t].version == tr[i].repo.stamp
    decreases j
  {
    if j == i + 1 {
      PinnedVersion(tr, sched, t, i);
    } else {
      VersionIsKept(tr, sched, t, i, j - 1);
      ReaderNext(tr[j - 1], sched[j - 1], tr[j], t);
    }
  }

  /**
   The header documents the stamp of a handle as the counter of the version read. It is
   that exactly when nobody published between the pin and the last statement of the call.
   */
  lemma HandleStampExactness(tr: seq<State>, sched: seq<(nat, Action)>, t: nat, i: nat, j: nat)
    requires Run(tr, sched) && i < j < |sched| && sched[i] == (t, ReadPin) && sched[j] == (t, ReadEnd)
    requires forall k :: i < k < j ==> sched[k] != (t, ReadEnd)
    ensures |tr[j + 1].finished| > 0
    ensures var r := tr[j + 1].finished[|tr[j + 1].finished| - 1];
            r.handleStamp == r.version <==> forall k :: i < k < j ==> !Publishes(sched[k].1)
  {
    VersionIsKept(tr, sched, t, i, j);
    assert Next(tr[j], t, ReadEnd, tr[j + 1]);
    StampCountsPublications(tr, sched, i, j);
    NoPublications(sched[i..j]);
    assert forall k :: i <= k < j ==> sched[i..j][k - i] == sched[k];
    if forall k :: i < k < j ==> !Publishes(sched[k].1) {
      assert forall k :: 0 <= k < |sched[i..j]| ==> !Publishes(sched[i..j][k].1);
    } else {
      var k :| i < k < j && Publishes(sched[k].1);
      assert Publishes(sched[i..j][k - i].1);
    }
  }

  /** A run of two activities: the writer publishes again after the reader has copied publication 1. */
  ghost function RaceState(i: nat): State
    requires i < 10
  {
    var free, used := VdCopy([0], 0, Free, false), VdCopy([0], 0, Used, false);
    var pinned := VdCopy([0], 1, Used, false);
    var once := State(Repo([used, free], Some(0), 1), 1, [Idle, Idle], [[0]], [1, 0], [], []);
    var twice := State(Repo([free, used], Some(1), 2), 1, [Idle, Idle], [[0], [0]], [1, 2], [], []);
    if i == 0 then State(Repo([free, free], None, 0), 1, [Idle, Idle], [], [0, 0], [], [])
    else if i == 1 then State(Repo([used, free], None, 0), 1, [Owning(0), Idle], [], [0, 0], [], [])
    else if i == 2 then once
    else if i == 3 then once.(acts := [Idle, ReadChecked(1, 0)])
    else if i == 4 then once.(repo := Repo([pinned, free], Some(0), 1), acts := [Idle, ReadPinned(0, 1, 0, 1, [])])
    else if i == 5 then once.(repo := Repo([pinned, free], Some(0), 1), acts := [Idle, ReadPinned(0, 1, 0, 1, [0])])
    else if i == 6 then once.(acts := [Idle, ReadCopied(1, 0, 1, [0])])
    else if i == 7 then once.(repo := Repo([used, used], Some(0), 1), acts := [Owning(1), ReadCopied(1, 0, 1, [0])])
    else if i == 8 then twice.(acts := [Idle, ReadCopied(1, 0, 1, [0])])
    else twice.(finished := [Read(1, 0, 1, [0], 2)])
  }

  ghost function RaceStep(i: nat): (nat, Action)
    requires i < 9
  {
    if i == 0 || i == 6 then (0, WriteTake(WriteOnly))
    else if i == 1 || i == 7 then (0, PublishQuietly)
    else if i == 2 then (1, ReadBegin)
    else if i == 3 then (1, ReadPin)
    else if i == 4 then (1, ReadByte)
    else if i == 5 then (1, ReadUnpin)
    else (1, ReadEnd)
  }

  ghost predicate RaceNext(i: nat) {
    i < 9 && Next(RaceState(i), RaceStep(i).0, RaceStep(i).1, RaceState(i + 1))
  }

  lemma RaceTakes()
    ensures RaceNext(0) && RaceNext(6)
  {
    assert FirstFree(RaceState(6).repo.copies, 1) == Some(1);
    assert FirstFree(RaceState(6).repo.copies) == Some(1);
    assert Step(RaceState(6), 0, WriteTake(WriteOnly)).repo.copies == RaceState(7).repo.copies;
    assert Step(RaceState(0), 0, WriteTake(WriteOnly)).repo.copies == RaceState(1).repo.copies;
  }

  lemma RaceFirstPublication()
    ensures RaceNext(1)
  {
    assert Step(RaceState(1), 0, PublishQuietly).repo.copies == RaceState(2).repo.copies;
  }

  lemma RaceSecondPublication()
    ensures RaceNext(7)
  {
    assert Step(RaceState(7), 0, PublishQuietly).repo.copies == RaceState(8).repo.copies;
  }

  lemma RaceReads()
    ensures RaceNext(2) && RaceNext(8)
  {
  }

  lemma RacePin()
    ensures RaceNext(3)
  {
    assert Step(RaceState(3), 1, ReadPin).repo.copies == RaceState(4).repo.copies;
  }

  lemma RaceUnpin()
    ensures RaceNext(5)
  {
    assert Step(RaceState(5), 1, ReadUnpin).repo.copies == RaceState(6).repo.copies;
  }

  lemma RaceByte()
    ensures RaceNext(4)
  {
    var s := RaceState(4);
    assert s.acts[1].buf + [s.repo.copies[0].data[0]] == [0];
    assert Step(s, 1, ReadByte).acts == RaceState(5).acts;
  }

  lemma RaceEnds()
    ensures Init(RaceState(0)) && RaceState(9).finished == [Read(1, 0, 1, [0], 2)]
  {
  }

  /** The race really shows: the handle names publication 2 while the bytes are those of publication 1. */
  lemma HandleStampCanRunAhead() returns (tr: seq<State>, sched: seq<(nat, Action)>)
    ensures Run(tr, sched)
    ensures |tr| == 10 && tr[9].finished == [Read(1, 0, 1, [0], 2)]
  {
    hide Step, Enabled, Shape, RaceState, RaceStep;
    tr := seq(10, i requires 0 <= i < 10 => RaceState(i));
    sched := seq(9, i requires 0 <= i < 9 => RaceStep(i));
    RaceEnds();
    RaceTakes();
    RaceFirstPublication();
    RaceSecondPublication();
    RaceReads();
    RacePin();
    RaceUnpin();
    RaceByte();
    forall i | 0 <= i < 9 ensures Next(tr[i], sched[i].0, sched[i].1, tr[i + 1]) {
      assert RaceNext(i);
    }
  }

  // ----- availability -----

  ghost function UsedCopies(s: State): set<nat> {
    set c: nat | c < |s.repo.copies| && s.repo.copies[c].state == Used
  }

  ghost function HeldBy(a: Activity): set<nat> {
    match a
    case ReadPinned(src, _, _, _, _) => {src}
    case Filling(own, src, _, _) => {own, src}
    case Owning(own) => {own}
    case Notifying(own) => {own}
    case NotifyCopying(own, src, _, _) => {own, src}
    case _ => {}
  }

  /** Private copies plus pins. */
  ghost function Load(acts: seq<Activity>): nat {
    if acts == [] then 0 else LoadOf(acts[0]) + Load(acts[1..])
  }

  ghost function LoadOf(a: Activity): nat {
    match a
    case ReadPinned(_, _, _, _, _) => 1
    case Filling(_, _, _, _) => 2
    case Owning(_) => 1
    case Notifying(_) => 1
    case NotifyCopying(_, _, _, _) => 2
    case _ => 0
  }

  ghost function Held(acts: seq<Activity>): set<nat> {
    if acts == [] then {} else HeldBy(acts[0]) + Held(acts[1..])
  }

  lemma {:induction false} HeldSize(acts: seq<Activity>)
    ensures |Held(acts)| <= Load(acts)
  {
    if acts != [] {
      HeldSize(acts[1..]);
      var a, b := HeldBy(acts[0]), Held(acts[1..]);
      assert |a + b| <= |a| + |b|;
    }
  }

  lemma {:induction false} HeldHas(acts: seq<Activity>, t: nat, c: nat)
    requires t < |acts| && (Owns(acts[t], c) || Pins(acts[t], c) > 0)
    ensures c in Held(acts)
  {
    if t > 0 { HeldHas(acts[1..], t - 1, c); }
  }

  lemma {:induction false} SomePin(acts: seq<Activity>, c: nat) returns (t: nat)
    requires PinCount(acts, c) > 0
    ensures t < |acts| && Pins(acts[t], c) > 0
  {
    if Pins(acts[0], c) > 0 { return 0; }
    var u := SomePin(acts[1..], c);
    return u + 1;
  }

  /** USED copies never exceed the published one, the private ones and the pins. */
  lemma UsedCopiesBound(s: State)
    requires Inv(s)
    ensures |UsedCopies(s)| <= (if s.repo.ptr.Some? then 1 else 0) + Load(s.acts)
  {
    var pub := if s.repo.ptr.Some? then {s.repo.ptr.value} else {};
    forall c | c in UsedCopies(s) ensures c in pub + Held(s.acts) {
      assert CopyOk(s, c);
      if IsPrivate(s, c) {
        var t :| 0 <= t < |s.acts| && Owns(s.acts[t], c);
        HeldHas(s.acts, t, c);
      } else if IsDraining(s, c) {
        var t := SomePin(s.acts, c);
        HeldHas(s.acts, t, c);
      }
    }
    HeldSize(s.acts);
    SubsetSize(UsedCopies(s), pub + Held(s.acts));
  }

  ghost function UpTo(n: nat): (r: set<nat>)
    ensures |r| == n && forall c: nat :: c in r <==> c < n
  {
    if n == 0 then {} else UpTo(n - 1) + {n - 1}
  }

  lemma AllUsed(s: State)
    requires FirstFree(s.repo.copies).None?
    ensures |UsedCopies(s)| == |s.repo.copies|
  {
    assert UsedCopies(s) == UpTo(|s.repo.copies|);
  }

  /**
   A repository with more copies than 1 + private copies + pins always has one to give:
   ldp_get_written_VD_copy cannot fail.
   */
  lemma WriteAccessIsAvailable(tr: seq<State>, sched: seq<(nat, Action)>, i: nat)
    requires Run(tr, sched) && i < |tr|
    requires |tr[i].repo.copies| > 1 + Load(tr[i].acts)
    ensures FirstFree(tr[i].repo.copies).Some?
  {
    RunInv(tr, sched, i);
    var s := tr[i];
    UsedCopiesBound(s);
    if FirstFree(s.repo.copies).None? {
      AllUsed(s);
    }
  }

  // ----- read-write accesses -----

  lemma {:induction false} FillKeepsVersion(tr: seq<State>, sched: seq<(nat, Action)>, t: nat, i: nat, j: nat)
    requires Run(tr, sched) && i < j < |tr| && sched[i] == (t, WriteTake(ReadWrite))
    requires tr[i].repo.ptr.Some? && FirstFree(tr[i].repo.copies).Some?
    requires forall k :: i < k < j ==> sched[k] != (t, FillDone)
    ensures t < |tr[j].acts| && tr[j].acts[t].Filling? && tr[j].acts[t].version == |tr[i].log|
    decreases j
  {
    var s, u, a := tr[j - 1], sched[j - 1].0, sched[j - 1].1;
    assert Next(s, u, a, tr[j]);
    if j == i + 1 {
      RunInv(tr, sched, i);
      assert CopyOk(s, s.repo.ptr.value);
    } else {
      FillKeepsVersion(tr, sched, t, i, j - 1);
      if u == t { FillerStep(s, t, a); } else { OtherStep(s, u, a, t); }
    }
  }

  /**
   A READ_WRITE access starts from the whole publication that was current when the copy
   was taken, whatever was published while it was being filled.
   */
  lemma ReadWriteStartsFromPublication(tr: seq<State>, sched: seq<(nat, Action)>, t: nat, i: nat, j: nat)
    requires Run(tr, sched) && i < j < |sched|
    requires sched[i] == (t, WriteTake(ReadWrite)) && sched[j] == (t, FillDone)
    requires tr[i].repo.ptr.Some? && FirstFree(tr[i].repo.copies).Some?
    requires forall k :: i < k < j ==> sched[k] != (t, FillDone)
    ensures t < |tr[j + 1].acts| && tr[j + 1].acts[t].Owning? && |tr[i].log| > 0
    ensures var own := tr[j + 1].acts[t].own;
            own < |tr[j + 1].repo.copies|
            && tr[j + 1].repo.copies[own].data == tr[i].log[|tr[i].log| - 1]
  {
    RunInv(tr, sched, i);
    RunInv(tr, sched, j);
    FillKeepsVersion(tr, sched, t, i, j);
    assert Next(tr[j], t, FillDone, tr[j + 1]);
    var s := tr[j];
    assert ActOk(s, s.acts[t]) && ActShape(s, s.acts[t]);
    var own := s.acts[t].own;
    assert s.repo.copies[own].data[..s.size] == s.repo.copies[own].data;
    OwnedIsPrivate(s, t, own);
    LogGrows(tr, sched, i, j);
  }

  lemma {:induction false} LogGrows(tr: seq<State>, sched: seq<(nat, Action)>, i: nat, j: nat)
    requires Run(tr, sched) && i <= j < |tr|
    ensures tr[i].log <= tr[j].log
    decreases j - i
  {
    if i < j {
      LogGrows(tr, sched, i, j - 1);
      assert Next(tr[j - 1], sched[j - 1].0, sched[j - 1].1, tr[j]);
      StampStep(tr[j - 1], sched[j - 1].0, sched[j - 1].1);
    }
  }
}
