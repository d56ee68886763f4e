/** How every start-up ends: no run goes on for ever, and which configurations always start. */
module StartupEnds {
  import opened Common
  import opened StartupSteps
  import opened Startup

  // ----- every run is bounded -----

  function PhaseWeight(p: Participant): nat {
    match p.phase
    case Waiting => 3
    case Called => 2
    case Half => 1
    case Done => 0
  }

  function PartsWeight(parts: seq<Participant>): nat {
    if parts == [] then 0 else PhaseWeight(parts[0]) + PartsWeight(parts[1..])
  }

  function StateWeight(s: DomainState, n: nat): nat {
    match s
    case PdIdle => n + 3 + n + 3
    case PdInit => n + 3
    case PdReady => 0
    case PdRunning => 0
  }

  /** Steps that one domain can still cause, in a start-up of `n` domains. */
  function Weight(d: Domain, n: nat): nat {
    StateWeight(d.state, n) + Messages(|d.toMain|, n) + |d.fromMain| + PartsWeight(d.parts)
  }

  /** A message to main may make it write to every domain. */
  function Messages(k: nat, n: nat): (m: nat)
    ensures k > 0 ==> m == Messages(k - 1, n) + n + 2
    ensures k == 0 ==> m == 0
  {
    if k == 0 then 0 else n + 2 + Messages(k - 1, n)
  }

  function Total(ds: seq<Domain>, n: nat): nat {
    if ds == [] then 0 else Weight(ds[0], n) + Total(ds[1..], n)
  }

  function Measure(w: World): nat {
    Total(w.domains, |w.domains|)
  }

  lemma {:induction false} PartsUpdate(parts: seq<Participant>, i: nat, p: Participant)
    requires i < |parts|
    ensures PartsWeight(parts[i := p]) == PartsWeight(parts) - PhaseWeight(parts[i]) + PhaseWeight(p)
  {
    if i == 0 {
      assert parts[0 := p][1..] == parts[1..];
    } else {
      assert parts[i := p][1..] == parts[1..][i - 1 := p];
      PartsUpdate(parts[1..], i - 1, p);
    }
  }

  lemma {:induction false} InitialisedWeight(parts: seq<Participant>)
    ensures PartsWeight(Initialised(parts)) <= PartsWeight(parts)
  {
    if parts != [] {
      assert Initialised(parts)[1..] == Initialised(parts[1..]);
      InitialisedWeight(parts[1..]);
    }
  }

  lemma {:induction false} TotalUpdate(ds: seq<Domain>, i: nat, d: Domain, n: nat)
    requires i < |ds|
    ensures Total(ds[i := d], n) == Total(ds, n) - Weight(ds[i], n) + Weight(d, n)
  {
    if i == 0 {
      assert ds[0 := d][1..] == ds[1..];
    } else {
      assert ds[i := d][1..] == ds[1..][i - 1 := d];
      TotalUpdate(ds[1..], i - 1, d, n);
    }
  }

  lemma {:induction false} ToldTotal(ds: seq<Domain>, m: ToDomain, n: nat)
    ensures Total(Told(ds, m), n) == Total(ds, n) + |ds|
  {
    if ds != [] {
      assert Told(ds, m)[1..] == Told(ds[1..], m);
      ToldTotal(ds[1..], m, n);
    }
  }

  lemma NotifiedWeight(d: Domain, n: nat)
    ensures Weight(Notified(d), n) <= Weight(d, n) && Notified(d).parts == d.parts
  {
    hide AllReady, PartsWeight;
    if Notified(d) != d {
      ReadySentWeight(d, Notified(d), n);
    }
  }

  lemma ReadySentWeight(d: Domain, x: Domain, n: nat)
    requires d.state == PdInit && x.state == PdReady && |x.toMain| == |d.toMain| + 1 && x.fromMain == d.fromMain && x.parts == d.parts
    ensures Weight(x, n) < Weight(d, n)
  {
    hide PartsWeight, Messages;
    MoreMessages(|d.toMain|, n);
  }

  lemma MoreMessages(k: nat, n: nat)
    ensures Messages(k + 1, n) == Messages(k, n) + n + 2
  {
  }

  lemma MovedWeight(d: Domain, p: nat, phase: Phase, ended: bool, n: nat)
    requires p < |d.parts| && PhaseWeight(d.parts[p].(phase := phase)) < PhaseWeight(d.parts[p])
    ensures Weight(Moved(d, p, phase).(endedBySet := ended), n) < Weight(d, n)
  {
    PartsUpdate(d.parts, p, d.parts[p].(phase := phase));
  }

  lemma ActedWeight(d: Domain, p: nat, n: nat)
    requires p < |d.parts| && (d.parts[p].phase == Called || d.parts[p].phase == Half)
    ensures Weight(Acted(d, p), n) < Weight(d, n)
  {
    hide Weight, Notified, Moved;
    NotifiedWeight(d, n);
    var part := d.parts[p];
    if part.phase == Called {
      MovedWeight(if part.notifiesFirst then Notified(d) else d, p, Half, false, n);
    } else {
      MovedWeight(if part.notifiesFirst then d else Notified(d), p, Done, part.notifiesFirst, n);
    }
  }

  lemma ConsumedWeight(d: Domain, n: nat)
    requires d.fromMain != []
    ensures Weight(Consumed(d), n) < Weight(d, n)
  {
    InitialisedWeight(d.parts);
  }

  lemma MessageTaken(d: Domain, n: nat)
    requires d.toMain != []
    ensures Weight(d.(toMain := d.toMain[1..]), n) == Weight(d, n) - (n + 2)
  {
  }

  lemma MessageSent(d: Domain, m: ToDomain, n: nat)
    ensures Weight(d.(fromMain := d.fromMain + [m]), n) == Weight(d, n) + 1
  {
  }

  lemma MainConsumedTotal(w: World, d: nat)
    requires d < |w.domains| && w.domains[d].toMain != []
    ensures Measure(MainConsumed(w, d)) < Measure(w) && |MainConsumed(w, d).domains| == |w.domains|
  {
    hide Weight, Total, Told;
    var n, x := |w.domains|, w.domains[d].(toMain := w.domains[d].toMain[1..]);
    var ds := w.domains[d := x];
    MessageTaken(w.domains[d], n);
    TotalUpdate(w.domains, d, x, n);
    var m := if w.domains[d].toMain[0] == ClientInit then InitMod else StartMod;
    ToldTotal(ds, m, n);
    MessageSent(x, m, n);
    TotalUpdate(ds, d, x.(fromMain := x.fromMain + [m]), n);
  }

  /** Every step brings the end nearer. */
  lemma StepShrinks(w: World, e: Event)
    requires Enabled(w, e)
    ensures Measure(Next(w, e)) < Measure(w) && |Next(w, e).domains| == |w.domains|
  {
    hide Weight, Total, MainConsumed, Consumed, Acted;
    var x, n := w.domains[e.d], |w.domains|;
    match e
    case Connect(d) =>
      ConnectWeight(x, n);
      TotalUpdate(w.domains, d, x.(state := PdInit, toMain := x.toMain + [ClientInit]), n);
    case MainReceives(d) => MainConsumedTotal(w, d);
    case DomainReceives(d) =>
      ConsumedWeight(x, n);
      TotalUpdate(w.domains, d, Consumed(x), n);
    case Acts(d, p) =>
      ActedWeight(x, p, n);
      TotalUpdate(w.domains, d, Acted(x, p), n);
  }

  lemma ConnectWeight(d: Domain, n: nat)
    requires d.state == PdIdle
    ensures Weight(d.(state := PdInit, toMain := d.toMain + [ClientInit]), n) < Weight(d, n)
  {
    assert |d.toMain + [ClientInit]| == |d.toMain| + 1;
  }

  /** No run is longer than the weight of its configuration: nothing goes on for ever. */
  lemma {:induction false} RunsAreBounded(ws: seq<World>, es: seq<Event>, k: nat)
    requires Run(ws, es) && k < |ws|
    ensures k + Measure(ws[k]) <= Measure(ws[0])
  {
    hide Next, Measure;
    if k > 0 {
      RunsAreBounded(ws, es, k - 1);
      assert Enabled(ws[k - 1], es[k - 1]);
      StepShrinks(ws[k - 1], es[k - 1]);
    }
  }

  // ----- configurations -----

  /** Same participants in the same places. */
  ghost predicate SameParts(a: World, b: World) {
    && |a.domains| == |b.domains|
    && forall d :: 0 <= d < |a.domains| ==> SameKinds(a.domains[d].parts, b.domains[d].parts)
  }

  ghost predicate SameKinds(a: seq<Participant>, b: seq<Participant>) {
    |a| == |b| && forall i :: 0 <= i < |a| ==> a[i].notifiesFirst == b[i].notifiesFirst
  }

  lemma StepSameParts(w: World, e: Event)
    requires Enabled(w, e)
    ensures SameParts(w, Next(w, e))
  {
    var x := w.domains[e.d];
    match e
    case Connect(d) =>
    case MainReceives(d) =>
    case DomainReceives(d) => assert SameKinds(x.parts, Consumed(x).parts);
    case Acts(d, p) => assert SameKinds(x.parts, Acted(x, p).parts);
  }

  lemma {:induction false} RunSameParts(ws: seq<World>, es: seq<Event>, k: nat)
    requires Run(ws, es) && k < |ws|
    ensures SameParts(ws[0], ws[k])
  {
    if k > 0 {
      RunSameParts(ws, es, k - 1);
      assert Enabled(ws[k - 1], es[k - 1]);
      StepSameParts(ws[k - 1], es[k - 1]);
      forall d | 0 <= d < |ws[0].domains| ensures SameKinds(ws[0].domains[d].parts, ws[k].domains[d].parts) {
        assert SameKinds(ws[0].domains[d].parts, ws[k - 1].domains[d].parts);
        assert SameKinds(ws[k - 1].domains[d].parts, ws[k].domains[d].parts);
      }
    }
  }

  ghost predicate AllRunning(w: World) {
    forall d :: 0 <= d < |w.domains| ==> w.domains[d].state == PdRunning
  }

  /** A run that cannot go on. */
  ghost predicate Maximal(ws: seq<World>, es: seq<Event>, w: World) {
    Run(ws, es) && ws[0] == w && Quiescent(ws[|es|])
  }

  /** No domain is empty, and none has a periodic trigger. */
  predicate Starts(w: World) {
    forall d :: 0 <= d < |w.domains| ==> SetsFirst(w.domains[d].parts)
  }

  /**
   Without empty domains and periodic triggers every maximal run ends with all domains
   running, each having sent CLIENT_READY exactly once, and main START_MOD once.
   */
  lemma StartupEndsRunning(ws: seq<World>, es: seq<Event>, w: World)
    requires Maximal(ws, es, w) && Starts(w)
    ensures AllRunning(ws[|es|]) && ws[|es|].starts == 1
    ensures forall d :: 0 <= d < |ws[|es|].domains| ==> ws[|es|].domains[d].sent == 1
  {
    StartupCompletes(ws, es, |es|);
    RunInv(ws, es, |es|);
    var v := ws[|es|];
    forall d | 0 <= d < |v.domains| ensures v.domains[d].sent == 1 && v.starts == 1 {
      assert DomainOk(v.domains[d], v.inits == 1, v.starts == 1);
    }
  }

  // ----- runs that stop -----

  lemma AppendRun(ws: seq<World>, es: seq<Event>, e: Event) returns (ws': seq<World>, es': seq<Event>)
    requires Run(ws, es) && Enabled(ws[|es|], e)
    ensures Run(ws', es') && es' == es + [e] && ws' == ws + [Next(ws[|es|], e)]
  {
    ws', es' := ws + [Next(ws[|es|], e)], es + [e];
    forall i | 0 <= i < |es'| ensures Enabled(ws'[i], es'[i]) && ws'[i + 1] == Next(ws'[i], es'[i]) {
      if i < |es| { assert es'[i] == es[i]; }
    }
  }

  /** Any run can be prolonged until nothing can happen. */
  lemma {:induction false} RunOut(ws: seq<World>, es: seq<Event>) returns (ws': seq<World>, es': seq<Event>)
    requires Run(ws, es)
    ensures Run(ws', es') && |ws| <= |ws'| && ws'[..|ws|] == ws && es'[..|es|] == es && Quiescent(ws'[|es'|])
    decreases Measure(ws[|es|])
  {
    if e :| Enabled(ws[|es|], e) {
      StepShrinks(ws[|es|], e);
      var a, b := AppendRun(ws, es, e);
      ws', es' := RunOut(a, b);
      assert ws'[..|ws|] == ws'[..|a|][..|ws|] && es'[..|es|] == es'[..|b|][..|es|];
    } else {
      ws', es' := ws, es;
    }
  }

  /** Every configuration has a maximal run. */
  lemma SomeMaximalRun(w: World) returns (ws: seq<World>, es: seq<Event>)
    requires Initial(w)
    ensures Maximal(ws, es, w)
  {
    assert Run([w], []);
    ws, es := RunOut([w], []);
    assert ws[0] == ws[..1][0];
  }

  /** An empty domain never reports CLIENT_READY: no run ever starts anything. */
  lemma EmptyDomainStops(ws: seq<World>, es: seq<Event>, w: World, d: nat)
    requires Maximal(ws, es, w) && d < |w.domains| && w.domains[d].parts == []
    ensures !AllRunning(ws[|es|])
  {
    RunSameParts(ws, es, |es|);
    EndsRunningIff(ws, es, |es|);
    assert SameKinds(w.domains[d].parts, ws[|es|].domains[d].parts);
  }

  // ----- the trigger comes last -----

  /** The last step of participant `p` of domain `d`. */
  ghost predicate Last(w: World, e: Event, d: nat, p: nat) {
    e == Acts(d, p) && Enabled(w, e) && w.domains[d].parts[p].phase == Half
  }

  /** Nothing can happen but the last step of `p`. */
  ghost predicate Awaits(w: World, d: nat, p: nat) {
    forall e :: Enabled(w, e) ==> Last(w, e, d, p)
  }

  lemma NotLastStep(w: World, e: Event, d: nat, p: nat)
    requires Enabled(w, e) && !Last(w, e, d, p) && d < |w.domains| && p < |w.domains[d].parts| && w.domains[d].parts[p].phase != Done
    ensures d < |Next(w, e).domains| && p < |Next(w, e).domains[d].parts| && Next(w, e).domains[d].parts[p].phase != Done
  {
  }

  /** Any run in which `p` is not done can be prolonged until only its last step is left. */
  lemma {:induction false} RunOutBut(ws: seq<World>, es: seq<Event>, d: nat, p: nat) returns (ws': seq<World>, es': seq<Event>)
    requires Run(ws, es) && d < |ws[|es|].domains| && p < |ws[|es|].domains[d].parts| && ws[|es|].domains[d].parts[p].phase != Done
    ensures Run(ws', es') && ws'[0] == ws[0] && Awaits(ws'[|es'|], d, p)
    ensures var v := ws'[|es'|]; d < |v.domains| && p < |v.domains[d].parts| && v.domains[d].parts[p].phase != Done
    decreases Measure(ws[|es|])
  {
    hide Next, Measure;
    var w := ws[|es|];
    if e :| Enabled(w, e) && !Last(w, e, d, p) {
      StepShrinks(w, e);
      NotLastStep(w, e, d, p);
      var a, b := AppendRun(ws, es, e);
      ws', es' := RunOutBut(a, b, d, p);
    } else {
      ws', es' := ws, es;
    }
  }

  /** There everything has settled and the trigger, which has notified, is the only one not ready. */
  lemma AwaitedTrigger(w: World, d: nat, p: nat)
    requires Inv(w) && Awaits(w, d, p) && d < |w.domains| && p < |w.domains[d].parts|
    requires w.domains[d].parts[p].notifiesFirst && w.domains[d].parts[p].phase != Done
    ensures Last(w, Acts(d, p), d, p)
    ensures forall i :: 0 <= i < |w.domains[d].parts| && i != p ==> w.domains[d].parts[i].phase == Done
  {
    forall i | 0 <= i < |w.domains|
      ensures w.domains[i].state != PdIdle && w.domains[i].toMain == [] && w.domains[i].fromMain == []
      ensures InitCounted(w.domains[i]) {
      assert !Last(w, Connect(i), d, p) && !Last(w, MainReceives(i), d, p) && !Last(w, DomainReceives(i), d, p);
    }
    EveryoneCounted(w.domains);
    var x := w.domains[d];
    assert DomainOk(x, w.inits == 1, w.starts == 1);
    assert !IsReady(x.parts[p]);
    assert x.state == PdInit;
    forall i | 0 <= i < |x.parts| && i != p ensures x.parts[i].phase == Done {
      assert !Last(w, Acts(d, i), d, p);
    }
    assert !Last(w, Acts(d, p), d, p) ==> !Enabled(w, Acts(d, p));
  }

  /** After that step nothing in the domain can act any more, so its late assignment stays the last. */
  lemma {:induction false} EndedStays(ws: seq<World>, es: seq<Event>, i: nat, k: nat, d: nat)
    requires Run(ws, es) && i <= k < |ws| && d < |ws[i].domains|
    requires ws[i].domains[d].endedBySet && AllDone(ws[i].domains[d].parts)
    ensures d < |ws[k].domains| && ws[k].domains[d].endedBySet && AllDone(ws[k].domains[d].parts)
  {
    if i < k {
      EndedStays(ws, es, i, k - 1, d);
      assert Enabled(ws[k - 1], es[k - 1]);
      EndedStep(ws[k - 1], es[k - 1], d);
    }
  }

  lemma EndedStep(w: World, e: Event, d: nat)
    requires Enabled(w, e) && d < |w.domains| && w.domains[d].endedBySet && AllDone(w.domains[d].parts)
    ensures d < |Next(w, e).domains| && Next(w, e).domains[d].endedBySet && AllDone(Next(w, e).domains[d].parts)
  {
    if e.DomainReceives? && e.d == d {
      assert Consumed(w.domains[d]).parts == w.domains[d].parts by {
        assert forall i :: 0 <= i < |w.domains[d].parts| ==> w.domains[d].parts[i].phase == Done;
      }
    }
  }

  lemma LastStep(w: World, d: nat, p: nat)
    requires Last(w, Acts(d, p), d, p) && w.domains[d].parts[p].notifiesFirst
    requires forall i :: 0 <= i < |w.domains[d].parts| && i != p ==> w.domains[d].parts[i].phase == Done
    ensures var v := Next(w, Acts(d, p)); d < |v.domains| && v.domains[d].endedBySet && AllDone(v.domains[d].parts)
  {
  }

  /** Whatever else the configuration is, one periodic trigger is enough to stop it. */
  lemma PeriodicTriggerStopsTheStartup(w: World, d: nat, p: nat) returns (ws: seq<World>, es: seq<Event>)
    requires Initial(w) && d < |w.domains| && p < |w.domains[d].parts| && w.domains[d].parts[p].notifiesFirst
    ensures Maximal(ws, es, w) && !AllRunning(ws[|es|])
  {
    hide Next, Measure, Inv;
    assert Run([w], []);
    assert Fresh(w.domains[d]);
    var a, b := RunOutBut([w], [], d, p);
    var v := a[|b|];
    RunInv(a, b, |b|);
    RunSameParts(a, b, |b|);
    assert SameKinds(w.domains[d].parts, v.domains[d].parts);
    AwaitedTrigger(v, d, p);
    LastStep(v, d, p);
    var a2, b2 := AppendRun(a, b, Acts(d, p));
    ws, es := RunOut(a2, b2);
    assert ws[0] == ws[..|a2|][0] == w;
    assert ws[|b2|] == ws[..|a2|][|b2|] == Next(v, Acts(d, p));
    EndedStays(ws, es, |b2|, |es|, d);
    EndsRunningIff(ws, es, |es|);
  }

  /**
   A configuration starts in every run if and only if none of its domains is empty or has a
   periodic trigger.
   */
  lemma AlwaysStartsIff(w: World)
    requires Initial(w)
    ensures (forall ws, es :: Maximal(ws, es, w) ==> AllRunning(ws[|es|])) <==> Starts(w)
  {
    if Starts(w) {
      forall ws, es | Maximal(ws, es, w) ensures AllRunning(ws[|es|]) {
        StartupEndsRunning(ws, es, w);
      }
    } else {
      var d :| 0 <= d < |w.domains| && !SetsFirst(w.domains[d].parts);
      if w.domains[d].parts == [] {
        var ws, es := SomeMaximalRun(w);
        EmptyDomainStops(ws, es, w, d);
      } else {
        var p :| 0 <= p < |w.domains[d].parts| && w.domains[d].parts[p].notifiesFirst;
        var ws, es := PeriodicTriggerStopsTheStartup(w, d, p);
      }
    }
  }

  // ----- when CLIENT_READY is missed, told from the run -----

  /** Step `i` is the late assignment of a periodic trigger of domain `d`, and no participant of it moves afterwards. */
  ghost predicate LateLast(ws: seq<World>, es: seq<Event>, i: nat, k: nat, d: nat) {
    && i < k <= |es| && k < |ws| && es[i].Acts? && es[i].d == d && Enabled(ws[i], es[i])
    && ws[i].domains[d].parts[es[i].p].notifiesFirst && ws[i].domains[d].parts[es[i].p].phase == Half
    && forall j :: i < j < k ==> !(es[j].Acts? && es[j].d == d)
  }

  lemma {:induction false} EndedIff(ws: seq<World>, es: seq<Event>, k: nat, d: nat)
    requires Run(ws, es) && k < |ws| && d < |ws[0].domains|
    ensures |ws[k].domains| == |ws[0].domains|
    ensures ws[k].domains[d].endedBySet <==> exists i :: LateLast(ws, es, i, k, d)
  {
    if k == 0 {
      assert Fresh(ws[0].domains[d]);
    } else {
      EndedIff(ws, es, k - 1, d);
      var w, e := ws[k - 1], es[k - 1];
      assert Enabled(w, e) && ws[k] == Next(w, e);
      EndedMoves(w, e, d);
      if ws[k].domains[d].endedBySet {
        if e.Acts? && e.d == d {
          assert LateLast(ws, es, k - 1, k, d);
        } else {
          var i :| LateLast(ws, es, i, k - 1, d);
          assert LateLast(ws, es, i, k, d);
        }
      }
      if i: nat :| LateLast(ws, es, i, k, d) {
        if i < k - 1 { assert LateLast(ws, es, i, k - 1, d); }
      }
    }
  }

  lemma EndedMoves(w: World, e: Event, d: nat)
    requires Enabled(w, e) && d < |w.domains|
    ensures |Next(w, e).domains| == |w.domains|
    ensures Next(w, e).domains[d].endedBySet ==
              if e.Acts? && e.d == d then w.domains[d].parts[e.p].notifiesFirst && w.domains[d].parts[e.p].phase == Half
              else w.domains[d].endedBySet
  {
  }

  /**
   Once all participants of a domain are through INITIALIZE, it has sent CLIENT_READY exactly
   once, unless the last of them to move was a periodic trigger: then never.
   */
  lemma ReadyIsMissedIffTriggerLast(ws: seq<World>, es: seq<Event>, k: nat, d: nat)
    requires Run(ws, es) && k < |ws| && d < |ws[k].domains| && d < |ws[0].domains|
    requires ws[k].domains[d].parts != [] && AllDone(ws[k].domains[d].parts)
    ensures ws[k].domains[d].sent == if exists i :: LateLast(ws, es, i, k, d) then 0 else 1
  {
    ReadyIsMissedIff(ws, es, k, d);
    EndedIff(ws, es, k, d);
  }
}
