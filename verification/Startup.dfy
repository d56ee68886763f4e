/**
 The start-up rendezvous: every protection domain reports to the main process, which
 has the modules initialised and, when all are ready, started (lib/ldp_network.c,
 lib/ldp_mod_container_util.c, lib/tcp/ldp_tcp_comp_server.c).
 */
module Startup {
  import opened Common
  import opened StartupSteps

  ghost predicate Run(ws: seq<World>, es: seq<Event>) {
    && |ws| == |es| + 1 && Initial(ws[0])
    && forall i {:trigger es[i]} :: 0 <= i < |es| ==> Enabled(ws[i], es[i]) && ws[i + 1] == Next(ws[i], es[i])
  }

  lemma {:induction false} RunInv(ws: seq<World>, es: seq<Event>, k: nat)
    requires Run(ws, es) && k <= |es|
    ensures Inv(ws[k])
  {
    if k == 0 {
      InitialInv(ws[0]);
    } else {
      RunInv(ws, es, k - 1);
      assert Enabled(ws[k - 1], es[k - 1]);
      StepInv(ws[k - 1], es[k - 1]);
    }
  }

  // ----- the rendezvous -----

  /**
   Main broadcasts INIT_MOD and START_MOD at most once each, START_MOD only when every
   module of every domain is ready; every domain sends CLIENT_READY at most once.
   */
  lemma StartsWhenAllAreReady(ws: seq<World>, es: seq<Event>, k: nat)
    requires Run(ws, es) && k < |ws|
    ensures ws[k].inits <= 1 && ws[k].starts <= 1
    ensures ws[k].nbInit <= |ws[k].domains| && ws[k].nbReady <= |ws[k].domains|
    ensures forall d :: 0 <= d < |ws[k].domains| ==> ws[k].domains[d].sent <= 1
    ensures ws[k].starts == 1 ==> forall d :: 0 <= d < |ws[k].domains| ==> AllReady(ws[k].domains[d].parts)
  {
    RunInv(ws, es, k);
  }

  /** A domain handles START_MOD in state READY, never earlier. */
  lemma StartIsHandledInReady(ws: seq<World>, es: seq<Event>, k: nat, d: nat)
    requires Run(ws, es) && k < |ws| && d < |ws[k].domains|
    ensures ws[k].domains[d].startedIn.Some? ==> ws[k].domains[d].startedIn == Some(PdReady)
    ensures ws[k].domains[d].state == PdRunning <==> ws[k].domains[d].startedIn.Some?
  {
    RunInv(ws, es, k);
    assert DomainOk(ws[k].domains[d], ws[k].inits == 1, ws[k].starts == 1);
  }

  predicate AllDone(parts: seq<Participant>) {
    forall i :: 0 <= i < |parts| ==> parts[i].phase == Done
  }

  /**
   When all participants of a domain have gone through INITIALIZE, CLIENT_READY has been
   missed for good exactly when their last step was a state assignment that came after its
   own notification, which only a periodic trigger makes.
   */
  lemma ReadyIsMissedIff(ws: seq<World>, es: seq<Event>, k: nat, d: nat)
    requires Run(ws, es) && k < |ws| && d < |ws[k].domains|
    requires ws[k].domains[d].parts != [] && AllDone(ws[k].domains[d].parts)
    ensures ws[k].domains[d].sent == 0 <==> ws[k].domains[d].endedBySet
    ensures ws[k].domains[d].sent == 0 || ws[k].domains[d].sent == 1
  {
    RunInv(ws, es, k);
    var x := ws[k].domains[d];
    assert DomainOk(x, ws[k].inits == 1, ws[k].starts == 1);
    assert x.parts[0].phase == Done;
    assert Unnoticed(x);
  }

  // ----- domains without periodic triggers -----

  predicate SetsFirst(parts: seq<Participant>) {
    parts != [] && forall i :: 0 <= i < |parts| ==> !parts[i].notifiesFirst
  }

  /** No domain is empty or has a periodic trigger, and none has ended on a late assignment. */
  predicate EverySetsFirst(w: World) {
    forall d :: 0 <= d < |w.domains| ==> SetsFirst(w.domains[d].parts) && !w.domains[d].endedBySet
  }

  lemma StepSetsFirst(w: World, e: Event)
    requires EverySetsFirst(w) && Enabled(w, e)
    ensures |Next(w, e).domains| == |w.domains| && EverySetsFirst(Next(w, e))
  {
    var x := w.domains[e.d];
    assert SetsFirst(x.parts);
    match e
    case Connect(d) =>
    case MainReceives(d) =>
    case DomainReceives(d) =>
      assert SetsFirst(Consumed(x).parts);
    case Acts(d, p) =>
      assert SetsFirst(Acted(x, p).parts) && !Acted(x, p).endedBySet;
  }

  lemma {:induction false} StaysSetsFirst(ws: seq<World>, es: seq<Event>, k: nat)
    requires Run(ws, es) && k < |ws| && EverySetsFirst(ws[0])
    ensures EverySetsFirst(ws[k])
  {
    if k > 0 {
      StaysSetsFirst(ws, es, k - 1);
      assert Enabled(ws[k - 1], es[k - 1]);
      StepSetsFirst(ws[k - 1], es[k - 1]);
    }
  }

  /** Nothing can happen any more. */
  ghost predicate Quiescent(w: World) {
    forall e :: !Enabled(w, e)
  }

  predicate Settled(d: Domain) {
    && d.state != PdIdle && d.toMain == [] && d.fromMain == []
    && forall i :: 0 <= i < |d.parts| ==> d.parts[i].phase == Waiting || d.parts[i].phase == Done
  }

  lemma QuiescentIsSettled(w: World, d: nat)
    requires Quiescent(w) && d < |w.domains|
    ensures Settled(w.domains[d])
  {
    assert !Enabled(w, Connect(d)) && !Enabled(w, MainReceives(d)) && !Enabled(w, DomainReceives(d));
    forall i | 0 <= i < |w.domains[d].parts| ensures w.domains[d].parts[i].phase == Waiting || w.domains[d].parts[i].phase == Done {
      assert !Enabled(w, Acts(d, i));
    }
  }

  lemma {:induction false} EveryoneCounted(ds: seq<Domain>)
    ensures (forall i :: 0 <= i < |ds| ==> InitCounted(ds[i])) ==> InitCount(ds) == |ds|
    ensures (forall i :: 0 <= i < |ds| ==> ReadyCounted(ds[i])) ==> ReadyCount(ds) == |ds|
  {
    if ds != [] {
      EveryoneCounted(ds[1..]);
      assert forall i :: 0 <= i < |ds[1..]| ==> ds[1..][i] == ds[i + 1];
    }
  }

  /** Where everything has settled, a domain that is not running either missed its CLIENT_READY or waits for one that did. */
  lemma SettledDomain(w: World, d: nat)
    requires Inv(w) && d < |w.domains| && forall i :: 0 <= i < |w.domains| ==> Settled(w.domains[i])
    ensures w.inits == 1
    ensures w.domains[d].state == PdInit <==> w.domains[d].parts == [] || w.domains[d].endedBySet
    ensures w.domains[d].state == PdReady ==> w.starts == 0
  {
    EveryoneCounted(w.domains);
    var x := w.domains[d];
    assert DomainOk(x, true, w.starts == 1);
    if x.state == PdInit && x.parts != [] {
      assert forall i :: 0 <= i < |x.parts| ==> x.parts[i].phase == Done;
      assert Unnoticed(x);
    }
  }

  /**
   Where nothing can happen any more, all domains are running exactly when each has a
   participant and none ended on the late assignment of a periodic trigger.
   */
  lemma EndsRunningIff(ws: seq<World>, es: seq<Event>, k: nat)
    requires Run(ws, es) && k < |ws| && Quiescent(ws[k])
    ensures (forall d :: 0 <= d < |ws[k].domains| ==> ws[k].domains[d].state == PdRunning)
            <==> forall d :: 0 <= d < |ws[k].domains| ==> ws[k].domains[d].parts != [] && !ws[k].domains[d].endedBySet
  {
    RunInv(ws, es, k);
    var w := ws[k];
    forall d | 0 <= d < |w.domains| ensures Settled(w.domains[d]) {
      QuiescentIsSettled(w, d);
    }
    forall d | 0 <= d < |w.domains|
      ensures w.domains[d].state == PdInit <==> w.domains[d].parts == [] || w.domains[d].endedBySet
      ensures w.domains[d].state == PdReady ==> w.starts == 0
      ensures w.domains[d].state == PdRunning ==> w.domains[d].parts != [] && !w.domains[d].endedBySet {
      SettledDomain(w, d);
      assert DomainOk(w.domains[d], w.inits == 1, w.starts == 1);
    }
    if forall d :: 0 <= d < |w.domains| ==> w.domains[d].parts != [] && !w.domains[d].endedBySet {
      EveryoneCounted(w.domains);
    }
  }

  /** Without periodic triggers the start-up never stops short: until all domains run, something can happen. */
  lemma StartupCompletes(ws: seq<World>, es: seq<Event>, k: nat)
    requires Run(ws, es) && k < |ws|
    requires forall d :: 0 <= d < |ws[0].domains| ==> SetsFirst(ws[0].domains[d].parts)
    ensures (exists e :: Enabled(ws[k], e)) || forall d :: 0 <= d < |ws[k].domains| ==> ws[k].domains[d].state == PdRunning
  {
    StaysSetsFirst(ws, es, k);
    if forall e :: !Enabled(ws[k], e) {
      EndsRunningIff(ws, es, k);
      assert forall d :: 0 <= d < |ws[k].domains| ==> SetsFirst(ws[k].domains[d].parts);
    }
  }
}
