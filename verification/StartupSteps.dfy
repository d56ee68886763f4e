/**
 The steps of the start-up rendezvous (lib/ldp_network.c, lib/ldp_mod_container_util.c,
 lib/tcp/ldp_tcp_comp_server.c) and the invariant they keep.

 A step is a connection, the handling of one message by main or by a protection domain, or
 half the initialisation of one participant: its state assignment and its notification are
 separate sections of the code, and a periodic trigger runs them in the other order.
 */
module StartupSteps {
  import opened Common

  datatype DomainState = PdIdle | PdInit | PdReady | PdRunning

  datatype ToMain = ClientInit | ClientReady
  datatype ToDomain = InitMod | StartMod

  /**
   A module, dynamic trigger or periodic trigger and what it has done with INITIALIZE.
   It takes two steps: setting its state to READY, and notifying the domain. The periodic
   trigger of lib/ldp_trigger.c notifies first, all the others set their state first.
   */
  datatype Phase = Waiting | Called | Half | Done
  datatype Participant = Participant(notifiesFirst: bool, phase: Phase)

  predicate IsReady(p: Participant) {
    p.phase == Done || (p.phase == Half && !p.notifiesFirst)
  }

  /**
   `sent` counts the CLIENT_READY messages, `startedIn` is the state START_MOD was handled
   in, and `endedBySet` tells whether the last step of a participant was the state
   assignment of one that had already notified.
   */
  datatype Domain = Domain(state: DomainState, parts: seq<Participant>, toMain: seq<ToMain>, fromMain: seq<ToDomain>,
                           sent: nat, startedIn: Option<DomainState>, endedBySet: bool)

  /** The main process with its two counters; `inits` and `starts` count its broadcasts. */
  datatype World = World(domains: seq<Domain>, nbInit: nat, nbReady: nat, inits: nat, starts: nat)

  datatype Event = Connect(d: nat) | MainReceives(d: nat) | DomainReceives(d: nat) | Acts(d: nat, p: nat)

  // ----- the steps -----

  /** all_module_ready */
  predicate AllReady(parts: seq<Participant>) {
    forall i :: 0 <= i < |parts| ==> IsReady(parts[i])
  }

  /** ldp_mod_init_notify, under the state mutex; the write to the father succeeds. */
  function Notified(d: Domain): Domain {
    if d.state == PdInit && AllReady(d.parts) then
      d.(state := PdReady, toMain := d.toMain + [ClientReady], sent := d.sent + 1)
    else d
  }

  function Moved(d: Domain, p: nat, phase: Phase): Domain
    requires p < |d.parts|
  {
    d.(parts := d.parts[p := d.parts[p].(phase := phase)])
  }

  /** The next of the two steps of participant `p`. */
  function Acted(d: Domain, p: nat): Domain
    requires p < |d.parts|
  {
    var part := d.parts[p];
    if part.phase == Called then
      if part.notifiesFirst then Moved(Notified(d), p, Half).(endedBySet := false) else Moved(d, p, Half).(endedBySet := false)
    else if part.phase == Half then
      if part.notifiesFirst then Moved(d, p, Done).(endedBySet := true) else Moved(Notified(d), p, Done).(endedBySet := false)
    else d
  }

  /** comp_server_broadcast of INITIALIZE: pushed to every queue; only a participant that waits acts on it. */
  function Initialised(parts: seq<Participant>): (r: seq<Participant>)
    ensures |r| == |parts|
    ensures forall i :: 0 <= i < |parts| ==> r[i] == if parts[i].phase == Waiting then parts[i].(phase := Called) else parts[i]
  {
    seq(|parts|, i requires 0 <= i < |parts| => if parts[i].phase == Waiting then parts[i].(phase := Called) else parts[i])
  }

  /** domain_proc_consume_msg */
  function Consumed(d: Domain): Domain
    requires d.fromMain != []
  {
    var rest := d.(fromMain := d.fromMain[1..]);
    match d.fromMain[0]
    case InitMod => if d.state == PdInit then rest.(parts := Initialised(d.parts)) else rest
    case StartMod => rest.(state := PdRunning, startedIn := Some(d.state))
  }

  function Told(ds: seq<Domain>, m: ToDomain): (r: seq<Domain>)
    ensures |r| == |ds| && forall i :: 0 <= i < |ds| ==> r[i] == ds[i].(fromMain := ds[i].fromMain + [m])
  {
    seq(|ds|, i requires 0 <= i < |ds| => ds[i].(fromMain := ds[i].fromMain + [m]))
  }

  /** main_proc_consume_control_msg without a launcher file. */
  function MainConsumed(w: World, d: nat): World
    requires d < |w.domains| && w.domains[d].toMain != []
  {
    var m := w.domains[d].toMain[0];
    var ds := w.domains[d := w.domains[d].(toMain := w.domains[d].toMain[1..])];
    match m
    case ClientInit =>
      var n := w.nbInit + 1;
      if n == |ds| then w.(domains := Told(ds, InitMod), nbInit := n, inits := w.inits + 1)
      else if n > |ds| then w.(domains := ds[d := ds[d].(fromMain := ds[d].fromMain + [InitMod])], nbInit := n)
      else w.(domains := ds, nbInit := n)
    case ClientReady =>
      var n := w.nbReady + 1;
      if n == |ds| then w.(domains := Told(ds, StartMod), nbReady := n, starts := w.starts + 1)
      else if n > |ds| then w.(domains := ds[d := ds[d].(fromMain := ds[d].fromMain + [StartMod])], nbReady := n)
      else w.(domains := ds, nbReady := n)
  }

  predicate Enabled(w: World, e: Event) {
    && e.d < |w.domains|
    && var x := w.domains[e.d];
       match e
       case Connect(_) => x.state == PdIdle
       case MainReceives(_) => x.toMain != []
       case DomainReceives(_) => x.fromMain != []
       case Acts(_, p) => p < |x.parts| && (x.parts[p].phase == Called || x.parts[p].phase == Half)
  }

  function Next(w: World, e: Event): World
    requires Enabled(w, e)
  {
    var x := w.domains[e.d];
    match e
    case Connect(d) => w.(domains := w.domains[d := x.(state := PdInit, toMain := x.toMain + [ClientInit])])
    case MainReceives(d) => MainConsumed(w, d)
    case DomainReceives(d) => w.(domains := w.domains[d := Consumed(x)])
    case Acts(d, p) => w.(domains := w.domains[d := Acted(x, p)])
  }

  // ----- the start -----

  predicate Fresh(d: Domain) {
    && d.state == PdIdle && d.toMain == [] && d.fromMain == [] && d.sent == 0 && d.startedIn == None && !d.endedBySet
    && forall i :: 0 <= i < |d.parts| ==> d.parts[i].phase == Waiting
  }

  predicate Initial(w: World) {
    && w.nbInit == w.nbReady == w.inits == w.starts == 0
    && w.domains != [] && forall i :: 0 <= i < |w.domains| ==> Fresh(w.domains[i])
  }

  // ----- what holds in every reachable state -----

  predicate NoneWaiting(parts: seq<Participant>) {
    forall i :: 0 <= i < |parts| ==> parts[i].phase != Waiting
  }

  predicate AllWaiting(parts: seq<Participant>) {
    forall i :: 0 <= i < |parts| ==> parts[i].phase == Waiting
  }

  /** Some participant that sets its state first has still to notify. */
  predicate OwesNotify(parts: seq<Participant>) {
    exists i :: 0 <= i < |parts| && !parts[i].notifiesFirst && parts[i].phase == Half
  }

  /** All ready, yet the domain has not said so. */
  predicate Unnoticed(d: Domain) {
    AllReady(d.parts) && NoneWaiting(d.parts) && !OwesNotify(d.parts)
  }

  /** One domain, given whether INIT_MOD and START_MOD have been broadcast. */
  ghost predicate DomainOk(d: Domain, init: bool, start: bool) {
    match d.state
    case PdIdle => !init && !start && d.toMain == [] && d.fromMain == [] && d.sent == 0 && d.startedIn == None && AllWaiting(d.parts)
    case PdInit =>
      && !start && d.sent == 0 && d.startedIn == None
      && (if d.toMain == [] then true else d.toMain == [ClientInit] && !init)
      && (if !init then d.fromMain == [] && AllWaiting(d.parts)
          else if d.fromMain == [] then
            NoneWaiting(d.parts) && (Unnoticed(d) ==> d.parts == [] || d.endedBySet)
          else d.fromMain == [InitMod] && AllWaiting(d.parts))
    case PdReady =>
      && init && d.sent == 1 && d.startedIn == None && AllReady(d.parts) && d.parts != [] && !d.endedBySet
      && (if d.toMain == [] then true else d.toMain == [ClientReady] && !start)
      && d.fromMain == (if start then [StartMod] else [])
    case PdRunning =>
      init && start && d.sent == 1 && d.startedIn == Some(PdReady) && AllReady(d.parts) && d.parts != [] && !d.endedBySet
      && d.toMain == [] && d.fromMain == []
  }

  /** Main has counted the domain's CLIENT_INIT. */
  predicate InitCounted(d: Domain) {
    d.state != PdIdle && ClientInit !in d.toMain
  }

  predicate ReadyCounted(d: Domain) {
    (d.state == PdReady || d.state == PdRunning) && ClientReady !in d.toMain
  }

  function InitCount(ds: seq<Domain>): (n: nat)
    ensures n <= |ds|
  {
    if ds == [] then 0 else (if InitCounted(ds[0]) then 1 else 0) + InitCount(ds[1..])
  }

  function ReadyCount(ds: seq<Domain>): (n: nat)
    ensures n <= |ds|
  {
    if ds == [] then 0 else (if ReadyCounted(ds[0]) then 1 else 0) + ReadyCount(ds[1..])
  }

  ghost predicate Inv(w: World) {
    && |w.domains| > 0
    && w.nbInit == InitCount(w.domains) && w.nbReady == ReadyCount(w.domains)
    && w.inits == (if w.nbInit == |w.domains| then 1 else 0) && w.starts == (if w.nbReady == |w.domains| then 1 else 0)
    && forall i :: 0 <= i < |w.domains| ==> DomainOk(w.domains[i], w.inits == 1, w.starts == 1)
  }

  lemma {:induction false} InitUpdate(ds: seq<Domain>, d: nat, x: Domain)
    requires d < |ds|
    ensures InitCount(ds[d := x]) == InitCount(ds) + (if InitCounted(x) then 1 else 0) - (if InitCounted(ds[d]) then 1 else 0)
  {
    if d == 0 {
      assert ds[0 := x][1..] == ds[1..];
    } else {
      assert ds[d := x][1..] == ds[1..][d - 1 := x];
      InitUpdate(ds[1..], d - 1, x);
    }
  }

  lemma {:induction false} ReadyUpdate(ds: seq<Domain>, d: nat, x: Domain)
    requires d < |ds|
    ensures ReadyCount(ds[d := x]) == ReadyCount(ds) + (if ReadyCounted(x) then 1 else 0) - (if ReadyCounted(ds[d]) then 1 else 0)
  {
    if d == 0 {
      assert ds[0 := x][1..] == ds[1..];
    } else {
      assert ds[d := x][1..] == ds[1..][d - 1 := x];
      ReadyUpdate(ds[1..], d - 1, x);
    }
  }

  lemma {:induction false} CountsSame(a: seq<Domain>, b: seq<Domain>)
    requires |a| == |b| && forall i :: 0 <= i < |a| ==> InitCounted(a[i]) == InitCounted(b[i]) && ReadyCounted(a[i]) == ReadyCounted(b[i])
    ensures InitCount(a) == InitCount(b) && ReadyCount(a) == ReadyCount(b)
  {
    if a != [] {
      forall i | 0 <= i < |a[1..]| ensures InitCounted(a[1..][i]) == InitCounted(b[1..][i]) && ReadyCounted(a[1..][i]) == ReadyCounted(b[1..][i]) {
        assert a[1..][i] == a[i + 1] && b[1..][i] == b[i + 1];
      }
      CountsSame(a[1..], b[1..]);
    }
  }

  lemma {:induction false} AllCounted(ds: seq<Domain>, i: nat)
    requires i < |ds|
    ensures InitCount(ds) == |ds| ==> InitCounted(ds[i])
    ensures ReadyCount(ds) == |ds| ==> ReadyCounted(ds[i])
  {
    if i > 0 { AllCounted(ds[1..], i - 1); }
  }

  lemma {:induction false} NoneCounted(ds: seq<Domain>)
    requires forall i :: 0 <= i < |ds| ==> !InitCounted(ds[i]) && !ReadyCounted(ds[i])
    ensures InitCount(ds) == 0 && ReadyCount(ds) == 0
  {
    if ds != [] { NoneCounted(ds[1..]); }
  }

  // ----- one domain -----

  /** A participant's step keeps the domain sound, and can only make it count as ready to be told. */
  lemma ActedOk(d: Domain, p: nat, init: bool, start: bool)
    requires DomainOk(d, init, start) && p < |d.parts| && (d.parts[p].phase == Called || d.parts[p].phase == Half)
    ensures DomainOk(Acted(d, p), init, start)
    ensures InitCounted(Acted(d, p)) == InitCounted(d) && ReadyCounted(Acted(d, p)) == ReadyCounted(d)
  {
    var part, a := d.parts[p], Acted(d, p);
    var n := Notified(d);
    assert d.state != PdIdle;
    if d.state == PdInit && a.state == PdInit && Unnoticed(a) {
      UnnoticedStep(d, p);
    }
  }

  /** If a step leaves all ready and unnoticed, it was a state set after its notification. */
  lemma UnnoticedStep(d: Domain, p: nat)
    requires p < |d.parts| && (d.parts[p].phase == Called || d.parts[p].phase == Half)
    requires d.state == PdInit && Acted(d, p).state == PdInit && Unnoticed(Acted(d, p))
    ensures Acted(d, p).endedBySet && d.parts[p].notifiesFirst && d.parts[p].phase == Half
  {
    var part, a := d.parts[p], Acted(d, p);
    assert a.parts[p] == part.(phase := if part.phase == Called then Half else Done);
    assert IsReady(a.parts[p]);
    if !part.notifiesFirst && part.phase == Half {
      forall i | 0 <= i < |d.parts| ensures IsReady(d.parts[i]) {
        assert IsReady(a.parts[i]);
      }
    }
  }

  lemma ConsumedOk(d: Domain, init: bool, start: bool)
    requires DomainOk(d, init, start) && d.fromMain != []
    ensures DomainOk(Consumed(d), init, start)
    ensures InitCounted(Consumed(d)) == InitCounted(d) && ReadyCounted(Consumed(d)) == ReadyCounted(d)
  {
    if d.state == PdInit {
      var c := Consumed(d);
      forall i | 0 <= i < |c.parts| ensures c.parts[i].phase == Called {
        assert d.parts[i].phase == Waiting;
      }
      assert c.parts != [] ==> !IsReady(c.parts[0]);
    }
  }

  // ----- the invariant -----

  /** One domain changes without changing either count. */
  lemma QuietInv(w: World, d: nat, x: Domain)
    requires Inv(w) && d < |w.domains| && DomainOk(x, w.inits == 1, w.starts == 1)
    requires InitCounted(x) == InitCounted(w.domains[d]) && ReadyCounted(x) == ReadyCounted(w.domains[d])
    ensures Inv(w.(domains := w.domains[d := x]))
  {
    InitUpdate(w.domains, d, x);
    ReadyUpdate(w.domains, d, x);
  }

  /** Telling every domain leaves the counts alone. */
  lemma ToldCounts(ds: seq<Domain>, m: ToDomain)
    ensures InitCount(Told(ds, m)) == InitCount(ds) && ReadyCount(Told(ds, m)) == ReadyCount(ds)
  {
    CountsSame(ds, Told(ds, m));
  }

  /** Main handles CLIENT_INIT: the last one has every module initialised. */
  lemma ClientInitInv(w: World, d: nat)
    requires Inv(w) && d < |w.domains| && w.domains[d].toMain != [] && w.domains[d].toMain[0] == ClientInit
    ensures Inv(MainConsumed(w, d))
  {
    var x := w.domains[d].(toMain := []);
    assert w.domains[d].toMain == [ClientInit] && w.domains[d].toMain[1..] == [];
    var ds := w.domains[d := x];
    InitUpdate(w.domains, d, x);
    ReadyUpdate(w.domains, d, x);
    ToldCounts(ds, InitMod);
    AllReadyCountedOnlyLater(w);
    if w.nbInit + 1 == |ds| {
      forall i | 0 <= i < |ds| ensures DomainOk(Told(ds, InitMod)[i], true, false) {
        AllCounted(ds, i);
      }
    }
  }

  /** While some domain has not been initialised, none has started. */
  lemma AllReadyCountedOnlyLater(w: World)
    requires Inv(w)
    ensures w.inits == 0 ==> w.starts == 0 && w.nbReady < |w.domains|
  {
    if w.nbReady == |w.domains| { AllCounted(w.domains, 0); }
  }

  /** Main handles CLIENT_READY: the last one starts every domain. */
  lemma ClientReadyInv(w: World, d: nat)
    requires Inv(w) && d < |w.domains| && w.domains[d].toMain != [] && w.domains[d].toMain[0] == ClientReady
    ensures Inv(MainConsumed(w, d))
  {
    var x := w.domains[d].(toMain := []);
    assert w.domains[d].toMain == [ClientReady] && w.domains[d].toMain[1..] == [];
    var ds := w.domains[d := x];
    InitUpdate(w.domains, d, x);
    ReadyUpdate(w.domains, d, x);
    ToldCounts(ds, StartMod);
    if w.nbReady + 1 == |ds| {
      forall i | 0 <= i < |ds| ensures DomainOk(Told(ds, StartMod)[i], true, true) {
        AllCounted(ds, i);
      }
    }
  }

  lemma StepInv(w: World, e: Event)
    requires Inv(w) && Enabled(w, e)
    ensures Inv(Next(w, e))
  {
    var x := w.domains[e.d];
    match e
    case Connect(d) =>
      QuietInv(w, d, x.(state := PdInit, toMain := x.toMain + [ClientInit]));
    case MainReceives(d) =>
      if x.toMain[0] == ClientInit { ClientInitInv(w, d); } else { ClientReadyInv(w, d); }
    case DomainReceives(d) =>
      ConsumedOk(x, w.inits == 1, w.starts == 1);
      QuietInv(w, d, Consumed(x));
    case Acts(d, p) =>
      ActedOk(x, p, w.inits == 1, w.starts == 1);
      QuietInv(w, d, Acted(x, p));
  }

  lemma InitialInv(w: World)
    requires Initial(w)
    ensures Inv(w)
  {
    NoneCounted(w.domains);
  }
}
