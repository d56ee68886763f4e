/** The two sides of the start-up, updated in place, proved against the steps of StartupSteps. */
module StartupProcesses {
  import opened Common
  import opened StartupSteps

  /** The main process: counters, and what it has written to each client and not been read yet. */
  class MainProcess {
    const outbox: array<seq<ToDomain>>
    var nbInitClients: nat
    var nbReadyClients: nat

    ghost predicate Shows(w: World)
      reads this, outbox
    {
      && |w.domains| == outbox.Length && w.nbInit == nbInitClients && w.nbReady == nbReadyClients
      && forall i :: 0 <= i < outbox.Length ==> outbox[i] == w.domains[i].fromMain
    }

    constructor (pdNumber: nat)
      ensures fresh(outbox) && outbox.Length == pdNumber && nbInitClients == 0 && nbReadyClients == 0
      ensures forall i :: 0 <= i < pdNumber ==> outbox[i] == []
    {
      outbox := new seq<ToDomain>[pdNumber](_ => []);
      nbInitClients := 0;
      nbReadyClients := 0;
    }

    /** broadcast_to_client */
    method BroadcastToClient(m: ToDomain)
      modifies outbox
      ensures forall i :: 0 <= i < outbox.Length ==> outbox[i] == old(outbox[i]) + [m]
    {
      for i := 0 to outbox.Length
        invariant forall k :: 0 <= k < outbox.Length ==> outbox[k] == if k < i then old(outbox[k]) + [m] else old(outbox[k])
      {
        outbox[i] := outbox[i] + [m];
      }
    }

    /** main_proc_consume_control_msg for the two start-up messages, without a launcher file. */
    method ConsumeControlMsg(d: nat, m: ToMain, ghost w: World)
      requires Shows(w) && d < outbox.Length && w.domains[d].toMain != [] && w.domains[d].toMain[0] == m
      modifies this, outbox
      ensures Shows(MainConsumed(w, d))
      ensures m == ClientInit ==> nbInitClients == old(nbInitClients) + 1 && nbReadyClients == old(nbReadyClients)
      ensures m == ClientReady ==> nbReadyClients == old(nbReadyClients) + 1 && nbInitClients == old(nbInitClients)
      ensures var (n, answer) := if m == ClientInit then (nbInitClients, InitMod) else (nbReadyClients, StartMod);
              forall i :: 0 <= i < outbox.Length ==>
                outbox[i] == old(outbox[i]) + if n == outbox.Length || (n > outbox.Length && i == d) then [answer] else []
    {
      if m == ClientInit {
        nbInitClients := nbInitClients + 1;
        if nbInitClients == outbox.Length {
          BroadcastToClient(InitMod);
        } else if nbInitClients > outbox.Length {
          outbox[d] := outbox[d] + [InitMod];
        }
      } else {
        nbReadyClients := nbReadyClients + 1;
        if nbReadyClients == outbox.Length {
          BroadcastToClient(StartMod);
        } else if nbReadyClients > outbox.Length {
          outbox[d] := outbox[d] + [StartMod];
        }
      }
    }
  }

  /** A protection domain: its state, its participants, and what it has written to the main process. */
  class ProtectionDomain {
    const parts: array<Participant>
    var state: DomainState
    var toMain: seq<ToMain>

    ghost predicate Shows(d: Domain)
      reads this, parts
    {
      d.parts == parts[..] && d.state == state && d.toMain == toMain
    }

    constructor (kinds: seq<bool>)
      ensures fresh(parts) && state == PdIdle && toMain == [] && parts.Length == |kinds|
      ensures forall i :: 0 <= i < |kinds| ==> parts[i] == Participant(kinds[i], Waiting)
    {
      parts := new Participant[|kinds|](i requires 0 <= i < |kinds| => Participant(kinds[i], Waiting));
      state := PdIdle;
      toMain := [];
    }

    /** all_module_ready */
    method AllModuleReady() returns (ready: bool)
      ensures ready <==> AllReady(parts[..])
      ensures ready <==> forall k :: 0 <= k < parts.Length ==>
                parts[k].phase == Done || (parts[k].phase == Half && !parts[k].notifiesFirst)
    {
      for i := 0 to parts.Length
        invariant forall k :: 0 <= k < i ==> IsReady(parts[k])
      {
        if !IsReady(parts[i]) {
          assert !IsReady(parts[..][i]);
          return false;
        }
      }
      return true;
    }

    /** ldp_mod_init_notify */
    method InitNotify(ghost d: Domain)
      requires Shows(d)
      modifies this`state, this`toMain
      ensures Shows(Notified(d))
      ensures var notifies := && old(state) == PdInit
                              && forall k :: 0 <= k < parts.Length ==>
                                   parts[k].phase == Done || (parts[k].phase == Half && !parts[k].notifiesFirst);
              && state == (if notifies then PdReady else old(state))
              && toMain == old(toMain) + if notifies then [ClientReady] else []
    {
      if state == PdInit {
        var ready := AllModuleReady();
        if ready {
          state := PdReady;
          toMain := toMain + [ClientReady];
        }
      }
    }

    /** What a participant does with INITIALIZE, in its two steps. */
    method Act(p: nat, ghost d: Domain)
      requires Shows(d) && p < parts.Length
      modifies this, parts
      ensures Shows(Acted(d, p))
      ensures var part := old(parts[p]);
              var notifies := && ((part.phase == Called && part.notifiesFirst) || (part.phase == Half && !part.notifiesFirst))
                              && old(state) == PdInit
                              && forall k :: 0 <= k < parts.Length ==>
                                   old(parts[k].phase) == Done || (old(parts[k].phase) == Half && !old(parts[k].notifiesFirst));
              && state == (if notifies then PdReady else old(state))
              && toMain == old(toMain) + (if notifies then [ClientReady] else [])
              && parts[..] == old(parts[..])[p := part.(phase := if part.phase == Called then Half
                                                                  else if part.phase == Half then Done else part.phase)]
    {
      var part := parts[p];
      if part.phase == Called {
        if part.notifiesFirst { InitNotify(d); }
        parts[p] := parts[p].(phase := Half);
      } else if part.phase == Half {
        if !part.notifiesFirst { InitNotify(d); }
        parts[p] := parts[p].(phase := Done);
      }
    }

    /** domain_proc_consume_msg for the two start-up messages. */
    method ConsumeMsg(m: ToDomain, ghost d: Domain)
      requires Shows(d) && d.fromMain != [] && d.fromMain[0] == m
      modifies this, parts
      ensures Shows(Consumed(d))
      ensures toMain == old(toMain)
      ensures m == InitMod ==> state == old(state) && forall k :: 0 <= k < parts.Length ==>
                parts[k] == if state == PdInit && old(parts[k].phase) == Waiting then old(parts[k]).(phase := Called) else old(parts[k])
      ensures m == StartMod ==> state == PdRunning && parts[..] == old(parts[..])
    {
      if m == InitMod {
        if state == PdInit {
          for i := 0 to parts.Length
            invariant state == old(state) && toMain == old(toMain)
            invariant forall k :: 0 <= k < parts.Length ==>
                        parts[k] == if k < i then Initialised(d.parts)[k] else d.parts[k]
          {
            if parts[i].phase == Waiting {
              parts[i] := parts[i].(phase := Called);
            }
          }
        }
      } else {
        state := PdRunning;
      }
    }
  }
}
