/**
 What every run keeps between the pending requests of a module and its queue, whatever its
 threads do at the same time.
 */
module RequestQueue {
  import opened Common
  import opened RequestTable
  import opened QueueState
  import opened QueueTheorems
  import opened QueueSteps
  import opened QueueRuns
  import opened QueueSweep
  import opened RequestSteps
  import Words

  ghost predicate Goes(w: World, t: nat, s: Step, v: World) {
    Can(w, t, s) && v == After(w, t, s)
  }

  ghost predicate History(ws: seq<World>, steps: seq<(nat, Step)>) {
    && |ws| == |steps| + 1 && Starts(ws[0])
    && forall i {:trigger steps[i]} :: 0 <= i < |steps| ==> Goes(ws[i], steps[i].0, steps[i].1, ws[i + 1])
  }

  lemma {:induction false} HistoryInv(ws: seq<World>, steps: seq<(nat, Step)>, k: nat)
    requires History(ws, steps) && k < |ws|
    ensures WorldInv(ws[k])
  {
    hide WorldInv, Starts, Can, After;
    if k == 0 {
      StartsInv(ws[0]);
    } else {
      HistoryInv(ws, steps, k - 1);
      assert Goes(ws[k - 1], steps[k - 1].0, steps[k - 1].1, ws[k]);
      WorldStep(ws[k - 1], steps[k - 1].0, steps[k - 1].1);
    }
  }

  /** No ID is live twice, in either list or across them, while the generator has not wrapped. */
  lemma LiveIdsAreDistinct(ws: seq<World>, steps: seq<(nat, Step)>, k: nat)
    requires History(ws, steps) && k < |ws|
    ensures DistinctIds(ws[k].received)
    ensures forall i, j :: 0 <= i < j < |ws[k].sent| ==> ws[k].sent[i].id != ws[k].sent[j].id
    ensures forall r, s :: r in ws[k].received && s in ws[k].sent ==> r.id != s.id
  {
    HistoryInv(ws, steps, k);
  }

  /** Entry `k` is the newest request sent as `id`. */
  ghost predicate NewestSent(sent: seq<Sent>, id: nat, k: nat) {
    k < |sent| && sent[k].id == id && forall j :: k < j < |sent| ==> sent[j].id != id
  }

  /** A request is registered under the next ID, which goes into the first four bytes of what is pushed. */
  lemma RegisterEntersTheRequest(w: World, t: nat, r: Received, op: Operation)
    requires Can(w, t, Register(r, op))
    ensures var (v, id) := (After(w, t, Register(r, op)), w.generator + 1);
            && v == w.(received := v.received, generator := id, jobs := v.jobs)
            && v.received == w.received + [Received(id, r.connection, r.sequenceNum, r.client, r.opId, r.clientReqId, r.synchronous)]
            && v.jobs == w.jobs[t := v.jobs[t]] && v.jobs[t].Asking? && v.jobs[t].id == id
            && Numbered(op, id, v.jobs[t].op)
  {
    Words.RoundTrip(w.generator + 1);
  }

  /** `op'` is `op` with the ID in its first four parameter bytes, least significant byte first. */
  ghost predicate Numbered(op: Operation, id: nat, op': Operation) {
    && op' == op.(parameters := op'.parameters)
    && op.parameters.Some? && op'.parameters.Some? && |op.parameters.value| == |op'.parameters.value| >= 4
    && op'.parameters.value[4..] == op.parameters.value[4..]
    && var b := op'.parameters.value;
       id == b[0] as nat + b[1] as nat * 0x100 + b[2] as nat * 0x1_0000 + b[3] as nat * 0x100_0000
  }

  /**
   The answer to a request sent is pushed as the entry of that request says, which stays
   until it is freed: into its pool and with its activation, under its ID. An ID that names
   no request sent has no effect.
   */
  lemma AnswerFollowsTheEntry(w: World, t: nat, id: nat, op: Operation)
    requires Can(w, t, Answer(id, op))
    ensures (forall k :: 0 <= k < |w.sent| ==> w.sent[k].id != id) ==> After(w, t, Answer(id, op)) == w
    ensures forall k: nat :: NewestSent(w.sent, id, k) ==>
              var v := After(w, t, Answer(id, op));
              && v == w.(jobs := w.jobs[t := v.jobs[t]]) && v.jobs[t].Answering? && v.jobs[t].id == id
              && Numbered(op.(opIndex := w.sent[k].opIndex, activating := w.sent[k].activating, opType := RrReceived), id, v.jobs[t].op)
  {
    if FindSent(w.sent, id, |w.sent|).Some? { Words.RoundTrip(id); }
    forall k: nat | NewestSent(w.sent, id, k) ensures FindSent(w.sent, id, |w.sent|) == Some(k) { }
  }

  /** A request sent is entered under the next ID, which is issued with it; a full list changes nothing. */
  lemma SendEntersTheRequest(w: World, t: nat, r: Sent)
    requires Can(w, t, Send(r))
    ensures |w.sent| == w.sentSize ==> After(w, t, Send(r)) == w
    ensures |w.sent| != w.sentSize ==>
              var id := w.generator + 1;
              After(w, t, Send(r)) == w.(generator := id, issued := w.issued + {id},
                                         sent := w.sent + [Sent(id, r.connection, r.opId, r.opIndex, r.synchronous, r.activating, r.timeout)])
  {
  }

  /** Freeing an ID removes the newest entry that has it, from the list it is freed in. */
  lemma FreeForgetsTheEntry(w: World, t: nat, id: nat)
    ensures Can(w, t, FreeSent(id)) ==>
              && ((forall k :: 0 <= k < |w.sent| ==> w.sent[k].id != id) ==> After(w, t, FreeSent(id)) == w)
              && forall k: nat :: NewestSent(w.sent, id, k) ==>
                   After(w, t, FreeSent(id)) == w.(sent := w.sent[..k] + w.sent[k + 1..])
    ensures Can(w, t, FreeReceived(id)) ==>
              && ((forall k :: 0 <= k < |w.received| ==> w.received[k].id != id) ==> After(w, t, FreeReceived(id)) == w)
              && forall k: nat :: NewestReceived(w.received, id, k) ==>
                   After(w, t, FreeReceived(id)) == w.(received := w.received[..k] + w.received[k + 1..])
  {
    forall k: nat | NewestSent(w.sent, id, k) ensures FindSent(w.sent, id, |w.sent|) == Some(k) { }
    forall k: nat | NewestReceived(w.received, id, k) ensures FindReceived(w.received, id, |w.received|) == Some(k) { }
  }

  ghost predicate NewestReceived(received: seq<Received>, id: nat, k: nat) {
    k < |received| && received[k].id == id && forall j :: k < j < |received| ==> received[j].id != id
  }

  ghost predicate OneEntry(received: seq<Received>, id: nat) {
    && HasEntry(received, id)
    && forall i, j :: 0 <= i < j < |received| ==> !(received[i].id == id && received[j].id == id)
  }

  /**
   Every request that is queued, or in the hands of a cleaning, names exactly one live
   entry, different requests different entries, and no answer names one, though both carry
   the same tag. A registration whose push is in progress has an entry that none names.
   */
  lemma QueuedRequestsHaveEntries(ws: seq<World>, steps: seq<(nat, Step)>, k: nat)
    requires History(ws, steps) && k < |ws|
    ensures var w := ws[k];
            && (forall g :: g in Live(w.x) && g in w.asks ==> OneEntry(w.received, IdAt(w.x.pools, g)))
            && (forall g, h :: g in Live(w.x) && h in Live(w.x) && g in w.asks && h in w.asks && g != h
                               ==> IdAt(w.x.pools, g) != IdAt(w.x.pools, h))
            && (forall g :: g in Live(w.x) && g !in w.asks && InPools(g, w.x.pools) && At(w.x.pools, g).opType == RrReceived
                            ==> !HasEntry(w.received, IdAt(w.x.pools, g)))
            && forall t :: 0 <= t < |w.jobs| && Registered(w.jobs[t]) ==>
                 && OneEntry(w.received, w.jobs[t].id)
                 && forall g :: g in Live(w.x) && g in w.asks ==> IdAt(w.x.pools, g) != w.jobs[t].id
  {
    HistoryInv(ws, steps, k);
    var w := ws[k];
    forall g | g in Live(w.x) && g in w.asks ensures OneEntry(w.received, IdAt(w.x.pools, g)) {
      assert Sound(w.x.pools, g, w.received, w.asks, w.issued);
    }
    forall g | g in Live(w.x) && g !in w.asks && InPools(g, w.x.pools) && At(w.x.pools, g).opType == RrReceived
      ensures !HasEntry(w.received, IdAt(w.x.pools, g)) {
      assert Sound(w.x.pools, g, w.received, w.asks, w.issued);
    }
    forall t | 0 <= t < |w.jobs| && Registered(w.jobs[t])
      ensures OneEntry(w.received, w.jobs[t].id) && forall g :: g in Live(w.x) && g in w.asks ==> IdAt(w.x.pools, g) != w.jobs[t].id {
      assert JobSound(w, t);
    }
  }

  /**
   Among the steps of the queue only a cleaning that drops an element forgets a request:
   exactly the entry of the request it drops, and nothing when it drops an answer.
   */
  lemma CleaningForgetsExactlyTheDroppedRequests(ws: seq<World>, steps: seq<(nat, Step)>, k: nat, r: Received)
    requires History(ws, steps) && k < |steps| && steps[k].1.Go?
    ensures var (w, t, a) := (ws[k], steps[k].0, steps[k].1.a);
            && Enabled(w.x, t, a)
            && (r in ws[k + 1].received <==>
                  r in w.received && !(DropsNow(w.x, t, a) && w.x.pcs[t].h in w.asks && IdAt(w.x.pools, w.x.pcs[t].h) == r.id))
  {
    HistoryInv(ws, steps, k);
    var w, t, a := ws[k], steps[k].0, steps[k].1.a;
    assert Goes(w, t, Go(a), ws[k + 1]);
    ForgetsExactly(w, t, a);
    RemainingMembers(w.received, Forgotten(w, t, a), r);
  }

  /**
   A registered request that is being pushed ends in one of three ways at each step: it is
   still being pushed and has its entry, it is queued and names its entry, or its push has
   failed, nothing names the entry, and the next step of the thread removes exactly it.
   */
  lemma FailedPushUndoesTheRegistration(ws: seq<World>, steps: seq<(nat, Step)>, k: nat, t: nat)
    requires History(ws, steps) && k < |steps| && t == steps[k].0 && t < |ws[k].jobs|
    ensures var (w, v, j) := (ws[k], ws[k + 1], ws[k].jobs[t]);
            && |v.jobs| == |w.jobs|
            && (j.Asking? && steps[k].1.Go? ==>
                  && OneEntry(v.received, j.id)
                  && (v.jobs[t] == j || v.jobs[t] == Undoing(j.id)
                      || (v.jobs[t] == Other && exists g :: g in v.x.queue && g in v.asks && IdAt(v.x.pools, g) == j.id)))
            && (steps[k].1 == Undo ==>
                  && j.Undoing? && v.jobs[t] == Other
                  && forall r :: r in v.received <==> r in w.received && r.id != j.id)
  {
    HistoryInv(ws, steps, k);
    HistoryInv(ws, steps, k + 1);
    var w, v, j := ws[k], ws[k + 1], ws[k].jobs[t];
    assert Goes(w, t, steps[k].1, v);
    if steps[k].1 == Undo {
      UndoInv(w, t);
      forall r ensures r in v.received <==> r in w.received && r.id != j.id {
        RemainingMembers(w.received, {j.id}, r);
      }
    } else if steps[k].1.Go? && j.Asking? {
      AskingGoes(w, t, steps[k].1.a);
    }
  }

  lemma AskingGoes(w: World, t: nat, a: Action)
    requires WorldInv(w) && Can(w, t, Go(a)) && WorldInv(After(w, t, Go(a))) && w.jobs[t].Asking?
    ensures var (v, j) := (After(w, t, Go(a)), w.jobs[t]);
            && OneEntry(v.received, j.id)
            && (v.jobs[t] == j || v.jobs[t] == Undoing(j.id)
                || (v.jobs[t] == Other && exists g :: g in v.x.queue && g in v.asks && IdAt(v.x.pools, g) == j.id))
  {
    var v, j := After(w, t, Go(a)), w.jobs[t];
    assert JobSound(w, t);
    assert JobFits(w.x.pools, w.x.pcs[t], j, w.asks);
    GoParts(w, t, a);
    ForgottenNotLive(w, t, a);
    StillHasEntry(w.received, Forgotten(w, t, a), j.id);
    if v.jobs[t] == Other {
      var h := w.x.pcs[t].h;
      assert h in v.x.queue && h in v.asks && IdAt(v.x.pools, h) == j.id;
    }
  }
}
