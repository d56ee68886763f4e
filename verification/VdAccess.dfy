/**
 Read and write accesses of one module (lib/ldp_VD_reader_manager.c and
 lib/ldp_VD_writter_manager.c, controlled mode), run without interference: the slot
 tables, the handles and every status. VdProtocol.dfy covers the interleavings.
 */
module VdAccess {
  import opened Common
  import opened VdRepository
  import opened VdProtocol

  /** `slot` is VD_copy_index; -1 after ldp_reset_handle. */
  datatype Handle = Handle(slot: int, stamp: nat)

  const RESET_HANDLE := Handle(-1, 0)

  function UsedSlots(states: seq<CopyState>): (n: nat)
    ensures n <= |states|
    ensures n == |states| <==> forall i :: 0 <= i < |states| ==> states[i] != Free
  {
    if states == [] then 0
    else
      var rest := states[..|states| - 1];
      assert forall i :: 0 <= i < |rest| ==> rest[i] == states[i];
      UsedSlots(rest) + (if states[|states| - 1] == Used then 1 else 0)
  }

  lemma {:induction false} UsedSlotsUpdate(states: seq<CopyState>, i: nat, st: CopyState)
    requires i < |states|
    ensures UsedSlots(states[i := st])
         == UsedSlots(states) - (if states[i] == Used then 1 else 0) + (if st == Used then 1 else 0)
  {
    var n := |states| - 1;
    if i < n {
      UsedSlotsUpdate(states[..n], i, st);
      assert states[i := st][..n] == states[..n][i := st];
    } else {
      assert states[i := st][..n] == states[..n];
    }
  }

  lemma {:induction false} NoneUsed(states: seq<CopyState>)
    requires forall i :: 0 <= i < |states| ==> states[i] == Free
    ensures UsedSlots(states) == 0
  {
    if states != [] { NoneUsed(states[..|states| - 1]); }
  }

  class ReaderManager {
    const repo: Repository
    const buffers: seq<array<Byte>>
    var states: array<CopyState>
    var numUsed: nat

    ghost predicate Valid()
      reads this, states, repo, repo.copies
    {
      && repo.Valid()
      && states.Length == |buffers|
      && numUsed == UsedSlots(states[..])
      && (forall i :: 0 <= i < |buffers| ==> buffers[i].Length == repo.dataSize)
      && forall i, j :: 0 <= i < j < |buffers| ==> buffers[i] != buffers[j]
    }

    /** ldp_create_reader_mng followed by ldp_init_reader_mng. */
    constructor (repo: Repository, buffers: seq<array<Byte>>)
      requires repo.Valid()
      requires forall i :: 0 <= i < |buffers| ==> buffers[i].Length == repo.dataSize
      requires forall i, j :: 0 <= i < j < |buffers| ==> buffers[i] != buffers[j]
      ensures Valid() && this.repo == repo && this.buffers == buffers && numUsed == 0
      ensures fresh(states) && forall i :: 0 <= i < states.Length ==> states[i] == Free
    {
      this.repo, this.buffers, numUsed := repo, buffers, 0;
      states := new CopyState[|buffers|](_ => Free);
      new;
      NoneUsed(states[..]);
    }

    ghost predicate Settled()
      reads repo, repo.copies
    {
      repo.repositoryPtr.Some? && repo.repositoryPtr.value < repo.copies.Length ==>
        var cp := repo.copies[repo.repositoryPtr.value]; cp.numReaders >= 0 && !cp.toBeRelease
    }

    /**
     ldp_get_read_access: as long as num_used_copies is below num_copies a FREE slot is
     found, and its buffer receives the published bytes whole.
     */
    method GetReadAccess() returns (ret: Status, h: Handle)
      requires Valid() && Settled()
      modifies this`numUsed, states, buffers, repo.copies
      ensures Valid() && repo.View() == old(repo.View())
      ensures ret == if repo.repositoryPtr.None? then NO_DATA
                     else if old(numUsed) == |buffers| then RESOURCE_NOT_AVAILABLE
                     else OK
      ensures ret != OK ==> h == RESET_HANDLE && states[..] == old(states[..]) && numUsed == old(numUsed)
                            && forall j :: 0 <= j < |buffers| ==> buffers[j][..] == old(buffers[j][..])
      ensures ret == OK ==>
                && 0 <= h.slot < |buffers| && h.stamp == repo.stamp
                && old(states[h.slot]) == Free && (forall j :: 0 <= j < h.slot ==> states[j] == Used) && states[..] == old(states[..])[h.slot := Used]
                && numUsed == old(numUsed) + 1
                && buffers[h.slot][..] == repo.copies[repo.repositoryPtr.value].data
                && forall j :: 0 <= j < |buffers| && j != h.slot ==> buffers[j][..] == old(buffers[j][..])
    {
      if repo.repositoryPtr.None? {
        return NO_DATA, RESET_HANDLE;
      }
      if numUsed >= states.Length {
        return RESOURCE_NOT_AVAILABLE, RESET_HANDLE;
      }
      assert UsedSlots(states[..]) < |states[..]|;
      var i := 0;
      while i < states.Length && states[i] != Free
        invariant 0 <= i <= states.Length
        invariant forall j :: 0 <= j < i ==> states[j] != Free
      {
        i := i + 1;
      }
      UsedSlotsUpdate(states[..], i, Used);
      states[i] := Used;
      assert states[..] == old(states[..])[i := Used];
      numUsed := numUsed + 1;
      ret := repo.CopyVdData(buffers[i]);
      h := Handle(i, repo.stamp);
    }

    /** ldp_release_read_access. */
    method ReleaseReadAccess(h: Handle) returns (ret: Status, h': Handle)
      requires Valid()
      requires h.slot == -1 || (0 <= h.slot < |buffers| && states[h.slot] == Used)
      modifies this`numUsed, states
      ensures Valid()
      ensures h.slot == -1 ==> ret == INVALID_HANDLE && h' == h && states[..] == old(states[..])
      ensures h.slot != -1 ==> ret == OK && h' == RESET_HANDLE
                               && states[..] == old(states[..])[h.slot := Free] && numUsed == old(numUsed) - 1
    {
      if h.slot == -1 {
        return INVALID_HANDLE, h;
      }
      UsedSlotsUpdate(states[..], h.slot, Free);
      states[h.slot] := Free;
      assert states[..] == old(states[..])[h.slot := Free];
      numUsed := numUsed - 1;
      return OK, RESET_HANDLE;
    }
  }

  /** Releasing the slot an access took gives the slot table back as it was. */
  lemma ReadAccessRoundTrip(states: seq<CopyState>, i: nat)
    requires i < |states| && states[i] == Free
    ensures states[i := Used][i := Free] == states
    ensures UsedSlots(states[i := Used]) == UsedSlots(states) + 1
  {
    UsedSlotsUpdate(states, i, Used);
  }

  function Taken(slots: seq<Option<nat>>): (n: nat)
    ensures n <= |slots|
    ensures n == |slots| <==> forall i :: 0 <= i < |slots| ==> slots[i].Some?
  {
    if slots == [] then 0
    else
      var rest := slots[..|slots| - 1];
      assert forall i :: 0 <= i < |rest| ==> rest[i] == slots[i];
      Taken(rest) + (if slots[|slots| - 1].Some? then 1 else 0)
  }

  lemma {:induction false} TakenUpdate(slots: seq<Option<nat>>, i: nat, v: Option<nat>)
    requires i < |slots|
    ensures Taken(slots[i := v]) == Taken(slots) - (if slots[i].Some? then 1 else 0) + (if v.Some? then 1 else 0)
  {
    var n := |slots| - 1;
    if i < n {
      TakenUpdate(slots[..n], i, v);
      assert slots[i := v][..n] == slots[..n][i := v];
    } else {
      assert slots[i := v][..n] == slots[..n];
    }
  }

  lemma {:induction false} NoneTaken(slots: seq<Option<nat>>)
    requires forall i :: 0 <= i < |slots| ==> slots[i].None?
    ensures Taken(slots) == 0
  {
    if slots != [] { NoneTaken(slots[..|slots| - 1]); }
  }

  /** The repository after a write access has been taken. */
  ghost function Acquired(r: Repo, mode: WriteMode): Repo
    requires r.InRange() && FirstFree(r.copies).Some?
  {
    var own := FirstFree(r.copies).value;
    var r' := SetState(r, own, Used);
    if mode == ReadWrite && r.ptr.Some? then
      r'.(copies := r'.copies[own := r'.copies[own].(data := r.copies[r.ptr.value].data)])
    else
      r'
  }

  class WriterManager {
    const repo: Repository
    const mode: WriteMode
    var slots: array<Option<nat>>
    var numUsed: nat

    ghost predicate Valid()
      reads this, slots, repo, repo.copies
    {
      && repo.Valid()
      && numUsed == Taken(slots[..])
      && (forall i :: 0 <= i < slots.Length && slots[i].Some? ==> slots[i].value < repo.copies.Length)
      && (repo.repositoryPtr.Some? ==> Published())
    }

    ghost predicate Published()
      requires repo.Valid() && repo.repositoryPtr.Some?
      reads repo, repo.copies
    {
      var cp := repo.copies[repo.repositoryPtr.value];
      cp.state == Used && cp.numReaders >= 0 && !cp.toBeRelease
    }

    /** ldp_create_writter_mng followed by ldp_init_writter_mng. */
    constructor (repo: Repository, numCopies: nat, mode: WriteMode)
      requires repo.Valid() && repo.repositoryPtr.None?
      ensures Valid() && this.repo == repo && this.mode == mode && numUsed == 0
      ensures fresh(slots) && slots.Length == numCopies && forall i :: 0 <= i < numCopies ==> slots[i].None?
    {
      this.repo, this.mode, numUsed := repo, mode, 0;
      slots := new Option<nat>[numCopies](_ => None);
      new;
      NoneTaken(slots[..]);
    }

    /** ldp_copy_VD_data with the private copy `own` as destination. */
    method FillFromPublished(own: nat)
      requires repo.Valid() && own < repo.copies.Length
      requires repo.repositoryPtr.Some? && repo.repositoryPtr.value != own
      requires var cp := repo.copies[repo.repositoryPtr.value]; cp.numReaders >= 0 && !cp.toBeRelease
      modifies repo.copies
      ensures repo.Valid()
      ensures repo.copies[..] == old(repo.copies[..])[own :=
                old(repo.copies[own]).(data := old(repo.copies[repo.repositoryPtr.value].data))]
    {
      var p := repo.repositoryPtr.value;
      repo.copies[p] := repo.copies[p].(numReaders := repo.copies[p].numReaders + 1);
      label pinned:
      var k := 0;
      while k < repo.dataSize
        invariant 0 <= k <= repo.dataSize
        invariant |repo.copies[own].data| == repo.dataSize
        invariant repo.copies[..] == old@pinned(repo.copies[..])[own :=
                    old@pinned(repo.copies[own]).(data := repo.copies[own].data)]
        invariant forall j :: 0 <= j < k ==> repo.copies[own].data[j] == old(repo.copies[p].data)[j]
      {
        repo.copies[own] := repo.copies[own].(data := repo.copies[own].data[k := repo.copies[p].data[k]]);
        k := k + 1;
      }
      assert repo.copies[own].data == old(repo.copies[p].data);
      repo.ReleaseWrittenVdCopy(p);
      assert repo.copies[..] == old(repo.copies[..])[own := repo.copies[own]];
    }

    /** find_written_access_index_controlled: the first unused slot, already counted as used. */
    method FindSlot() returns (i: nat)
      requires Valid() && numUsed < slots.Length
      modifies this`numUsed
      ensures numUsed == old(numUsed) + 1
      ensures i < slots.Length && slots[i].None? && forall j :: 0 <= j < i ==> slots[j].Some?
    {
      assert Taken(slots[..]) < |slots[..]|;
      i := 0;
      while i < slots.Length && slots[i].Some?
        invariant 0 <= i <= slots.Length
        invariant forall j :: 0 <= j < i ==> slots[j].Some?
      {
        i := i + 1;
      }
      numUsed := numUsed + 1;
    }

    /** The section of ldp_get_written_access under the repository mutex. */
    method AcquireCopy() returns (own: Option<nat>)
      requires repo.Valid() && (repo.repositoryPtr.Some? ==> Published())
      modifies repo.copies
      ensures repo.Valid() && own == FirstFree(old(repo.copies[..])) && (repo.repositoryPtr.Some? ==> Published())
      ensures own.None? ==> repo.copies[..] == old(repo.copies[..])
      ensures own.Some? ==> repo.View() == Acquired(old(repo.View()), mode)
      ensures own.Some? ==>
                && own.value < repo.copies.Length && old(repo.copies[own.value].state) == Free
                && repo.copies[..] == old(repo.copies[..])[own.value := repo.copies[own.value]]
                && repo.copies[own.value].state == Used
                && repo.copies[own.value].numReaders == old(repo.copies[own.value].numReaders)
                && repo.copies[own.value].toBeRelease == old(repo.copies[own.value].toBeRelease)
                && repo.copies[own.value].data == if mode == ReadWrite && repo.repositoryPtr.Some?
                                                  then old(repo.copies[repo.repositoryPtr.value].data) else old(repo.copies[own.value].data)
    {
      own := repo.GetWrittenVdCopy();
      if own.Some? && mode == ReadWrite && repo.repositoryPtr.Some? {
        FillFromPublished(own.value);
      }
    }

    /** ldp_get_written_access in controlled mode. */
    method GetWrittenAccess(h: Handle) returns (ret: Status, h': Handle)
      requires Valid()
      modifies this`numUsed, slots, repo.copies
      ensures Valid()
      ensures old(numUsed) == slots.Length ==>
                ret == RESOURCE_NOT_AVAILABLE && h' == h && repo.View() == old(repo.View()) && slots[..] == old(slots[..])
      ensures old(numUsed) < slots.Length && FirstFree(old(repo.copies[..])).None? ==>
                ret == RESOURCE_NOT_AVAILABLE && h' == RESET_HANDLE
                && repo.View() == old(repo.View()) && slots[..] == old(slots[..])
      ensures old(numUsed) < slots.Length && FirstFree(old(repo.copies[..])).Some? ==>
                && ret == (if repo.repositoryPtr.None? then DATA_NOT_INITIALIZED else OK)
                && 0 <= h'.slot < slots.Length && old(slots[h'.slot]).None? && h'.stamp == repo.stamp
                && slots[..] == old(slots[..])[h'.slot := FirstFree(old(repo.copies[..]))]
                && repo.View() == Acquired(old(repo.View()), mode)
      ensures ret == OK || ret == DATA_NOT_INITIALIZED ==>
                && numUsed == old(numUsed) + 1 && 0 <= h'.slot < slots.Length && slots[h'.slot].Some?
                && (forall j :: 0 <= j < h'.slot ==> slots[j].Some?)
                && var own := slots[h'.slot].value;
                   && own < repo.copies.Length && old(repo.copies[own].state) == Free
                   && repo.copies[..] == old(repo.copies[..])[own := repo.copies[own]]
                   && repo.copies[own].state == Used && repo.copies[own].numReaders == old(repo.copies[own].numReaders)
                   && repo.copies[own].toBeRelease == old(repo.copies[own].toBeRelease)
                   && (mode == ReadWrite && ret == OK ==> repo.copies[own].data == old(repo.copies[repo.repositoryPtr.value].data))
                   && (mode == WriteOnly || ret == DATA_NOT_INITIALIZED ==> repo.copies[own].data == old(repo.copies[own].data))
    {
      hide Acquired;
      if numUsed >= slots.Length {
        return RESOURCE_NOT_AVAILABLE, h;
      }
      var i := FindSlot();
      var own := AcquireCopy();
      if own.None? {
        slots[i] := None;
        numUsed := numUsed - 1;
        assert slots[..] == old(slots[..]);
        return RESOURCE_NOT_AVAILABLE, RESET_HANDLE;
      }
      ret := if repo.repositoryPtr.None? then DATA_NOT_INITIALIZED else OK;
      h' := Handle(i, repo.stamp);
      TakenUpdate(slots[..], i, own);
      slots[i] := own;
      assert slots[..] == old(slots[..])[i := own];
    }

    /**
     ldp_publish_written_access: the private copy becomes the published one with no pin
     left, the superseded copy is freed or left to its readers, the slot is free again.
     */
    method PublishWrittenAccess(h: Handle) returns (ret: Status, h': Handle)
      requires Valid()
      requires h.slot == -1 || (0 <= h.slot < slots.Length && slots[h.slot].Some?)
      requires h.slot != -1 ==> var own := slots[h.slot].value;
                 Some(own) != repo.repositoryPtr && repo.copies[own].state == Used
                 && repo.copies[own].numReaders == 0 && !repo.copies[own].toBeRelease
      modifies this`numUsed, slots, repo.copies, repo`repositoryPtr, repo`stamp
      ensures Valid()
      ensures h.slot == -1 ==> ret == INVALID_HANDLE && h' == h
                               && repo.View() == old(repo.View()) && slots[..] == old(slots[..])
      ensures h.slot != -1 ==> ret == OK && h' == RESET_HANDLE
                               && slots[..] == old(slots[..])[h.slot := None] && numUsed == old(numUsed) - 1
                               && repo.View() == MovePtr(old(repo.View()), old(slots[h.slot]).value)
      ensures h.slot != -1 ==>
                var (own, was) := (old(slots[h.slot]).value, old(repo.repositoryPtr));
                && repo.repositoryPtr == Some(own) && repo.stamp == old(repo.stamp) + 1 && repo.copies[own] == old(repo.copies[own])
                && (was.Some? && old(repo.copies[was.value].numReaders) == 0 ==>
                      repo.copies[was.value] == old(repo.copies[was.value]).(state := Free))
                && (was.Some? && old(repo.copies[was.value].numReaders) != 0 ==>
                      repo.copies[was.value] == old(repo.copies[was.value]).(toBeRelease := true))
                && forall c :: 0 <= c < repo.copies.Length && Some(c) != was ==> repo.copies[c] == old(repo.copies[c])
    {
      if h.slot == -1 {
        return INVALID_HANDLE, h;
      }
      var own := slots[h.slot].value;
      repo.MoveRepositoryPtr(own);
      label moved:
      repo.copies[own] := repo.copies[own].(numReaders := repo.copies[own].numReaders + 1);
      repo.ReleaseWrittenVdCopy(own);
      assert repo.copies[..] == old@moved(repo.copies[..]);
      TakenUpdate(slots[..], h.slot, None);
      slots[h.slot] := None;
      assert slots[..] == old(slots[..])[h.slot := None];
      numUsed := numUsed - 1;
      return OK, RESET_HANDLE;
    }

    /** ldp_cancel_written_access. */
    method CancelWrittenAccess(h: Handle) returns (ret: Status, h': Handle)
      requires Valid()
      requires h.slot == -1 || (0 <= h.slot < slots.Length && slots[h.slot].Some?)
      requires h.slot != -1 ==> slots[h.slot] != repo.repositoryPtr
      modifies this`numUsed, slots, repo.copies
      ensures Valid()
      ensures h.slot == -1 ==> ret == INVALID_HANDLE && h' == h
                               && repo.View() == old(repo.View()) && slots[..] == old(slots[..])
      ensures h.slot != -1 ==> ret == OK && h' == RESET_HANDLE
                               && slots[..] == old(slots[..])[h.slot := None] && numUsed == old(numUsed) - 1
                               && repo.View() == SetState(old(repo.View()), old(slots[h.slot]).value, Free)
                               && repo.copies[..] == old(repo.copies[..])[old(slots[h.slot]).value :=
                                                       old(repo.copies[slots[h.slot].value]).(state := Free)]
    {
      if h.slot == -1 {
        return INVALID_HANDLE, h;
      }
      var own := slots[h.slot].value;
      repo.copies[own] := repo.copies[own].(state := Free);
      assert repo.copies[..] == old(repo.copies[..])[own := repo.copies[own]];
      TakenUpdate(slots[..], h.slot, None);
      slots[h.slot] := None;
      assert slots[..] == old(slots[..])[h.slot := None];
      numUsed := numUsed - 1;
      return OK, RESET_HANDLE;
    }
  }
}
