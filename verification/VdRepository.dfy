/**
 The Versioned Data repository in controlled mode (lib/ldp_VD.c) and the two
 module-side managers that hand out read and write accesses.

 The pure functions below give the effect of each mutex section on the value of
 the repository. The class methods are proved against them, and the step system
 of VdProtocol.dfy is built from the same functions.
 */
module VdRepository {
  import opened Common

  datatype CopyState = Free | Used

  datatype VdCopy = VdCopy(data: seq<Byte>, numReaders: int, state: CopyState, toBeRelease: bool)

  datatype Repo = Repo(copies: seq<VdCopy>, ptr: Option<nat>, stamp: nat) {
    ghost predicate InRange() {
      ptr.Some? ==> ptr.value < |copies|
    }
  }

  /** Index of the first FREE copy, scanning from `from`. */
  function FirstFree(copies: seq<VdCopy>, from: nat := 0): (r: Option<nat>)
    requires from <= |copies|
    ensures r.Some? ==> from <= r.value < |copies| && copies[r.value].state == Free
    ensures r.Some? ==> forall i :: from <= i < r.value ==> copies[i].state != Free
    ensures r.None? ==> forall i :: from <= i < |copies| ==> copies[i].state != Free
    decreases |copies| - from
  {
    if from == |copies| then None
    else if copies[from].state == Free then Some(from)
    else FirstFree(copies, from + 1)
  }

  function SetState(r: Repo, c: nat, st: CopyState): Repo
    requires c < |r.copies|
  {
    r.(copies := r.copies[c := r.copies[c].(state := st)])
  }

  function Pin(r: Repo, c: nat): Repo
    requires c < |r.copies|
  {
    r.(copies := r.copies[c := r.copies[c].(numReaders := r.copies[c].numReaders + 1)])
  }

  /** Effect of dropping one pin: the last one frees a superseded copy. */
  function Unpinned(c: VdCopy): VdCopy {
    if c.toBeRelease && c.numReaders == 1 then
      c.(state := Free, toBeRelease := false, numReaders := 0)
    else
      c.(numReaders := c.numReaders - 1)
  }

  function Unpin(r: Repo, c: nat): Repo
    requires c < |r.copies|
  {
    r.(copies := r.copies[c := Unpinned(r.copies[c])])
  }

  /** The superseded copy is freed, or marked when somebody still reads it. */
  function Superseded(c: VdCopy): VdCopy {
    if c.numReaders == 0 then c.(state := Free) else c.(toBeRelease := true)
  }

  function MovePtr(r: Repo, own: nat): Repo
    requires r.InRange() && own < |r.copies|
  {
    var copies := if r.ptr.Some? then r.copies[r.ptr.value := Superseded(r.copies[r.ptr.value])] else r.copies;
    Repo(copies, Some(own), r.stamp + 1)
  }

  function WriteByte(r: Repo, c: nat, k: nat, b: Byte): Repo
    requires c < |r.copies| && k < |r.copies[c].data|
  {
    r.(copies := r.copies[c := r.copies[c].(data := r.copies[c].data[k := b])])
  }

  datatype Status = OK | INVALID_HANDLE | RESOURCE_NOT_AVAILABLE | DATA_NOT_INITIALIZED | NO_DATA

  /** `lib/ldp_VD.c`: an array of copies and a pointer to the published one. */
  class Repository {
    var copies: array<VdCopy>
    var repositoryPtr: Option<nat>
    var stamp: nat
    const dataSize: nat

    ghost predicate Valid()
      reads this, copies
    {
      && (repositoryPtr.Some? ==> repositoryPtr.value < copies.Length)
      && forall i :: 0 <= i < copies.Length ==> |copies[i].data| == dataSize
    }

    ghost function View(): Repo
      reads this, copies
    {
      Repo(copies[..], repositoryPtr, stamp)
    }

    constructor (numCopies: nat, dataSize: nat)
      ensures Valid() && fresh(copies)
      ensures copies.Length == numCopies && this.dataSize == dataSize
      ensures repositoryPtr == None && stamp == 0
      ensures forall i :: 0 <= i < numCopies ==> copies[i] == VdCopy(seq(dataSize, _ => 0), 0, Free, false)
    {
      var blank := VdCopy(seq(dataSize, _ => 0), 0, Free, false);
      var cs := new VdCopy[numCopies](_ => blank);
      this.dataSize := dataSize;
      copies, repositoryPtr, stamp := cs, None, 0;
    }

    /** ldp_get_written_VD_copy: claims the first FREE copy. */
    method GetWrittenVdCopy() returns (c: Option<nat>)
      requires Valid()
      modifies copies
      ensures Valid() && c == FirstFree(old(copies[..]))
      ensures View() == if c.Some? then SetState(old(View()), c.value, Used) else old(View())
      ensures c.None? ==> copies[..] == old(copies[..]) && forall i :: 0 <= i < copies.Length ==> copies[i].state == Used
      ensures c.Some? ==> c.value < copies.Length && old(copies[c.value].state) == Free
                          && (forall i :: 0 <= i < c.value ==> copies[i].state == Used)
                          && copies[..] == old(copies[..])[c.value := old(copies[c.value]).(state := Used)]
    {
      var i := 0;
      while i < copies.Length
        invariant 0 <= i <= copies.Length
        invariant FirstFree(copies[..]) == FirstFree(copies[..], i)
        invariant copies[..] == old(copies[..])
      {
        if copies[i].state == Free {
          copies[i] := copies[i].(state := Used);
          return Some(i);
        }
        i := i + 1;
      }
      return None;
    }

    /** ldp_release_written_VD_copy. */
    method ReleaseWrittenVdCopy(c: nat)
      requires Valid() && c < copies.Length
      modifies copies
      ensures Valid() && View() == Unpin(old(View()), c)
      ensures old(copies[c].toBeRelease) && old(copies[c].numReaders) == 1 ==>
                copies[..] == old(copies[..])[c := VdCopy(old(copies[c].data), 0, Free, false)]
      ensures !(old(copies[c].toBeRelease) && old(copies[c].numReaders) == 1) ==>
                copies[..] == old(copies[..])[c := old(copies[c]).(numReaders := old(copies[c].numReaders) - 1)]
    {
      if copies[c].toBeRelease && copies[c].numReaders == 1 {
        copies[c] := copies[c].(state := Free);
        copies[c] := copies[c].(toBeRelease := false);
        copies[c] := copies[c].(numReaders := 0);
      } else {
        copies[c] := copies[c].(numReaders := copies[c].numReaders - 1);
      }
      assert copies[..] == old(copies[..])[c := copies[c]];
    }

    /** ldp_move_repository_ptr. */
    method MoveRepositoryPtr(own: nat)
      requires Valid() && own < copies.Length
      modifies this`repositoryPtr, this`stamp, copies
      ensures Valid() && View() == MovePtr(old(View()), own)
      ensures repositoryPtr == Some(own) && stamp == old(stamp) + 1
      ensures old(repositoryPtr).None? ==> copies[..] == old(copies[..])
      ensures old(repositoryPtr).Some? ==>
                var p := old(repositoryPtr).value;
                copies[..] == old(copies[..])[p := if old(copies[p].numReaders) == 0 then old(copies[p]).(state := Free)
                                                   else old(copies[p]).(toBeRelease := true)]
    {
      if repositoryPtr.Some? {
        var p := repositoryPtr.value;
        if copies[p].numReaders == 0 {
          copies[p] := copies[p].(state := Free);
        } else {
          copies[p] := copies[p].(toBeRelease := true);
        }
        assert copies[..] == old(copies[..])[p := copies[p]];
      }
      repositoryPtr := Some(own);
      stamp := stamp + 1;
    }

    /**
     ldp_copy_VD_data run without interference: the destination gets the bytes of the
     published copy and the pin leaves no trace, even when the copy was about to drain.
     */
    method CopyVdData(dest: array<Byte>) returns (ret: Status)
      requires Valid() && dest.Length == dataSize
      requires repositoryPtr.Some? ==> copies[repositoryPtr.value].numReaders >= 0
      requires repositoryPtr.Some? ==> !copies[repositoryPtr.value].toBeRelease
      modifies dest, copies
      ensures Valid() && View() == old(View())
      ensures ret == if repositoryPtr.None? then DATA_NOT_INITIALIZED else OK
      ensures ret == OK ==> dest[..] == copies[repositoryPtr.value].data
      ensures ret != OK ==> dest[..] == old(dest[..])
    {
      if repositoryPtr.None? {
        return DATA_NOT_INITIALIZED;
      }
      var c := repositoryPtr.value;
      copies[c] := copies[c].(numReaders := copies[c].numReaders + 1);
      var k := 0;
      while k < dataSize
        invariant 0 <= k <= dataSize
        invariant copies[..] == old(copies[..])[c := old(copies[c]).(numReaders := old(copies[c].numReaders) + 1)]
        invariant copies[c].data == old(copies[c].data)
        invariant forall j :: 0 <= j < k ==> dest[j] == copies[c].data[j]
      {
        dest[k] := copies[c].data[k];
        k := k + 1;
      }
      ReleaseWrittenVdCopy(c);
      assert copies[..] == old(copies[..]);
      assert dest[..] == copies[c].data;
      return OK;
    }
  }
}
