/**
 Environment identifiers (lab/kern/env.c, lab/inc/env.h): how env_alloc makes them and
 what envid2env accepts.
 */
module EnvIds {
  import opened Options

  const NENV := 1024
  const GENERATION := 4096            // 1 << ENVGENSHIFT
  const PERIOD := 0x7_FFFF            // 2^19 - 1 generations before an id comes back

  // A 32-bit two's complement sum.
  function Wrap32(x: int): int {
    (x + 0x8000_0000) % 0x1_0000_0000 - 0x8000_0000
  }

  // ENVX(id): the low ten bits.
  function Envx(id: int): nat {
    id % NENV
  }

  // The id env_alloc gives a slot whose last id was `id`.
  function NextId(id: int, slot: nat): int {
    var sum := Wrap32(id + GENERATION);
    var generation := sum - sum % NENV;      // & ~(NENV - 1)
    (if generation <= 0 then GENERATION else generation) + slot
  }

  // The id a slot has after its `n`th allocation.
  function IdAfter(slot: nat, n: nat): int {
    if n == 0 then 0 else NextId(IdAfter(slot, n - 1), slot)
  }

  function Closed(slot: nat, n: nat): int {
    if n == 0 then 0 else GENERATION * ((n - 1) % PERIOD + 1) + slot
  }

  lemma NextOfClosed(slot: nat, k: nat)
    requires slot < NENV && k < PERIOD
    ensures NextId(GENERATION * (k + 1) + slot, slot) == GENERATION * ((k + 1) % PERIOD + 1) + slot
  {
    var sum := Wrap32(GENERATION * (k + 1) + slot + GENERATION);
    if k + 1 < PERIOD {
      assert sum == GENERATION * (k + 2) + slot;
      assert sum % NENV == slot;
    } else {
      assert sum == slot - 0x8000_0000;
      assert sum % NENV == slot;
    }
  }

  lemma {:induction false} IdIsClosed(slot: nat, n: nat)
    requires slot < NENV
    ensures IdAfter(slot, n) == Closed(slot, n)
  {
    if n == 1 {
      assert NextId(0, slot) == GENERATION + slot;
    } else if n > 1 {
      IdIsClosed(slot, n - 1);
      NextOfClosed(slot, (n - 2) % PERIOD);
      ModSuccessor(n - 2);
    }
  }

  lemma ModSuccessor(k: nat)
    ensures (k % PERIOD + 1) % PERIOD == (k + 1) % PERIOD
  {
  }

  // Ids are positive 32-bit numbers and name their slot.
  lemma IdNamesSlot(slot: nat, n: nat)
    requires slot < NENV && n > 0
    ensures 0 < IdAfter(slot, n) < 0x8000_0000
    ensures Envx(IdAfter(slot, n)) == slot
  {
    IdIsClosed(slot, n);
  }

  lemma SlotsNeverCollide(a: nat, m: nat, b: nat, n: nat)
    requires a < NENV && b < NENV && a != b && m > 0 && n > 0
    ensures IdAfter(a, m) != IdAfter(b, n)
  {
    IdNamesSlot(a, m);
    IdNamesSlot(b, n);
  }

  // Two allocations of one slot share an id exactly when they are a multiple of
  // 2^19 - 1 allocations apart.
  lemma IdsRepeat(slot: nat, m: nat, n: nat)
    requires slot < NENV && 0 < m <= n
    ensures IdAfter(slot, m) == IdAfter(slot, n) <==> (n - m) % PERIOD == 0
  {
    IdIsClosed(slot, m);
    IdIsClosed(slot, n);
    SameResidue(m - 1, n - 1);
  }

  lemma SameResidue(a: nat, b: nat)
    requires a <= b
    ensures a % PERIOD == b % PERIOD <==> (b - a) % PERIOD == 0
  {
    var qa, qb := a / PERIOD, b / PERIOD;
    assert b - a == PERIOD * (qb - qa) + (b % PERIOD - a % PERIOD);
  }

  // ------------------------------------------------------------------
  // The table of environments
  // ------------------------------------------------------------------

  // Slots 0 to n-1 in order.
  function UpTo(n: nat): (r: seq<nat>)
    ensures |r| == n && forall i :: 0 <= i < n ==> r[i] == i
  {
    seq(n, i => i)
  }

  class EnvTable {
    var ids: seq<int>            // env_id
    var parents: seq<int>        // env_parent_id
    var free: seq<bool>          // env_status == ENV_FREE
    var freeList: seq<nat>       // env_free_list
    ghost var allocs: seq<nat>   // how often each slot has been allocated

    ghost predicate Valid()
      reads this
    {
      && |ids| == |parents| == |free| == |allocs| == NENV
      && (forall e :: 0 <= e < NENV ==> ids[e] == IdAfter(e, allocs[e]))
      && (forall e :: 0 <= e < NENV && !free[e] ==> allocs[e] > 0)
      && (forall i, j :: 0 <= i < j < |freeList| ==> freeList[i] != freeList[j])
      && (forall e :: e in freeList ==> e < NENV && free[e])
      && (forall e :: 0 <= e < NENV && free[e] ==> e in freeList)
    }

    // env_init links the slots from the last to the first, so that the first call of
    // env_alloc takes slot 0.
    constructor ()
      ensures Valid() && freeList == UpTo(NENV)
      ensures forall e :: 0 <= e < NENV ==> ids[e] == 0 && free[e] && allocs[e] == 0
    {
      ids, parents, free := seq(NENV, _ => -1), seq(NENV, _ => 0), seq(NENV, _ => false);
      freeList, allocs := [], seq(NENV, _ => 0);
      new;
      var i := NENV - 1;
      while i >= 0
        invariant -1 <= i < NENV && |ids| == |parents| == |free| == |allocs| == NENV
        invariant |freeList| == NENV - 1 - i && forall k :: 0 <= k < |freeList| ==> freeList[k] == i + 1 + k
        invariant forall e :: i < e < NENV ==> ids[e] == 0 && free[e]
        invariant forall e :: 0 <= e < NENV ==> allocs[e] == 0
      {
        ids := ids[i := 0];
        free := free[i := true];
        freeList := [i] + freeList;
        i := i - 1;
      }
      assert freeList == UpTo(NENV);
      forall e | 0 <= e < NENV
        ensures e in freeList && ids[e] == IdAfter(e, allocs[e])
      {
        assert freeList[e] == e;
      }
    }

    // `roomForVm` says whether env_setup_vm finds memory.
    method EnvAlloc(parentId: int, roomForVm: bool) returns (e: Option<nat>)
      requires Valid()
      modifies this
      ensures Valid()
      ensures e.None? <==> old(freeList) == [] || !roomForVm
      ensures e.None? ==> ids == old(ids) && free == old(free) && allocs == old(allocs) && freeList == old(freeList)
      ensures e.Some? ==>
                && e.value < NENV && old(freeList) == [e.value] + freeList && !free[e.value]
                && allocs == old(allocs)[e.value := old(allocs)[e.value] + 1]
                && parents == old(parents)[e.value := parentId]
                && (forall d :: 0 <= d < NENV && d != e.value ==> ids[d] == old(ids)[d] && free[d] == old(free)[d])
    {
      if freeList == [] || !roomForVm {
        return None;
      }
      var slot := freeList[0];
      assert slot in freeList;
      e := Some(slot);
      var generation := Wrap32(ids[slot] + GENERATION);
      generation := generation - generation % NENV;
      if generation <= 0 {
        generation := GENERATION;
      }
      ids := ids[slot := generation + slot];
      parents := parents[slot := parentId];
      free := free[slot := false];
      allocs := allocs[slot := allocs[slot] + 1];
      assert forall d :: d in freeList <==> d == slot || d in freeList[1..];
      freeList := freeList[1..];
    }

    method EnvFree(e: nat)
      requires Valid() && e < NENV && !free[e]
      modifies this`free, this`freeList
      ensures Valid() && free == old(free)[e := true] && freeList == [e] + old(freeList)
    {
      free := free[e := true];
      freeList := [e] + freeList;
    }

    method Envid2Env(envid: int, curenv: nat, checkperm: bool) returns (e: Option<nat>)
      requires Valid() && curenv < NENV && !free[curenv]
      ensures e == if envid == 0 then Some(curenv)
                   else if !free[Envx(envid)] && ids[Envx(envid)] == envid
                           && (checkperm ==> Envx(envid) == curenv || parents[Envx(envid)] == ids[curenv])
                   then Some(Envx(envid)) else None
      // never a free slot, and never an id other than the slot's latest
      ensures e.Some? ==> e.value < NENV && !free[e.value] && (envid != 0 ==> envid == IdAfter(e.value, allocs[e.value]))
    {
      if envid == 0 {
        return Some(curenv);
      }
      var slot := envid % NENV;
      if free[slot] || ids[slot] != envid {
        return None;
      }
      if checkperm && slot != curenv && parents[slot] != ids[curenv] {
        return None;
      }
      return Some(slot);
    }

    // An id handed out by an earlier allocation is rejected for the next 2^19 - 2
    // allocations of its slot.
    method RejectStale(slot: nat, n: nat, curenv: nat, checkperm: bool) returns (e: Option<nat>)
      requires Valid() && curenv < NENV && !free[curenv]
      requires slot < NENV && 0 < n < allocs[slot] < n + PERIOD
      ensures e == None
    {
      e := Envid2Env(IdAfter(slot, n), curenv, checkperm);
      IdNamesSlot(slot, n);
      IdsRepeat(slot, n, allocs[slot]);
    }
  }
}
