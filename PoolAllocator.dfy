/** Rogue::PoolAllocator<T>: storage for a fixed number of objects of one type.
    Slots are the indices 0 .. size - 1 (m_First is slot 0, m_Last slot
    size - 1); the free slots sit on a Stack, and the objects constructed in
    the live slots are kept in a ghost map. */
module PoolAllocation {
  import opened Types
  import opened Wrappers

  ghost predicate Distinct(s: seq<nat>) {
    forall i, j :: 0 <= i < j < |s| ==> s[i] != s[j]
  }

  /** The free list and the live slots split the slots 0 .. n - 1 between them. */
  ghost predicate Partition(free: seq<nat>, liveSlots: set<nat>, n: nat) {
    Distinct(free) &&
    (forall i :: 0 <= i < |free| ==> free[i] < n) &&
    (forall s: nat :: s in liveSlots <==> s < n && s !in free)
  }

  /** The slot indices 0 .. n - 1. */
  ghost function Slots(n: nat): set<nat> {
    if n == 0 then {} else Slots(n - 1) + {n - 1}
  }

  lemma {:induction false} SlotsCount(n: nat)
    ensures |Slots(n)| == n
    ensures forall s: nat :: s in Slots(n) <==> s < n
  {
    if n > 0 {
      SlotsCount(n - 1);
    }
  }

  /** The set of slots a sequence holds. */
  ghost function Elements(s: seq<nat>): set<nat> {
    if s == [] then {} else Elements(s[..|s| - 1]) + {s[|s| - 1]}
  }

  lemma {:induction false} DistinctCount(s: seq<nat>)
    requires Distinct(s)
    ensures |Elements(s)| == |s|
    ensures forall x :: x in Elements(s) <==> x in s
  {
    if s != [] {
      var init, last := s[..|s| - 1], s[|s| - 1];
      DistinctCount(init);
      assert s == init + [last];
      assert last !in init;
    }
  }

  /** Live slots plus free slots always make up the whole pool. */
  lemma PartitionCount(free: seq<nat>, liveSlots: set<nat>, n: nat)
    requires Partition(free, liveSlots, n)
    ensures |liveSlots| + |free| == n
  {
    DistinctCount(free);
    SlotsCount(n);
    assert Slots(n) == liveSlots + Elements(free);
    assert liveSlots * Elements(free) == {};
  }

  class PoolAllocator<T> {
    /** Number of slots (m_Size). */
    const size: nat
    /** Addresses of the free slots (m_FreeChunks); the top is handed out next. */
    const freeChunks: Stack<nat>
    /** The object constructed in each live slot. */
    ghost var live: map<nat, T>

    /** What the fatal assertions of the free stack rely on: it has one entry
        per slot of room, and every entry is a slot of this pool. */
    ghost predicate Valid()
      reads this, freeChunks, freeChunks.elements
    {
      freeChunks.Valid() && freeChunks.size == size &&
      forall i :: 0 <= i < |freeChunks.Contents()| ==> freeChunks.Contents()[i] < size
    }

    ghost function FreeChunks(): (s: seq<nat>)
      requires Valid()
      reads this, freeChunks, freeChunks.elements
      ensures |s| <= size
    {
      freeChunks.Contents()
    }

    /** Ownership is consistent: no slot is free twice, and a slot is live
        exactly when it is not free. A double free breaks this. */
    ghost predicate Sound()
      requires Valid()
      reads this, freeChunks, freeChunks.elements
    {
      Partition(FreeChunks(), live.Keys, size)
    }

    /** Pushes the slots from the highest down to slot 0, so that slot 0
        (the lowest address) is on top. */
    constructor (amount: nat)
      ensures Valid() && Sound()
      ensures fresh(freeChunks) && fresh(freeChunks.elements)
      ensures size == amount && live == map[]
      ensures FreeChunks() == seq(amount, k => amount - 1 - k)
    {
      size := amount;
      freeChunks := new Stack<nat>(amount);
      live := map[];
      new;
      var i: int := amount - 1;
      while i >= 0
        invariant -1 <= i < amount
        invariant freeChunks.Valid() && freeChunks.size == amount
        invariant freeChunks.Contents() == seq(amount - 1 - i, k => amount - 1 - k)
        invariant live == map[]
      {
        freeChunks.Push(i);
        i := i - 1;
      }
      forall s: nat | s < amount
        ensures s in FreeChunks()
      {
        assert FreeChunks()[amount - 1 - s] == s;
      }
    }

    /** Constructs `obj` in the slot on top of the free stack and returns
        that slot, or None (the null pointer) when no slot is free. */
    method Allocate(obj: T) returns (r: Option<nat>)
      requires Valid()
      modifies this, freeChunks
      ensures Valid()
      ensures r.None? <==> old(FreeChunks()) == []
      ensures r.None? ==> FreeChunks() == old(FreeChunks()) && live == old(live)
      ensures r.Some? ==>
        r.value < size &&
        r.value == old(FreeChunks())[|old(FreeChunks())| - 1] &&
        FreeChunks() == old(FreeChunks())[..|old(FreeChunks())| - 1] &&
        live == old(live)[r.value := obj]
      ensures old(Sound()) ==> Sound() && (r.Some? ==> r.value !in old(live))
    {
      if freeChunks.IsEmpty() {
        return None;
      }
      var chunk := freeChunks.Pop();
      live := live[chunk := obj];
      r := Some(chunk);
      if old(Sound()) {
        assert chunk in old(FreeChunks());
      }
    }

    /** Destroys the object in slot `p` and pushes `p` back on the free stack,
        so that the next allocation reuses it. The source checks only that `p`
        lies between the first and the last slot: freeing a slot that is
        already free is accepted while the free stack has room, and then
        breaks Sound(). */
    method Deallocate(p: int)
      requires Valid()
      requires 0 <= p <= size - 1
      requires |FreeChunks()| < size
      modifies this, freeChunks, freeChunks.elements
      ensures Valid()
      ensures FreeChunks() == old(FreeChunks()) + [p]
      ensures live == old(live) - {p}
      ensures old(Sound()) && p in old(live) ==> Sound()
    {
      live := live - {p};
      freeChunks.Push(p);
    }

    /** With Sound(), free and live slots together make up the pool. */
    lemma CountsAgree()
      requires Valid()
      ensures Sound() ==> |live| + |FreeChunks()| == size
    {
      if Sound() {
        PartitionCount(FreeChunks(), live.Keys, size);
      }
    }

    function GetObjectCount(): (r: nat)
      requires Valid()
      reads this, freeChunks, freeChunks.elements
      ensures r + |FreeChunks()| == size
      ensures Sound() ==> r == |live|
    {
      CountsAgree();
      size - freeChunks.GetCount()
    }

    function GetFreeChunkCount(): (r: nat)
      requires Valid()
      reads this, freeChunks, freeChunks.elements
      ensures r == |FreeChunks()|
      ensures Sound() ==> r == size - |live|
    {
      CountsAgree();
      freeChunks.GetCount()
    }

    function GetSize(): (r: nat)
      requires Valid()
      reads this, freeChunks, freeChunks.elements
      ensures r == freeChunks.size
    {
      size
    }
  }

  /** Freeing a slot and allocating again hands back exactly that slot. */
  method ReuseAfterFree<T>(pool: PoolAllocator<T>, p: int, obj: T) returns (r: Option<nat>)
    requires pool.Valid() && pool.Sound()
    requires 0 <= p < pool.size && p in pool.live
    modifies pool, pool.freeChunks, pool.freeChunks.elements
    ensures pool.Valid() && pool.Sound()
    ensures r == Some(p) && pool.FreeChunks() == old(pool.FreeChunks())
  {
    pool.CountsAgree();
    assert p in pool.live.Keys;
    pool.Deallocate(p);
    r := pool.Allocate(obj);
  }

  /** A new pool of n slots hands out slots 0, 1, ..., n - 1 in address
      order and then None; it is then exhausted, with n objects and no free
      chunk. */
  method AllocateUntilExhausted<T>(n: nat, obj: T)
    returns (initialObjects: nat, initialFree: nat, got: seq<Option<nat>>, objects: nat, free: nat)
    ensures initialObjects == 0 && initialFree == n
    ensures got == seq(n, i => Some(i)) + [None]
    ensures objects == n && free == 0
  {
    var pool := new PoolAllocator<T>(n);
    initialObjects := pool.GetObjectCount();
    initialFree := pool.GetFreeChunkCount();
    got := [];
    var i := 0;
    while i < n
      invariant 0 <= i <= n
      invariant pool.Valid() && pool.Sound() && pool.size == n
      invariant pool.FreeChunks() == seq(n - i, k => n - 1 - k)
      invariant got == seq(i, k => Some(k))
    {
      var r := pool.Allocate(obj);
      got := got + [r];
      i := i + 1;
    }
    var last := pool.Allocate(obj);
    got := got + [last];
    objects := pool.GetObjectCount();
    free := pool.GetFreeChunkCount();
  }

  /** Fill a pool of n slots, free slot k, and allocate twice: the first
      allocation gets slot k back and the second finds no room. */
  method RefillFreedSlot<T>(n: nat, k: nat, obj: T) returns (first: Option<nat>, second: Option<nat>)
    requires k < n
    ensures first == Some(k) && second == None
  {
    var pool := new PoolAllocator<T>(n);
    var i := 0;
    while i < n
      invariant 0 <= i <= n
      invariant pool.Valid() && pool.Sound() && pool.size == n
      invariant pool.FreeChunks() == seq(n - i, j => n - 1 - j)
    {
      var r := pool.Allocate(obj);
      i := i + 1;
    }
    pool.Deallocate(k);
    first := pool.Allocate(obj);
    second := pool.Allocate(obj);
  }

  /** Freeing the same slot twice is accepted as long as the free stack has
      room, and the two following allocations then hand out the same slot. */
  method DoubleFreeHazard<T>(obj: T) returns (first: Option<nat>, second: Option<nat>)
    ensures first == second == Some(0)
  {
    var pool := new PoolAllocator<T>(3);
    var a := pool.Allocate(obj);
    var b := pool.Allocate(obj);
    pool.Deallocate(0);
    pool.Deallocate(0);
    first := pool.Allocate(obj);
    second := pool.Allocate(obj);
  }
}
