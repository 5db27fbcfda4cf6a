/** Rogue::StackAllocator: a bump-pointer arena over one byte buffer.
    Addresses are natural numbers: the buffer occupies [data, data + size],
    `head` is the bump pointer. Every successful allocation pushes an
    ObjectContext record; markers save head values for scoped rollback.
    Running a record's destroy thunk is modelled by appending its `id` to the
    ghost log `destroyed`. */
module StackAllocation {
  import opened Types
  import opened Wrappers
  import opened MathUtil

  /** sizeof(ObjectContext) (three pointers) and sizeof(byte*) on a 64-bit
      target: they fix the capacities of the two bookkeeping stacks. */
  const ObjectContextSize: nat := 24
  const PointerSize: nat := 8

  /** One allocation record. `id` identifies the object its destroy thunk
      destroys, `root` is the head before alignment, `data` the aligned
      address of the object and `size` its sizeof. */
  datatype ObjectContext = ObjectContext(id: nat, root: nat, data: nat, size: nat)

  /** The head position after the records `rs`: the end of the last object,
      or the buffer start `base` when there is none. */
  function Top(rs: seq<ObjectContext>, base: nat): nat {
    if rs == [] then base else rs[|rs| - 1].data + rs[|rs| - 1].size
  }

  /** The records lie back to back from `base`: each root is where the
      previous object ended, padding only follows a root, and objects are
      never empty (sizeof is at least 1). */
  ghost predicate Chained(rs: seq<ObjectContext>, base: nat) {
    forall i :: 0 <= i < |rs| ==> LinkedAt(rs, base, i)
  }

  ghost predicate LinkedAt(rs: seq<ObjectContext>, base: nat, i: nat)
    requires i < |rs|
  {
    rs[i].root == Top(rs[..i], base) && rs[i].root <= rs[i].data && rs[i].size > 0
  }

  lemma ChainedPrefix(rs: seq<ObjectContext>, base: nat, k: nat)
    requires Chained(rs, base) && k <= |rs|
    ensures Chained(rs[..k], base)
  {
    forall i | 0 <= i < k
      ensures LinkedAt(rs[..k], base, i)
    {
      assert rs[..k][..i] == rs[..i];
      assert LinkedAt(rs, base, i);
    }
  }

  /** The head strictly grows with every record: fewer records, lower head. */
  lemma {:induction false} TopIncreases(rs: seq<ObjectContext>, base: nat, i: nat, j: nat)
    requires Chained(rs, base) && i < j <= |rs|
    ensures Top(rs[..i], base) < Top(rs[..j], base)
  {
    assert rs[..j][..j - 1] == rs[..j - 1];
    assert LinkedAt(rs, base, j - 1);
    if i < j - 1 {
      TopIncreases(rs, base, i, j - 1);
    }
  }

  /** So a head value determines how many records are outstanding. */
  lemma TopInjective(rs: seq<ObjectContext>, base: nat, i: nat, j: nat)
    requires Chained(rs, base) && i <= |rs| && j <= |rs|
    requires Top(rs[..i], base) == Top(rs[..j], base)
    ensures i == j
  {
    if i < j {
      TopIncreases(rs, base, i, j);
    } else if j < i {
      TopIncreases(rs, base, j, i);
    }
  }

  /** The head is back at the buffer start exactly when no record is outstanding. */
  lemma TopAtBaseIffEmpty(rs: seq<ObjectContext>, base: nat)
    requires Chained(rs, base)
    ensures Top(rs, base) == base <==> rs == []
  {
    if rs != [] {
      assert rs[..|rs|] == rs;
      TopOfEmptyPrefix(rs, base);
      TopIncreases(rs, base, 0, |rs|);
    }
  }

  lemma TopOfEmptyPrefix(rs: seq<ObjectContext>, base: nat)
    ensures Top(rs[..0], base) == base
  {
    assert rs[..0] == [];
  }

  /** The destruction log of unwinding `rs`: last record first. */
  function DestroyOrder(rs: seq<ObjectContext>): seq<nat> {
    if rs == [] then [] else DestroyOrder(rs[1..]) + [rs[0].id]
  }

  lemma {:induction false} DestroyOrderAt(rs: seq<ObjectContext>, k: nat)
    requires k < |rs|
    ensures |DestroyOrder(rs)| == |rs|
    ensures DestroyOrder(rs)[k] == rs[|rs| - 1 - k].id
  {
    DestroyOrderLength(rs);
    if k < |rs| - 1 {
      DestroyOrderAt(rs[1..], k);
    }
  }

  lemma {:induction false} DestroyOrderLength(rs: seq<ObjectContext>)
    ensures |DestroyOrder(rs)| == |rs|
  {
    if rs != [] {
      DestroyOrderLength(rs[1..]);
    }
  }

  /** Unwinding the later records and then the earlier ones is the same as
      unwinding all of them at once. */
  lemma {:induction false} DestroyOrderAppend(a: seq<ObjectContext>, b: seq<ObjectContext>)
    ensures DestroyOrder(a + b) == DestroyOrder(b) + DestroyOrder(a)
  {
    if a == [] {
      assert a + b == b;
    } else {
      assert (a + b)[1..] == a[1..] + b;
      DestroyOrderAppend(a[1..], b);
    }
  }

  /** Unwinding three records destroys the third, then the second, then the first. */
  lemma DestroyOrderOfThree(rs: seq<ObjectContext>)
    requires |rs| == 3
    ensures DestroyOrder(rs) == [rs[2].id, rs[1].id, rs[0].id]
  {
    DestroyOrderAt(rs, 0);
    DestroyOrderAt(rs, 1);
    DestroyOrderAt(rs, 2);
  }

  lemma SplitAt(a: seq<ObjectContext>, b: seq<ObjectContext>, rs: seq<ObjectContext>)
    requires a + b == rs
    ensures a == rs[..|a|] && b == rs[|a|..]
  {
  }

  /** One step of unwinding: taking the top record off a chained stack
      leaves a chained stack whose top is that record's root, and the record
      joins the front of the popped ones. */
  lemma UnwindStep(before: seq<ObjectContext>, popped: seq<ObjectContext>,
                   rs: seq<ObjectContext>, base: nat)
    requires before != [] && Chained(before, base) && before + popped == rs
    ensures var rest, rec := before[..|before| - 1], before[|before| - 1];
      Chained(rest, base) && rec.root == Top(rest, base) &&
      rest + ([rec] + popped) == rs &&
      DestroyOrder([rec] + popped) == DestroyOrder(popped) + [rec.id]
  {
    var rest, rec := before[..|before| - 1], before[|before| - 1];
    assert LinkedAt(before, base, |rest|);
    assert before == rest + [rec];
    ChainedPrefix(before, base, |rest|);
    DestroyOrderStep(rec, popped);
  }

  /** Popping one more record extends the log by that record's id. */
  lemma DestroyOrderStep(rec: ObjectContext, popped: seq<ObjectContext>)
    ensures DestroyOrder([rec] + popped) == DestroyOrder(popped) + [rec.id]
  {
    assert ([rec] + popped)[1..] == popped;
  }

  /** Every marker is the head as it was when its record count was current,
      and the counts never decrease from the bottom marker to the top one. */
  ghost predicate MarkersAgree(rs: seq<ObjectContext>, ms: seq<nat>, counts: seq<nat>, base: nat) {
    |counts| == |ms| &&
    (forall j :: 0 <= j < |counts| ==> counts[j] <= |rs|) &&
    (forall j :: 0 <= j < |counts| ==> MarkerAt(rs, ms, counts, base, j)) &&
    (forall i, j :: 0 <= i < j < |counts| ==> counts[i] <= counts[j])
  }

  ghost predicate MarkerAt(rs: seq<ObjectContext>, ms: seq<nat>, counts: seq<nat>, base: nat, j: nat)
    requires j < |counts| == |ms|
  {
    counts[j] <= |rs| && ms[j] == Top(rs[..counts[j]], base)
  }

  /** The arena invariant over records `rs`, marker values `ms` (with their
      record counts), the head and the buffer [base, base + size]. */
  ghost predicate Arena(rs: seq<ObjectContext>, ms: seq<nat>, counts: seq<nat>, head: nat, base: nat, size: nat) {
    Chained(rs, base) && head == Top(rs, base) && head <= base + size &&
    MarkersAgree(rs, ms, counts, base)
  }

  lemma ArenaEmpty(base: nat, size: nat)
    ensures Arena([], [], [], base, base, size)
  {
  }

  /** A record placed at the head, within the buffer, keeps the invariant. */
  lemma ArenaAllocate(rs: seq<ObjectContext>, ms: seq<nat>, counts: seq<nat>, base: nat, size: nat, rec: ObjectContext)
    requires Arena(rs, ms, counts, Top(rs, base), base, size)
    requires rec.root == Top(rs, base) && rec.root <= rec.data && rec.size > 0
    requires rec.data + rec.size <= base + size
    ensures Arena(rs + [rec], ms, counts, rec.data + rec.size, base, size)
  {
    var rs' := rs + [rec];
    assert rs'[..|rs|] == rs;
    forall i | 0 <= i < |rs'|
      ensures LinkedAt(rs', base, i)
    {
      if i < |rs| {
        assert rs'[..i] == rs[..i];
        assert LinkedAt(rs, base, i);
      }
    }
    forall j | 0 <= j < |counts|
      ensures MarkerAt(rs', ms, counts, base, j)
    {
      assert MarkerAt(rs, ms, counts, base, j);
      assert rs'[..counts[j]] == rs[..counts[j]];
    }
  }

  /** Saving the head as a marker keeps the invariant. */
  lemma ArenaPushMarker(rs: seq<ObjectContext>, ms: seq<nat>, counts: seq<nat>, head: nat, base: nat, size: nat)
    requires Arena(rs, ms, counts, head, base, size)
    ensures Arena(rs, ms + [head], counts + [|rs|], head, base, size)
  {
    var ms', counts' := ms + [head], counts + [|rs|];
    forall j | 0 <= j < |counts'|
      ensures MarkerAt(rs, ms', counts', base, j)
    {
      if j < |counts| {
        assert MarkerAt(rs, ms, counts, base, j);
      } else {
        assert rs[..|rs|] == rs;
      }
    }
  }

  /** Unwinding to the top marker's record count and dropping that marker
      keeps the invariant, with the head back at the marker. */
  lemma ArenaRollback(rs: seq<ObjectContext>, ms: seq<nat>, counts: seq<nat>, head: nat, base: nat, size: nat)
    requires Arena(rs, ms, counts, head, base, size) && ms != []
    ensures var n := |ms|;
      Arena(rs[..counts[n - 1]], ms[..n - 1], counts[..n - 1], ms[n - 1], base, size)
  {
    var n := |ms|;
    var k := counts[n - 1];
    ChainedPrefix(rs, base, k);
    if k < |rs| {
      assert rs[..|rs|] == rs;
      TopIncreases(rs, base, k, |rs|);
    }
    assert MarkerAt(rs, ms, counts, base, n - 1);
    var rs', ms', counts' := rs[..k], ms[..n - 1], counts[..n - 1];
    forall j | 0 <= j < n - 1
      ensures MarkerAt(rs', ms', counts', base, j)
    {
      assert MarkerAt(rs, ms, counts, base, j);
      assert counts[j] <= k;
      assert rs[..k][..counts[j]] == rs[..counts[j]];
    }
  }

  class StackAllocator {
    /** Start address of the buffer (m_Data). */
    const data: nat
    /** Buffer size in bytes (m_Size). */
    const size: nat
    /** Bump pointer (m_Head). */
    var head: nat
    /** One record per live object, oldest at the bottom (m_ObjectContexts). */
    const objectContexts: Stack<ObjectContext>
    /** Saved head values (m_Markers). */
    const markers: Stack<nat>
    /** For each marker, the number of records outstanding when it was pushed. */
    ghost var markerCounts: seq<nat>
    /** Ids of the destroyed objects, in the order their thunks ran. */
    ghost var destroyed: seq<nat>

    ghost function Records(): seq<ObjectContext>
      requires objectContexts.Valid()
      reads objectContexts, objectContexts.elements
    {
      objectContexts.Contents()
    }

    ghost function Markers(): seq<nat>
      requires markers.Valid()
      reads markers, markers.elements
    {
      markers.Contents()
    }

    /** The arena invariant: records are back to back from the buffer start,
        the head is the end of the last one and stays within the buffer, and
        every marker is the head as it was when its record count was current. */
    ghost predicate Valid()
      reads this, objectContexts, objectContexts.elements, markers, markers.elements
    {
      objectContexts.Valid() && markers.Valid() &&
      objectContexts.size == size / ObjectContextSize &&
      markers.size == size / PointerSize &&
      Arena(Records(), Markers(), markerCounts, head, data, size)
    }

    /** `base` is the address at which the buffer of `size` bytes was reserved. */
    constructor (base: nat, size: nat)
      ensures Valid() && fresh(objectContexts) && fresh(markers)
      ensures fresh(objectContexts.elements) && fresh(markers.elements)
      ensures data == base && this.size == size && head == base
      ensures Records() == [] && Markers() == [] && destroyed == []
    {
      data := base;
      this.size := size;
      objectContexts := new Stack<ObjectContext>(size / ObjectContextSize);
      markers := new Stack<nat>(size / PointerSize);
      head := base;
      markerCounts := [];
      destroyed := [];
      new;
      ArenaEmpty(base, size);
    }

    /** The destructor's leak check: the head must be back at the buffer
        start, which happens exactly when no object is outstanding. */
    method Destroy()
      requires Valid() && head == data
      ensures Records() == []
    {
      TopAtBaseIffEmpty(Records(), data);
    }

    /** Constructs an object of the given alignment and size at the first
        suitably aligned address at or above the head, or returns None (null)
        when it would run past the end of the buffer. Recording the object
        pushes onto the record stack, which must have room. */
    method Allocate(align: nat, typeSize: nat, id: nat) returns (r: Option<nat>)
      requires Valid() && align > 0 && typeSize > 0
      requires NextMultiple(align, head) + typeSize <= data + size ==> |Records()| < objectContexts.size
      modifies this, objectContexts, objectContexts.elements
      ensures Valid()
      ensures r.Some? ==> r.value == NextMultiple(align, old(head)) && r.value + typeSize <= data + size
      ensures r.None? <==> NextMultiple(align, old(head)) + typeSize > data + size
      ensures r.Some? ==>
        head == r.value + typeSize &&
        Records() == old(Records()) + [ObjectContext(id, old(head), r.value, typeSize)]
      ensures r.None? ==> head == old(head) && Records() == old(Records())
      ensures Markers() == old(Markers()) && markerCounts == old(markerCounts)
      ensures destroyed == old(destroyed)
    {
      var allocationLocation := NextMultiple(align, head);
      var root := head;
      var newHeadPointer := allocationLocation + typeSize;
      if newHeadPointer <= data + size {
        ArenaAllocate(Records(), Markers(), markerCounts, data, size,
          ObjectContext(id, root, allocationLocation, typeSize));
        head := newHeadPointer;
        AddContextToStack(id, root, allocationLocation, typeSize);
        r := Some(allocationLocation);
      } else {
        r := None;
      }
    }

    method AddContextToStack(id: nat, root: nat, address: nat, typeSize: nat)
      requires objectContexts.Valid() && |Records()| < objectContexts.size
      modifies objectContexts, objectContexts.elements
      ensures objectContexts.Valid()
      ensures Records() == old(Records()) + [ObjectContext(id, root, address, typeSize)]
    {
      objectContexts.Push(ObjectContext(id, root, address, typeSize));
    }

    /** Runs every destroy thunk, last record first, resets the head to the
        buffer start and drops every marker. */
    method DeallocateAll()
      requires Valid()
      modifies this, objectContexts, markers
      ensures Valid()
      ensures head == data && Records() == [] && Markers() == []
      ensures destroyed == old(destroyed) + DestroyOrder(old(Records()))
    {
      head := data;
      DestroyRecords();
      markers.Clear();
      markerCounts := [];
      ArenaEmpty(data, size);
    }

    /** The loop of DeallocateAll: pops every record, last first, and runs
        its destroy thunk. */
    method DestroyRecords()
      requires objectContexts.Valid()
      modifies this`destroyed, objectContexts
      ensures objectContexts.Valid() && Records() == []
      ensures destroyed == old(destroyed) + DestroyOrder(old(Records()))
    {
      ghost var rs := Records();
      ghost var popped: seq<ObjectContext> := [];
      ghost var cur := rs;
      while !objectContexts.IsEmpty()
        invariant objectContexts.Valid() && Records() == cur
        invariant cur + popped == rs
        invariant destroyed == old(destroyed) + DestroyOrder(popped)
        decreases |cur|
      {
        var context := objectContexts.Pop();
        assert cur == cur[..|cur| - 1] + [context];
        DestroyOrderStep(context, popped);
        popped := [context] + popped;
        cur := cur[..|cur| - 1];
        destroyed := destroyed + [context.id];
      }
      assert popped == rs;
    }

    /** Saves the current head as a rollback point. */
    method PushMarker()
      requires Valid() && |Markers()| < markers.size
      modifies this, markers, markers.elements
      ensures Valid()
      ensures Markers() == old(Markers()) + [head] && markerCounts == old(markerCounts) + [|Records()|]
      ensures head == old(head) && Records() == old(Records()) && destroyed == old(destroyed)
    {
      ArenaPushMarker(Records(), Markers(), markerCounts, head, data, size);
      markers.Push(head);
      markerCounts := markerCounts + [|Records()|];
    }

    /** Removes the top marker and unwinds every record made after it, last
        first, resetting the head to each record's root until the head equals
        the marker. As written, the record stack is peeked before the loop
        test and again after each pop, so some record must lie below the
        marker: that is, the marker must not be the buffer start. */
    method PopMarker()
      requires Valid() && Markers() != []
      requires Markers()[|Markers()| - 1] != data
      modifies this, objectContexts, markers
      ensures Valid()
      ensures var n := |old(Markers())|; var k := old(markerCounts)[n - 1];
        head == old(Markers())[n - 1] && Markers() == old(Markers())[..n - 1] &&
        markerCounts == old(markerCounts)[..n - 1] &&
        Records() == old(Records())[..k] &&
        destroyed == old(destroyed) + DestroyOrder(old(Records())[k..])
    {
      ghost var rs := Records();
      ghost var k := markerCounts[|markerCounts| - 1];
      ArenaRollback(rs, Markers(), markerCounts, head, data, size);
      TopOfEmptyPrefix(rs, data);
      var marker := markers.Pop();
      markerCounts := markerCounts[..|markerCounts| - 1];
      UnwindPeekingFirst(marker, k);
    }

    /** The loop of PopMarker as written: it reads the top record before
        every test of the head, including the last one. */
    method UnwindPeekingFirst(marker: nat, ghost k: nat)
      requires objectContexts.Valid() && Chained(Records(), data)
      requires 1 <= k <= |Records()| && marker == Top(Records()[..k], data)
      requires head == Top(Records(), data)
      modifies this`head, this`destroyed, objectContexts
      ensures objectContexts.Valid()
      ensures head == marker && Records() == old(Records())[..k]
      ensures destroyed == old(destroyed) + DestroyOrder(old(Records())[k..])
    {
      ghost var rs := Records();
      ghost var popped: seq<ObjectContext> := [];
      ghost var cur := rs;
      var current := objectContexts.Peek();
      while marker != head
        invariant objectContexts.Valid() && Records() == cur
        invariant Chained(cur, data) && cur + popped == rs && 1 <= k <= |cur|
        invariant current == cur[|cur| - 1]
        invariant head == Top(cur, data)
        invariant destroyed == old(destroyed) + DestroyOrder(popped)
        decreases |cur|
      {
        SplitAt(cur, popped, rs);
        head := current.root;
        destroyed := destroyed + [current.id];
        UnwindStep(cur, popped, rs, data);
        var _ := objectContexts.Pop();
        popped := [current] + popped;
        cur := cur[..|cur| - 1];
        current := objectContexts.Peek();
      }
      SplitAt(cur, popped, rs);
      TopInjective(rs, data, k, |cur|);
    }

    /** The rollback PopMarker evidently intends: the record stack is only
        consulted while the head is above the marker, so the marker may be
        the buffer start and the unwinding may empty the record stack. */
    method PopMarkerCorrected()
      requires Valid() && Markers() != []
      modifies this, objectContexts, markers
      ensures Valid()
      ensures var n := |old(Markers())|; var k := old(markerCounts)[n - 1];
        head == old(Markers())[n - 1] && Markers() == old(Markers())[..n - 1] &&
        markerCounts == old(markerCounts)[..n - 1] &&
        Records() == old(Records())[..k] &&
        destroyed == old(destroyed) + DestroyOrder(old(Records())[k..])
    {
      ghost var rs := Records();
      ghost var k := markerCounts[|markerCounts| - 1];
      ArenaRollback(rs, Markers(), markerCounts, head, data, size);
      var marker := markers.Pop();
      markerCounts := markerCounts[..|markerCounts| - 1];
      Unwind(marker, k);
    }

    /** Pops records, destroying each, until the head is back at `marker`,
        the head after the first `k` records. */
    method Unwind(marker: nat, ghost k: nat)
      requires objectContexts.Valid() && Chained(Records(), data)
      requires k <= |Records()| && marker == Top(Records()[..k], data)
      requires head == Top(Records(), data)
      modifies this`head, this`destroyed, objectContexts
      ensures objectContexts.Valid()
      ensures head == marker && Records() == old(Records())[..k]
      ensures destroyed == old(destroyed) + DestroyOrder(old(Records())[k..])
    {
      ghost var rs := Records();
      ghost var popped: seq<ObjectContext> := [];
      ghost var cur := rs;
      while marker != head
        invariant objectContexts.Valid() && Records() == cur
        invariant Chained(cur, data) && cur + popped == rs && k <= |cur|
        invariant head == Top(cur, data)
        invariant destroyed == old(destroyed) + DestroyOrder(popped)
        decreases |cur|
      {
        SplitAt(cur, popped, rs);
        var current := objectContexts.Peek();
        UnwindStep(cur, popped, rs, data);
        var _ := objectContexts.Pop();
        head := current.root;
        destroyed := destroyed + [current.id];
        popped := [current] + popped;
        cur := cur[..|cur| - 1];
      }
      SplitAt(cur, popped, rs);
      TopInjective(rs, data, k, |cur|);
    }

    /** Number of outstanding allocations (records). */
    function GetObjectCount(): (r: nat)
      requires Valid()
      reads this, objectContexts, objectContexts.elements, markers, markers.elements
      ensures r == |Records()|
    {
      objectContexts.GetCount()
    }

    /** The count is zero exactly when the head is back at the buffer start,
        which is what the destructor's leak check relies on. */
    lemma CountZeroIffHeadAtStart()
      requires Valid()
      ensures GetObjectCount() == 0 <==> head == data
    {
      TopAtBaseIffEmpty(Records(), data);
    }
  }

  /** A default-sized arena (1024 bytes at address `base`) after two
      4-byte, 4-aligned objects with ids 1 and 2 were allocated in it; the
      counts are read before and after each allocation. */
  method ArenaWithTwo(base: nat) returns (a: StackAllocator, counts: seq<nat>)
    ensures fresh(a) && fresh(a.objectContexts) && fresh(a.objectContexts.elements)
    ensures fresh(a.markers) && fresh(a.markers.elements)
    ensures a.Valid() && a.data == base && a.size == 1024
    ensures a.head % 4 == 0 && base + 8 <= a.head < base + 12
    ensures |a.Records()| == 2 && a.Records()[0].id == 1 && a.Records()[1].id == 2
    ensures a.Markers() == [] && a.destroyed == []
    ensures counts == [0, 1, 2]
  {
    a := new StackAllocator(base, 1024);
    assert a.objectContexts.size == 42;
    var c0 := a.GetObjectCount();
    var t1 := a.Allocate(4, 4, 1);
    assert t1.Some? && a.head == t1.value + 4;
    ghost var h1 := a.head;
    assert h1 % 4 == 0 && base + 4 <= h1 < base + 8;
    var c1 := a.GetObjectCount();
    NextMultipleOfMultiple(4, h1);
    var t2 := a.Allocate(4, 4, 2);
    assert t2 == Some(h1) && a.head == h1 + 4;
    var c2 := a.GetObjectCount();
    counts := [c0, c1, c2];
  }

  /** Three objects, counted one record each, and DeallocateAll destroys
      them last first and empties the arena. */
  method SimpleAllocation(base: nat) returns (a: StackAllocator, counts: seq<nat>)
    ensures a.Valid() && a.head == base && a.destroyed == [3, 2, 1]
    ensures counts == [0, 1, 2, 3, 0]
  {
    var first;
    a, first := ArenaWithTwo(base);
    var t3 := a.Allocate(4, 4, 3);
    assert t3.Some?;
    var c3 := a.GetObjectCount();
    ghost var rs := a.Records();
    a.DeallocateAll();
    DestroyOrderOfThree(rs);
    var c4 := a.GetObjectCount();
    counts := first + [c3, c4];
  }

  /** Two objects, a marker, a third object: popping the marker destroys
      only the third and brings the count back to two, and DeallocateAll
      then destroys the other two. */
  method MarkerRollback(base: nat) returns (a: StackAllocator, counts: seq<nat>)
    ensures a.Valid() && a.head == base && a.destroyed == [3, 2, 1]
    ensures counts == [1, 2, 3, 2, 0]
  {
    var first;
    a, first := ArenaWithTwo(base);
    assert a.markers.size == 128;
    a.PushMarker();
    var c2 := a.GetObjectCount();
    var t3 := a.Allocate(4, 4, 3);
    assert t3.Some?;
    var c3 := a.GetObjectCount();
    ghost var rs := a.Records();
    a.PopMarker();
    assert rs[2..] == [rs[2]];
    var c4 := a.GetObjectCount();
    ghost var rs' := a.Records();
    assert rs' == [rs[0], rs[1]];
    a.DeallocateAll();
    assert DestroyOrder(rs') == [2, 1];
    var c5 := a.GetObjectCount();
    counts := [first[1], c2, c3, c4, c5];
  }

  /** After popping a marker the head is back where the rolled-back object
      began, so the next allocation of the same type lands at the same
      address. */
  method ReuseAfterRollback(base: nat) returns (a: StackAllocator, t3: Option<nat>, again: Option<nat>)
    ensures a.Valid() && a.destroyed == [3]
    ensures t3.Some? && again == t3 && a.GetObjectCount() == 3
  {
    var first;
    a, first := ArenaWithTwo(base);
    assert a.markers.size == 128;
    a.PushMarker();
    ghost var mark := a.head;
    t3 := a.Allocate(4, 4, 3);
    assert t3.Some?;
    NextMultipleOfMultiple(4, mark);
    ghost var rs := a.Records();
    a.PopMarker();
    assert rs[2..] == [rs[2]];
    again := a.Allocate(4, 4, 4);
  }

  /** A marker pushed on a fresh arena is the buffer start, so PopMarker as
      written may not be called on it (after unwinding the one object it
      would peek at an empty record stack); the corrected rollback unwinds
      back to an empty arena. */
  method FirstMarkerRollback(base: nat) returns (a: StackAllocator, asWrittenAllowed: bool, count: nat)
    ensures a.Valid() && !asWrittenAllowed
    ensures count == 0 && a.head == base && a.destroyed == [1]
  {
    a := new StackAllocator(base, 1024);
    a.PushMarker();
    var t1 := a.Allocate(4, 4, 1);
    var top := a.markers.Peek();
    asWrittenAllowed := top != a.data;
    ghost var rs := a.Records();
    a.PopMarkerCorrected();
    assert rs[0..] == [rs[0]];
    count := a.GetObjectCount();
  }
}
