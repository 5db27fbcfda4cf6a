/** Rogue::Stack<T>: a fixed-capacity, array-backed last-in-first-out container.
    Overflow and underflow are fatal assertions in the source; here they are
    preconditions. */
module Types {

  class Stack<T(0)> {
    /** Capacity, fixed at construction (m_Size). */
    const size: nat
    /** Element storage (m_Elements); slots at and above `headIndex` are unused. */
    const elements: array<T>
    /** Number of elements on the stack, and the index of the next free slot (m_HeadIndex). */
    var headIndex: nat

    ghost predicate Valid()
      reads this
    {
      elements.Length == size && headIndex <= size
    }

    /** The stack's contents, bottom first: the last element is the top. */
    ghost function Contents(): (s: seq<T>)
      requires Valid()
      reads this, elements
      ensures |s| == headIndex <= size
    {
      elements[..headIndex]
    }

    constructor (size: nat)
      ensures Valid() && fresh(elements)
      ensures this.size == size && Contents() == []
    {
      this.size := size;
      elements := new T[size];
      headIndex := 0;
    }

    function GetSize(): (r: nat)
      requires Valid()
      reads this
      ensures r == elements.Length
    {
      size
    }

    function GetCount(): (r: nat)
      requires Valid()
      reads this, elements
      ensures r == |Contents()| && r <= GetSize()
    {
      headIndex
    }

    predicate IsEmpty()
      requires Valid()
      reads this, elements
      ensures IsEmpty() <==> Contents() == []
    {
      headIndex == 0
    }

    predicate IsFull()
      requires Valid()
      reads this, elements
      ensures IsFull() <==> |Contents()| == size
    {
      headIndex == size
    }

    /** Stores `x` above the current top; the lower elements keep their places. */
    method Push(x: T)
      requires Valid() && |Contents()| < size
      modifies this`headIndex, elements
      ensures Valid()
      ensures Contents() == old(Contents()) + [x]
    {
      elements[headIndex] := x;
      headIndex := headIndex + 1;
    }

    /** Removes the top element and returns it. */
    method Pop() returns (x: T)
      requires Valid() && Contents() != []
      modifies this`headIndex
      ensures Valid()
      ensures x == old(Contents())[|old(Contents())| - 1]
      ensures Contents() == old(Contents())[..|old(Contents())| - 1]
    {
      headIndex := headIndex - 1;
      x := elements[headIndex];
    }

    /** Returns the top element without removing it. */
    method Peek() returns (x: T)
      requires Valid() && Contents() != []
      ensures x == Contents()[|Contents()| - 1]
    {
      x := elements[headIndex - 1];
    }

    /** Empties the stack. Stack.hpp declares no such member although the
        arena allocator calls one on its marker stack; it is modelled as
        resetting the count, which is all an array-backed stack needs. */
    method Clear()
      requires Valid()
      modifies this`headIndex
      ensures Valid() && Contents() == []
    {
      headIndex := 0;
    }
  }

  /** Pushing `x` and popping again returns `x` and restores the previous contents. */
  method PushThenPop<T(0)>(s: Stack<T>, x: T) returns (y: T)
    requires s.Valid() && |s.Contents()| < s.size
    modifies s, s.elements
    ensures s.Valid() && y == x && s.Contents() == old(s.Contents())
  {
    s.Push(x);
    y := s.Pop();
  }

  /** Pushes 0, 1, ..., n - 1 onto a new stack of capacity n, which is then
      full, and pops everything again: the values come back from n - 1 down
      to 0 and the stack ends empty. */
  method FillAndDrain(n: nat) returns (wasFull: bool, popped: seq<int>, isEmpty: bool)
    ensures wasFull && isEmpty
    ensures popped == seq(n, i => n - 1 - i)
  {
    var s := new Stack<int>(n);
    var i := 0;
    while i < n
      invariant s.Valid() && s.size == n && 0 <= i <= n
      invariant s.Contents() == seq(i, k => k)
    {
      s.Push(i);
      i := i + 1;
    }
    wasFull := s.IsFull();
    popped := [];
    while i > 0
      invariant s.Valid() && s.size == n && 0 <= i <= n
      invariant s.Contents() == seq(i, k => k)
      invariant popped == seq(n - i, k => n - 1 - k)
    {
      var top := s.Peek();
      var x := s.Pop();
      assert x == top == i - 1;
      popped := popped + [x];
      i := i - 1;
    }
    isEmpty := s.IsEmpty();
  }
}
