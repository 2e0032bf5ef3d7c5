/** RingBuffer<T>: a fixed number of preallocated instances handed out in
    circular order, so that frequently used objects are reused instead of
    reallocated. */
module RingBuffers {

  /** The cursor after one GetNext on a buffer of n slots: the next slot, or
      slot 0 after the last one. */
  function NextIndex(i: nat, n: nat): (j: nat)
    requires i < n
    ensures i + 1 < n ==> j == i + 1
    ensures i + 1 == n ==> j == 0
  {
    (i + 1) % n
  }

  /** The cursor after k consecutive GetNext calls starting at i. */
  function Advance(i: nat, n: nat, k: nat): (j: nat)
    requires i < n
    ensures j < n
  {
    if k == 0 then i else NextIndex(Advance(i, n, k - 1), n)
  }

  /** The slot i + k of a circle of n slots, for k at most one turn. */
  function Wrap(i: nat, k: nat, n: nat): nat
    requires i < n && k <= n
  {
    if i + k < n then i + k else i + k - n
  }

  /** Within one turn, k GetNext calls move the cursor k slots forward and
      wrap past the end at most once. */
  lemma {:induction false} AdvanceWithinTurn(i: nat, n: nat, k: nat)
    requires i < n && k <= n
    ensures Advance(i, n, k) == Wrap(i, k, n)
  {
    if k > 0 {
      AdvanceWithinTurn(i, n, k - 1);
    }
  }

  /** Length consecutive GetNext calls bring the cursor back to where it started. */
  lemma FullTurnReturns(i: nat, n: nat)
    requires i < n
    ensures Advance(i, n, n) == i
  {
    AdvanceWithinTurn(i, n, n);
  }

  /** How many GetNext calls from slot i reach slot s. */
  function StepsTo(i: nat, n: nat, s: nat): (k: nat)
    requires i < n && s < n
    ensures k < n
  {
    if s >= i then s - i else s + n - i
  }

  /** Within Length consecutive GetNext calls every slot is handed out exactly
      once: the first n cursor positions are pairwise distinct, and slot s is
      reached after StepsTo(i, n, s) calls. */
  lemma TurnVisitsEverySlotOnce(i: nat, n: nat)
    requires i < n
    ensures forall a, b :: 0 <= a < b < n ==> Advance(i, n, a) != Advance(i, n, b)
    ensures forall s :: 0 <= s < n ==> Advance(i, n, StepsTo(i, n, s)) == s
  {
    forall a, b | 0 <= a < b < n ensures Advance(i, n, a) != Advance(i, n, b) {
      AdvanceWithinTurn(i, n, a);
      AdvanceWithinTurn(i, n, b);
    }
    forall s | 0 <= s < n ensures Advance(i, n, StepsTo(i, n, s)) == s {
      AdvanceWithinTurn(i, n, StepsTo(i, n, s));
    }
  }

  class RingBuffer<T(0)> {
    /** `_buffer`: the instances, one per slot. */
    const buffer: array<T>
    /** `_currentIndex`: the slot the next GetNext hands out. */
    var currentIndex: int

    /** The cursor is a slot of the buffer (0 for an empty buffer). */
    ghost predicate Valid()
      reads this
    {
      0 <= currentIndex && (currentIndex < buffer.Length || currentIndex == 0)
    }

    /** RingBuffer(size, initialValue): `size` slots, every one holding
        `initialValue`, cursor at slot 0. */
    constructor (size: nat, initialValue: T)
      ensures Valid() && fresh(buffer)
      ensures buffer.Length == size && currentIndex == 0
      ensures forall k :: 0 <= k < size ==> buffer[k] == initialValue
    {
      var slots := new T[size];
      for k := 0 to size
        invariant forall j :: 0 <= j < k ==> slots[j] == initialValue
      {
        slots[k] := initialValue;
      }
      buffer := slots;
      currentIndex := 0;
    }

    /** The Index property: the cursor, a slot of the buffer. */
    function Index(): (i: int)
      reads this
      requires Valid()
      ensures 0 <= i && (i < Length() || i == 0)
    {
      currentIndex
    }

    /** The Length property: the number of slots, fixed at construction. */
    function Length(): (n: nat)
      reads this
      ensures n == |buffer[..]|
    {
      buffer.Length
    }

    /** GetNext: hands out the instance under the cursor and moves the cursor
        one slot forward, wrapping to 0 after the last slot; the instances
        themselves are not touched. */
    method GetNext() returns (next: T)
      requires Valid() && buffer.Length > 0
      modifies this`currentIndex
      ensures Valid()
      ensures next == buffer[old(currentIndex)]
      ensures currentIndex == NextIndex(old(currentIndex), buffer.Length)
      ensures buffer[..] == old(buffer[..])
    {
      next := buffer[currentIndex];
      currentIndex := (currentIndex + 1) % buffer.Length;
    }

    /** Set: replaces the instance in one slot, and only there; the cursor stays. */
    method Set(index: int, value: T)
      requires 0 <= index < buffer.Length
      modifies buffer
      ensures buffer[..] == old(buffer[..])[index := value]
      ensures currentIndex == old(currentIndex)
    {
      buffer[index] := value;
    }

    /** Get: the instance in a slot, leaving the cursor where it is. */
    method Get(index: int) returns (value: T)
      requires 0 <= index < buffer.Length
      ensures value == buffer[index]
    {
      value := buffer[index];
    }
  }
}
