/** The ring-buffer queue of src/data_structures/cyclic_queue.c, which tracks
    its first and last element directly (`front` and `back`, pointers into the
    buffer in the source, slot positions here) instead of deriving the back
    from `front + size`. An empty queue has both positions NULL. Expansion
    doubles the buffer and detects a wrapped queue by its back slot lying
    before its front slot. The outcome of each allocation is a parameter
    `allocOk`.
    The header data_structures/cyclic_queue.h, which holds the bodies of this
    variant's `cycq_init`, `cycq_pop`, `cycq_frontIndex` and `cycq_backIndex`, is
    not part of this model. Init and pop below are modelled on the front + size
    variant's: init gives an empty queue of at least one slot, and pop advances
    `front` one slot, with both positions NULL once the queue is empty, as push
    expects of an empty queue. */
module TrackedCyclicQueues {
  import opened Ring
  import Memory

  /** GROWTH_FACTOR of src/data_structures/cyclic_queue.c */
  const GrowthFactor: nat := 2

  /** A pointer into the buffer: NULL, or the slot it points at. */
  datatype Position = Null | Slot(index: nat)

  class CyclicQueue<T(0)> {
    var data: array?<T>
    var capacity: nat
    var size: nat
    var front: Position
    var back: Position

    /** With a buffer, an empty queue has NULL positions, and a non-empty one has
        `back` exactly size - 1 slots after `front`, wrapping at `capacity`
        (LastSlot). A queue whose buffer was lost still has room, so push never
        expands from NULL. */
    ghost predicate Valid()
      reads this
    {
      1 <= capacity && size <= capacity &&
      (data == null ==> size < capacity) &&
      (data != null ==>
         data.Length == capacity &&
         (size == 0 ==> front == Null && back == Null) &&
         (size > 0 ==> front.Slot? && back.Slot? && front.index < capacity &&
                       back.index == LastSlot(front.index, size, capacity)))
    }

    /** The queue, head first. */
    ghost function Elements(): (q: seq<T>)
      reads this, data
      requires Valid() && data != null
      ensures |q| == size
    {
      Circular(data[..], if size == 0 then 0 else front.index, size)
    }

    /** cycq_init: an empty queue of `initialCapacity` slots, positions NULL;
        `data` is NULL when the allocation fails. */
    constructor (initialCapacity: nat, allocOk: bool)
      requires initialCapacity >= 1
      ensures Valid() && capacity == initialCapacity && size == 0
      ensures front == Null && back == Null
      ensures allocOk ==> data != null && fresh(data) && Elements() == []
      ensures !allocOk ==> data == null
    {
      if allocOk {
        data := new T[initialCapacity];
      } else {
        data := null;
      }
      capacity, size := initialCapacity, 0;
      front, back := Null, Null;
    }

    /** The element `front` points at: the head of the queue. */
    function Front(): (x: T)
      reads this, data
      requires Valid() && data != null && size > 0
      ensures x == Elements()[0]
    {
      CircularHead(data[..], front.index, size);
      data[front.index]
    }

    /** cycq_expand: the capacity doubles. The queue wraps exactly when its back
        slot lies before its front slot; then the capacity - frontIndex slots from
        `front` to the end are copied first, and the rest from slot 0; otherwise
        `size` slots from `front` in one block. Afterwards `front` is slot 0 and
        `back` slot size - 1 of the new buffer. On allocation failure `data`
        becomes NULL, and so do the positions. */
    method Expand(allocOk: bool)
      requires Valid() && data != null && size > 0
      modifies this
      ensures Valid() && capacity == GrowthFactor * old(capacity) && size == old(size)
      ensures allocOk ==> data != null && fresh(data) && Elements() == old(Elements()) &&
                          front == Slot(0) && back == Slot(size - 1)
      ensures !allocOk ==> data == null && front == Null && back == Null
    {
      var newCapacity := capacity * GrowthFactor;
      if allocOk {
        var newData := CopyOut(data, front.index, back.index, size, newCapacity);
        CircularLinear(newData[..], 0, size);
        data := newData;
        front, back := Slot(0), Slot(size - 1);
      } else {
        data := null;
        front, back := Null, Null;
      }
      capacity := newCapacity;
    }

    /** The copying step of cycq_expand: into a fresh buffer of `newCapacity`
        slots, either two blocks (when `backIndex < frontIndex`: from `frontIndex`
        to the end, then from slot 0) or one block of `size` from `frontIndex`.
        The buffer then starts with the queue in order. */
    static method CopyOut(buffer: array<T>, frontIndex: nat, backIndex: nat, size: nat, newCapacity: nat)
      returns (newData: array<T>)
      requires frontIndex < buffer.Length && 0 < size <= buffer.Length <= newCapacity
      requires backIndex == LastSlot(frontIndex, size, buffer.Length)
      ensures fresh(newData) && newData.Length == newCapacity
      ensures newData[..size] == Circular(buffer[..], frontIndex, size)
    {
      newData := new T[newCapacity];
      WrapIffBackBeforeFront(buffer.Length, frontIndex, size);
      if backIndex < frontIndex {
        var beforeWrap := buffer.Length - frontIndex;
        Memory.CopyIn(newData, 0, buffer[frontIndex..]);
        Memory.CopyIn(newData, beforeWrap, buffer[..size - beforeWrap]);
      } else {
        Memory.CopyIn(newData, 0, buffer[frontIndex..frontIndex + size]);
      }
      CircularLinear(buffer[..], frontIndex, size);
    }

    /** cycq_push: a full queue expands first; then, unless `data` is NULL, an
        empty queue gets `front` and `back` at slot 0, a non-empty one moves `back`
        to (backIndex + 1) % capacity; `elem` is written at `back` and `size` grows
        by one, so the queue gains `elem` at its back. */
    method Push(elem: T, allocOk: bool)
      requires Valid()
      modifies this, data
      ensures Valid()
      ensures old(data) == null ==>
                data == null && size == old(size) && capacity == old(capacity) &&
                front == old(front) && back == old(back)
      ensures old(data) != null && old(size) == 0 ==>
                data == old(data) && front == Slot(0) && back == Slot(0) &&
                size == 1 && data[0] == elem
      ensures old(data) != null && old(size) < old(capacity) ==>
                data == old(data) && capacity == old(capacity) &&
                (old(size) > 0 ==> front == old(front) && back == Slot(NextSlot(old(back).index, capacity))) &&
                size == old(size) + 1 && Elements() == old(Elements()) + [elem]
      ensures old(data) != null && old(size) == old(capacity) ==>
                capacity == GrowthFactor * old(capacity) &&
                (allocOk ==> data != null && fresh(data) && front == Slot(0) && back == Slot(old(size)) &&
                             size == old(size) + 1 && Elements() == old(Elements()) + [elem]) &&
                (!allocOk ==> data == null && size == old(size) && front == Null && back == Null)
    {
      if size == capacity {
        Expand(allocOk);
      }
      if data != null {
        ghost var before := data[..];
        ghost var was := Elements();
        if size == 0 {
          front, back := Slot(0), Slot(0);
        } else {
          NextAfterBack(capacity, front.index, size);
          back := Slot(NextSlot(back.index, capacity));
        }
        data[back.index] := elem;
        CircularPush(before, front.index, size, elem);
        ModBelowTwice(front.index + size, capacity);
        size := size + 1;
        assert Elements() == was + [elem];
      }
    }

    /** cycq_pop: the last element leaving empties both positions; otherwise
        `front` advances one slot, wrapping at `capacity`. `size` drops by one and
        the head leaves the queue. The queue must not be empty. */
    method Pop()
      requires Valid() && data != null && size > 0
      modifies this
      ensures Valid() && data == old(data) && capacity == old(capacity) && size == old(size) - 1
      ensures size == 0 ==> front == Null && back == Null
      ensures size > 0 ==> front == Slot(NextSlot(old(front).index, capacity)) && back == old(back)
      ensures Elements() == old(Elements())[1..]
    {
      if size == 1 {
        front, back := Null, Null;
      } else {
        CircularPop(data[..], front.index, size);
        ModBelowTwice(front.index + 1, capacity);
        ModBelowTwice(front.index + size - 1, capacity);
        ModBelowTwice((front.index + 1) % capacity + size - 2, capacity);
        front := Slot(NextSlot(front.index, capacity));
      }
      size := size - 1;
    }
  }

  /** Reading the head and popping until the queue is empty yields the queue's
      elements in the order they were pushed. */
  method Drain<T(0)>(q: CyclicQueue<T>) returns (popped: seq<T>)
    requires q.Valid() && q.data != null
    modifies q
    ensures popped == old(q.Elements())
  {
    popped := [];
    while q.size > 0
      invariant q.Valid() && q.data == old(q.data)
      invariant popped + q.Elements() == old(q.Elements())
      decreases q.size
    {
      ghost var rest := q.Elements();
      var x := q.Front();
      q.Pop();
      assert q.Elements() == rest[1..] && rest == [x] + rest[1..];
      popped := popped + [x];
    }
  }

  /** The same run on this variant: capacity 4; push A, B, C, D; pop; push E (the
      back wraps to slot 0, before the front at slot 1); push G, which expands the
      wrapped queue. Popping everything gives B, C, D, E, G. */
  method WrappedExpansion() returns (popped: seq<char>)
    ensures popped == ['B', 'C', 'D', 'E', 'G']
  {
    var q := new CyclicQueue<char>(4, true);
    q.Push('A', true);
    q.Push('B', true);
    q.Push('C', true);
    q.Push('D', true);
    assert q.Elements() == ['A', 'B', 'C', 'D'];
    q.Pop();
    assert q.Elements() == ['B', 'C', 'D'];
    q.Push('E', true);
    assert q.front == Slot(1) && q.back == Slot(0) && q.size == q.capacity == 4;
    assert q.Elements() == ['B', 'C', 'D', 'E'];
    q.Push('G', true);
    assert q.Elements() == ['B', 'C', 'D', 'E', 'G'];
    popped := Drain(q);
  }
}
