/** The ring-buffer queue of include/cyclic_queue.h (init, push, pop) with the
    expansion of src/cyclic_queue.c. The queue is the `size` slots from `front`
    on, wrapping at `capacity`; a full queue doubles its buffer, copying the
    elements out in queue order so that the new queue starts at slot 0.
    When the expansion's allocation fails `data` becomes NULL (the old buffer is
    dropped without being freed), while `capacity` is still doubled; after that
    pushes write nothing. The outcome of each allocation is a parameter
    `allocOk`. */
module CyclicQueues {
  import opened Ring
  import Memory

  /** GROWTH_FACTOR of src/cyclic_queue.c */
  const GrowthFactor: nat := 2

  class CyclicQueue<T(0)> {
    var data: array?<T>
    var capacity: nat
    var size: nat
    var front: nat

    /** `front` is a slot, the queue fits in the buffer, and a queue whose buffer
        was lost still has room, so push never tries to expand from NULL. */
    ghost predicate Valid()
      reads this
    {
      1 <= capacity && size <= capacity && front < capacity &&
      (data != null ==> data.Length == capacity) &&
      (data == null ==> size < capacity)
    }

    /** The queue, head first: slot (front + i) % capacity for i < size. */
    ghost function Elements(): (q: seq<T>)
      reads this, data
      requires Valid() && data != null
      ensures |q| == size
    {
      Circular(data[..], front, size)
    }

    /** cycq_init: an empty queue of `initialCapacity` slots starting at slot 0;
        `data` is NULL when the allocation fails. A queue needs at least one slot:
        with none, push would compute an index modulo 0. */
    constructor (initialCapacity: nat, allocOk: bool)
      requires initialCapacity >= 1
      ensures Valid() && capacity == initialCapacity && size == 0 && front == 0
      ensures allocOk ==> data != null && fresh(data) && Elements() == []
      ensures !allocOk ==> data == null
    {
      if allocOk {
        data := new T[initialCapacity];
      } else {
        data := null;
      }
      capacity, size, front := initialCapacity, 0, 0;
    }

    /** The head of the queue, `data[front]` as the header's comment reads it. */
    function Front(): (x: T)
      reads this, data
      requires Valid() && data != null && size > 0
      ensures x == Elements()[0]
    {
      CircularHead(data[..], front, size);
      data[front]
    }

    /** cycq_expand: the capacity doubles and `front` moves to slot 0. The new
        buffer receives the queue in order: one block from `front` when the queue
        does not wrap, and when it does (front + size > capacity), first the
        capacity - front slots from `front` to the end, then the rest from slot 0.
        On allocation failure `data` becomes NULL. */
    method Expand(allocOk: bool)
      requires Valid() && data != null
      modifies this
      ensures Valid() && capacity == GrowthFactor * old(capacity) && front == 0 && size == old(size)
      ensures allocOk ==> data != null && fresh(data) && Elements() == old(Elements())
      ensures !allocOk ==> data == null
    {
      var newCapacity := capacity * GrowthFactor;
      if allocOk {
        var newData := new T[newCapacity];
        if front + size > capacity {
          var beforeWrap := capacity - front;
          Memory.CopyIn(newData, 0, data[front..]);
          Memory.CopyIn(newData, beforeWrap, data[..size - beforeWrap]);
        } else {
          Memory.CopyIn(newData, 0, data[front..front + size]);
        }
        CircularLinear(data[..], front, size);
        CircularLinear(newData[..], 0, size);
        assert Circular(newData[..], 0, size) == Circular(data[..], front, size);
        data := newData;
      } else {
        data := null;
      }
      capacity, front := newCapacity, 0;
    }

    /** cycq_push: a full queue expands first; then, unless `data` is NULL, `elem`
        goes into slot (front + size) % capacity and `size` grows by one, so the
        queue gains `elem` at its back. */
    method Push(elem: T, allocOk: bool)
      requires Valid()
      modifies this, data
      ensures Valid()
      ensures old(data) == null ==>
                data == null && size == old(size) && capacity == old(capacity) && front == old(front)
      ensures old(data) != null && old(size) < old(capacity) ==>
                data == old(data) && capacity == old(capacity) && front == old(front) &&
                data[(old(front) + old(size)) % capacity] == elem &&
                size == old(size) + 1 && Elements() == old(Elements()) + [elem]
      ensures old(data) != null && old(size) == old(capacity) ==>
                capacity == GrowthFactor * old(capacity) && front == 0 &&
                (allocOk ==> data != null && fresh(data) &&
                             size == old(size) + 1 && Elements() == old(Elements()) + [elem]) &&
                (!allocOk ==> data == null && size == old(size))
    {
      if size == capacity {
        Expand(allocOk);
      }
      if data != null {
        ghost var before := data[..];
        var i := (front + size) % capacity;
        data[i] := elem;
        CircularPush(before, front, size, elem);
        size := size + 1;
      }
    }

    /** cycq_pop: `front` advances one slot, wrapping at `capacity`, and `size`
        drops by one, so the head leaves the queue. The queue must not be empty. */
    method Pop()
      requires Valid() && size > 0
      modifies this
      ensures Valid() && data == old(data) && capacity == old(capacity)
      ensures front == (old(front) + 1) % capacity && size == old(size) - 1
      ensures data != null ==> Elements() == old(Elements())[1..]
    {
      if data != null {
        CircularPop(data[..], front, size);
      }
      front := (front + 1) % capacity;
      size := size - 1;
    }
  }

  /** Reading the head and popping until the queue is empty yields the queue's
      elements in the order they were pushed. */
  method Drain<T(0)>(q: CyclicQueue<T>) returns (popped: seq<T>)
    requires q.Valid() && q.data != null
    modifies q
    ensures popped == old(q.Elements())
  {
    popped := [];
    while q.size > 0
      invariant q.Valid() && q.data == old(q.data)
      invariant popped + q.Elements() == old(q.Elements())
      decreases q.size
    {
      var x := q.Front();
      q.Pop();
      popped := popped + [x];
    }
  }

  /** A capacity-4 queue: push A, B, C, D; pop; push E, which fills the buffer
      with the queue wrapped round its end (front at slot 1); push G, which
      expands while wrapped. Popping everything then gives B, C, D, E, G. */
  method WrappedExpansion() returns (popped: seq<char>)
    ensures popped == ['B', 'C', 'D', 'E', 'G']
  {
    var q := new CyclicQueue<char>(4, true);
    q.Push('A', true);
    q.Push('B', true);
    q.Push('C', true);
    q.Push('D', true);
    assert q.Elements() == ['A', 'B', 'C', 'D'];
    q.Pop();
    assert q.Elements() == ['B', 'C', 'D'];
    q.Push('E', true);
    assert q.front == 1 && q.size == q.capacity == 4;
    assert q.Elements() == ['B', 'C', 'D', 'E'];
    q.Push('G', true);
    assert q.Elements() == ['B', 'C', 'D', 'E', 'G'];
    popped := Drain(q);
  }
}
