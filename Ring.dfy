/** The logical contents of a ring buffer: the `size` slots that start at `front`
    and wrap around the end of the buffer. Both cyclic queues are specified
    through this view. */
module Ring {

  /** The queue held by buffer `s` from slot `front` on, in FIFO order. */
  ghost function Circular<T>(s: seq<T>, front: nat, size: nat): (r: seq<T>)
    requires |s| > 0
    ensures |r| == size
  {
    seq(size, i requires 0 <= i < size => s[(front + i) % |s|])
  }

  /** Index arithmetic modulo `n` for values below `2n`: one subtraction at most. */
  lemma ModBelowTwice(x: int, n: int)
    requires 0 < n && 0 <= x < 2 * n
    ensures x % n == if x < n then x else x - n
  {
  }

  /** The slot after slot `i` of an `n`-slot ring: (i + 1) mod n. */
  function NextSlot(i: nat, n: nat): (r: nat)
    requires i < n
    ensures r == (i + 1) % n && r < n
  {
    ModBelowTwice(i + 1, n);
    if i + 1 < n then i + 1 else 0
  }

  /** Pushing: writing `x` into the slot after the last element appends `x` to the queue. */
  lemma CircularPush<T>(s: seq<T>, front: nat, size: nat, x: T)
    requires front < |s| && size < |s|
    ensures Circular(s[(front + size) % |s| := x], front, size + 1) == Circular(s, front, size) + [x]
  {
    var n := |s|;
    var slot := (front + size) % n;
    var t := s[slot := x];
    ModBelowTwice(front + size, n);
    forall i | 0 <= i < size
      ensures Circular(t, front, size + 1)[i] == Circular(s, front, size)[i]
    {
      ModBelowTwice(front + i, n);
    }
  }

  /** Popping: advancing `front` by one slot drops the head of the queue. */
  lemma CircularPop<T>(s: seq<T>, front: nat, size: nat)
    requires front < |s| && 0 < size <= |s|
    ensures Circular(s, (front + 1) % |s|, size - 1) == Circular(s, front, size)[1..]
  {
    var n := |s|;
    var next := (front + 1) % n;
    ModBelowTwice(front + 1, n);
    forall i | 1 <= i < size
      ensures Circular(s, next, size - 1)[i - 1] == Circular(s, front, size)[i]
    {
      ModBelowTwice(next + i - 1, n);
      ModBelowTwice(front + i, n);
    }
  }

  /** The head of a non-empty queue is the slot at `front`. */
  lemma CircularHead<T>(s: seq<T>, front: nat, size: nat)
    requires front < |s| && 0 < size
    ensures Circular(s, front, size)[0] == s[front]
  {
  }

  /** Linearising: the queue is one block from `front` when it does not pass the end
      of the buffer, and otherwise the block from `front` to the end followed by the
      rest from slot 0. This is the order in which expansion copies it out. */
  lemma CircularLinear<T>(s: seq<T>, front: nat, size: nat)
    requires front < |s| && size <= |s|
    ensures Circular(s, front, size) ==
            if front + size > |s| then s[front..] + s[..front + size - |s|]
            else s[front..front + size]
  {
    var n := |s|;
    forall i | 0 <= i < size
      ensures Circular(s, front, size)[i] == if front + i < n then s[front + i] else s[front + i - n]
    {
      ModBelowTwice(front + i, n);
    }
  }

  /** The slot of the last of `size` elements starting at `front`: at most one
      wrap, so (front + size - 1) mod n by LastSlotIsMod. */
  function LastSlot(front: nat, size: nat, n: nat): (r: nat)
    requires front < n && 0 < size <= n
    ensures r < n
  {
    if front + size - 1 < n then front + size - 1 else front + size - 1 - n
  }

  lemma LastSlotIsMod(front: nat, size: nat, n: nat)
    requires front < n && 0 < size <= n
    ensures LastSlot(front, size, n) == (front + size - 1) % n
  {
  }

  /** The wrap test of the front/back variant: the last slot lies before the first
      exactly when the occupied range passes the end of the buffer. */
  lemma WrapIffBackBeforeFront(n: nat, front: nat, size: nat)
    requires front < n && 0 < size <= n
    ensures LastSlot(front, size, n) < front <==> front + size > n
  {
  }

  /** The slot after the last one is the last slot of a queue one longer, and it
      is the slot (front + size) mod n that the front+size variant writes. */
  lemma NextAfterBack(n: nat, front: nat, size: nat)
    requires front < n && 0 < size < n
    ensures NextSlot(LastSlot(front, size, n), n) == LastSlot(front, size + 1, n) == (front + size) % n
  {
    ModBelowTwice(front + size, n);
  }
}
