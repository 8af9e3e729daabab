/** The two block-copy primitives the containers are built on, at element
    granularity: `memmove` (ranges may overlap) and `memcpy` from a source the
    destination does not alias. */
module Memory {

  /** memmove: the `count` elements at `src` end up at `dst`, read as they were
      before the move even when the two ranges overlap; every other slot keeps
      its value. The copy runs forwards when the destination lies below the
      source and backwards otherwise, so no element is overwritten before it is
      read. */
  method Move<T>(a: array<T>, dst: nat, src: nat, count: nat)
    requires src + count <= a.Length && dst + count <= a.Length
    modifies a
    ensures forall i :: 0 <= i < a.Length ==>
              a[i] == if dst <= i < dst + count then old(a[i - dst + src]) else old(a[i])
  {
    if dst <= src {
      var k := 0;
      while k < count
        invariant k <= count
        invariant forall i :: 0 <= i < a.Length ==>
                    a[i] == if dst <= i < dst + k then old(a[i - dst + src]) else old(a[i])
      {
        a[dst + k] := a[src + k];
        k := k + 1;
      }
    } else {
      var k: nat := count;
      while k > 0
        invariant k <= count
        invariant forall i :: 0 <= i < a.Length ==>
                    a[i] == if dst + k <= i < dst + count then old(a[i - dst + src]) else old(a[i])
      {
        k := k - 1;
        a[dst + k] := a[src + k];
      }
    }
  }

  /** memcpy: the elements of `src` are written to `dst` starting at slot `at`;
      every other slot keeps its value. */
  method CopyIn<T>(dst: array<T>, at: nat, src: seq<T>)
    requires at + |src| <= dst.Length
    modifies dst
    ensures forall i :: 0 <= i < dst.Length ==>
              dst[i] == if at <= i < at + |src| then src[i - at] else old(dst[i])
  {
    var k := 0;
    while k < |src|
      invariant k <= |src|
      invariant forall i :: 0 <= i < dst.Length ==>
                  dst[i] == if at <= i < at + k then src[i - at] else old(dst[i])
    {
      dst[at + k] := src[k];
      k := k + 1;
    }
  }
}
