/** The older growable array of src/dynarray.c: `data`, `elemCount` (the elements
    in use) and `len` (the slots allocated). Growth and shrinking go through
    `realloc`; when it fails the old buffer is freed and `data` becomes NULL,
    while `elemCount` is still set to what was asked for. Callers detect the
    failure by testing `data`. Every allocator call is a parameter `allocOk`.
    dyn_reset frees the buffer without clearing `data`, so the pointer it leaves
    is dangling: the ghost field `dangling` records this, and the operations
    that would hand it to `realloc` or `free` again require it to be false. */
module LegacyDynArrays {
  import opened Growth
  import Memory

  /** The length dyn_setElemCount grows to when `count` exceeds `len`:
      fmax(count, round(phi * len)). */
  function GrownLen(len: nat, count: nat): (r: nat)
    requires count > len
    ensures r >= count && r >= Expanded(len) && r > len
    ensures r == count || r == Expanded(len)
  {
    if count >= Expanded(len) then count else Expanded(len)
  }

  class DynArray<T(0)> {
    var data: array?<T>
    var elemCount: nat
    var len: nat
    /** `data` points at a buffer that dyn_reset has already freed. */
    ghost var dangling: bool

    /** A live buffer has `len` slots and holds all `elemCount` elements. A
        dangling pointer is only left by dyn_reset, with both counts zero, and
        nothing but a reallocation replaces it. */
    ghost predicate Valid()
      reads this
    {
      (data != null && !dangling ==> data.Length == len && elemCount <= len) &&
      (dangling ==> data != null && len == 0 && elemCount == 0)
    }

    /** dyn_init: a buffer of `len` slots, no element in use. A failed allocation
        leaves `data` NULL with `len` still recorded. */
    constructor (len: nat, allocOk: bool)
      ensures Valid() && elemCount == 0 && this.len == len && !dangling
      ensures allocOk ==> data != null && fresh(data)
      ensures !allocOk ==> data == null
    {
      if allocOk {
        data := new T[len];
      } else {
        data := null;
      }
      elemCount := 0;
      this.len := len;
      dangling := false;
    }

    /** dyn_reset: the buffer is freed and both counts are zero, but `data` keeps
        its value, so a live buffer leaves a dangling pointer behind (freeing
        NULL does nothing). Freeing a dangling pointer again is undefined. */
    method Reset()
      requires Valid() && !dangling
      modifies this
      ensures Valid() && elemCount == 0 && len == 0
      ensures data == old(data) && dangling == (data != null)
    {
      elemCount, len := 0, 0;
      dangling := data != null;
    }

    /** realloc: a new buffer of `newLen` slots keeping the old slots that fit; from
        NULL it is a fresh allocation. */
    static method Realloc(buffer: array?<T>, newLen: nat) returns (r: array<T>)
      ensures fresh(r) && r.Length == newLen
      ensures buffer != null ==> forall i :: 0 <= i < newLen && i < buffer.Length ==> r[i] == buffer[i]
    {
      r := new T[newLen];
      if buffer != null {
        var kept := if buffer.Length < newLen then buffer.Length else newLen;
        Memory.CopyIn(r, 0, buffer[..kept]);
      }
    }

    /** dyn_setElemCount: asking for more elements than `len` reallocates to
        GrownLen(len, count), at least `count` slots; a failed reallocation frees
        the buffer and leaves `data` NULL and `len` as it was. Asking for no more
        than `len` leaves the buffer alone. Either way `elemCount` becomes `count`.
        Reallocating a dangling pointer is undefined, so growth needs a buffer
        that is live or NULL. */
    method SetElemCount(count: nat, allocOk: bool)
      requires Valid()
      requires !dangling || count <= len
      modifies this
      ensures Valid() && elemCount == count
      ensures count <= old(len) ==> data == old(data) && len == old(len) && dangling == old(dangling)
      ensures count > old(len) && allocOk ==>
                data != null && fresh(data) && len == GrownLen(old(len), count) && !dangling &&
                (old(data) != null ==> data[..old(len)] == old(data[..]))
      ensures count > old(len) && !allocOk ==> data == null && len == old(len) && !dangling
    {
      if count > len {
        var newLen := GrownLen(len, count);
        if allocOk {
          data := Realloc(data, newLen);
          len := newLen;
        } else {
          data := null;
        }
        dangling := false;
      }
      elemCount := count;
    }

    /** dyn_incrElemCount: dyn_setElemCount with one more element. */
    method IncrElemCount(allocOk: bool)
      requires Valid() && !dangling
      modifies this
      ensures Valid() && elemCount == old(elemCount) + 1 && !dangling
      ensures old(elemCount) + 1 <= old(len) ==> data == old(data) && len == old(len)
      ensures old(elemCount) + 1 > old(len) && allocOk ==>
                data != null && fresh(data) && len == GrownLen(old(len), old(elemCount) + 1) &&
                (old(data) != null ==> data[..old(len)] == old(data[..]))
      ensures old(elemCount) + 1 > old(len) && !allocOk ==> data == null && len == old(len)
    {
      SetElemCount(elemCount + 1, allocOk);
    }

    /** dyn_shrinkToFit: only when `len > elemCount`, reallocate to `elemCount`
        slots, keeping the elements in use; a failed reallocation frees the buffer
        and leaves `data` NULL. A dangling pointer is never touched, since a reset
        array has `len == elemCount == 0`. */
    method ShrinkToFit(allocOk: bool)
      requires Valid()
      modifies this
      ensures Valid() && elemCount == old(elemCount) && dangling == old(dangling)
      ensures old(len) <= old(elemCount) ==> data == old(data) && len == old(len)
      ensures old(len) > old(elemCount) && allocOk ==>
                data != null && fresh(data) && len == elemCount &&
                (old(data) != null ==> data[..] == old(data[..elemCount]))
      ensures old(len) > old(elemCount) && !allocOk ==> data == null && len == old(len)
    {
      if len > elemCount {
        if allocOk {
          data := Realloc(data, elemCount);
          len := elemCount;
        } else {
          data := null;
        }
      }
    }
  }
}
