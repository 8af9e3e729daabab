/** The growable array of src/data_structures/dyn_array.c and its per-type twin
    generated by include/cutils/data_structures/dyn_array_g.h. The two files run
    the same algorithm; the type-erased one works in bytes with an `elemSize`
    stride, the generic one in elements of the macro's `type`. The class below is
    generic in the element type `T`, at element granularity, and stands for both.

    A NULL `data` pointer is an array of length 0. Every allocator call is a
    parameter: `allocOk` says whether one `realloc` succeeds, and `grants` says how
    many of the successive requests of the growth loop in `dyn_insert` succeed
    before one fails. */
module DynArrays {
  import opened Growth
  import Memory

  /** DEFAULT_INITIAL_CAPACITY / DYN_DEFAULT_INITIAL_CAPACITY */
  const DefaultInitialCapacity: nat := 8

  /** `s` with `src` inserted in front of position `pos`: what reading the array
      after `dyn_insert` yields, slot by slot. */
  function Inserted<T>(s: seq<T>, pos: nat, src: seq<T>): (r: seq<T>)
    requires pos <= |s|
    ensures |r| == |s| + |src|
    ensures forall i :: 0 <= i < |r| ==>
              r[i] == if i < pos then s[i] else if i < pos + |src| then src[i - pos] else s[i - |src|]
  {
    s[..pos] + src + s[pos..]
  }

  /** `s` with the range [from, to) taken out and the tail closed up behind it. */
  function Removed<T>(s: seq<T>, from: nat, to: nat): (r: seq<T>)
    requires from <= to <= |s|
    ensures |r| == |s| - (to - from)
    ensures forall i :: 0 <= i < |r| ==> r[i] == if i < from then s[i] else s[i + (to - from)]
  {
    s[..from] + s[to..]
  }

  /** Removing what was just inserted gives back the original contents. */
  lemma RemoveUndoesInsert<T>(s: seq<T>, pos: nat, src: seq<T>)
    requires pos <= |s|
    ensures Removed(Inserted(s, pos, src), pos, pos + |src|) == s
  {
  }

  /** Append and remove are inverse: removing the last slot after appending `e`
      restores the contents. */
  lemma RemoveUndoesAppend<T>(s: seq<T>, e: T)
    ensures Removed(s + [e], |s|, |s| + 1) == s
  {
  }

  /** `dyn_extend` is `dyn_insert` at the end: the source elements are appended. */
  lemma InsertAtEndAppends<T>(s: seq<T>, src: seq<T>)
    ensures Inserted(s, |s|, src) == s + src
  {
  }

  class DynArray<T(0)> {
    var data: array<T>
    var size: nat
    var capacity: nat

    ghost predicate Valid()
      reads this
    {
      capacity == data.Length && size <= capacity
    }

    /** The live elements: slots 0 .. size-1. */
    ghost function Contents(): (s: seq<T>)
      reads this, data
      requires Valid()
      ensures |s| == size
    {
      data[..size]
    }

    /** dyn_init on a caller-supplied struct: `size` is 0, and the capacity is the
        default 8 when the allocation succeeds. When it fails the source leaves
        `capacity` unset; the model gives it 0, matching the NULL buffer. */
    constructor (allocOk: bool)
      ensures Valid() && fresh(data) && size == 0 && Contents() == []
      ensures capacity == if allocOk then DefaultInitialCapacity else 0
    {
      data := new T[if allocOk then DefaultInitialCapacity else 0];
      capacity := if allocOk then DefaultInitialCapacity else 0;
      size := 0;
    }

    /** dyn_reset: the buffer is released and every field is zero. */
    method Reset()
      modifies this
      ensures Valid() && size == 0 && capacity == 0 && data.Length == 0 && Contents() == []
      ensures fresh(data)
    {
      data := new T[0];
      size, capacity := 0, 0;
    }

    /** reallocData / dyn_reallocData: on success the buffer becomes a new one of
        `newCapacity` slots holding the old contents; on failure nothing changes. */
    method ReallocData(newCapacity: nat, allocOk: bool) returns (ok: bool)
      requires Valid() && size <= newCapacity
      modifies this
      ensures Valid() && ok == allocOk
      ensures size == old(size) && Contents() == old(Contents())
      ensures ok ==> capacity == newCapacity && fresh(data)
      ensures !ok ==> capacity == old(capacity) && data == old(data)
    {
      if allocOk {
        var newData := new T[newCapacity];
        var kept := if capacity < newCapacity then capacity else newCapacity;
        Memory.CopyIn(newData, 0, data[..kept]);
        data, capacity := newData, newCapacity;
      }
      ok := allocOk;
    }

    /** EXPAND / DYN_EXPAND: reallocate to floor(phi * capacity + 0.5) slots. */
    method Expand(allocOk: bool) returns (ok: bool)
      requires Valid()
      modifies this
      ensures Valid() && ok == allocOk
      ensures size == old(size) && Contents() == old(Contents())
      ensures capacity == if ok then Expanded(old(capacity)) else old(capacity)
      ensures ok ==> fresh(data)
      ensures !ok ==> data == old(data)
    {
      ok := ReallocData(Expanded(capacity), allocOk);
    }

    /** dyn_shrinkToFit: an empty array is left alone and reports success; otherwise
        the buffer is reallocated to exactly `size` slots, and a failed reallocation
        leaves it as it was. */
    method ShrinkToFit(allocOk: bool) returns (ok: bool)
      requires Valid()
      modifies this
      ensures Valid() && ok == (old(size) == 0 || allocOk)
      ensures size == old(size) && Contents() == old(Contents())
      ensures capacity == if old(size) != 0 && allocOk then old(size) else old(capacity)
      ensures old(size) == 0 || !allocOk ==> data == old(data)
      ensures data == old(data) || fresh(data)
    {
      if size == 0 {
        return true;
      }
      ok := ReallocData(size, allocOk);
    }

    /** dyn_append: with room to spare `elem` goes into slot `size` without any
        reallocation; a full array first grows by one EXPAND, and when that fails
        it returns false with nothing changed.
        A reset array (capacity 0) asks EXPAND for floor(0.5) = 0 slots, so a
        reallocation that reported success would leave no slot to write. */
    method Append(elem: T, allocOk: bool) returns (ok: bool)
      requires Valid()
      requires capacity >= 1 || !allocOk
      modifies this, data
      ensures Valid() && ok == (old(size) < old(capacity) || allocOk)
      ensures ok ==> size == old(size) + 1 && Contents() == old(Contents()) + [elem]
      ensures !ok ==> size == old(size) && Contents() == old(Contents())
      ensures capacity == if old(size) < old(capacity) || !allocOk then old(capacity)
                          else Expanded(old(capacity))
      ensures old(size) < old(capacity) ==> data == old(data)
      ensures data == old(data) || fresh(data)
    {
      ok := size < capacity;
      if !ok {
        ok := Expand(allocOk);
      }
      if ok {
        data[size] := elem;
        size := size + 1;
      }
    }

    /** The growth loop of dyn_insert: EXPAND while `capacity < need`. It stops
        after GrowthSteps expansions, the least number that reaches `need`; if
        the allocator refuses a request first (after granting `grants`), it
        reports failure at the capacity reached so far, contents untouched. A
        reset array (capacity 0) makes every expansion request 0 slots, so there
        the loop can only end by a refused request. */
    method Reserve(need: nat, grants: nat) returns (ok: bool)
      requires Valid()
      requires capacity >= 1 || need <= capacity || grants == 0
      modifies this
      ensures Valid() && size == old(size) && Contents() == old(Contents())
      ensures ok == (old(capacity) >= need ||
                     (old(capacity) >= 1 && GrowthSteps(old(capacity), need) <= grants))
      ensures ok ==> capacity == ExpandedTimes(old(capacity), GrowthSteps(old(capacity), need))
      ensures ok ==> capacity >= need
      ensures !ok ==> capacity == ExpandedTimes(old(capacity), grants)
      ensures capacity >= old(capacity)
      ensures data == old(data) || fresh(data)
    {
      ghost var c0 := capacity;
      var granted := 0;
      while capacity < need
        invariant Valid() && size == old(size) && Contents() == old(Contents())
        invariant data == old(data) || fresh(data)
        invariant granted <= grants
        invariant c0 >= 1 || c0 >= need ==> granted <= GrowthSteps(c0, need)
        invariant capacity == ExpandedTimes(c0, granted)
        decreases need - capacity
      {
        if c0 >= 1 || c0 >= need {
          ShortUntilSteps(c0, need, granted);
        }
        ok := Expand(granted < grants);
        if !ok {
          ExpandedTimesMonotone(c0, 0, granted);
          return;
        }
        ExpandedTimesStep(c0, granted);
        granted := granted + 1;
      }
      ShortUntilSteps(c0, need, granted);
      ExpandedTimesMonotone(c0, 0, granted);
      ok := true;
    }

    /** dyn_insert: grow until `capacity >= size + |src|`, then shift the slots
        [pos, size) up by |src| and copy `src` into the gap. A failed growth step
        returns false with the contents untouched. */
    method Insert(src: seq<T>, pos: nat, grants: nat) returns (ok: bool)
      requires Valid() && pos <= size
      requires capacity >= 1 || size + |src| <= capacity || grants == 0
      modifies this, data
      ensures Valid()
      ensures ok == (old(capacity) >= old(size) + |src| ||
                     (old(capacity) >= 1 && GrowthSteps(old(capacity), old(size) + |src|) <= grants))
      ensures ok ==> size == old(size) + |src| && Contents() == Inserted(old(Contents()), pos, src)
      ensures ok ==> capacity == ExpandedTimes(old(capacity), GrowthSteps(old(capacity), old(size) + |src|))
      ensures !ok ==> size == old(size) && Contents() == old(Contents())
      ensures !ok ==> capacity == ExpandedTimes(old(capacity), grants)
      ensures capacity >= old(capacity)
      ensures data == old(data) || fresh(data)
    {
      ghost var before := Contents();
      ok := Reserve(size + |src|, grants);
      if ok {
        ghost var reached := capacity;
        ShiftAndCopy(src, pos);
        assert capacity == reached && Contents() == Inserted(before, pos, src);
      }
    }

    /** The second half of dyn_insert, once the room is there: the overlap-safe
        move of [pos, size) up by |src|, then the copy of `src` into the gap. */
    method ShiftAndCopy(src: seq<T>, pos: nat)
      requires Valid() && pos <= size && size + |src| <= capacity
      modifies this`size, data
      ensures Valid() && size == old(size) + |src|
      ensures Contents() == Inserted(old(Contents()), pos, src)
    {
      ghost var before := data[..size];
      Memory.Move(data, pos + |src|, pos, size - pos);
      Memory.CopyIn(data, pos, src);
      size := size + |src|;
      assert Contents() == Inserted(before, pos, src);
    }

    /** dyn_extend: dyn_insert at position `size`; on success `src` is appended. */
    method Extend(src: seq<T>, grants: nat) returns (ok: bool)
      requires Valid()
      requires capacity >= 1 || size + |src| <= capacity || grants == 0
      modifies this, data
      ensures Valid()
      ensures ok == (old(capacity) >= old(size) + |src| ||
                     (old(capacity) >= 1 && GrowthSteps(old(capacity), old(size) + |src|) <= grants))
      ensures ok ==> size == old(size) + |src| && Contents() == old(Contents()) + src
      ensures ok ==> capacity == ExpandedTimes(old(capacity), GrowthSteps(old(capacity), old(size) + |src|))
      ensures !ok ==> size == old(size) && Contents() == old(Contents())
      ensures !ok ==> capacity == ExpandedTimes(old(capacity), grants)
      ensures capacity >= old(capacity)
      ensures data == old(data) || fresh(data)
    {
      ok := Insert(src, size, grants);
      InsertAtEndAppends(old(Contents()), src);
    }

    /** dyn_remove: the slots [to, size) move down to `from` and `size` drops by
        `to - from`; the buffer and its capacity stay as they are. */
    method Remove(from: nat, to: nat)
      requires Valid() && from <= to <= size
      modifies this, data
      ensures Valid() && data == old(data) && capacity == old(capacity)
      ensures size == old(size) - (to - from)
      ensures Contents() == Removed(old(Contents()), from, to)
    {
      ghost var before := data[..size];
      Memory.Move(data, from, to, size - to);
      size := size - (to - from);
      assert Contents() == Removed(before, from, to);
    }
  }

  /** Appending nine elements to a fresh array: the first eight fit in the default
      capacity, the ninth triggers the one expansion, to floor(8 phi + 0.5) = 13,
      and the elements read back in insertion order. */
  method AppendNine() returns (capacity: nat, contents: seq<int>)
    ensures capacity == 13
    ensures contents == [0, 1, 2, 3, 4, 5, 6, 7, 8]
  {
    var a := new DynArray<int>(true);
    var i := 0;
    while i < 9
      invariant 0 <= i <= 9
      invariant fresh(a) && fresh(a.data) && a.Valid()
      invariant a.Contents() == seq(i, j => j)
      invariant a.capacity == if i <= 8 then 8 else 13
    {
      var ok := a.Append(i, true);
      i := i + 1;
    }
    capacity, contents := a.capacity, a.data[..a.size];
  }
}
