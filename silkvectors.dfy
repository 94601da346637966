/**
 * The older dynamic array of src/silk/vector.c.  It keeps the same buffer layout and
 * growth rule as src/vector.c but works one element at a time: enough only guarantees a
 * single free slot, insert and remove shift the tail by one slot, and pop on an empty
 * vector reports false.  A failed SILK_ASSERT without a value in a bool or size_t function
 * is modelled as returning false or InvalidIndex.
 */
module SilkVectors {
  import opened Common
  import opened Growth
  import opened Compare
  import opened SortSpec
  import ArraySort

  class Vector<T(0, !new)> {
    var data: array<T>
    var length: nat
    var capacity: nat

    /** The buffer has capacity slots and the elements fit in it. */
    ghost predicate Valid()
      reads this
    {
      data.Length == capacity && length <= capacity
    }

    /** The elements, in order. */
    function Contents(): (s: seq<T>)
      reads this, data
      requires Valid()
      ensures |s| == length
    {
      data[..length]
    }

    /** silk_vector_new's initialisation: no buffer, no elements. */
    constructor Empty()
      ensures Valid() && Contents() == [] && capacity == 0 && fresh(data)
    {
      data := new T[0];
      length, capacity := 0, 0;
    }

    /** silk_vector_new: null when allocating the vector itself fails. */
    static method New() returns (v: Vector?<T>)
      ensures v != null ==> fresh(v) && fresh(v.data) && v.Valid() && v.Contents() == [] && v.capacity == 0
    {
      var granted: bool := *;
      if !granted {
        return null;
      }
      v := new Vector.Empty();
    }

    /** silk_realloc of the buffer to newCap slots; a failed allocation changes nothing. */
    method Realloc(newCap: nat) returns (ok: bool)
      requires Valid() && length <= newCap
      modifies this
      ensures Valid() && length == old(length) && Contents() == old(Contents())
      ensures ok ==> capacity == newCap && fresh(data)
      ensures !ok ==> capacity == old(capacity) && data == old(data)
    {
      ok := *;
      if ok {
        var buffer := new T[newCap];
        var kept := if newCap < capacity then newCap else capacity;
        forall i | 0 <= i < kept {
          buffer[i] := data[i];
        }
        data, capacity := buffer, newCap;
      }
    }

    /** silk_vector_expand: one growth step by NextCapacity. */
    method Expand() returns (ok: bool)
      requires Valid()
      modifies this
      ensures Valid() && length == old(length) && Contents() == old(Contents())
      ensures ok ==> capacity == NextCapacity(old(capacity)) && fresh(data)
      ensures !ok ==> capacity == old(capacity) && data == old(data)
    {
      ok := Realloc(NextCapacity(capacity));
    }

    /**
     * silk_vector_enough: a free slot for one more element.  Nothing changes when there is
     * one already; otherwise a single growth step is tried.
     */
    method Enough() returns (ok: bool)
      requires Valid()
      modifies this
      ensures Valid() && length == old(length) && Contents() == old(Contents())
      ensures ok ==> capacity > length
      ensures old(capacity) > old(length) ==> ok && capacity == old(capacity) && data == old(data)
      ensures old(capacity) <= old(length) ==> capacity == if ok then NextCapacity(old(capacity)) else old(capacity)
      ensures data == old(data) || fresh(data)
    {
      if capacity > length {
        return true;
      }
      ok := Expand();
    }

    /** silk_vector_append: write x into the slot after the last element. */
    method Append(x: T) returns (ok: bool)
      requires Valid()
      modifies this, data
      ensures Valid() && (data == old(data) || fresh(data))
      ensures Contents() == if ok then old(Contents()) + [x] else old(Contents())
      ensures old(capacity) > old(length) ==> ok && capacity == old(capacity) && data == old(data)
    {
      ok := Enough();
      if !ok {
        return;
      }
      data[length] := x;
      length := length + 1;
    }

    /**
     * silk_vector_insert: place x before position index.  The C shifts the tail with
     * silk_copy on overlapping ranges; the model gives that copy memmove's meaning.
     */
    method Insert(index: nat, x: T) returns (ok: bool)
      requires Valid()
      modifies this, data
      ensures Valid() && (data == old(data) || fresh(data))
      ensures ok ==> index <= old(length) && Contents() == Inserted(old(Contents()), index, [x])
      ensures !ok ==> Contents() == old(Contents())
      ensures index > old(length) ==> !ok && capacity == old(capacity)
      ensures index <= old(length) && old(capacity) > old(length) ==> ok && capacity == old(capacity) && data == old(data)
    {
      if index > length {
        return false;
      }
      ok := Enough();
      if !ok {
        return;
      }
      Place(index, x);
      length := length + 1;
    }

    /** The copies of insert: move the tail from index up one slot, then write x into the gap. */
    method Place(index: nat, x: T)
      requires Valid() && index <= length < capacity
      modifies data
      ensures data[..length + 1] == Inserted(old(data[..length]), index, [x])
    {
      ghost var s := data[..length];
      forall i | index <= i < length {
        data[i + 1] := data[i];
      }
      ghost var u := data[..length + 1];
      assert forall i :: index <= i < |s| ==> u[i + 1] == s[i];
      data[index] := x;
      assert data[..length + 1] == u[index := x];
      InsertedAt(s, index, [x], u[index := x]);
    }

    /** silk_vector_remove: drop the element at index, shifting the tail down by one slot. */
    method Remove(index: nat) returns (ok: bool)
      requires Valid()
      modifies this, data
      ensures Valid() && capacity == old(capacity)
      ensures ok <==> index < old(length)
      ensures ok ==> Contents() == Removed(old(Contents()), index, 1)
      ensures !ok ==> Contents() == old(Contents())
    {
      if index >= length {
        return false;
      }
      ghost var s := Contents();
      forall i | index + 1 <= i < length {
        data[i - 1] := data[i];
      }
      length := length - 1;
      RemovedAt(s, index, 1, Contents());
      return true;
    }

    /** silk_vector_set: overwrite the element at index. */
    method Set(index: nat, x: T) returns (ok: bool)
      requires Valid()
      modifies data
      ensures Valid()
      ensures ok <==> index < length
      ensures Contents() == if ok then old(Contents())[index := x] else old(Contents())
    {
      if index >= length {
        return false;
      }
      data[index] := x;
      return true;
    }

    /** silk_vector_get: the element at index, when there is one. */
    method Get(index: nat) returns (ok: bool, x: T)
      requires Valid()
      ensures ok <==> index < length
      ensures ok ==> x == Contents()[index]
    {
      if index >= length {
        x := *;
        return false, x;
      }
      return true, data[index];
    }

    /** silk_vector_push_front: insert at 0. */
    method PushFront(x: T) returns (ok: bool)
      requires Valid()
      modifies this, data
      ensures Valid() && (data == old(data) || fresh(data))
      ensures Contents() == if ok then [x] + old(Contents()) else old(Contents())
      ensures old(capacity) > old(length) ==> ok && capacity == old(capacity) && data == old(data)
    {
      ok := Insert(0, x);
      if ok {
        assert Inserted(old(Contents()), 0, [x]) == [x] + old(Contents());
      }
    }

    /** silk_vector_push_back: the same as append. */
    method PushBack(x: T) returns (ok: bool)
      requires Valid()
      modifies this, data
      ensures Valid() && (data == old(data) || fresh(data))
      ensures Contents() == if ok then old(Contents()) + [x] else old(Contents())
      ensures old(capacity) > old(length) ==> ok && capacity == old(capacity) && data == old(data)
    {
      ok := Append(x);
    }

    /** silk_vector_pop_front: take out the first element; false, and no change, when empty. */
    method PopFront() returns (ok: bool, x: T)
      requires Valid()
      modifies this, data
      ensures Valid() && capacity == old(capacity)
      ensures ok <==> old(length) > 0
      ensures ok ==> x == old(Contents())[0] && Contents() == old(Contents())[1..]
      ensures !ok ==> Contents() == old(Contents())
    {
      if length == 0 {
        x := *;
        return false, x;
      }
      var _, first := Get(0);
      ok := Remove(0);
      x := first;
    }

    /** silk_vector_pop_back: take out the last element; false, and no change, when empty. */
    method PopBack() returns (ok: bool, x: T)
      requires Valid()
      modifies this, data
      ensures Valid() && capacity == old(capacity)
      ensures ok <==> old(length) > 0
      ensures ok ==> x == old(Contents())[old(length) - 1] && Contents() == old(Contents())[..old(length) - 1]
      ensures !ok ==> Contents() == old(Contents())
    {
      if length == 0 {
        x := *;
        return false, x;
      }
      var _, last := Get(length - 1);
      ok := Remove(length - 1);
      x := last;
    }

    /**
     * silk_vector_find: the first position from begin on whose element compares equal to
     * x, or InvalidIndex when there is none.
     */
    method Find(x: T, begin: nat, cmp: (T, T) -> int) returns (i: nat)
      requires Valid()
      ensures (begin <= i < length && cmp(Contents()[i], x) == 0 && NoMatch(Contents(), x, begin, i, cmp))
           || (i == InvalidIndex && NoMatch(Contents(), x, begin, length, cmp))
    {
      i := begin;
      while i < length
        invariant begin <= i
        invariant NoMatch(Contents(), x, begin, i, cmp)
        decreases length - i
      {
        if cmp(data[i], x) == 0 {
          return i;
        }
        i := i + 1;
      }
      return InvalidIndex;
    }

    /**
     * silk_vector_sort, which reports nothing.  When allocating the stack or the swap
     * buffer fails it returns before anything moves; otherwise the elements end up a
     * sorted permutation of what they were.
     */
    method Sort(cmp: (T, T) -> int)
      requires Valid() && ValidComparator(cmp)
      modifies data
      ensures Valid()
      ensures multiset(Contents()) == multiset(old(Contents()))
      ensures Sorted(Contents(), cmp) || Contents() == old(Contents())
      ensures old(length) <= 1 ==> Contents() == old(Contents())
    {
      if length <= 1 {
        return;
      }
      var started: bool := *;
      if !started {
        return;
      }
      var _ := ArraySort.QuickSort(data, length, cmp, false);
    }

    /** silk_vector_reserve: make room for at least cap elements. */
    method Reserve(cap: nat) returns (ok: bool)
      requires Valid()
      modifies this
      ensures Valid() && length == old(length) && Contents() == old(Contents())
      ensures old(capacity) >= cap ==> ok && capacity == old(capacity)
      ensures ok && old(capacity) < cap ==> capacity == cap
      ensures !ok ==> capacity == old(capacity)
    {
      if capacity >= cap {
        return true;
      }
      ok := Realloc(cap);
    }

    /** silk_vector_recycle: shrink the buffer to exactly the elements. */
    method Recycle() returns (ok: bool)
      requires Valid()
      modifies this
      ensures Valid() && length == old(length) && Contents() == old(Contents())
      ensures ok ==> capacity == length
      ensures !ok ==> capacity == old(capacity)
    {
      ok := Realloc(length);
    }

    /** silk_vector_clear: drop the elements and the buffer. */
    method Clear()
      requires Valid()
      modifies this
      ensures Valid() && Contents() == [] && capacity == 0 && fresh(data)
    {
      data := new T[0];
      length, capacity := 0, 0;
    }

    /**
     * silk_vector_copy: a new vector with the same elements and capacity, or null when an
     * allocation fails.
     */
    method Copy() returns (v: Vector?<T>)
      requires Valid()
      ensures v != null ==> fresh(v) && fresh(v.data) && v.Valid()
      ensures v != null ==> v.Contents() == Contents() && v.capacity == capacity
    {
      var granted: bool := *;
      if !granted {
        return null;
      }
      v := new Vector.Empty();
      var buffered: bool := *;
      if !buffered {
        return null;
      }
      var buffer := new T[capacity];
      forall i | 0 <= i < length {
        buffer[i] := data[i];
      }
      v.data, v.length, v.capacity := buffer, length, capacity;
    }
  }
}
