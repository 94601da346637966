/**
 * The dynamic array of src/vector.c: a buffer of capacity slots whose first length slots
 * hold the elements.  The buffer grows by the rule in Growth, repeated until the free
 * room suffices; runs of elements are inserted and removed by shifting the tail with an
 * overlap-safe copy.  The element type is a type parameter in place of the C's
 * element_size, and every allocation can fail: a realloc that fails leaves the buffer
 * and the capacity as they were.
 */
module Vectors {
  import opened Common
  import opened Growth
  import opened Compare
  import opened SortSpec
  import ArraySort

  /** removes' guard as src/vector.c:316 writes it, in size_t arithmetic: index + count - 1 < length. */
  function RemovesGuardAsWritten(index: nat, count: nat, length: nat): bool
    requires index <= SizeMax && count <= SizeMax
  {
    (index + count + SizeMax) % (SizeMax + 1) < length
  }

  /** The guard it evidently means: the run index .. index + count lies inside the elements. */
  function RemovesGuard(index: nat, count: nat, length: nat): bool
  {
    index + count <= length
  }

  /** Without wrap-around, and for a non-empty run, the written guard is the intended one. */
  lemma RemovesGuardAgrees(index: nat, count: nat, length: nat)
    requires 1 <= count && index + count <= SizeMax + 1 && index <= SizeMax && count <= SizeMax
    ensures RemovesGuardAsWritten(index, count, length) == RemovesGuard(index, count, length)
  {
    assert (index + count + SizeMax) % (SizeMax + 1) == index + count - 1;
  }

  /** The written guard rejects removing nothing, even from a non-empty vector. */
  lemma RemovesGuardRejectsEmptyRun(length: nat)
    requires 1 <= length <= SizeMax
    ensures !RemovesGuardAsWritten(0, 0, length)
    ensures RemovesGuard(0, 0, length)
  {
  }

  /** For an empty run that does not wrap, the written guard accepts exactly the indexes 1 .. length. */
  lemma RemovesGuardEmptyRun(index: nat, length: nat)
    requires index <= SizeMax && length <= SizeMax
    ensures RemovesGuardAsWritten(index, 0, length) <==> 1 <= index <= length
  {
    if index == 0 {
      assert (index + SizeMax) % (SizeMax + 1) == SizeMax;
    } else {
      assert (index + SizeMax) % (SizeMax + 1) == index - 1;
    }
  }

  /** The written guard lets through a run far beyond the elements when index + count wraps. */
  lemma RemovesGuardAdmitsWrapped()
    ensures RemovesGuardAsWritten(SizeMax, 2, 5)
    ensures !RemovesGuard(SizeMax, 2, 5)
  {
    assert (SizeMax + 2 + SizeMax) % (SizeMax + 1) == 0;
  }

  /** The value a left fold of step over s starts from init, the way reduce threads its data pointer. */
  function Fold<A, T>(step: (A, T) -> A, init: A, s: seq<T>): A
  {
    if s == [] then init else step(Fold(step, init, s[..|s| - 1]), s[|s| - 1])
  }

  /** Folding a concatenation folds the second part from the result of the first. */
  lemma {:induction false} FoldAppend<A, T>(step: (A, T) -> A, init: A, s: seq<T>, t: seq<T>)
    ensures Fold(step, init, s + t) == Fold(step, Fold(step, init, s), t)
    decreases |t|
  {
    if t != [] {
      var t' := t[..|t| - 1];
      assert (s + t)[..|s + t| - 1] == s + t';
      FoldAppend(step, init, s, t');
    } else {
      assert s + t == s;
    }
  }

  class Vector<T(0, !new)> {
    var data: array<T>
    var length: nat
    var capacity: nat

    /** The buffer has capacity slots and the elements fit in it. */
    ghost predicate Valid()
      reads this
    {
      data.Length == capacity && length <= capacity
    }

    /** The elements, in order. */
    function Contents(): (s: seq<T>)
      reads this, data
      requires Valid()
      ensures |s| == length
    {
      data[..length]
    }

    /** silk_vector_new's initialisation: no buffer, no elements. */
    constructor Empty()
      ensures Valid() && Contents() == [] && capacity == 0 && fresh(data)
    {
      data := new T[0];
      length, capacity := 0, 0;
    }

    /** silk_vector_new: null when allocating the vector itself fails. */
    static method New() returns (v: Vector?<T>)
      ensures v != null ==> fresh(v) && fresh(v.data) && v.Valid() && v.Contents() == [] && v.capacity == 0
    {
      var granted: bool := *;
      if !granted {
        return null;
      }
      v := new Vector.Empty();
    }

    /**
     * silk_realloc of the buffer to newCap slots: a fresh buffer holding the old slots
     * that fit, or, when the allocation fails, nothing changes.
     */
    method Realloc(newCap: nat) returns (ok: bool)
      requires Valid() && length <= newCap
      modifies this
      ensures Valid() && length == old(length) && Contents() == old(Contents())
      ensures ok ==> capacity == newCap && fresh(data)
      ensures !ok ==> capacity == old(capacity) && data == old(data)
    {
      ok := *;
      if ok {
        var buffer := new T[newCap];
        var kept := if newCap < capacity then newCap else capacity;
        forall i | 0 <= i < kept {
          buffer[i] := data[i];
        }
        data, capacity := buffer, newCap;
      }
    }

    /** silk_vector_expand: one growth step by NextCapacity. */
    method Expand() returns (ok: bool)
      requires Valid()
      modifies this
      ensures Valid() && length == old(length) && Contents() == old(Contents())
      ensures ok ==> capacity == NextCapacity(old(capacity)) && fresh(data)
      ensures !ok ==> capacity == old(capacity) && data == old(data)
    {
      ok := Realloc(NextCapacity(capacity));
    }

    /**
     * silk_vector_enough: grow until there is room for count more elements and one slot
     * to spare.  On success the capacity is where the growth chain first passes
     * length + count; a failed step stops the loop part-way along the chain.
     */
    method Enough(count: nat) returns (ok: bool)
      requires Valid()
      modifies this
      ensures Valid() && length == old(length) && Contents() == old(Contents())
      ensures ok ==> capacity == GrowUntil(old(capacity), length + count)
      ensures old(capacity) <= capacity <= GrowUntil(old(capacity), length + count)
      ensures data == old(data) || fresh(data)
      ensures old(capacity) > length + count ==> ok && capacity == old(capacity) && data == old(data)
    {
      while capacity <= length + count
        invariant Valid() && length == old(length) && Contents() == old(Contents())
        invariant data == old(data) || fresh(data)
        invariant old(capacity) > length + count ==> capacity == old(capacity) && data == old(data)
        invariant old(capacity) <= capacity
        invariant GrowUntil(capacity, length + count) == GrowUntil(old(capacity), length + count)
        decreases length + count - capacity
      {
        var grown := Expand();
        if !grown {
          return false;
        }
      }
      return true;
    }

    /**
     * silk_vector_inserts: place xs before position index.  Fails, changing no element,
     * when index is past the end or the buffer cannot grow; on success the buffer has a
     * slot to spare.  With that room already there nothing is allocated and it succeeds
     * in place.
     */
    method Inserts(index: nat, xs: seq<T>) returns (ok: bool)
      requires Valid()
      modifies this, data
      ensures Valid() && (data == old(data) || fresh(data))
      ensures ok ==> index <= old(length) && Contents() == Inserted(old(Contents()), index, xs)
      ensures ok ==> capacity > length
      ensures !ok ==> Contents() == old(Contents())
      ensures index > old(length) ==> !ok && capacity == old(capacity)
      ensures index <= old(length) && old(capacity) > old(length) + |xs| ==> ok && capacity == old(capacity) && data == old(data)
    {
      if index > length {
        return false;
      }
      ok := Enough(|xs|);
      if !ok {
        return;
      }
      Place(index, xs);
      length := length + |xs|;
    }

    /** The copies of inserts: move the tail from index up by |xs| slots, then write xs into the gap. */
    method Place(index: nat, xs: seq<T>)
      requires Valid() && index <= length && length + |xs| < capacity
      modifies data
      ensures data[..length + |xs|] == Inserted(old(data[..length]), index, xs)
    {
      ghost var s := data[..length];
      var count := |xs|;
      // shift the elements from index on to index + count, as an overlapping copy
      forall i | index <= i < length {
        data[i + count] := data[i];
      }
      forall i | 0 <= i < count {
        data[index + i] := xs[i];
      }
      InsertedAt(s, index, xs, data[..length + count]);
    }

    /** silk_vector_insert: place x before position index. */
    method Insert(index: nat, x: T) returns (ok: bool)
      requires Valid()
      modifies this, data
      ensures Valid() && (data == old(data) || fresh(data))
      ensures ok ==> index <= old(length) && Contents() == Inserted(old(Contents()), index, [x])
      ensures !ok ==> Contents() == old(Contents())
      ensures index > old(length) ==> !ok
      ensures index <= old(length) && old(capacity) > old(length) + 1 ==> ok && capacity == old(capacity) && data == old(data)
    {
      ok := Inserts(index, [x]);
    }

    /** silk_vector_append: place x after the last element. */
    method Append(x: T) returns (ok: bool)
      requires Valid()
      modifies this, data
      ensures Valid() && (data == old(data) || fresh(data))
      ensures ok ==> Contents() == old(Contents()) + [x]
      ensures !ok ==> Contents() == old(Contents())
      ensures old(capacity) > old(length) + 1 ==> ok && capacity == old(capacity) && data == old(data)
    {
      ok := Insert(length, x);
      if ok {
        assert Inserted(old(Contents()), old(length), [x]) == old(Contents()) + [x];
      }
    }

    /** silk_vector_push_front: place x before the first element. */
    method PushFront(x: T) returns (ok: bool)
      requires Valid()
      modifies this, data
      ensures Valid() && (data == old(data) || fresh(data))
      ensures ok ==> Contents() == [x] + old(Contents())
      ensures !ok ==> Contents() == old(Contents())
      ensures old(capacity) > old(length) + 1 ==> ok && capacity == old(capacity) && data == old(data)
    {
      ok := Insert(0, x);
      if ok {
        assert Inserted(old(Contents()), 0, [x]) == [x] + old(Contents());
      }
    }

    /** silk_vector_push_back: the same as append. */
    method PushBack(x: T) returns (ok: bool)
      requires Valid()
      modifies this, data
      ensures Valid() && (data == old(data) || fresh(data))
      ensures ok ==> Contents() == old(Contents()) + [x]
      ensures !ok ==> Contents() == old(Contents())
      ensures old(capacity) > old(length) + 1 ==> ok && capacity == old(capacity) && data == old(data)
    {
      ok := Append(x);
    }

    /**
     * silk_vector_removes as written: the guard of RemovesGuardAsWritten, then the tail
     * shifted down by the overlapping copy.  When index + count passes SIZE_MAX the guard
     * can let through a run outside the elements; the C's copy then reaches outside the
     * buffer, and the model returns true without promising anything of the elements.
     */
    method Removes(index: nat, count: nat) returns (ok: bool)
      requires Valid() && index <= SizeMax && count <= SizeMax
      modifies this, data
      ensures Valid() && capacity == old(capacity)
      ensures ok <==> RemovesGuardAsWritten(index, count, old(length))
      ensures ok && RemovesGuard(index, count, old(length)) ==> Contents() == Removed(old(Contents()), index, count)
      ensures !ok ==> Contents() == old(Contents())
    {
      if !RemovesGuardAsWritten(index, count, length) {
        return false;
      }
      if !RemovesGuard(index, count, length) {
        return true;
      }
      ok := RemovesIntended(index, count);
    }

    /**
     * silk_vector_removes with the guard of RemovesGuard: drop the count elements from
     * index on, shifting the tail down with an overlapping copy.  The buffer is not
     * shrunk.
     */
    method RemovesIntended(index: nat, count: nat) returns (ok: bool)
      requires Valid()
      modifies this, data
      ensures Valid() && capacity == old(capacity)
      ensures ok <==> RemovesGuard(index, count, old(length))
      ensures ok ==> Contents() == Removed(old(Contents()), index, count)
      ensures !ok ==> Contents() == old(Contents())
    {
      if !RemovesGuard(index, count, length) {
        return false;
      }
      ghost var s := Contents();
      forall i | index + count <= i < length {
        data[i - count] := data[i];
      }
      length := length - count;
      RemovedAt(s, index, count, Contents());
      return true;
    }

    /** silk_vector_remove: drop the element at index, a run of one that never wraps. */
    method Remove(index: nat) returns (ok: bool)
      requires Valid() && index <= SizeMax
      modifies this, data
      ensures Valid() && capacity == old(capacity)
      ensures ok <==> index < old(length)
      ensures ok ==> Contents() == old(Contents())[..index] + old(Contents())[index + 1..]
      ensures !ok ==> Contents() == old(Contents())
    {
      RemovesGuardAgrees(index, 1, length);
      ok := Removes(index, 1);
    }

    /** silk_vector_set: overwrite the element at index. */
    method Set(index: nat, x: T) returns (ok: bool)
      requires Valid()
      modifies data
      ensures Valid()
      ensures ok <==> index < length
      ensures Contents() == if ok then old(Contents())[index := x] else old(Contents())
    {
      if index >= length {
        return false;
      }
      data[index] := x;
      return true;
    }

    /** silk_vector_get: the element at index, when there is one. */
    method Get(index: nat) returns (ok: bool, x: T)
      requires Valid()
      ensures ok <==> index < length
      ensures ok ==> x == Contents()[index]
    {
      if index >= length {
        x := *;
        return false, x;
      }
      return true, data[index];
    }

    /** silk_vector_pop_front: take out the first element. */
    method PopFront() returns (ok: bool, x: T)
      requires Valid()
      modifies this, data
      ensures Valid() && capacity == old(capacity)
      ensures ok <==> old(length) > 0
      ensures ok ==> x == old(Contents())[0] && Contents() == old(Contents())[1..]
      ensures !ok ==> Contents() == old(Contents())
    {
      if length == 0 {
        x := *;
        return false, x;
      }
      var _, first := Get(0);
      ok := Remove(0);
      x := first;
    }

    /** silk_vector_pop_back: take out the last element. */
    method PopBack() returns (ok: bool, x: T)
      requires Valid() && length <= SizeMax
      modifies this, data
      ensures Valid() && capacity == old(capacity)
      ensures ok <==> old(length) > 0
      ensures ok ==> x == old(Contents())[old(length) - 1] && Contents() == old(Contents())[..old(length) - 1]
      ensures !ok ==> Contents() == old(Contents())
    {
      if length == 0 {
        x := *;
        return false, x;
      }
      var _, last := Get(length - 1);
      ok := Remove(length - 1);
      x := last;
    }

    /**
     * silk_vector_find: the first position from begin on whose element compares equal to
     * x, or InvalidIndex when there is none.
     */
    method Find(x: T, begin: nat, cmp: (T, T) -> int) returns (i: nat)
      requires Valid()
      ensures (begin <= i < length && cmp(Contents()[i], x) == 0 && NoMatch(Contents(), x, begin, i, cmp))
           || (i == InvalidIndex && NoMatch(Contents(), x, begin, length, cmp))
    {
      i := begin;
      while i < length
        invariant begin <= i
        invariant NoMatch(Contents(), x, begin, i, cmp)
        decreases length - i
      {
        if cmp(data[i], x) == 0 {
          return i;
        }
        i := i + 1;
      }
      return InvalidIndex;
    }

    /**
     * silk_vector_sort.  A vector of at most one element is already sorted.  Otherwise
     * allocating the stack, the swap buffer or the first pushes can fail before anything
     * moves, and a later push can fail part-way; either way the result is false and the
     * elements are some permutation of what they were.  On success they are sorted
     * under cmp.
     */
    method Sort(cmp: (T, T) -> int) returns (ok: bool)
      requires Valid() && ValidComparator(cmp)
      modifies data
      ensures Valid()
      ensures multiset(Contents()) == multiset(old(Contents()))
      ensures ok ==> Sorted(Contents(), cmp)
      ensures old(length) <= 1 ==> ok && Contents() == old(Contents())
    {
      if length <= 1 {
        return true;
      }
      var started: bool := *;
      if !started {
        return false;
      }
      ok := ArraySort.QuickSort(data, length, cmp, true);
    }

    /** silk_vector_reserve: make room for at least cap elements. */
    method Reserve(cap: nat) returns (ok: bool)
      requires Valid()
      modifies this
      ensures Valid() && length == old(length) && Contents() == old(Contents())
      ensures old(capacity) >= cap ==> ok && capacity == old(capacity)
      ensures ok && old(capacity) < cap ==> capacity == cap
      ensures !ok ==> capacity == old(capacity)
    {
      if capacity >= cap {
        return true;
      }
      ok := Realloc(cap);
    }

    /** silk_vector_recycle: shrink the buffer to exactly the elements. */
    method Recycle() returns (ok: bool)
      requires Valid()
      modifies this
      ensures Valid() && length == old(length) && Contents() == old(Contents())
      ensures ok ==> capacity == length
      ensures !ok ==> capacity == old(capacity)
    {
      ok := Realloc(length);
    }

    /** silk_vector_clear: drop the elements and the buffer. */
    method Clear()
      requires Valid()
      modifies this
      ensures Valid() && Contents() == [] && capacity == 0 && fresh(data)
    {
      data := new T[0];
      length, capacity := 0, 0;
    }

    /**
     * silk_vector_copy: a new vector with the same elements and the same capacity, or null
     * when allocating the vector or its buffer fails.
     */
    method Copy() returns (v: Vector?<T>)
      requires Valid()
      ensures v != null ==> fresh(v) && fresh(v.data) && v.Valid()
      ensures v != null ==> v.Contents() == Contents() && v.capacity == capacity
    {
      var granted: bool := *;
      if !granted {
        return null;
      }
      v := new Vector.Empty();
      var buffered: bool := *;
      if !buffered {
        return null;
      }
      var buffer := new T[capacity];
      forall i | 0 <= i < length {
        buffer[i] := data[i];
      }
      v.data, v.length, v.capacity := buffer, length, capacity;
    }

    /** silk_vector_map: apply the callback to every element, in place. */
    method Map(f: T -> T) returns (ok: bool)
      requires Valid()
      modifies data
      ensures Valid() && ok
      ensures forall i :: 0 <= i < length ==> Contents()[i] == f(old(Contents())[i])
    {
      for i := 0 to length
        invariant forall k :: 0 <= k < i ==> data[k] == f(old(data[k]))
        invariant forall k :: i <= k < length ==> data[k] == old(data[k])
      {
        data[i] := f(data[i]);
      }
      return true;
    }

    /**
     * silk_vector_reduce: thread an accumulator through the callback over the elements in
     * order.  The C callback updates the accumulator through a pointer; here it returns
     * the new value.
     */
    method Reduce<A>(step: (A, T) -> A, init: A) returns (acc: A)
      requires Valid()
      ensures acc == Fold(step, init, Contents())
    {
      acc := init;
      for i := 0 to length
        invariant acc == Fold(step, init, Contents()[..i])
      {
        assert Contents()[..i + 1][..i] == Contents()[..i];
        acc := step(acc, data[i]);
      }
      assert Contents()[..length] == Contents();
    }
  }
}
