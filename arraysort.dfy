/**
 * The quicksort shared, statement for statement, by silk_vector_sort in src/vector.c and in
 * src/silk/vector.c, run in place over the first n slots of the vector's buffer.  The
 * pivot is the first element of the range; the right cursor scans down for an element
 * below the pivot, then the left cursor scans up for one above it, and the two are
 * swapped until the cursors meet; the pivot is then swapped into the meeting point.
 * Instead of recursing, the sort keeps a stack of pending ranges and pushes only the
 * parts of two or more elements.
 */
module ArraySort {
  import opened Compare
  import opened SortSpec

  /**
   * "find right smaller than base": from right down to just above left, the first
   * element that compares below the pivot at base; left when there is none.
   */
  method FindRight<T(!new)>(a: array<T>, base: nat, left: nat, right: nat, cmp: (T, T) -> int) returns (r: nat)
    requires base < a.Length && left <= right < a.Length
    ensures left <= r <= right
    ensures r == left || cmp(a[r], a[base]) < 0
    ensures AtLeast(a[..], r + 1, right + 1, a[base], cmp)
  {
    r := right;
    while r > left
      invariant left <= r <= right
      invariant AtLeast(a[..], r + 1, right + 1, a[base], cmp)
    {
      if cmp(a[r], a[base]) < 0 {
        break;
      }
      r := r - 1;
    }
  }

  /**
   * "find left greater than base": from left up to just below right, the first element
   * that compares above the pivot at base; right when there is none.
   */
  method FindLeft<T(!new)>(a: array<T>, base: nat, left: nat, right: nat, cmp: (T, T) -> int) returns (l: nat)
    requires base < a.Length && left <= right < a.Length
    ensures left <= l <= right
    ensures l == right || cmp(a[l], a[base]) > 0
    ensures AtMost(a[..], left, l, a[base], cmp)
  {
    l := left;
    while l < right
      invariant left <= l <= right
      invariant AtMost(a[..], left, l, a[base], cmp)
    {
      if cmp(a[l], a[base]) > 0 {
        break;
      }
      l := l + 1;
    }
  }

  /**
   * The cursor loop of one round over a[lo..hi] (both ends included), with the pivot at
   * base = lo: elements above the pivot found by the left cursor trade places with
   * elements below it found by the right cursor until the cursors meet.  Returns the
   * meeting point; everything from lo to it is at most the pivot, everything after it up
   * to hi at least the pivot, and the pivot has not moved.
   */
  method Meet<T(!new)>(a: array<T>, lo: nat, hi: nat, cmp: (T, T) -> int) returns (left: nat)
    requires forall x :: cmp(x, x) == 0
    requires lo <= hi < a.Length
    modifies a
    ensures lo <= left <= hi && a[lo] == old(a[lo])
    ensures AtMost(a[..], lo, left + 1, a[lo], cmp) && AtLeast(a[..], left + 1, hi + 1, a[lo], cmp)
    ensures Rearranged(a[..], old(a[..]), lo, hi)
  {
    var base, right := lo, hi;
    left := lo;
    assert Rearranged(a[..], old(a[..]), lo, hi);
    ghost var pivot := a[base];
    while left < right
      invariant lo <= left <= right <= hi
      invariant a[base] == pivot
      invariant AtMost(a[..], lo, left + 1, pivot, cmp)
      invariant AtLeast(a[..], right + 1, hi + 1, pivot, cmp)
      invariant Rearranged(a[..], old(a[..]), lo, hi)
      decreases right - left
    {
      right := FindRight(a, base, left, right, cmp);
      ghost var left0 := left;
      left := FindLeft(a, base, left, right, cmp);
      if left == right {
        break;
      }
      assert left != left0;
      ghost var s := a[..];
      a[left], a[right] := a[right], a[left];
      assert a[..] == Swap(s, left, right);
      SwapInside(s, lo, hi, left, right);
      RearrangedTrans(a[..], s, old(a[..]), lo, hi);
      SwapGrowsSides(s, lo, hi, left, right, pivot, cmp);
    }
  }

  /**
   * One round's partition of a[lo..hi] (both ends included): the body of the sort's outer
   * loop from "base = left = begin" to the swap of base and the meeting point.  Returns
   * the meeting point, where the pivot now is.
   */
  method Partition<T(!new)>(a: array<T>, lo: nat, hi: nat, cmp: (T, T) -> int) returns (mid: nat)
    requires forall x :: cmp(x, x) == 0
    requires lo <= hi < a.Length
    modifies a
    ensures lo <= mid <= hi
    ensures Rearranged(a[..], old(a[..]), lo, hi)
    ensures Partitioned(a[..], lo, mid, hi, cmp)
  {
    var base := lo;
    var left := Meet(a, lo, hi, cmp);
    // swap base and the meeting point
    ghost var s := a[..];
    a[left], a[base] := a[base], a[left];
    assert a[..] == Swap(s, left, base);
    SwapInside(s, lo, hi, left, base);
    RearrangedTrans(a[..], s, old(a[..]), lo, hi);
    PivotSwapPartitions(s, lo, left, hi, s[lo], cmp);
    mid := left;
  }

  /**
   * One turn of the sort's stack loop: pop the last pending range, partition it, and push
   * its parts of two or more elements, left part first.  When pushesMayFail the pushes are
   * an allocation that can fail; then pushed is false and the stack is left as popped.
   */
  method Round<T(!new)>(a: array<T>, n: nat, stack: seq<Range>, cmp: (T, T) -> int, pushesMayFail: bool)
    returns (next: seq<Range>, pushed: bool)
    requires ValidComparator(cmp)
    requires StackInv(a[..], n, stack, cmp) && |stack| > 0 && n <= a.Length
    modifies a
    ensures !pushesMayFail ==> pushed
    ensures pushed ==> StackInv(a[..], n, next, cmp) && Total(next) < Total(stack)
    ensures Rearranged(a[..], old(a[..]), 0, n - 1)
  {
    var r := stack[|stack| - 1];
    next := stack[..|stack| - 1];
    assert next + [r] == stack;
    var begin, end := r.lo, r.hi;
    assert end < n by {
      assert stack[|next|] == r;
    }
    ComparatorFacts(cmp);
    var left := Partition(a, begin, end, cmp);
    var pushLeft := begin + 1 < left;
    var pushRight := end - 1 > left;
    PartitionStep(old(a[..]), a[..], n, next, r, left, pushLeft, pushRight, cmp);
    RearrangedWiden(a[..], old(a[..]), begin, end, 0, n - 1);
    pushed := true;
    if pushesMayFail && (pushLeft || pushRight) {
      pushed := *;
    }
    if pushed {
      // push the ranges of the next turns: the part left of the pivot, then the part right of it
      next := next + Pushes(r, left, pushLeft, pushRight);
    }
  }

  /**
   * The sort's stack loop over the first n >= 2 slots of a.  When pushesMayFail, growing
   * the stack is an allocation that can fail, and the sort then gives up and reports
   * false, as src/vector.c does; otherwise every push succeeds.  The first n slots always
   * end up a permutation of what was there, sorted under cmp when ok; the slots from n
   * on are untouched.
   */
  method QuickSort<T(!new)>(a: array<T>, n: nat, cmp: (T, T) -> int, pushesMayFail: bool) returns (ok: bool)
    requires ValidComparator(cmp)
    requires 2 <= n <= a.Length
    modifies a
    ensures !pushesMayFail ==> ok
    ensures ok ==> Sorted(a[..n], cmp)
    ensures multiset(a[..n]) == multiset(old(a[..n]))
    ensures a[n..] == old(a[n..])
  {
    ok := true;
    var stack := [Range(0, n - 1)];
    StartInv(a[..], n, cmp);
    assert Rearranged(a[..], old(a[..]), 0, n - 1);
    while |stack| > 0 && ok
      invariant ok ==> StackInv(a[..], n, stack, cmp)
      invariant !pushesMayFail ==> ok
      invariant Rearranged(a[..], old(a[..]), 0, n - 1)
      decreases ok, Total(stack)
    {
      ghost var before := a[..];
      stack, ok := Round(a, n, stack, cmp, pushesMayFail);
      RearrangedTrans(a[..], before, old(a[..]), 0, n - 1);
    }
    if ok {
      SortedAtEnd(a[..], n, cmp);
    }
    SegmentPerm(a[..], old(a[..]), 0, n - 1);
    assert a[..][0..n] == a[..n] && old(a[..])[0..n] == old(a[..n]);
  }
}
