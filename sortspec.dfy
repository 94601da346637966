/**
 * What the explicit-stack quicksorts of src/vector.c, src/silk/vector.c and src/silk/list.c
 * establish, stated on the sequence of elements they work on.
 *
 * The sorts keep a stack of pending ranges [begin, end].  A round pops one range,
 * partitions it around its first element and pushes the parts on either side of the
 * pivot's final place.  The invariant kept across rounds (StackInv) is that the pending
 * ranges are disjoint and in bounds, and that any two positions not inside one pending
 * range are already in order.  When the stack is empty that is sortedness; the stack
 * shrinks in total size by at least the pivot each round.
 */
module SortSpec {
  import opened Compare

  /** s is non-decreasing under cmp. */
  ghost predicate Sorted<T(!new)>(s: seq<T>, cmp: (T, T) -> int)
  {
    forall i, j :: 0 <= i < j < |s| ==> cmp(s[i], s[j]) <= 0
  }

  /** A pending range of positions lo .. hi, both ends included, as the sorts push begin and end. */
  datatype Range = Range(lo: nat, hi: nat)

  predicate Covers(r: Range, k: int)
  {
    r.lo <= k <= r.hi
  }

  function Size(r: Range): nat
  {
    if r.lo <= r.hi then r.hi - r.lo + 1 else 0
  }

  /** The number of positions still to be sorted. */
  function Total(stack: seq<Range>): nat
  {
    if stack == [] then 0 else Total(stack[..|stack| - 1]) + Size(stack[|stack| - 1])
  }

  /** Positions i and j lie in one pending range. */
  predicate Together(stack: seq<Range>, i: int, j: int)
  {
    stack != [] &&
    ((Covers(stack[|stack| - 1], i) && Covers(stack[|stack| - 1], j)) || Together(stack[..|stack| - 1], i, j))
  }

  /** Every pending range is a non-empty range below n, and no two of them overlap. */
  ghost predicate Disjoint(stack: seq<Range>, n: nat)
  {
    (forall t :: 0 <= t < |stack| ==> stack[t].lo <= stack[t].hi < n) &&
    (forall t, u :: 0 <= t < u < |stack| ==> stack[t].hi < stack[u].lo || stack[u].hi < stack[t].lo)
  }

  /** Any two positions below n that are not in one pending range are in order. */
  ghost predicate Settled<T(!new)>(s: seq<T>, n: nat, stack: seq<Range>, cmp: (T, T) -> int)
    requires n <= |s|
  {
    forall i, j :: 0 <= i < j < n && !Together(stack, i, j) ==> cmp(s[i], s[j]) <= 0
  }

  /** The loop invariant of the sorts' outer loop, over the first n elements of s. */
  ghost predicate StackInv<T(!new)>(s: seq<T>, n: nat, stack: seq<Range>, cmp: (T, T) -> int)
  {
    n <= |s| && Disjoint(stack, n) && Settled(s, n, stack, cmp)
  }

  /** Positions lo .. mid - 1 hold elements at most s[mid], positions mid + 1 .. hi elements at least s[mid]. */
  ghost predicate Partitioned<T(!new)>(s: seq<T>, lo: nat, mid: nat, hi: nat, cmp: (T, T) -> int)
    requires lo <= mid <= hi < |s|
  {
    (forall k :: lo <= k < mid ==> cmp(s[k], s[mid]) <= 0) &&
    (forall k :: mid < k <= hi ==> cmp(s[k], s[mid]) >= 0)
  }

  /** Every element in positions from .. to - 1 compares at most pivot. */
  ghost predicate AtMost<T(!new)>(s: seq<T>, from: int, to: int, pivot: T, cmp: (T, T) -> int)
    requires 0 <= from && to <= |s|
  {
    forall k :: from <= k < to ==> cmp(s[k], pivot) <= 0
  }

  /** Every element in positions from .. to - 1 compares at least pivot. */
  ghost predicate AtLeast<T(!new)>(s: seq<T>, from: int, to: int, pivot: T, cmp: (T, T) -> int)
    requires 0 <= from && to <= |s|
  {
    forall k :: from <= k < to ==> cmp(s[k], pivot) >= 0
  }

  /** s with the elements at i and j exchanged, as the sorts' three copies through a buffer do. */
  function Swap<T>(s: seq<T>, i: nat, j: nat): (t: seq<T>)
    requires i < |s| && j < |s|
    ensures |t| == |s|
  {
    s[i := s[j]][j := s[i]]
  }

  /** t holds the elements of s, and only positions lo .. hi may differ. */
  ghost predicate Rearranged<T>(t: seq<T>, s: seq<T>, lo: nat, hi: nat)
  {
    lo <= hi < |s| == |t| &&
    t[..lo] == s[..lo] && t[hi + 1..] == s[hi + 1..] && multiset(t) == multiset(s)
  }

  lemma RearrangedTrans<T>(u: seq<T>, t: seq<T>, s: seq<T>, lo: nat, hi: nat)
    requires Rearranged(u, t, lo, hi) && Rearranged(t, s, lo, hi)
    ensures Rearranged(u, s, lo, hi)
  {
  }

  lemma RearrangedWiden<T>(t: seq<T>, s: seq<T>, lo: nat, hi: nat, lo': nat, hi': nat)
    requires Rearranged(t, s, lo, hi) && lo' <= lo && hi <= hi' < |s|
    ensures Rearranged(t, s, lo', hi')
  {
    assert t[..lo'] == t[..lo][..lo'] && s[..lo'] == s[..lo][..lo'];
    assert t[hi' + 1..] == t[hi + 1..][hi' - hi..] && s[hi' + 1..] == s[hi + 1..][hi' - hi..];
  }

  /** A swap inside lo .. hi leaves everything outside alone and the elements the same. */
  lemma SwapInside<T>(s: seq<T>, lo: nat, hi: nat, i: nat, j: nat)
    requires lo <= i <= hi && lo <= j <= hi && hi < |s|
    ensures Rearranged(Swap(s, i, j), s, lo, hi)
  {
    var t := Swap(s, i, j);
    assert t[..lo] == s[..lo];
    assert t[hi + 1..] == s[hi + 1..];
  }

  /**
   * The swap of the partition's inner loop: an element above the pivot at left and one
   * below it at right trade places, so both sides grow by one.
   */
  lemma SwapGrowsSides<T(!new)>(s: seq<T>, lo: nat, hi: nat, left: nat, right: nat, pivot: T, cmp: (T, T) -> int)
    requires lo < left < right <= hi < |s|
    requires AtMost(s, lo, left, pivot, cmp) && AtLeast(s, right + 1, hi + 1, pivot, cmp)
    requires cmp(s[left], pivot) > 0 && cmp(s[right], pivot) < 0
    ensures AtMost(Swap(s, left, right), lo, left + 1, pivot, cmp)
    ensures AtLeast(Swap(s, left, right), right, hi + 1, pivot, cmp)
    ensures Swap(s, left, right)[lo] == s[lo]
  {
  }

  /**
   * The pivot at lo swapped into the meeting point mid, with everything up to mid at most
   * the pivot and everything after it at least the pivot, partitions lo .. hi around mid.
   */
  lemma PivotSwapPartitions<T(!new)>(s: seq<T>, lo: nat, mid: nat, hi: nat, pivot: T, cmp: (T, T) -> int)
    requires lo <= mid <= hi < |s| && s[lo] == pivot
    requires AtMost(s, lo, mid + 1, pivot, cmp) && AtLeast(s, mid + 1, hi + 1, pivot, cmp)
    ensures Partitioned(Swap(s, mid, lo), lo, mid, hi, cmp)
  {
  }

  /** The sorts' first push: one range over all n >= 2 positions. */
  lemma StartInv<T(!new)>(s: seq<T>, n: nat, cmp: (T, T) -> int)
    requires 2 <= n <= |s|
    ensures StackInv(s, n, [Range(0, n - 1)], cmp)
    ensures Total([Range(0, n - 1)]) == n
  {
    var stack := [Range(0, n - 1)];
    assert stack[..0] == [];
    forall i, j | 0 <= i < j < n
      ensures Together(stack, i, j)
    {
    }
  }

  /** With nothing pending, the first n elements are sorted. */
  lemma SortedAtEnd<T(!new)>(s: seq<T>, n: nat, cmp: (T, T) -> int)
    requires StackInv(s, n, [], cmp)
    ensures Sorted(s[..n], cmp)
  {
    forall i, j | 0 <= i < j < n
      ensures cmp(s[..n][i], s[..n][j]) <= 0
    {
      assert !Together([], i, j);
    }
  }

  /** Pushing x adds exactly the pairs inside x. */
  lemma TogetherPush(stack: seq<Range>, x: Range, i: int, j: int)
    ensures Together(stack + [x], i, j) <==> (Covers(x, i) && Covers(x, j)) || Together(stack, i, j)
  {
    assert (stack + [x])[..|stack|] == stack;
  }

  lemma TotalPush(stack: seq<Range>, x: Range)
    ensures Total(stack + [x]) == Total(stack) + Size(x)
  {
    assert (stack + [x])[..|stack|] == stack;
  }

  /** A pair inside one pending range lies inside some element of the stack. */
  lemma {:induction false} TogetherWitness(stack: seq<Range>, i: int, j: int) returns (t: nat)
    requires Together(stack, i, j)
    ensures t < |stack| && Covers(stack[t], i) && Covers(stack[t], j)
  {
    var last := |stack| - 1;
    if Covers(stack[last], i) && Covers(stack[last], j) {
      t := last;
    } else {
      t := TogetherWitness(stack[..last], i, j);
    }
  }

  /** A position of the popped range is in no other pending range. */
  lemma NotTogetherRest(rest: seq<Range>, r: Range, n: nat, k: int, j: int)
    requires Disjoint(rest + [r], n)
    requires Covers(r, k)
    ensures !Together(rest, k, j) && !Together(rest, j, k)
  {
    forall t | 0 <= t < |rest|
      ensures !Covers(rest[t], k)
    {
      var st := rest + [r];
      assert st[t] == rest[t] && st[|rest|] == r;
    }
    if Together(rest, k, j) {
      var t := TogetherWitness(rest, k, j);
      assert false;
    }
    if Together(rest, j, k) {
      var t := TogetherWitness(rest, j, k);
      assert false;
    }
  }

  /** An element now in positions lo .. hi was somewhere in lo .. hi before. */
  lemma Origin<T>(s: seq<T>, s': seq<T>, lo: nat, hi: nat, k: nat) returns (k0: nat)
    requires lo <= k <= hi < |s| == |s'|
    requires multiset(s'[lo..hi + 1]) == multiset(s[lo..hi + 1])
    ensures lo <= k0 <= hi && s'[k] == s[k0]
  {
    assert s'[k] == s'[lo..hi + 1][k - lo];
    assert s'[k] in multiset(s[lo..hi + 1]);
    var m :| 0 <= m < hi + 1 - lo && s[lo..hi + 1][m] == s'[k];
    k0 := lo + m;
  }

  /** Rearranged on lo .. hi: then the elements of lo .. hi are the same as a multiset. */
  lemma SegmentPerm<T>(t: seq<T>, s: seq<T>, lo: nat, hi: nat)
    requires Rearranged(t, s, lo, hi)
    ensures multiset(t[lo..hi + 1]) == multiset(s[lo..hi + 1])
  {
    assert s == s[..lo] + s[lo..hi + 1] + s[hi + 1..];
    assert t == t[..lo] + t[lo..hi + 1] + t[hi + 1..];
    assert multiset(s) == multiset(s[..lo]) + multiset(s[lo..hi + 1]) + multiset(s[hi + 1..]);
    assert multiset(t) == multiset(s[..lo]) + multiset(t[lo..hi + 1]) + multiset(s[hi + 1..]);
    assert multiset(t[lo..hi + 1]) == multiset(t) - multiset(s[..lo]) - multiset(s[hi + 1..]);
  }

  /** The ranges a round pushes: the part left of mid when pushLeft, then the part right of mid when pushRight. */
  function Pushes(r: Range, mid: nat, pushLeft: bool, pushRight: bool): (ps: seq<Range>)
    requires pushLeft ==> r.lo < mid
    ensures |ps| <= 2
  {
    (if pushLeft then [Range(r.lo, mid - 1)] else []) + (if pushRight then [Range(mid + 1, r.hi)] else [])
  }

  /** What a round must push: every part of two or more positions, and only non-empty parts. */
  predicate PushesOk(r: Range, mid: nat, pushLeft: bool, pushRight: bool)
  {
    r.lo <= mid <= r.hi &&
    (pushLeft ==> r.lo < mid) && (pushRight ==> mid < r.hi) &&
    (mid - r.lo >= 2 ==> pushLeft) && (r.hi - mid >= 2 ==> pushRight)
  }

  /** A pair is inside a pushed range exactly when it is inside one of the parts pushed. */
  lemma TogetherPushes(rest: seq<Range>, r: Range, mid: nat, pushLeft: bool, pushRight: bool, i: int, j: int)
    requires PushesOk(r, mid, pushLeft, pushRight)
    ensures Together(rest + Pushes(r, mid, pushLeft, pushRight), i, j) <==>
              Together(rest, i, j) ||
              (pushLeft && r.lo <= i < mid && r.lo <= j < mid) ||
              (pushRight && mid < i <= r.hi && mid < j <= r.hi)
  {
    var st' := rest + Pushes(r, mid, pushLeft, pushRight);
    if pushLeft {
      var leftRange := Range(r.lo, mid - 1);
      TogetherPush(rest, leftRange, i, j);
      if pushRight {
        assert st' == rest + [leftRange] + [Range(mid + 1, r.hi)];
        TogetherPush(rest + [leftRange], Range(mid + 1, r.hi), i, j);
      } else {
        assert st' == rest + [leftRange];
      }
    } else if pushRight {
      assert st' == rest + [Range(mid + 1, r.hi)];
      TogetherPush(rest, Range(mid + 1, r.hi), i, j);
    } else {
      assert st' == rest;
    }
  }

  /** The stacks after the pushes are still disjoint and in bounds. */
  lemma DisjointAfterPush(rest: seq<Range>, r: Range, n: nat, mid: nat, pushLeft: bool, pushRight: bool)
    requires Disjoint(rest + [r], n) && PushesOk(r, mid, pushLeft, pushRight)
    ensures Disjoint(rest + Pushes(r, mid, pushLeft, pushRight), n)
  {
    var st, st' := rest + [r], rest + Pushes(r, mid, pushLeft, pushRight);
    assert st[|rest|] == r;
    forall t | 0 <= t < |st'|
      ensures st'[t].lo <= st'[t].hi < n
    {
      if t < |rest| {
        assert st'[t] == st[t];
      }
    }
    forall t, u | 0 <= t < u < |st'|
      ensures st'[t].hi < st'[u].lo || st'[u].hi < st'[t].lo
    {
      if u < |rest| {
        assert st'[t] == st[t] && st'[u] == st[u];
      } else if t < |rest| {
        assert st'[t] == st[t];
      }
    }
  }

  /** The pushes remove the pivot's position from the pending total. */
  lemma TotalAfterPush(rest: seq<Range>, r: Range, mid: nat, pushLeft: bool, pushRight: bool)
    requires PushesOk(r, mid, pushLeft, pushRight)
    ensures Total(rest + Pushes(r, mid, pushLeft, pushRight)) < Total(rest + [r])
  {
    var st' := rest + Pushes(r, mid, pushLeft, pushRight);
    TotalPush(rest, r);
    if pushLeft {
      var leftRange := Range(r.lo, mid - 1);
      TotalPush(rest, leftRange);
      if pushRight {
        assert st' == rest + [leftRange] + [Range(mid + 1, r.hi)];
        TotalPush(rest + [leftRange], Range(mid + 1, r.hi));
      } else {
        assert st' == rest + [leftRange];
      }
    } else if pushRight {
      assert st' == rest + [Range(mid + 1, r.hi)];
      TotalPush(rest, Range(mid + 1, r.hi));
    } else {
      assert st' == rest;
    }
  }

  /** Two positions of the popped range that the round leaves in no pending range are in order. */
  lemma InsidePair<T(!new)>(s': seq<T>, r: Range, mid: nat, pushLeft: bool, pushRight: bool,
                            cmp: (T, T) -> int, i: nat, j: nat)
    requires ValidComparator(cmp)
    requires PushesOk(r, mid, pushLeft, pushRight) && r.hi < |s'|
    requires Partitioned(s', r.lo, mid, r.hi, cmp)
    requires Covers(r, i) && Covers(r, j) && i < j
    requires !(pushLeft && i < mid && j < mid) && !(pushRight && mid < i && mid < j)
    ensures cmp(s'[i], s'[j]) <= 0
  {
    ComparatorFacts(cmp);
    if i < mid < j {
      assert cmp(s'[i], s'[mid]) <= 0 && cmp(s'[mid], s'[j]) <= 0;
    } else if i == mid {
      assert cmp(s'[j], s'[mid]) >= 0;
    }
  }

  /** The invariant at one pair. */
  lemma SettledAt<T(!new)>(s: seq<T>, n: nat, stack: seq<Range>, cmp: (T, T) -> int, i: nat, j: nat)
    requires StackInv(s, n, stack, cmp)
    requires i < j < n && !Together(stack, i, j)
    ensures cmp(s[i], s[j]) <= 0
  {
  }

  /** A position of the popped range and a later position outside every pending range are in order. */
  lemma CrossPairLeft<T(!new)>(s: seq<T>, s': seq<T>, n: nat, rest: seq<Range>, r: Range,
                               cmp: (T, T) -> int, i: nat, j: nat)
    requires StackInv(s, n, rest + [r], cmp)
    requires |s'| == |s| && r.lo <= r.hi < j < n && Covers(r, i)
    requires s'[r.hi + 1..] == s[r.hi + 1..]
    requires multiset(s'[r.lo..r.hi + 1]) == multiset(s[r.lo..r.hi + 1])
    requires !Together(rest, i, j)
    ensures cmp(s'[i], s'[j]) <= 0
  {
    var i0 := Origin(s, s', r.lo, r.hi, i);
    NotTogetherRest(rest, r, n, i0, j);
    TogetherPush(rest, r, i0, j);
    assert s'[j] == s[j] by {
      assert s'[j] == s'[r.hi + 1..][j - r.hi - 1];
    }
    SettledAt(s, n, rest + [r], cmp, i0, j);
  }

  /** An earlier position outside every pending range and a position of the popped range are in order. */
  lemma CrossPairRight<T(!new)>(s: seq<T>, s': seq<T>, n: nat, rest: seq<Range>, r: Range,
                                cmp: (T, T) -> int, i: nat, j: nat)
    requires StackInv(s, n, rest + [r], cmp)
    requires |s'| == |s| && i < r.lo <= r.hi < n && Covers(r, j)
    requires s'[..r.lo] == s[..r.lo]
    requires multiset(s'[r.lo..r.hi + 1]) == multiset(s[r.lo..r.hi + 1])
    requires !Together(rest, i, j)
    ensures cmp(s'[i], s'[j]) <= 0
  {
    var j0 := Origin(s, s', r.lo, r.hi, j);
    NotTogetherRest(rest, r, n, j0, i);
    TogetherPush(rest, r, i, j0);
    assert s'[i] == s[i] by {
      assert s'[i] == s'[..r.lo][i];
    }
    SettledAt(s, n, rest + [r], cmp, i, j0);
  }

  /** After a round, a pair of positions below n that is in no pending range is in order. */
  lemma PairAfterPush<T(!new)>(s: seq<T>, s': seq<T>, n: nat, rest: seq<Range>, r: Range, mid: nat,
                               pushLeft: bool, pushRight: bool, cmp: (T, T) -> int, i: nat, j: nat)
    requires ValidComparator(cmp)
    requires StackInv(s, n, rest + [r], cmp)
    requires |s'| == |s| && r.hi < n && PushesOk(r, mid, pushLeft, pushRight)
    requires s'[..r.lo] == s[..r.lo] && s'[r.hi + 1..] == s[r.hi + 1..]
    requires multiset(s'[r.lo..r.hi + 1]) == multiset(s[r.lo..r.hi + 1])
    requires Partitioned(s', r.lo, mid, r.hi, cmp)
    requires i < j < n && !Together(rest + Pushes(r, mid, pushLeft, pushRight), i, j)
    ensures cmp(s'[i], s'[j]) <= 0
  {
    TogetherPush(rest, r, i, j);
    TogetherPushes(rest, r, mid, pushLeft, pushRight, i, j);
    if !Covers(r, i) && !Covers(r, j) {
      if j < r.lo {
        assert s'[i] == s'[..r.lo][i] && s'[j] == s'[..r.lo][j];
      } else if i < r.lo {
        assert s'[i] == s'[..r.lo][i] && s'[j] == s'[r.hi + 1..][j - r.hi - 1];
      } else {
        assert s'[i] == s'[r.hi + 1..][i - r.hi - 1] && s'[j] == s'[r.hi + 1..][j - r.hi - 1];
      }
      SettledAt(s, n, rest + [r], cmp, i, j);
    } else if Covers(r, i) && Covers(r, j) {
      InsidePair(s', r, mid, pushLeft, pushRight, cmp, i, j);
    } else if Covers(r, i) {
      CrossPairLeft(s, s', n, rest, r, cmp, i, j);
    } else {
      CrossPairRight(s, s', n, rest, r, cmp, i, j);
    }
  }

  /** After a round, every pair of positions below n that is in no pending range is in order. */
  lemma SettledAfterPush<T(!new)>(s: seq<T>, s': seq<T>, n: nat, rest: seq<Range>, r: Range, mid: nat,
                                  pushLeft: bool, pushRight: bool, cmp: (T, T) -> int)
    requires ValidComparator(cmp)
    requires StackInv(s, n, rest + [r], cmp) && r.hi < n
    requires Rearranged(s', s, r.lo, r.hi) && PushesOk(r, mid, pushLeft, pushRight)
    requires Partitioned(s', r.lo, mid, r.hi, cmp)
    ensures Settled(s', n, rest + Pushes(r, mid, pushLeft, pushRight), cmp)
  {
    SegmentPerm(s', s, r.lo, r.hi);
    forall i, j | 0 <= i < j < n && !Together(rest + Pushes(r, mid, pushLeft, pushRight), i, j)
      ensures cmp(s'[i], s'[j]) <= 0
    {
      PairAfterPush(s, s', n, rest, r, mid, pushLeft, pushRight, cmp, i, j);
    }
  }

  /**
   * One round of the sorts' outer loop keeps the invariant.  The popped range r of s was
   * rearranged into s' (the same elements, nothing outside r moved) and partitioned
   * around mid; the round then pushes the part left of mid and the part right of mid,
   * where it must push every part of two or more positions and may push parts of one.
   */
  lemma PartitionStep<T(!new)>(s: seq<T>, s': seq<T>, n: nat, rest: seq<Range>, r: Range, mid: nat,
                               pushLeft: bool, pushRight: bool, cmp: (T, T) -> int)
    requires ValidComparator(cmp)
    requires StackInv(s, n, rest + [r], cmp)
    requires Rearranged(s', s, r.lo, r.hi) && PushesOk(r, mid, pushLeft, pushRight)
    requires Partitioned(s', r.lo, mid, r.hi, cmp)
    ensures StackInv(s', n, rest + Pushes(r, mid, pushLeft, pushRight), cmp)
    ensures Total(rest + Pushes(r, mid, pushLeft, pushRight)) < Total(rest + [r])
  {
    var st, st' := rest + [r], rest + Pushes(r, mid, pushLeft, pushRight);
    assert r.hi < n by {
      assert st[|rest|] == r;
    }
    DisjointAfterPush(rest, r, n, mid, pushLeft, pushRight);
    SettledAfterPush(s, s', n, rest, r, mid, pushLeft, pushRight, cmp);
    TotalAfterPush(rest, r, mid, pushLeft, pushRight);
  }
}
