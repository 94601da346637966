/**
 * What the containers share: the size_t bound, SILK_INVALID_INDEX (src/silk/common.h and
 * include/silk/common.h define it as SIZE_MAX), and the effect of inserting or removing
 * a run of elements, stated on sequences.
 */
module Common {
  /** SIZE_MAX on a 64-bit target. */
  const SizeMax: nat := 0xffff_ffff_ffff_ffff

  /** SILK_INVALID_INDEX: the index find returns when nothing matches. */
  const InvalidIndex: nat := SizeMax

  /** s with xs placed before position i. */
  function Inserted<T>(s: seq<T>, i: nat, xs: seq<T>): seq<T>
    requires i <= |s|
  {
    s[..i] + xs + s[i..]
  }

  /** s without the n elements from position i on. */
  function Removed<T>(s: seq<T>, i: nat, n: nat): seq<T>
    requires i + n <= |s|
  {
    s[..i] + s[i + n..]
  }

  /** The inserted run sits at i .. i + |xs|, with the old elements before and after it. */
  lemma InsertedParts<T>(s: seq<T>, i: nat, xs: seq<T>)
    requires i <= |s|
    ensures |Inserted(s, i, xs)| == |s| + |xs|
    ensures Inserted(s, i, xs)[..i] == s[..i]
    ensures Inserted(s, i, xs)[i..i + |xs|] == xs
    ensures Inserted(s, i, xs)[i + |xs|..] == s[i..]
  {
    var r := Inserted(s, i, xs);
    assert r == s[..i] + xs + s[i..];
    assert r[..i] == s[..i];
    assert r[i..i + |xs|] == xs;
    assert r[i + |xs|..] == s[i..];
  }

  /** Removing what was just inserted gives back the original. */
  lemma RemovedUndoesInserted<T>(s: seq<T>, i: nat, xs: seq<T>)
    requires i <= |s|
    ensures Removed(Inserted(s, i, xs), i, |xs|) == s
  {
    InsertedParts(s, i, xs);
    var r := Inserted(s, i, xs);
    assert Removed(r, i, |xs|) == r[..i] + r[i + |xs|..];
    assert s == s[..i] + s[i..];
  }

  /** Putting back what was removed gives back the original. */
  lemma InsertedUndoesRemoved<T>(s: seq<T>, i: nat, n: nat)
    requires i + n <= |s|
    ensures Inserted(Removed(s, i, n), i, s[i..i + n]) == s
  {
    var r := Removed(s, i, n);
    assert r[..i] == s[..i];
    assert r[i..] == s[i + n..];
    assert s == s[..i] + s[i..i + n] + s[i + n..];
  }

  /** No element of s from lo up to hi compares equal to x. */
  ghost predicate NoMatch<T>(s: seq<T>, x: T, lo: nat, hi: nat, cmp: (T, T) -> int)
  {
    forall k :: lo <= k < hi && k < |s| ==> cmp(s[k], x) != 0
  }

  /** A buffer whose slots agree with s before index, with xs after it and with s shifted behind, holds Inserted(s, index, xs). */
  lemma InsertedAt<T>(s: seq<T>, index: nat, xs: seq<T>, t: seq<T>)
    requires index <= |s| && |t| == |s| + |xs|
    requires forall i :: 0 <= i < index ==> t[i] == s[i]
    requires forall i :: 0 <= i < |xs| ==> t[index + i] == xs[i]
    requires forall i :: index <= i < |s| ==> t[i + |xs|] == s[i]
    ensures t == Inserted(s, index, xs)
  {
    var r := Inserted(s, index, xs);
    InsertedParts(s, index, xs);
    forall k | 0 <= k < |t|
      ensures t[k] == r[k]
    {
      if k < index {
        assert r[k] == r[..index][k];
      } else if k < index + |xs| {
        assert t[index + (k - index)] == xs[k - index];
        assert r[k] == r[index..index + |xs|][k - index];
      } else {
        assert t[(k - |xs|) + |xs|] == s[k - |xs|];
        assert r[k] == r[index + |xs|..][k - index - |xs|];
      }
    }
  }

  /** A buffer that keeps s before index and holds s's elements from index + count on shifted down holds Removed(s, index, count). */
  lemma RemovedAt<T>(s: seq<T>, index: nat, count: nat, t: seq<T>)
    requires index + count <= |s| && |t| == |s| - count
    requires forall i :: 0 <= i < index ==> t[i] == s[i]
    requires forall i :: index + count <= i < |s| ==> t[i - count] == s[i]
    ensures t == Removed(s, index, count)
  {
    var r := Removed(s, index, count);
    forall k | 0 <= k < |t|
      ensures t[k] == r[k]
    {
      if k >= index {
        assert t[(k + count) - count] == s[k + count];
      }
    }
  }

  /** Inserting before a trailing element z leaves z last. */
  lemma InsertedBeforeLast<T>(t: seq<T>, i: nat, xs: seq<T>, z: T)
    requires i <= |t|
    ensures Inserted(t + [z], i, xs) == Inserted(t, i, xs) + [z]
  {
    assert (t + [z])[..i] == t[..i];
    assert (t + [z])[i..] == t[i..] + [z];
  }

  /** Removing before a trailing element z leaves z last. */
  lemma RemovedBeforeLast<T>(t: seq<T>, i: nat, n: nat, z: T)
    requires i + n <= |t|
    ensures Removed(t + [z], i, n) == Removed(t, i, n) + [z]
  {
    assert (t + [z])[..i] == t[..i];
    assert (t + [z])[i + n..] == t[i + n..] + [z];
  }
}
