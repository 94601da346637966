/**
 * The doubly linked list of src/silk/list.c.  A list has head, tail and length; each node
 * has its element and its prev and next links.  The ghost sequence Nodes lists the nodes
 * from head to tail and Contents their elements; Valid() ties the links, the endpoints and
 * the length to them.  Allocating a node can fail, and a failed allocation changes
 * nothing.  The C functions that take only a node reach the list through the node's
 * pointer back to it; here they are methods of the list, for a node of that list.
 */
module Lists {
  import opened Common
  import opened Compare
  import opened SortSpec

  class Node<T(0, !new)> {
    var data: T
    var prev: Node?<T>
    var next: Node?<T>

    /** A node holding x, with the given neighbours. */
    constructor (x: T, before: Node?<T>, after: Node?<T>)
      ensures data == x && prev == before && next == after
    {
      data := x;
      prev, next := before, after;
    }
  }

  /** The node before position i of ns, null at the front. */
  ghost function PrevOf<T(0, !new)>(ns: seq<Node<T>>, i: nat): Node?<T>
    requires i < |ns|
  {
    if i == 0 then null else ns[i - 1]
  }

  /** The node after position i of ns, null at the back. */
  ghost function NextOf<T(0, !new)>(ns: seq<Node<T>>, i: nat): Node?<T>
    requires i < |ns|
  {
    if i + 1 == |ns| then null else ns[i + 1]
  }

  /** No node occurs twice. */
  ghost predicate Distinct<T(0, !new)>(ns: seq<Node<T>>)
  {
    forall i, j :: 0 <= i < j < |ns| ==> ns[i] != ns[j]
  }

  /** Where each element of s lands once x joins at position i. */
  lemma InsertedOneAt<A>(s: seq<A>, i: nat, x: A)
    requires i <= |s|
    ensures |Inserted(s, i, [x])| == |s| + 1 && Inserted(s, i, [x])[i] == x
    ensures forall k :: 0 <= k < i ==> Inserted(s, i, [x])[k] == s[k]
    ensures forall k :: i < k <= |s| ==> Inserted(s, i, [x])[k] == s[k - 1]
  {
  }

  /** Where each element of s lands once position i leaves. */
  lemma RemovedOneAt<A>(s: seq<A>, i: nat)
    requires i < |s|
    ensures |Removed(s, i, 1)| + 1 == |s|
    ensures forall k :: 0 <= k < i ==> Removed(s, i, 1)[k] == s[k]
    ensures forall k :: i <= k < |s| - 1 ==> Removed(s, i, 1)[k] == s[k + 1]
  {
  }

  /** A node that is not yet in ns keeps the nodes distinct when it joins. */
  lemma DistinctInserted<T(0, !new)>(ns: seq<Node<T>>, i: nat, n: Node<T>)
    requires i <= |ns| && Distinct(ns) && n !in ns
    ensures Distinct(Inserted(ns, i, [n]))
  {
    InsertedOneAt(ns, i, n);
    var t := Inserted(ns, i, [n]);
    forall a, b | 0 <= a < b < |t|
      ensures t[a] != t[b]
    {
      if a == i || b == i {
        assert ns[if a < i then a else b - 1] in ns;
      }
    }
  }

  /** Taking a node out keeps the others distinct. */
  lemma DistinctRemoved<T(0, !new)>(ns: seq<Node<T>>, i: nat)
    requires i < |ns| && Distinct(ns)
    ensures Distinct(Removed(ns, i, 1))
  {
    RemovedOneAt(ns, i);
    var t := Removed(ns, i, 1);
    forall a, b | 0 <= a < b < |t|
      ensures t[a] != t[b]
    {
      var a', b' := if a < i then a else a + 1, if b < i then b else b + 1;
      assert ns[a'] != ns[b'];
    }
  }

  /** The pending (begin, end) node pairs are the ranges' first and last nodes in ns. */
  ghost predicate Marks<T(0, !new)>(ns: seq<Node<T>>, stack: seq<(Node<T>, Node<T>)>, ranges: seq<Range>)
  {
    |stack| == |ranges| &&
    forall t :: 0 <= t < |stack| ==>
      ranges[t].lo <= ranges[t].hi < |ns| && stack[t].0 == ns[ranges[t].lo] && stack[t].1 == ns[ranges[t].hi]
  }

  lemma MarksPop<T(0, !new)>(ns: seq<Node<T>>, stack: seq<(Node<T>, Node<T>)>, ranges: seq<Range>)
    requires Marks(ns, stack, ranges) && |stack| > 0
    ensures Marks(ns, stack[..|stack| - 1], ranges[..|ranges| - 1])
    ensures ranges[|ranges| - 1].lo <= ranges[|ranges| - 1].hi < |ns|
    ensures stack[|stack| - 1].0 == ns[ranges[|ranges| - 1].lo] && stack[|stack| - 1].1 == ns[ranges[|ranges| - 1].hi]
  {
  }

  lemma MarksPush<T(0, !new)>(ns: seq<Node<T>>, stack: seq<(Node<T>, Node<T>)>, ranges: seq<Range>,
                              pair: (Node<T>, Node<T>), r: Range)
    requires Marks(ns, stack, ranges) && r.lo <= r.hi < |ns| && pair.0 == ns[r.lo] && pair.1 == ns[r.hi]
    ensures Marks(ns, stack + [pair], ranges + [r])
  {
  }

  class List<T(0, !new)> {
    var head: Node?<T>
    var tail: Node?<T>
    var length: nat
    ghost var Nodes: seq<Node<T>>
    ghost var Contents: seq<T>

    /**
     * The nodes, from head to tail, are distinct; each one's links point at its
     * neighbours in Nodes, and its element is the matching one in Contents.
     */
    ghost predicate Valid()
      reads this, Nodes
    {
      && length == |Nodes| == |Contents|
      && (Nodes == [] ==> head == null && tail == null)
      && (Nodes != [] ==> head == Nodes[0] && tail == Nodes[|Nodes| - 1])
      && Distinct(Nodes)
      && (forall i {:trigger Nodes[i].data} :: 0 <= i < |Nodes| ==> Nodes[i].data == Contents[i])
      && (forall i {:trigger Nodes[i].prev} :: 0 <= i < |Nodes| ==> Nodes[i].prev == PrevOf(Nodes, i))
      && (forall i {:trigger Nodes[i].next} :: 0 <= i < |Nodes| ==> Nodes[i].next == NextOf(Nodes, i))
    }

    /** The position of a node of the list. */
    ghost function IndexOf(node: Node<T>): (i: nat)
      reads this, Nodes
      requires Valid() && node in Nodes
      ensures i < |Nodes| && Nodes[i] == node
    {
      var i :| 0 <= i < |Nodes| && Nodes[i] == node; i
    }

    /** No two positions hold the same node. */
    lemma IndexUnique(node: Node<T>, i: nat)
      requires Valid() && i < |Nodes| && Nodes[i] == node
      ensures IndexOf(node) == i
    {
      var j := IndexOf(node);
      if i != j {
        assert false;
      }
    }

    /** silk_list_length: the number of elements. */
    function Length(): (n: nat)
      reads this, Nodes
      requires Valid()
      ensures n == |Contents|
    {
      length
    }

    /** silk_list_head: the first node, null when the list is empty. */
    function Head(): (h: Node?<T>)
      reads this, Nodes
      requires Valid()
      ensures h == if Nodes == [] then null else Nodes[0]
    {
      head
    }

    /** silk_list_tail: the last node, null when the list is empty. */
    function Tail(): (t: Node?<T>)
      reads this, Nodes
      requires Valid()
      ensures t == if Nodes == [] then null else Nodes[|Nodes| - 1]
    {
      tail
    }

    /** silk_list_prev: the node before node, null at the head. */
    function Prev(node: Node<T>): (p: Node?<T>)
      reads this, Nodes
      requires Valid() && node in Nodes
      ensures p == PrevOf(Nodes, IndexOf(node))
    {
      node.prev
    }

    /** silk_list_next: the node after node, null at the tail. */
    function Next(node: Node<T>): (n: Node?<T>)
      reads this, Nodes
      requires Valid() && node in Nodes
      ensures n == NextOf(Nodes, IndexOf(node))
    {
      node.next
    }

    /** silk_list_new's initialisation: no nodes. */
    constructor Empty()
      ensures Valid() && Contents == [] && Nodes == [] && head == null && tail == null
    {
      head, tail, length := null, null, 0;
      Nodes, Contents := [], [];
    }

    /** silk_list_new: null when allocating the list fails. */
    static method New() returns (l: List?<T>)
      ensures l != null ==> fresh(l) && l.Valid() && l.Contents == [] && l.Nodes == []
    {
      var granted: bool := *;
      if !granted {
        return null;
      }
      l := new List.Empty();
    }

    /**
     * silk_list_make_first_node, as the push functions use it on an empty list: a single
     * node that is both head and tail.  Null when allocating the node or its element fails.
     */
    method MakeFirstNode(x: T) returns (n: Node?<T>)
      requires Valid() && Nodes == []
      modifies this
      ensures Valid()
      ensures n != null ==> fresh(n) && Nodes == [n] && Contents == [x] && head == n && tail == n
      ensures n == null ==> Nodes == [] && Contents == []
    {
      var granted: bool := *;
      if !granted {
        return null;
      }
      n := new Node(x, null, null);
      head, tail, length := n, n, 1;
      Nodes, Contents := [n], [x];
    }

    /**
     * Link a node n that is not yet in the list, and already points at its neighbours,
     * between positions i - 1 and i: the relinking both insert functions do when the new
     * node has a neighbour on each side.
     */
    method Splice(n: Node<T>, ghost i: nat)
      requires Valid() && 0 < i < |Nodes| && n !in Nodes
      requires n.prev == Nodes[i - 1] && n.next == Nodes[i]
      modifies this, Nodes[i - 1], Nodes[i]
      ensures Valid()
      ensures Nodes == Inserted(old(Nodes), i, [n]) && Contents == Inserted(old(Contents), i, [n.data])
    {
      ghost var ns, xs := Nodes, Contents;
      var before, after := n.prev, n.next;
      before.next := n;
      length := length + 1;
      after.prev := n;
      Nodes, Contents := Inserted(ns, i, [n]), Inserted(xs, i, [n.data]);
      InsertedOneAt(ns, i, n);
      InsertedOneAt(xs, i, n.data);
      DistinctInserted(ns, i, n);
      forall k {:trigger Nodes[k].data} | 0 <= k < |Nodes|
        ensures Nodes[k].data == Contents[k]
      {
      }
      forall k {:trigger Nodes[k].prev} | 0 <= k < |Nodes|
        ensures Nodes[k].prev == PrevOf(Nodes, k)
      {
        if k < i {
          assert ns[k] != after;
        } else if i + 1 < k {
          assert ns[k - 1] != after;
        }
      }
      forall k {:trigger Nodes[k].next} | 0 <= k < |Nodes|
        ensures Nodes[k].next == NextOf(Nodes, k)
      {
        if k + 1 < i {
          assert ns[k] != before;
        } else if i < k {
          assert ns[k - 1] != before;
        }
      }
    }

    /** Link n in front of the head: insert_before's relinking when node is the head. */
    method SpliceFront(n: Node<T>)
      requires Valid() && Nodes != [] && n !in Nodes
      requires n.prev == null && n.next == head
      modifies this, Nodes[0]
      ensures Valid()
      ensures Nodes == [n] + old(Nodes) && Contents == [n.data] + old(Contents)
    {
      ghost var ns, xs := Nodes, Contents;
      var first := head;
      head := n;
      length := length + 1;
      first.prev := n;
      Nodes, Contents := [n] + ns, [n.data] + xs;
      DistinctInserted(ns, 0, n);
      assert Nodes == Inserted(ns, 0, [n]);
      forall k {:trigger Nodes[k].data} | 0 <= k < |Nodes|
        ensures Nodes[k].data == Contents[k]
      {
      }
      forall k {:trigger Nodes[k].prev} | 0 <= k < |Nodes|
        ensures Nodes[k].prev == PrevOf(Nodes, k)
      {
        if 1 < k {
          assert ns[k - 1] != first;
        }
      }
      forall k {:trigger Nodes[k].next} | 0 <= k < |Nodes|
        ensures Nodes[k].next == NextOf(Nodes, k)
      {
      }
    }

    /** Link n after the tail: insert_after's relinking when node is the tail. */
    method SpliceBack(n: Node<T>)
      requires Valid() && Nodes != [] && n !in Nodes
      requires n.prev == tail && n.next == null
      modifies this, Nodes[|Nodes| - 1]
      ensures Valid()
      ensures Nodes == old(Nodes) + [n] && Contents == old(Contents) + [n.data]
    {
      ghost var ns, xs := Nodes, Contents;
      var last := tail;
      tail := n;
      length := length + 1;
      last.next := n;
      Nodes, Contents := ns + [n], xs + [n.data];
      DistinctInserted(ns, |ns|, n);
      assert Nodes == Inserted(ns, |ns|, [n]);
      forall k {:trigger Nodes[k].data} | 0 <= k < |Nodes|
        ensures Nodes[k].data == Contents[k]
      {
      }
      forall k {:trigger Nodes[k].prev} | 0 <= k < |Nodes|
        ensures Nodes[k].prev == PrevOf(Nodes, k)
      {
      }
      forall k {:trigger Nodes[k].next} | 0 <= k < |Nodes|
        ensures Nodes[k].next == NextOf(Nodes, k)
      {
        if k + 2 < |Nodes| {
          assert ns[k] != last;
        }
      }
    }

    /**
     * silk_list_insert_before: a new node holding x, linked in just before node; it
     * becomes the head when node was.  Null when an allocation fails.
     */
    method InsertBefore(node: Node<T>, x: T) returns (n: Node?<T>)
      requires Valid() && node in Nodes
      modifies this, Nodes
      ensures Valid()
      ensures n != null ==> fresh(n) && n.next == node
      ensures n != null ==> Nodes == Inserted(old(Nodes), old(IndexOf(node)), [n])
      ensures n != null ==> Contents == Inserted(old(Contents), old(IndexOf(node)), [x])
      ensures n == null ==> Nodes == old(Nodes) && Contents == old(Contents)
    {
      ghost var i := IndexOf(node);
      var granted: bool := *;
      if !granted {
        return null;
      }
      n := new Node(x, node.prev, node);
      if node.prev != null {
        Splice(n, i);
      } else {
        SpliceFront(n);
        assert Nodes == Inserted(old(Nodes), 0, [n]);
        assert Contents == Inserted(old(Contents), 0, [x]);
      }
    }

    /**
     * silk_list_insert_after: a new node holding x, linked in just after node; it
     * becomes the tail when node was.  Null when an allocation fails.
     */
    method InsertAfter(node: Node<T>, x: T) returns (n: Node?<T>)
      requires Valid() && node in Nodes
      modifies this, Nodes
      ensures Valid()
      ensures n != null ==> fresh(n) && n.prev == node
      ensures n != null ==> Nodes == Inserted(old(Nodes), old(IndexOf(node)) + 1, [n])
      ensures n != null ==> Contents == Inserted(old(Contents), old(IndexOf(node)) + 1, [x])
      ensures n == null ==> Nodes == old(Nodes) && Contents == old(Contents)
    {
      ghost var i := IndexOf(node) + 1;
      var granted: bool := *;
      if !granted {
        return null;
      }
      n := new Node(x, node, node.next);
      if node.next != null {
        Splice(n, i);
      } else {
        SpliceBack(n);
        assert Nodes == Inserted(old(Nodes), i, [n]);
        assert Contents == Inserted(old(Contents), i, [x]);
      }
    }

    /** Unlink the node at position i, which has a neighbour on each side. */
    method Unsplice(node: Node<T>, ghost i: nat)
      requires Valid() && 0 < i < |Nodes| - 1 && Nodes[i] == node
      modifies this, Nodes[i - 1], Nodes[i + 1]
      ensures Valid()
      ensures Nodes == Removed(old(Nodes), i, 1) && Contents == Removed(old(Contents), i, 1)
    {
      ghost var ns, xs := Nodes, Contents;
      var before, after := node.prev, node.next;
      before.next := after;
      after.prev := before;
      length := length - 1;
      Nodes, Contents := Removed(ns, i, 1), Removed(xs, i, 1);
      RemovedOneAt(ns, i);
      RemovedOneAt(xs, i);
      DistinctRemoved(ns, i);
      forall k {:trigger Nodes[k].data} | 0 <= k < |Nodes|
        ensures Nodes[k].data == Contents[k]
      {
      }
      forall k {:trigger Nodes[k].prev} | 0 <= k < |Nodes|
        ensures Nodes[k].prev == PrevOf(Nodes, k)
      {
        if k < i {
          assert ns[k] != after;
        } else if i < k {
          assert ns[k + 1] != after;
        }
      }
      forall k {:trigger Nodes[k].next} | 0 <= k < |Nodes|
        ensures Nodes[k].next == NextOf(Nodes, k)
      {
        if k + 1 < i {
          assert ns[k] != before;
        } else if i <= k {
          assert ns[k + 1] != before;
        }
      }
    }

    /** Unlink the head of a list of two or more nodes; its successor becomes the head. */
    method UnspliceFront()
      requires Valid() && |Nodes| >= 2
      modifies this, Nodes[1]
      ensures Valid()
      ensures Nodes == old(Nodes)[1..] && Contents == old(Contents)[1..]
    {
      ghost var ns, xs := Nodes, Contents;
      var after := head.next;
      head := after;
      after.prev := null;
      length := length - 1;
      Nodes, Contents := ns[1..], xs[1..];
      DistinctRemoved(ns, 0);
      assert Nodes == Removed(ns, 0, 1);
      forall k {:trigger Nodes[k].data} | 0 <= k < |Nodes|
        ensures Nodes[k].data == Contents[k]
      {
      }
      forall k {:trigger Nodes[k].prev} | 0 <= k < |Nodes|
        ensures Nodes[k].prev == PrevOf(Nodes, k)
      {
        if 0 < k {
          assert ns[k + 1] != after;
        }
      }
      forall k {:trigger Nodes[k].next} | 0 <= k < |Nodes|
        ensures Nodes[k].next == NextOf(Nodes, k)
      {
      }
    }

    /** Unlink the tail of a list of two or more nodes; its predecessor becomes the tail. */
    method UnspliceBack()
      requires Valid() && |Nodes| >= 2
      modifies this, Nodes[|Nodes| - 2]
      ensures Valid()
      ensures Nodes == old(Nodes)[..|old(Nodes)| - 1] && Contents == old(Contents)[..|old(Contents)| - 1]
    {
      ghost var ns, xs := Nodes, Contents;
      var before := tail.prev;
      before.next := null;
      tail := before;
      length := length - 1;
      Nodes, Contents := ns[..|ns| - 1], xs[..|xs| - 1];
      DistinctRemoved(ns, |ns| - 1);
      assert Nodes == Removed(ns, |ns| - 1, 1);
      forall k {:trigger Nodes[k].data} | 0 <= k < |Nodes|
        ensures Nodes[k].data == Contents[k]
      {
      }
      forall k {:trigger Nodes[k].prev} | 0 <= k < |Nodes|
        ensures Nodes[k].prev == PrevOf(Nodes, k)
      {
      }
      forall k {:trigger Nodes[k].next} | 0 <= k < |Nodes|
        ensures Nodes[k].next == NextOf(Nodes, k)
      {
        if k + 1 < |Nodes| {
          assert ns[k] != before;
        }
      }
    }

    /**
     * silk_list_remove: unlink node.  Its predecessor, or else the head, is pointed past
     * it, and its successor, or else the tail, is pointed before it; the two choices give
     * the four cases below.  The C frees the node; here it only leaves Nodes.
     */
    method Remove(node: Node<T>) returns (ok: bool)
      requires Valid() && node in Nodes
      modifies this, Nodes
      ensures Valid() && ok
      ensures Nodes == Removed(old(Nodes), old(IndexOf(node)), 1)
      ensures Contents == Removed(old(Contents), old(IndexOf(node)), 1)
    {
      ghost var i := IndexOf(node);
      var before, after := node.prev, node.next;
      if before != null && after != null {
        Unsplice(node, i);
      } else if before != null {
        UnspliceBack();
      } else if after != null {
        UnspliceFront();
      } else {
        head, tail, length := null, null, 0;
        Nodes, Contents := [], [];
      }
      return true;
    }

    /** silk_list_set: overwrite the element of node. */
    method Set(node: Node<T>, x: T) returns (ok: bool)
      requires Valid() && node in Nodes
      modifies node, this
      ensures Valid() && ok && Nodes == old(Nodes)
      ensures Contents == old(Contents)[old(IndexOf(node)) := x]
    {
      ghost var i := IndexOf(node);
      node.data := x;
      Contents := Contents[i := x];
      forall k {:trigger Nodes[k].data} | 0 <= k < |Nodes|
        ensures Nodes[k].data == Contents[k]
      {
        if k != i {
          assert Nodes[k] != node;
        }
      }
      return true;
    }

    /** silk_list_get: the element of node. */
    method Get(node: Node<T>) returns (ok: bool, x: T)
      requires Valid() && node in Nodes
      ensures ok && x == Contents[IndexOf(node)]
    {
      return true, node.data;
    }

    /**
     * silk_list_at: follow next index times from the head.  Past the end the walk meets
     * null, which the C returns or, one step later, stops at with a SILK_ASSERT; both are
     * null here.
     */
    method At(index: nat) returns (n: Node?<T>)
      requires Valid()
      ensures n == if index < |Nodes| then Nodes[index] else null
    {
      n := head;
      var i := 0;
      while i < index
        invariant i <= index && i <= |Nodes|
        invariant n == if i < |Nodes| then Nodes[i] else null
      {
        if n == null {
          return null;
        }
        n := n.next;
        i := i + 1;
      }
    }

    /** silk_list_at_backward: follow prev index times from the tail. */
    method AtBackward(index: nat) returns (n: Node?<T>)
      requires Valid()
      ensures n == if index < |Nodes| then Nodes[|Nodes| - 1 - index] else null
    {
      n := tail;
      var i := 0;
      while i < index
        invariant i <= index && i <= |Nodes|
        invariant n == if i < |Nodes| then Nodes[|Nodes| - 1 - i] else null
      {
        if n == null {
          return null;
        }
        n := n.prev;
        i := i + 1;
      }
    }

    /** silk_list_push_front: x becomes the first element; the new node, or null when allocation fails. */
    method PushFront(x: T) returns (n: Node?<T>)
      requires Valid()
      modifies this, Nodes
      ensures Valid()
      ensures n != null ==> fresh(n) && head == n && Contents == [x] + old(Contents) && Nodes == [n] + old(Nodes)
      ensures n == null ==> Nodes == old(Nodes) && Contents == old(Contents)
    {
      if head != null {
        IndexUnique(head, 0);
        n := InsertBefore(head, x);
      } else {
        n := MakeFirstNode(x);
      }
    }

    /** silk_list_push_back: x becomes the last element; the new node, or null when allocation fails. */
    method PushBack(x: T) returns (n: Node?<T>)
      requires Valid()
      modifies this, Nodes
      ensures Valid()
      ensures n != null ==> fresh(n) && tail == n && Contents == old(Contents) + [x] && Nodes == old(Nodes) + [n]
      ensures n == null ==> Nodes == old(Nodes) && Contents == old(Contents)
    {
      if tail != null {
        IndexUnique(tail, |Nodes| - 1);
        n := InsertAfter(tail, x);
      } else {
        n := MakeFirstNode(x);
      }
    }

    /**
     * silk_list_pop_front: take out the first element and return the new head.  On an
     * empty list the C's SILK_ASSERT returns no value; here ok is false.
     */
    method PopFront() returns (ok: bool, x: T, h: Node?<T>)
      requires Valid()
      modifies this, Nodes
      ensures Valid()
      ensures ok <==> old(Nodes) != []
      ensures ok ==> x == old(Contents)[0] && Contents == old(Contents)[1..] && Nodes == old(Nodes)[1..] && h == head
      ensures !ok ==> Nodes == old(Nodes) && Contents == old(Contents)
    {
      if head == null {
        x := *;
        return false, x, null;
      }
      IndexUnique(head, 0);
      var _, first := Get(head);
      var _ := Remove(head);
      return true, first, head;
    }

    /** silk_list_pop_back: take out the last element and return the new tail. */
    method PopBack() returns (ok: bool, x: T, t: Node?<T>)
      requires Valid()
      modifies this, Nodes
      ensures Valid()
      ensures ok <==> old(Nodes) != []
      ensures ok ==> x == old(Contents)[|old(Contents)| - 1] && Contents == old(Contents)[..|old(Contents)| - 1]
      ensures ok ==> Nodes == old(Nodes)[..|old(Nodes)| - 1] && t == tail
      ensures !ok ==> Nodes == old(Nodes) && Contents == old(Contents)
    {
      if tail == null {
        x := *;
        return false, x, null;
      }
      IndexUnique(tail, |Nodes| - 1);
      var _, last := Get(tail);
      var _ := Remove(tail);
      return true, last, tail;
    }

    /**
     * silk_list_find: from begin on, the first node whose element compares equal to x, or
     * null when there is none.
     */
    method Find(begin: Node<T>, x: T, cmp: (T, T) -> int) returns (n: Node?<T>)
      requires Valid() && begin in Nodes
      ensures n == null ==> NoMatch(Contents, x, IndexOf(begin), |Contents|, cmp)
      ensures n != null ==> n in Nodes && IndexOf(begin) <= IndexOf(n)
      ensures n != null ==> cmp(Contents[IndexOf(n)], x) == 0 && NoMatch(Contents, x, IndexOf(begin), IndexOf(n), cmp)
    {
      ghost var i := IndexOf(begin);
      n := begin;
      while n != null
        invariant i <= |Nodes| && n == if i < |Nodes| then Nodes[i] else null
        invariant NoMatch(Contents, x, IndexOf(begin), i, cmp)
        decreases |Nodes| - i
      {
        if cmp(n.data, x) == 0 {
          IndexUnique(n, i);
          return n;
        }
        n := n.next;
        i := i + 1;
      }
    }

    /**
     * The three copies through the sort's buffer: the elements of nodes a and b, at
     * positions i and j, trade places.
     */
    method SwapData(a: Node<T>, b: Node<T>, ghost i: nat, ghost j: nat)
      requires Valid() && i < |Nodes| && j < |Nodes| && Nodes[i] == a && Nodes[j] == b
      modifies this, a, b
      ensures Valid() && Nodes == old(Nodes) && Contents == Swap(old(Contents), i, j)
    {
      var buffer := a.data;
      a.data := b.data;
      b.data := buffer;
      Contents := Swap(Contents, i, j);
      forall k {:trigger Nodes[k].data} | 0 <= k < |Nodes|
        ensures Nodes[k].data == Contents[k]
      {
        if k != i && k != j {
          assert Nodes[k] != a && Nodes[k] != b;
        }
      }
    }

    /**
     * "find right smaller than base": from right back towards left, the first node whose
     * element compares below the pivot at base; left when there is none.
     */
    method FindRight(base: Node<T>, left: Node<T>, right: Node<T>, ghost lo: nat, ghost li: nat, ghost ri: nat,
                     cmp: (T, T) -> int) returns (r: Node<T>, ghost k: nat)
      requires Valid() && lo < |Nodes| && li <= ri < |Nodes|
      requires Nodes[lo] == base && Nodes[li] == left && Nodes[ri] == right
      ensures li <= k <= ri && Nodes[k] == r
      ensures k == li || cmp(Contents[k], Contents[lo]) < 0
      ensures AtLeast(Contents, k + 1, ri + 1, Contents[lo], cmp)
    {
      r, k := right, ri;
      while r != left
        invariant li <= k <= ri && Nodes[k] == r
        invariant AtLeast(Contents, k + 1, ri + 1, Contents[lo], cmp)
        decreases k
      {
        if cmp(r.data, base.data) < 0 {
          break;
        }
        r, k := r.prev, k - 1;
      }
      if r == left && k != li {
        assert false;
      }
    }

    /**
     * "find left greater than base": from left on towards right, the first node whose
     * element compares above the pivot at base; right when there is none.
     */
    method FindLeft(base: Node<T>, left: Node<T>, right: Node<T>, ghost lo: nat, ghost li: nat, ghost ri: nat,
                    cmp: (T, T) -> int) returns (l: Node<T>, ghost k: nat)
      requires Valid() && lo < |Nodes| && li <= ri < |Nodes|
      requires Nodes[lo] == base && Nodes[li] == left && Nodes[ri] == right
      ensures li <= k <= ri && Nodes[k] == l
      ensures k == ri || cmp(Contents[k], Contents[lo]) > 0
      ensures AtMost(Contents, li, k, Contents[lo], cmp)
    {
      l, k := left, li;
      while l != right
        invariant li <= k <= ri && Nodes[k] == l
        invariant AtMost(Contents, li, k, Contents[lo], cmp)
        decreases ri - k
      {
        if cmp(l.data, base.data) > 0 {
          break;
        }
        l, k := l.next, k + 1;
      }
      if l == right && k != ri {
        assert false;
      }
    }

    /**
     * The cursor loop of one round over the nodes from begin (position lo) to end
     * (position hi), with the pivot at begin: elements above the pivot found by the left
     * cursor trade places with elements below it found by the right cursor until the
     * cursors meet.  Returns the meeting node and its position; everything from lo to it
     * is at most the pivot, everything after it up to hi at least the pivot.
     */
    method Meet(begin: Node<T>, end: Node<T>, ghost lo: nat, ghost hi: nat, cmp: (T, T) -> int)
      returns (left: Node<T>, ghost mid: nat)
      requires Valid() && forall x :: cmp(x, x) == 0
      requires lo <= hi < |Nodes| && Nodes[lo] == begin && Nodes[hi] == end
      modifies this, Nodes
      ensures Valid() && Nodes == old(Nodes)
      ensures lo <= mid <= hi && Nodes[mid] == left && Contents[lo] == old(Contents)[lo]
      ensures AtMost(Contents, lo, mid + 1, Contents[lo], cmp) && AtLeast(Contents, mid + 1, hi + 1, Contents[lo], cmp)
      ensures Rearranged(Contents, old(Contents), lo, hi)
    {
      var base, right := begin, end;
      left := begin;
      ghost var ri := hi;
      mid := lo;
      ghost var pivot := Contents[lo];
      while left != right
        invariant Valid() && Nodes == old(Nodes)
        invariant lo <= mid <= ri <= hi && Nodes[mid] == left && Nodes[ri] == right
        invariant Contents[lo] == pivot
        invariant AtMost(Contents, lo, mid + 1, pivot, cmp)
        invariant AtLeast(Contents, ri + 1, hi + 1, pivot, cmp)
        invariant Rearranged(Contents, old(Contents), lo, hi)
        decreases ri - mid
      {
        right, ri := FindRight(base, left, right, lo, mid, ri, cmp);
        ghost var mid0 := mid;
        left, mid := FindLeft(base, left, right, lo, mid, ri, cmp);
        if left == right {
          break;
        }
        assert mid != ri && mid != mid0;
        ghost var s := Contents;
        SwapData(left, right, mid, ri);
        SwapInside(s, lo, hi, mid, ri);
        RearrangedTrans(Contents, s, old(Contents), lo, hi);
        SwapGrowsSides(s, lo, hi, mid, ri, pivot, cmp);
      }
      if mid != ri {
        assert false;
      }
    }

    /**
     * One round's partition of the nodes from begin (position lo) to end (position hi):
     * the cursor loop, then the swap of the pivot into the meeting node.  Returns that
     * node and its position.
     */
    method Partition(begin: Node<T>, end: Node<T>, ghost lo: nat, ghost hi: nat, cmp: (T, T) -> int)
      returns (left: Node<T>, ghost mid: nat)
      requires Valid() && forall x :: cmp(x, x) == 0
      requires lo <= hi < |Nodes| && Nodes[lo] == begin && Nodes[hi] == end
      modifies this, Nodes
      ensures Valid() && Nodes == old(Nodes)
      ensures lo <= mid <= hi && Nodes[mid] == left
      ensures Rearranged(Contents, old(Contents), lo, hi)
      ensures Partitioned(Contents, lo, mid, hi, cmp)
    {
      var base := begin;
      left, mid := Meet(begin, end, lo, hi, cmp);
      // swap base and the meeting point
      ghost var s := Contents;
      SwapData(left, base, mid, lo);
      SwapInside(s, lo, hi, mid, lo);
      RearrangedTrans(Contents, s, old(Contents), lo, hi);
      PivotSwapPartitions(s, lo, mid, hi, s[lo], cmp);
    }

    /**
     * One turn of the sort's stack loop: pop the last pending (begin, end) pair, partition
     * it, and push the part before the pivot's node when there is one, then the part
     * after it, however short.
     */
    method Round(stack: seq<(Node<T>, Node<T>)>, ghost ranges: seq<Range>, cmp: (T, T) -> int)
      returns (next: seq<(Node<T>, Node<T>)>, ghost nextRanges: seq<Range>)
      requires Valid() && ValidComparator(cmp)
      requires StackInv(Contents, |Nodes|, ranges, cmp) && Marks(Nodes, stack, ranges) && |stack| > 0
      modifies this, Nodes
      ensures Valid() && Nodes == old(Nodes)
      ensures StackInv(Contents, |Nodes|, nextRanges, cmp) && Marks(Nodes, next, nextRanges)
      ensures Total(nextRanges) < Total(ranges)
      ensures Rearranged(Contents, old(Contents), 0, |Nodes| - 1)
    {
      var begin, end := stack[|stack| - 1].0, stack[|stack| - 1].1;
      next := stack[..|stack| - 1];
      ghost var r := ranges[|ranges| - 1];
      ghost var rest := ranges[..|ranges| - 1];
      assert rest + [r] == ranges;
      MarksPop(Nodes, stack, ranges);
      ComparatorFacts(cmp);
      var left, mid := Partition(begin, end, r.lo, r.hi, cmp);
      var pushLeft, pushRight := left != begin, left != end;
      assert pushLeft <==> r.lo != mid;
      assert pushRight <==> mid != r.hi;
      PartitionStep(old(Contents), Contents, |Nodes|, rest, r, mid, pushLeft, pushRight, cmp);
      RearrangedWiden(Contents, old(Contents), r.lo, r.hi, 0, |Nodes| - 1);
      next, nextRanges := PushParts(next, rest, begin, end, left, r, mid);
    }

    /**
     * The pushes that end a round, for the range r from begin to end partitioned at left
     * (position mid): the part before left when left is not begin, then the part after it
     * when left is not end.
     */
    method PushParts(stack: seq<(Node<T>, Node<T>)>, ghost ranges: seq<Range>, begin: Node<T>, end: Node<T>,
                     left: Node<T>, ghost r: Range, ghost mid: nat)
      returns (next: seq<(Node<T>, Node<T>)>, ghost nextRanges: seq<Range>)
      requires Valid() && Marks(Nodes, stack, ranges)
      requires r.lo <= mid <= r.hi < |Nodes| && Nodes[r.lo] == begin && Nodes[r.hi] == end && Nodes[mid] == left
      ensures r.lo == mid <==> left == begin
      ensures Marks(Nodes, next, nextRanges) && nextRanges == ranges + Pushes(r, mid, left != begin, left != end)
    {
      next, nextRanges := stack, ranges;
      IndexUnique(begin, r.lo);
      IndexUnique(end, r.hi);
      IndexUnique(left, mid);
      if left != begin {
        var border: Node<T> := left.prev;
        MarksPush(Nodes, next, nextRanges, (begin, border), Range(r.lo, mid - 1));
        next, nextRanges := next + [(begin, border)], nextRanges + [Range(r.lo, mid - 1)];
      }
      if left != end {
        var border: Node<T> := left.next;
        MarksPush(Nodes, next, nextRanges, (border, end), Range(mid + 1, r.hi));
        next, nextRanges := next + [(border, end)], nextRanges + [Range(mid + 1, r.hi)];
      }
    }

    /**
     * silk_list_sort, which reports nothing: the quicksort of the vectors run over the
     * nodes, moving elements between nodes and never relinking them.  When allocating the
     * stack or the buffer, or one of the first two pushes, fails it returns before
     * anything moves; otherwise the elements end up a sorted permutation of what they were.
     */
    method Sort(cmp: (T, T) -> int)
      requires Valid() && ValidComparator(cmp)
      modifies this, Nodes
      ensures Valid() && Nodes == old(Nodes)
      ensures multiset(Contents) == multiset(old(Contents))
      ensures Sorted(Contents, cmp) || Contents == old(Contents)
      ensures |old(Contents)| <= 1 ==> Contents == old(Contents)
    {
      if length <= 1 {
        return;
      }
      var started: bool := *;
      if !started {
        return;
      }
      var stack: seq<(Node<T>, Node<T>)> := [(head, tail)];
      ghost var ranges := [Range(0, |Nodes| - 1)];
      StartInv(Contents, |Nodes|, cmp);
      assert Rearranged(Contents, old(Contents), 0, |Nodes| - 1);
      while |stack| > 0
        invariant Valid() && Nodes == old(Nodes)
        invariant StackInv(Contents, |Nodes|, ranges, cmp) && Marks(Nodes, stack, ranges)
        invariant Rearranged(Contents, old(Contents), 0, |Nodes| - 1)
        decreases Total(ranges)
      {
        ghost var before := Contents;
        stack, ranges := Round(stack, ranges, cmp);
        RearrangedTrans(Contents, before, old(Contents), 0, |Nodes| - 1);
      }
      SortedAtEnd(Contents, |Nodes|, cmp);
      assert Contents[..|Nodes|] == Contents;
    }

    /**
     * silk_list_clear: drop every node.  The C walks the list freeing each node; the model
     * has nothing to free.
     */
    method Clear()
      requires Valid()
      modifies this
      ensures Valid() && Nodes == [] && Contents == []
    {
      head, tail, length := null, null, 0;
      Nodes, Contents := [], [];
    }

    /**
     * silk_list_copy: a new list built by push_back of each element in turn.  The C
     * ignores a failed push, which leaves that element out: the copy holds the elements
     * in order, all of them when complete says that no push failed.
     */
    method Copy() returns (r: List?<T>, ghost complete: bool)
      requires Valid()
      ensures r != null ==> fresh(r) && r.Valid() && (forall k :: 0 <= k < |r.Nodes| ==> fresh(r.Nodes[k]))
      ensures r != null ==> Subsequence(r.Contents, Contents)
      ensures r != null && complete ==> r.Contents == Contents
    {
      r := New();
      complete := r != null;
      if r == null {
        return;
      }
      var node := head;
      ghost var i := 0;
      while node != null
        invariant i <= |Nodes| && node == if i < |Nodes| then Nodes[i] else null
        invariant fresh(r) && r.Valid() && forall k :: 0 <= k < |r.Nodes| ==> fresh(r.Nodes[k])
        invariant Subsequence(r.Contents, Contents[..i])
        invariant complete ==> r.Contents == Contents[..i]
        invariant Nodes == old(Nodes) && Contents == old(Contents)
        decreases |Nodes| - i
      {
        var pushed;
        pushed, complete := r.PushCopy(node.data, Contents[..i], complete);
        assert Contents[..i + 1] == Contents[..i] + [Contents[i]];
        node := node.next;
        i := i + 1;
      }
      assert Contents[..i] == Contents;
    }

    /**
     * One step of silk_list_copy, on the copy: push_back of the next element x of the
     * original, whose elements so far are walked.  A failed push leaves x out.
     */
    method PushCopy(x: T, ghost walked: seq<T>, ghost complete: bool) returns (n: Node?<T>, ghost complete': bool)
      requires Valid() && Subsequence(Contents, walked) && (complete ==> Contents == walked)
      modifies this, Nodes
      ensures Valid() && Subsequence(Contents, walked + [x])
      ensures complete' <==> complete && n != null
      ensures complete' ==> Contents == walked + [x]
      ensures n == null ==> Nodes == old(Nodes)
      ensures n != null ==> fresh(n) && Nodes == old(Nodes) + [n]
    {
      ghost var before := Contents;
      n := PushBack(x);
      complete' := complete && n != null;
      if n == null {
        SubsequenceLonger(before, walked, x);
      } else {
        SubsequenceBoth(before, walked, x);
      }
    }
  }

  /** a is b with some elements left out, the rest in order. */
  ghost predicate Subsequence<A>(a: seq<A>, b: seq<A>)
    decreases |b|
  {
    if a == [] then true
    else if b == [] then false
    else (a[|a| - 1] == b[|b| - 1] && Subsequence(a[..|a| - 1], b[..|b| - 1])) || Subsequence(a, b[..|b| - 1])
  }

  lemma SubsequenceLonger<A>(a: seq<A>, b: seq<A>, z: A)
    requires Subsequence(a, b)
    ensures Subsequence(a, b + [z])
  {
    assert (b + [z])[..|b|] == b;
  }

  lemma SubsequenceBoth<A>(a: seq<A>, b: seq<A>, z: A)
    requires Subsequence(a, b)
    ensures Subsequence(a + [z], b + [z])
  {
    assert (a + [z])[..|a|] == a;
    assert (b + [z])[..|b|] == b;
  }
}
