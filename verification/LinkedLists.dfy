/** A singly linked list on the heap. `spine` is the sequence of its nodes from the head; Valid says that
    the pointers follow it and that it ends, so the list is acyclic. */
module LinkedLists {
  import opened Collections

  class Node<T> {
    var data: T
    var next: Node?<T>

    constructor (data: T)
      ensures this.data == data && next == null
    {
      this.data := data;
      next := null;
    }
  }

  /** The pointers from `first` run through exactly the nodes of s, which are all different. */
  ghost predicate Linked<T>(first: Node?<T>, s: seq<Node<T>>)
    reads s
  {
    && (if s == [] then first == null else first == s[0] && s[|s| - 1].next == null)
    && (forall i :: 0 <= i < |s| - 1 ==> s[i].next == s[i + 1])
    && (forall i, j :: 0 <= i < j < |s| ==> s[i] != s[j])
  }

  ghost function Values<T>(s: seq<Node<T>>): (vs: seq<T>)
    reads s
    ensures |vs| == |s| && forall i :: 0 <= i < |s| ==> vs[i] == s[i].data
  {
    seq(|s|, i requires 0 <= i < |s| reads s => s[i].data)
  }

  function Reverse<T>(s: seq<T>): (r: seq<T>)
    ensures |r| == |s|
    ensures forall i :: 0 <= i < |s| ==> r[i] == s[|s| - 1 - i]
  {
    if s == [] then [] else Reverse(s[1..]) + [s[0]]
  }

  lemma LastNode<T>(first: Node?<T>, s: seq<Node<T>>, k: nat)
    requires Linked(first, s) && k < |s|
    ensures s[k].next == null <==> k == |s| - 1
  {
    if k < |s| - 1 {
      assert s[k].next == s[k + 1];
    }
  }

  lemma EmptyList<T>(first: Node?<T>, s: seq<Node<T>>, x: T)
    requires Linked(first, s) && first == null
    ensures s == [] && Without(Values(s), x) == Values(s)
  {
  }

  lemma NonEmpty<T>(first: Node?<T>, s: seq<Node<T>>)
    requires Linked(first, s) && first != null
    ensures s != [] && s[0] == first
  {
  }

  /** A list with one more node in front. */
  lemma Preceded<T>(node: Node<T>, first: Node?<T>, s: seq<Node<T>>)
    requires Linked(first, s) && node.next == first && node !in s
    ensures Linked(node, [node] + s) && Values([node] + s) == [node.data] + Values(s)
  {
    var r := [node] + s;
    forall i | 0 <= i < |r| - 1 ensures r[i].next == r[i + 1] {
      assert i > 0 ==> s[i - 1].next == s[i];
    }
  }

  /** The pointers of s with node k+1 bypassed. */
  lemma Bypassed<T>(first: Node?<T>, s: seq<Node<T>>, k: nat)
    requires k + 1 < |s| && first == s[0]
    requires forall i, j :: 0 <= i < j < |s| ==> s[i] != s[j]
    requires forall i :: 0 <= i < |s| - 1 && i != k ==> s[i].next == s[i + 1]
    requires if k + 2 < |s| then s[k].next == s[k + 2] && s[|s| - 1].next == null else s[k].next == null
    ensures Linked(first, s[..k + 1] + s[k + 2..])
  {
    var r := s[..k + 1] + s[k + 2..];
    forall i | 0 <= i < |r| - 1 ensures r[i].next == r[i + 1] {
      if i > k {
        assert r[i] == s[i + 1] && r[i + 1] == s[i + 2];
      }
    }
  }

  /** The first k nodes of s point to the one before, the others still to the one after. */
  ghost predicate Halfway<T>(s: seq<Node<T>>, k: nat)
    reads s
  {
    && k <= |s|
    && (forall i, j :: 0 <= i < j < |s| ==> s[i] != s[j])
    && (forall i :: 0 <= i < k ==> s[i].next == Before(s, i))
    && (forall i :: k <= i < |s| ==> s[i].next == At(s, i + 1))
  }

  function At<T>(s: seq<Node<T>>, i: nat): (n: Node?<T>) {
    if i < |s| then s[i] else null
  }

  function Before<T>(s: seq<Node<T>>, i: nat): (n: Node?<T>) {
    if 0 < i <= |s| then s[i - 1] else null
  }

  lemma NotYetTurned<T>(first: Node?<T>, s: seq<Node<T>>)
    requires Linked(first, s)
    ensures Halfway(s, 0) && first == At(s, 0)
  {
  }

  /** The pointers of s once each node points to the one before it. */
  lemma TurnedRound<T>(s: seq<Node<T>>)
    requires Halfway(s, |s|)
    ensures Linked(Before(s, |s|), Reverse(s))
    ensures Values(Reverse(s)) == Reverse(Values(s))
  {
    var r := Reverse(s);
    forall i | 0 <= i < |r| - 1 ensures r[i].next == r[i + 1] {
      assert r[i] == s[|s| - 1 - i] && r[i + 1] == s[|s| - 2 - i];
    }
    forall i | 0 <= i < |s| ensures Values(r)[i] == Reverse(Values(s))[i] {
      assert r[i] == s[|s| - 1 - i];
    }
  }

  /** Turns one node round. */
  method TurnNode<T>(current: Node<T>, prev: Node?<T>, ghost s: seq<Node<T>>, ghost k: nat) returns (nextNode: Node?<T>)
    requires k < |s| && Halfway(s, k) && current == s[k] && prev == Before(s, k)
    modifies current`next
    ensures Halfway(s, k + 1) && nextNode == At(s, k + 1)
    ensures Values(s) == old(Values(s))
  {
    nextNode := current.next;
    assert forall i :: 0 <= i < |s| && i != k ==> s[i] != current;
    current.next := prev;
    assert forall i :: 0 <= i < |s| && i != k ==> s[i].next == old(s[i].next);
    assert Values(s) == old(Values(s));
    hide Values;
  }

  /** Lists with the same values have the same data in every node. */
  twostate lemma SameValues<T>(s: seq<Node<T>>)
    requires Values(s) == old(Values(s))
    ensures forall n :: n in s ==> n.data == old(n.data)
  {
    forall n | n in s ensures n.data == old(n.data) {
      var i :| 0 <= i < |s| && s[i] == n;
      assert Values(s)[i] == old(Values(s))[i];
    }
  }

  lemma ReverseTwice<T>(s: seq<T>)
    ensures Reverse(Reverse(s)) == s
  {
  }

  /** The second list is the first without its k-th node, the first to hold x. */
  ghost predicate NodeRemoved<T>(nodes: seq<Node<T>>, values: seq<T>, x: T, k: nat, nodes': seq<Node<T>>) {
    k < |nodes| == |values| && values[k] == x && x !in values[..k] && nodes' == nodes[..k] + nodes[k + 1..]
  }

  class LinkedList<T(==)> {
    var head: Node?<T>
    ghost var spine: seq<Node<T>>

    ghost predicate Valid()
      reads this, spine
    {
      Linked(head, spine)
    }

    ghost function Contents(): (vs: seq<T>)
      reads this, spine
    {
      Values(spine)
    }

    constructor ()
      ensures Valid() && spine == [] && Contents() == []
    {
      head := null;
      spine := [];
    }

    method Append(data: T)
      requires Valid()
      modifies this, spine
      ensures Valid()
      ensures Contents() == old(Contents()) + [data]
      ensures |spine| == |old(spine)| + 1 && spine[..|old(spine)|] == old(spine) && fresh(spine[|old(spine)|])
    {
      var node := new Node(data);
      if head == null {
        head := node;
        spine := [node];
        return;
      }
      var last := head;
      ghost var k := 0;
      while last.next != null
        invariant 0 <= k < |spine| && last == spine[k]
        invariant Valid()
        decreases |spine| - k
      {
        last := last.next;
        k := k + 1;
      }
      LastNode(head, spine, k);
      last.next := node;
      spine := spine + [node];
    }

    method Prepend(data: T)
      requires Valid()
      modifies this
      ensures Valid()
      ensures Contents() == [data] + old(Contents())
      ensures |spine| == |old(spine)| + 1 && spine[1..] == old(spine) && fresh(spine[0])
    {
      var node := new Node(data);
      node.next := head;
      hide Linked, Values;
      Preceded(node, head, spine);
      head := node;
      spine := [node] + spine;
    }

    /** Takes the node after `current` out of the list. */
    method Bypass(current: Node<T>, ghost k: nat)
      requires Valid() && k + 1 < |spine| && current == spine[k]
      modifies current`next, this`spine
      ensures Valid()
      ensures spine == old(spine)[..k + 1] + old(spine)[k + 2..]
      ensures Contents() == old(Contents())[..k + 1] + old(Contents())[k + 2..]
    {
      hide Values;
      ghost var before := spine;
      assert current.next == spine[k + 1];
      LastNode(head, spine, k + 1);
      assert k + 2 < |spine| ==> spine[k + 1].next == spine[k + 2];
      current.next := current.next.next;
      Bypassed(head, before, k);
      spine := spine[..k + 1] + spine[k + 2..];
    }

    method DropHead()
      requires Valid() && head != null
      modifies this
      ensures Valid()
      ensures spine == old(spine)[1..] && Contents() == old(Contents())[1..]
    {
      head := head.next;
      spine := spine[1..];
    }

    /** The node before the first later one holding `data`; the last node when there is none. */
    method NodeBefore(data: T) returns (current: Node<T>, ghost k: nat)
      requires Valid() && head != null && head.data != data
      ensures k < |spine| && current == spine[k]
      ensures data !in Contents()[..k + 1]
      ensures k + 1 < |spine| ==> current.next == spine[k + 1] && Contents()[k + 1] == data
      ensures current.next == null <==> k + 1 == |spine|
    {
      current := head;
      k := 0;
      while current.next != null
        invariant 0 <= k < |spine| && current == spine[k]
        invariant data !in Contents()[..k + 1]
        decreases |spine| - k
      {
        LastNode(head, spine, k);
        assert current.next == spine[k + 1];
        if current.next.data == data {
          return;
        }
        current := current.next;
        k := k + 1;
      }
      LastNode(head, spine, k);
    }

    /** Removes the first node holding `data`, and only that node, if there is one. */
    method DeleteWithValue(data: T)
      requires Valid()
      modifies this, spine
      ensures Valid()
      ensures Contents() == Without(old(Contents()), data)
      ensures data !in old(Contents()) ==> spine == old(spine)
      ensures data in old(Contents()) ==> exists k :: NodeRemoved(old(spine), old(Contents()), data, k, spine)
    {
      hide Linked, Without, Values;
      if head == null {
        assert spine == [] && Without(Contents(), data) == Contents() by {
          EmptyList(head, spine, data);
        }
        return;
      }
      ghost var before := Contents();
      NonEmpty(head, spine);
      if head.data == data {
        WithoutAt(before, data, 0);
        DropHead();
        assert NodeRemoved(old(spine), before, data, 0, spine);
        return;
      }
      var current, k := NodeBefore(data);
      if current.next != null {
        WithoutAt(before, data, k + 1);
        Bypass(current, k);
        assert NodeRemoved(old(spine), before, data, k + 1, spine);
      } else {
        assert before[..k + 1] == before;
      }
    }

    /** The first node holding `data`, or null when no node holds it. */
    method Find(data: T) returns (node: Node?<T>)
      requires Valid()
      ensures node == null <==> data !in Contents()
      ensures node != null ==> exists k :: 0 <= k < |spine| && node == spine[k] && node.data == data && data !in Contents()[..k]
    {
      node := head;
      ghost var k := 0;
      while node != null
        invariant 0 <= k <= |spine|
        invariant node == if k < |spine| then spine[k] else null
        invariant data !in Contents()[..k]
        decreases |spine| - k
      {
        if node.data == data {
          return;
        }
        node := node.next;
        k := k + 1;
      }
      assert Contents()[..k] == Contents();
    }

    /** Turns the list round in place: the same nodes, holding the same values, in the opposite order. */
    method ReverseInPlace()
      requires Valid()
      modifies this, spine
      ensures Valid()
      ensures spine == Reverse(old(spine))
      ensures Contents() == Reverse(old(Contents()))
      ensures forall n :: n in spine ==> n.data == old(n.data)
    {
      hide Reverse, Linked, Halfway, Values;
      label Start:
      var prev: Node?<T> := null;
      var current := head;
      ghost var k := 0;
      NotYetTurned(head, spine);
      while current != null
        invariant 0 <= k <= |spine| && spine == old(spine) && Halfway(spine, k)
        invariant prev == Before(spine, k) && current == At(spine, k)
        invariant Values(spine) == old(Contents())
        decreases |spine| - k
      {
        var nextNode := TurnNode(current, prev, spine, k);
        prev := current;
        current := nextNode;
        k := k + 1;
      }
      head := prev;
      TurnedRound(spine);
      SameValues@Start(spine);
      spine := Reverse(spine);
    }
  }

  /** Reversing twice restores the list: the same nodes in the same order with the same values. */
  method ReverseRestores<T(==)>(list: LinkedList<T>)
    requires list.Valid()
    modifies list, list.spine
    ensures list.Valid() && list.spine == old(list.spine) && list.Contents() == old(list.Contents())
  {
    list.ReverseInPlace();
    list.ReverseInPlace();
    ReverseTwice(old(list.spine));
    ReverseTwice(old(list.Contents()));
  }
}
