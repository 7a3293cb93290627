/** The doubly linked list under the viewer's caches.  The ghost sequence `nodes`
    is the list from head to tail; `Valid` ties every link to it in both directions. */
module LinkedLists {

  class ListNode<T> {
    const data: T
    var prev: ListNode?<T>
    var next: ListNode?<T>

    constructor (data: T)
      ensures this.data == data && prev == null && next == null
    {
      this.data := data;
      prev, next := null, null;
    }
  }

  /** The data stored along a sequence of nodes. */
  ghost function DataOf<T>(nodes: seq<ListNode<T>>): (s: seq<T>)
    ensures |s| == |nodes|
    ensures forall i :: 0 <= i < |s| ==> s[i] == nodes[i].data
  {
    seq(|nodes|, i requires 0 <= i < |nodes| => nodes[i].data)
  }

  class List<T> {
    var head: ListNode?<T>
    var tail: ListNode?<T>
    var size: nat
    ghost var nodes: seq<ListNode<T>>

    ghost predicate Valid()
      reads this, nodes
    {
      && size == |nodes|
      && (forall i, j :: 0 <= i < j < |nodes| ==> nodes[i] != nodes[j])
      && head == (if |nodes| == 0 then null else nodes[0])
      && tail == (if |nodes| == 0 then null else nodes[|nodes| - 1])
      && (forall i {:trigger nodes[i].prev} :: 0 <= i < |nodes| ==>
            nodes[i].prev == if i == 0 then null else nodes[i - 1])
      && (forall i {:trigger nodes[i].next} :: 0 <= i < |nodes| ==>
            nodes[i].next == if i == |nodes| - 1 then null else nodes[i + 1])
    }

    constructor ()
      ensures Valid() && nodes == []
    {
      head, tail, size := null, null, 0;
      nodes := [];
    }

    method Append(n: ListNode<T>)
      requires Valid() && n !in nodes && n.prev == null && n.next == null
      modifies this, nodes, n
      ensures Valid() && nodes == old(nodes) + [n]
    {
      if tail != null {
        tail.next := n;
        n.prev := tail;
        tail := n;
      } else {
        head := n;
        tail := n;
      }
      size := size + 1;
      nodes := nodes + [n];
    }

    method Prepend(n: ListNode<T>)
      requires Valid() && n !in nodes && n.prev == null && n.next == null
      modifies this, nodes, n
      ensures Valid() && nodes == [n] + old(nodes)
    {
      if head != null {
        head.prev := n;
        n.next := head;
        head := n;
      } else {
        head := n;
        tail := n;
      }
      size := size + 1;
      nodes := [n] + nodes;
    }

    /** Detaches the last node; null exactly on the empty list. */
    method Pop() returns (t: ListNode?<T>)
      requires Valid()
      modifies this, nodes
      ensures Valid()
      ensures old(nodes) == [] ==> t == null && nodes == []
      ensures old(nodes) != [] ==>
                && t == old(nodes)[|old(nodes)| - 1]
                && nodes == old(nodes)[..|old(nodes)| - 1]
                && t.prev == null && t.next == null
    {
      t := tail;
      if t == null {
        return;
      }
      if t.prev != null {
        tail := t.prev;
        tail.next := null;
      } else {
        head, tail := null, null;
      }
      size := size - 1;
      t.prev := null;
      nodes := nodes[..|nodes| - 1];
    }

    /** Detaches the first node; null exactly on the empty list. */
    method Dequeue() returns (t: ListNode?<T>)
      requires Valid()
      modifies this, nodes
      ensures Valid()
      ensures old(nodes) == [] ==> t == null && nodes == []
      ensures old(nodes) != [] ==>
                && t == old(nodes)[0]
                && nodes == old(nodes)[1..]
                && t.prev == null && t.next == null
    {
      t := head;
      if t == null {
        return;
      }
      if t.next != null {
        head := t.next;
        head.prev := null;
      } else {
        head, tail := null, null;
      }
      size := size - 1;
      t.next := null;
      nodes := nodes[1..];
    }

    /** Unlinks a node of the list wherever it stands; `k` is its position. */
    method Remove(n: ListNode<T>, ghost k: nat)
      requires Valid() && k < |nodes| && nodes[k] == n
      modifies this, nodes
      ensures Valid()
      ensures nodes == old(nodes)[..k] + old(nodes)[k + 1..]
      ensures n.prev == null && n.next == null
    {
      if n.prev == null {
        assert k == 0;
        var _ := Dequeue();
      } else if n.next == null {
        assert k == |nodes| - 1;
        var _ := Pop();
      } else {
        n.next.prev := n.prev;
        n.prev.next := n.next;
        n.next := null;
        n.prev := null;
        size := size - 1;
        nodes := nodes[..k] + nodes[k + 1..];
      }
    }
  }
}
