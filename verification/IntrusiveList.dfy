/** The doubly linked `list` whose nodes can be handed from one list to another. */
module IntrusiveList {

  class Node<T> {
    const data: T
    var next: Node?<T>
    var prev: Node?<T>

    constructor (data: T)
      ensures this.data == data && next == null && prev == null
    {
      this.data := data;
      next, prev := null, null;
    }
  }

  /** The values of nodes, in order. */
  function Data<T>(nodes: seq<Node<T>>): (vs: seq<T>)
    ensures |vs| == |nodes|
    ensures forall i :: 0 <= i < |nodes| ==> vs[i] == nodes[i].data
  {
    seq(|nodes|, i requires 0 <= i < |nodes| => nodes[i].data)
  }

  class List<T(==)> {
    var head: Node?<T>
    var tail: Node?<T>
    /** The nodes from head to tail. */
    ghost var nodes: seq<Node<T>>

    ghost predicate Valid()
      reads this, nodes
    {
      && (forall i, j :: 0 <= i < j < |nodes| ==> nodes[i] != nodes[j])
      && (head == if nodes == [] then null else nodes[0])
      && (tail == if nodes == [] then null else nodes[|nodes| - 1])
      && (forall i {:trigger nodes[i].next} :: 0 <= i < |nodes| ==>
            nodes[i].next == if i + 1 < |nodes| then nodes[i + 1] else null)
      && (forall i {:trigger nodes[i].prev} :: 0 <= i < |nodes| ==>
            nodes[i].prev == if i > 0 then nodes[i - 1] else null)
    }

    ghost function Values(): seq<T>
      reads this
    {
      Data(nodes)
    }

    constructor ()
      ensures Valid() && nodes == []
    {
      head, tail := null, null;
      nodes := [];
    }

    /** The first node with the value, or null. */
    method Find(d: T) returns (p: Node?<T>)
      requires Valid()
      ensures p == null ==> d !in Values()
      ensures p != null ==> exists i :: 0 <= i < |nodes| && nodes[i] == p && p.data == d && d !in Values()[..i]
    {
      p := head;
      ghost var i := 0;
      while p != null
        invariant 0 <= i <= |nodes| && p == if i < |nodes| then nodes[i] else null
        invariant d !in Values()[..i]
        decreases |nodes| - i
      {
        if p.data == d {
          return;
        }
        assert Values()[..i + 1] == Values()[..i] + [p.data];
        assert nodes[i].next == p.next;
        p := p.next;
        i := i + 1;
      }
      assert Values()[..i] == Values();
    }

    /** The node must not be in any list: its links must be null. */
    method PushBackNode(n: Node<T>)
      requires Valid() && n !in nodes && n.next == null && n.prev == null
      modifies this, nodes, n
      ensures Valid() && nodes == old(nodes) + [n]
    {
      if tail == null {
        head := n;
        tail := n;
      } else {
        tail.next := n;
        n.prev := tail;
        tail := n;
      }
      nodes := nodes + [n];
    }

    method PushBack(d: T) returns (n: Node<T>)
      requires Valid()
      modifies this, nodes
      ensures Valid() && fresh(n) && n.data == d && nodes == old(nodes) + [n]
    {
      n := new Node(d);
      PushBackNode(n);
    }

    /** Null for an empty list, otherwise the first node, free of the list. */
    method PopFront() returns (n: Node?<T>)
      requires Valid()
      modifies this, nodes
      ensures Valid()
      ensures if old(nodes) == [] then n == null && nodes == []
              else n == old(nodes)[0] && n.next == null && n.prev == null && nodes == old(nodes)[1..]
    {
      if head == null {
        return null;
      }
      n := head;
      head := head.next;
      if head != null {
        head.prev := null;
      } else {
        tail := null;
      }
      n.next := null;
      n.prev := null;
      nodes := nodes[1..];
    }

    /** Null for an empty list, otherwise the last node, free of the list. */
    method PopBack() returns (n: Node?<T>)
      requires Valid()
      modifies this, nodes
      ensures Valid()
      ensures if old(nodes) == [] then n == null && nodes == []
              else n == old(nodes)[|old(nodes)| - 1] && n.next == null && n.prev == null
                   && nodes == old(nodes)[..|old(nodes)| - 1]
    {
      if tail == null {
        return null;
      }
      n := tail;
      tail := tail.prev;
      if tail != null {
        tail.next := null;
      } else {
        head := null;
      }
      n.next := null;
      n.prev := null;
      nodes := nodes[..|nodes| - 1];
    }

    /** Takes out the node at place `k`; on an empty list, nothing happens. */
    method Erase(n: Node<T>, ghost k: nat)
      requires Valid() && (nodes == [] || (k < |nodes| && nodes[k] == n))
      modifies this, nodes
      ensures Valid()
      ensures if old(nodes) == [] then nodes == []
              else nodes == old(nodes)[..k] + old(nodes)[k + 1..] && n.next == null && n.prev == null
    {
      if head == null {
        return;
      }
      if n == head {
        var _ := PopFront();
      } else if n == tail {
        var _ := PopBack();
      } else {
        n.prev.next := n.next;
        n.next.prev := n.prev;
        n.prev := null;
        n.next := null;
        nodes := nodes[..k] + nodes[k + 1..];
      }
    }

    method Empty() returns (empty: bool)
      requires Valid()
      ensures empty <==> nodes == []
    {
      empty := head == null && tail == null;
    }
  }
}
