/** queue.h: a singly linked queue with head and tail pointers. */
module Queues {

  class Node<T> {
    var data: T
    var next: Node?<T>

    constructor (data: T)
      ensures this.data == data && next == null
    {
      this.data, next := data, null;
    }
  }

  class Queue<T> {
    var head: Node?<T>
    var tail: Node?<T>
    ghost var nodes: seq<Node<T>>   // from head to tail

    ghost predicate Valid()
      reads this, nodes
    {
      && (forall i, j | 0 <= i < j < |nodes| :: nodes[i] != nodes[j])
      && (forall i | 0 <= i < |nodes| - 1 :: nodes[i].next == nodes[i + 1])
      && (if nodes == [] then head == null && tail == null
          else head == nodes[0] && tail == nodes[|nodes| - 1] && nodes[|nodes| - 1].next == null)
    }

    /** The stored values, first in first. */
    ghost function Contents(): (s: seq<T>)
      reads this, nodes
      ensures |s| == |nodes| && forall i | 0 <= i < |nodes| :: s[i] == nodes[i].data
    {
      seq(|nodes|, i requires 0 <= i < |nodes| reads this, nodes => nodes[i].data)
    }

    constructor ()
      ensures Valid() && Contents() == []
    {
      head, tail, nodes := null, null, [];
    }

    method Enqueue(data: T)
      requires Valid()
      modifies this, nodes
      ensures Valid() && Contents() == old(Contents()) + [data]
      ensures old(nodes) <= nodes && fresh(nodes[|old(nodes)|])
    {
      var temp := new Node(data);
      if tail == null {
        head, tail := temp, temp;
      } else {
        tail.next := temp;
        tail := temp;
      }
      nodes := nodes + [temp];
    }

    /** Removes the oldest value; nothing to remove gives the empty sequence, the NULL of the source. */
    method Dequeue() returns (data: seq<T>)
      requires Valid()
      modifies this
      ensures Valid()
      ensures old(Contents()) == [] ==> data == [] && Contents() == []
      ensures old(Contents()) != [] ==> data == [old(Contents())[0]] && Contents() == old(Contents())[1..]
    {
      if head == null { return []; }
      var temp := head;
      head := head.next;
      if head == null { tail := null; }
      nodes := nodes[1..];
      data := [temp.data];
    }

    method IsEmpty() returns (b: bool)
      requires Valid()
      ensures b <==> Contents() == []
    {
      b := head == null && tail == null;
    }
  }
}
