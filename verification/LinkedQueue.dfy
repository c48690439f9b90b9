/** The linked list of lib/service/async/queue.go as it changes in place when no other call comes in
    between. Interleavings of its atomic steps are in module AsyncQueue. */
module LinkedQueue {
  import opened Options

  class Node {
    var next: Node?
    var value: int

    constructor (value: int)
      ensures this.value == value && next == null
    {
      this.value, next := value, null;
    }
  }

  class Queue {
    var head: Node
    var tail: Node
    var count: int
    /** The nodes from head to tail; head itself carries no value any more. */
    ghost var spine: seq<Node>

    ghost predicate Valid()
      reads this, spine
    {
      && spine != [] && head == spine[0] && tail == spine[|spine| - 1]
      && (forall i, j :: 0 <= i < j < |spine| ==> spine[i] != spine[j])
      && (forall i :: 0 <= i < |spine| ==> spine[i].next == Successor(spine, i))
      && count == |spine| - 1
    }

    /** The values in the list, oldest first. */
    ghost function Contents(): (s: seq<int>)
      reads this, spine
      requires Valid()
      ensures |s| == count
    {
      Values(spine[1..])
    }

    constructor ()
      ensures Valid() && Contents() == [] && fresh(spine)
    {
      var node := new Node(0);
      head, tail, count := node, node, 0;
      spine := [node];
    }

    method Push(val: int)
      requires Valid()
      modifies this, tail
      ensures Valid() && fresh(tail) && spine == old(spine) + [tail]
      ensures Contents() == old(Contents()) + [val]
    {
      var addNode := new Node(val);
      var prevNode := tail;
      tail := addNode;
      prevNode.next := addNode;
      count := count + 1;
      spine := spine + [addNode];
    }

    /** The oldest value, if there is one; the node it was in becomes the new head. */
    method Pop() returns (ret: Option<int>)
      requires Valid()
      modifies this, head
      ensures Valid()
      ensures old(Contents()) == [] ==> ret == None && Contents() == [] && spine == old(spine)
      ensures old(Contents()) != [] ==> ret == Some(old(Contents()[0])) && Contents() == old(Contents()[1..])
                                        && spine == old(spine[1..]) && old(head).next == null
    {
      var node := head.next;
      if node == null {
        return None;
      }
      count := count - 1;
      ret := Some(node.value);
      head.next := null;
      head := node;
      spine := spine[1..];
    }
  }

  ghost function Values(nodes: seq<Node>): (s: seq<int>)
    reads nodes
    ensures |s| == |nodes| && forall i :: 0 <= i < |nodes| ==> s[i] == nodes[i].value
  {
    seq(|nodes|, i requires 0 <= i < |nodes| reads nodes => nodes[i].value)
  }

  function Successor(spine: seq<Node>, i: nat): Node?
    requires i < |spine|
  {
    if i + 1 < |spine| then spine[i + 1] else null
  }
}
