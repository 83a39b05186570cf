/**
 The doubly linked list of include/util/listLib.h and src/util/listLib.c.  A node is part
 of the structure it links; elem stands for the cast from the node to that structure.
 */
module ListLib {

  datatype Status = OK | ERROR

  class ListNode<T> {
    const elem: T
    var next: ListNode?<T>
    var prev: ListNode?<T>

    constructor (elem: T)
      ensures this.elem == elem
    {
      this.elem := elem;
      next, prev := null, null;
    }
  }

  class List<T> {
    var head: ListNode?<T>
    var tail: ListNode?<T>
    var count: int
    ghost var nodes: seq<ListNode<T>>

    /** Forward from head and backward from tail, the links run through the same nodes, each once. */
    ghost predicate Valid()
      reads this, nodes
    {
      && count == |nodes|
      && Distinct(nodes)
      && head == At(nodes, 0) && tail == At(nodes, |nodes| - 1)
      && Linked(nodes)
    }

    static ghost predicate Distinct(s: seq<ListNode<T>>) {
      forall p, q :: 0 <= p < q < |s| ==> s[p] != s[q]
    }

    /** The node at a place, or null beyond the ends. */
    static ghost function At(s: seq<ListNode<T>>, p: int): ListNode?<T> {
      if 0 <= p < |s| then s[p] else null
    }

    static ghost predicate Linked(s: seq<ListNode<T>>)
      reads s
    {
      && (forall p {:trigger s[p].next} :: 0 <= p < |s| ==> s[p].next == At(s, p + 1))
      && (forall p {:trigger s[p].prev} :: 0 <= p < |s| ==> s[p].prev == At(s, p - 1))
    }

    /** When only the links around place at lead to the new node, it is linked in there. */
    static lemma LinksIn(s: seq<ListNode<T>>, at: nat, node: ListNode<T>)
      requires at <= |s| && node !in s && Distinct(s)
      requires node.prev == At(s, at - 1) && node.next == At(s, at)
      requires forall p {:trigger s[p].next} :: 0 <= p < |s| ==> s[p].next == if p + 1 == at then node else At(s, p + 1)
      requires forall p {:trigger s[p].prev} :: 0 <= p < |s| ==> s[p].prev == if p == at then node else At(s, p - 1)
      ensures Linked(s[..at] + [node] + s[at..]) && Distinct(s[..at] + [node] + s[at..])
    {
      var r := s[..at] + [node] + s[at..];
      assert forall p :: 0 <= p < |r| ==> r[p] == if p < at then s[p] else if p == at then node else s[p - 1];
    }

    /** When only the links around place at lead past its node, it is taken out there. */
    static lemma LinksOut(s: seq<ListNode<T>>, at: nat)
      requires at < |s| && Distinct(s)
      requires forall p {:trigger s[p].next} :: 0 <= p < |s| && p != at ==>
                 s[p].next == At(s, if p + 1 == at then at + 1 else p + 1)
      requires forall p {:trigger s[p].prev} :: 0 <= p < |s| && p != at ==>
                 s[p].prev == At(s, if p - 1 == at then p - 2 else p - 1)
      ensures Linked(s[..at] + s[at + 1..]) && Distinct(s[..at] + s[at + 1..])
    {
      var r := s[..at] + s[at + 1..];
      assert forall p :: 0 <= p < |r| ==> r[p] == if p < at then s[p] else s[p + 1];
    }

    /** listInit: the nodes linked so far are forgotten. */
    constructor ()
      ensures Valid() && nodes == []
    {
      head, tail, count := null, null, 0;
      nodes := [];
    }

    /** The place of a node in the list. */
    ghost function Place(node: ListNode<T>): (p: nat)
      requires node in nodes
      reads this
      ensures p < |nodes| && nodes[p] == node
    {
      var p :| 0 <= p < |nodes| && nodes[p] == node; p
    }

    /** The assignments of listInsert: the links around place at lead to the new node. */
    method Splice(prev: ListNode?<T>, node: ListNode<T>, ghost at: nat)
      requires Valid() && node !in nodes && at <= |nodes|
      requires prev == At(nodes, at - 1)
      modifies this`head, this`tail, this`count, nodes, node
      ensures count == old(count) + 1 && node.prev == prev && node.next == At(nodes, at)
      ensures head == (if at == 0 then node else old(head)) && tail == (if at == |nodes| then node else old(tail))
      ensures forall p {:trigger nodes[p].next} :: 0 <= p < |nodes| ==>
                nodes[p].next == if p + 1 == at then node else At(nodes, p + 1)
      ensures forall p {:trigger nodes[p].prev} :: 0 <= p < |nodes| ==>
                nodes[p].prev == if p == at then node else At(nodes, p - 1)
    {
      var after: ListNode?<T>;
      if prev == null {
        after := head;
        head := node;
      } else {
        after := prev.next;
        prev.next := node;
      }
      if after == null {
        tail := node;
      } else {
        after.prev := node;
      }
      node.next := after;
      node.prev := prev;
      count := count + 1;
    }

    /** listInsert: after prev, or at the head if prev is null. */
    method Insert(prev: ListNode?<T>, node: ListNode?<T>) returns (status: Status)
      requires Valid()
      requires node != null ==> node !in nodes
      requires prev != null ==> prev in nodes
      modifies this, nodes, node
      ensures Valid()
      ensures status == (if node == null then ERROR else OK)
      ensures nodes == if node == null then old(nodes)
                       else if prev == null then [node] + old(nodes)
                       else old(nodes[..Place(prev) + 1] + [node] + nodes[Place(prev) + 1..])
    {
      if node == null {
        return ERROR;
      }
      ghost var at := if prev == null then 0 else Place(prev) + 1;
      Splice(prev, node, at);
      LinksIn(nodes, at, node);
      assert prev == null ==> nodes[..at] + [node] + nodes[at..] == [node] + nodes;
      nodes := nodes[..at] + [node] + nodes[at..];
      return OK;
    }

    /** listAdd: at the tail. */
    method Add(node: ListNode?<T>) returns (status: Status)
      requires Valid()
      requires node != null ==> node !in nodes
      modifies this, nodes, node
      ensures Valid()
      ensures status == (if node == null then ERROR else OK)
      ensures nodes == if node == null then old(nodes) else old(nodes) + [node]
    {
      status := Insert(tail, node);
    }

    /** listRemove. */
    method Remove(node: ListNode?<T>) returns (status: Status)
      requires Valid()
      requires node != null ==> node in nodes
      modifies this, nodes
      ensures Valid()
      ensures status == (if node == null then ERROR else OK)
      ensures nodes == if node == null then old(nodes)
                       else old(nodes[..Place(node)] + nodes[Place(node) + 1..])
    {
      if node == null {
        return ERROR;
      }
      ghost var at: int, was := Place(node), nodes;
      assert node.prev == At(nodes, at - 1) && node.next == At(nodes, at + 1);
      if node.prev == null {
        head := node.next;
      } else {
        node.prev.next := node.next;
      }
      if node.next == null {
        tail := node.prev;
      } else {
        node.next.prev := node.prev;
      }
      count := count - 1;
      LinksOut(was, at);
      nodes := was[..at] + was[at + 1..];
      return OK;
    }

    lemma AtPlace(p: nat)
      requires Valid() && p < |nodes|
      ensures Place(nodes[p]) == p
      ensures nodes[p] !in nodes[..p] + nodes[p + 1..]
    {
    }

    /** listRemove, then listInsert at the head: the node at place p comes first, the others keep their order. */
    method MoveToHead(node: ListNode<T>, ghost p: nat)
      requires Valid() && p < |nodes| && nodes[p] == node
      modifies this, nodes
      ensures Valid()
      ensures nodes == [node] + old(nodes[..p] + nodes[p + 1..])
    {
      AtPlace(p);
      hide Valid;
      var status := Remove(node);
      status := Insert(null, node);
    }

    /** listGet: the head, taken off the list. */
    method Get() returns (node: ListNode?<T>)
      requires Valid()
      modifies this, nodes
      ensures Valid()
      ensures node == old(head)
      ensures nodes == if old(nodes) == [] then [] else old(nodes)[1..]
    {
      node := head;
      if node != null {
        assert node.next == At(nodes, 1);
        head := node.next;
        if node.next == null {
          tail := null;
        } else {
          node.next.prev := null;
        }
        count := count - 1;
        nodes := nodes[1..];
      }
    }

    /** listCount. */
    method Count() returns (n: int)
      requires Valid()
      ensures n == |nodes|
    {
      n := count;
    }
  }
}
