/** The kernel's doubly linked list (kernel/libk/list.c) as a sequence of nodes. */
module LinkedList {

  class Node<T> {
    var next: Node?<T>
    var prev: Node?<T>
    var val: T

    constructor (prev: Node?<T>, val: T)
      ensures next == null && this.prev == prev && this.val == val
    {
      next, this.prev, this.val := null, prev, val;
    }
  }

  /** The node at an index, null outside. */
  ghost function At<T>(nodes: seq<Node<T>>, i: int): Node?<T> {
    if 0 <= i < |nodes| then nodes[i] else null
  }

  /** Each node points to its two neighbours. */
  ghost predicate Linked<T>(nodes: seq<Node<T>>)
    reads nodes
  {
    && (forall i {:trigger nodes[i].next} :: 0 <= i < |nodes| ==> nodes[i].next == At(nodes, i + 1))
    && (forall i {:trigger nodes[i].prev} :: 0 <= i < |nodes| ==> nodes[i].prev == At(nodes, i - 1))
  }

  ghost predicate Distinct<T>(nodes: seq<Node<T>>) {
    forall i, j :: 0 <= i < j < |nodes| ==> nodes[i] != nodes[j]
  }

  ghost function Values<T>(nodes: seq<Node<T>>): (c: seq<T>)
    reads nodes
    ensures |c| == |nodes|
  {
    seq(|nodes|, i requires 0 <= i < |nodes| reads nodes => nodes[i].val)
  }

  ghost function Without<T>(s: seq<T>, i: nat): (r: seq<T>)
    requires i < |s|
    ensures |r| == |s| - 1
    ensures forall k :: 0 <= k < |r| ==> r[k] == s[if k < i then k else k + 1]
  {
    s[..i] + s[i + 1..]
  }

  /** Node `i` has been bypassed: its neighbours point to each other. */
  ghost predicate Bypassed<T>(nodes: seq<Node<T>>, i: nat)
    requires i < |nodes|
    reads nodes
  {
    && (forall k {:trigger nodes[k].next} :: 0 <= k < |nodes| && k != i ==>
          nodes[k].next == At(nodes, if k == i - 1 then i + 1 else k + 1))
    && (forall k {:trigger nodes[k].prev} :: 0 <= k < |nodes| && k != i ==>
          nodes[k].prev == At(nodes, if k == i + 1 then i - 1 else k - 1))
  }

  lemma AtWithout<T>(nodes: seq<Node<T>>, i: nat, k: int)
    requires i < |nodes|
    ensures At(Without(nodes, i), k) == At(nodes, if k < i then k else k + 1)
  {}

  lemma BypassedIsLinked<T>(nodes: seq<Node<T>>, i: nat)
    requires i < |nodes| && Distinct(nodes) && Bypassed(nodes, i)
    ensures Linked(Without(nodes, i)) && Distinct(Without(nodes, i))
  {
    hide At;
    var rest := Without(nodes, i);
    forall k | 0 <= k < |rest|
      ensures rest[k].next == At(rest, k + 1) && rest[k].prev == At(rest, k - 1)
    {
      AtWithout(nodes, i, k + 1);
      AtWithout(nodes, i, k - 1);
    }
  }

  lemma ValuesWithout<T>(nodes: seq<Node<T>>, i: nat)
    requires i < |nodes|
    ensures Values(Without(nodes, i)) == Without(Values(nodes), i)
  {}

  class List<T> {
    var first: Node?<T>
    var last: Node?<T>
    ghost var nodes: seq<Node<T>>

    /** Following `next` or `prev` from either end meets exactly `nodes`, in order. */
    ghost predicate Valid()
      reads this, nodes
    {
      Distinct(nodes) && Linked(nodes) && first == At(nodes, 0) && last == At(nodes, |nodes| - 1)
    }

    /** The values, first to last. */
    ghost function Contents(): (c: seq<T>)
      reads this, nodes
      ensures |c| == |nodes|
    {
      Values(nodes)
    }

    /** `list_init`. */
    constructor ()
      ensures Valid() && Contents() == [] && nodes == []
    {
      first, last, nodes := null, null, [];
    }

    /** `list_append`. */
    method Append(val: T)
      requires Valid()
      modifies this, nodes
      ensures Valid() && Contents() == old(Contents()) + [val]
      ensures |nodes| == |old(nodes)| + 1 && nodes[..|old(nodes)|] == old(nodes) && fresh(nodes[|old(nodes)|])
    {
      var node := new Node(last, val);
      if first == null {
        first := node;
        last := node;
      } else {
        assert last == nodes[|nodes| - 1];
        last.next := node;
        last := node;
      }
      nodes := nodes + [node];
    }

    /** `list_remove`, of any node of the list; the others keep their order and their values. */
    method Remove(node: Node<T>, ghost i: nat)
      requires Valid() && i < |nodes| && nodes[i] == node
      modifies this, nodes
      ensures Valid() && nodes == Without(old(nodes), i) && Contents() == Without(old(Contents()), i)
    {
      hide Without, Values;
      ghost var s := nodes;
      Unlink(node, s, i);
      BypassedIsLinked(s, i);
      ValuesWithout(s, i);
      AtWithout(s, i, 0);
      AtWithout(s, i, |s| - 2);
      nodes := Without(s, i);
    }

    /** The pointer updates of `list_remove`. */
    method Unlink(node: Node<T>, ghost s: seq<Node<T>>, ghost i: nat)
      requires Distinct(s) && Linked(s) && i < |s| && s[i] == node
      requires first == At(s, 0) && last == At(s, |s| - 1)
      modifies this`first, this`last, s
      ensures Bypassed(s, i) && Values(s) == old(Values(s))
      ensures first == (if i == 0 then At(s, 1) else At(s, 0))
      ensures last == (if i == |s| - 1 then At(s, i - 1) else At(s, |s| - 1))
    {
      if node.next != null {
        node.next.prev := node.prev;
      } else {
        last := node.prev;
      }
      if node.prev != null {
        node.prev.next := node.next;
      } else {
        first := node.next;
      }
    }

    /** `list_foreach`: the walk visits the values in order and ends. */
    method Walk() returns (values: seq<T>)
      requires Valid()
      ensures values == Contents()
    {
      values := [];
      var it := first;
      ghost var i := 0;
      while it != null
        invariant 0 <= i <= |nodes| && it == At(nodes, i) && values == Contents()[..i]
        decreases |nodes| - i
      {
        values := values + [it.val];
        it := it.next;
        i := i + 1;
      }
    }
  }
}
