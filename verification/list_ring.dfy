/** The circular intrusive list of adx_list.h. */
module ListRing {
  import opened Common

  class Link {
    var next: Link?
    var prev: Link?

    constructor () {
      next, prev := null, null;
    }
  }

  /** Both directions of links run through head and the nodes, and close. */
  ghost predicate IsRing(head: Link, nodes: seq<Link>)
    reads head, nodes
  {
    && head !in nodes && Distinct(nodes)
    && head.next == After(head, nodes, -1) && head.prev == Before(head, nodes, |nodes|)
    && (forall i {:trigger nodes[i].next} {:trigger nodes[i].prev} :: 0 <= i < |nodes| ==>
          nodes[i].next == After(head, nodes, i) && nodes[i].prev == Before(head, nodes, i))
  }

  ghost function After(head: Link, nodes: seq<Link>, i: int): Link
    requires -1 <= i < |nodes|
  {
    if i + 1 < |nodes| then nodes[i + 1] else head
  }

  ghost function Before(head: Link, nodes: seq<Link>, i: int): Link
    requires 0 <= i <= |nodes|
  {
    if i > 0 then nodes[i - 1] else head
  }

  lemma DistinctWithout<T>(s: seq<T>, i: nat)
    requires Distinct(s) && i < |s|
    ensures Distinct(s[..i] + s[i + 1..]) && s[i] !in s[..i] + s[i + 1..]
    ensures forall j :: 0 <= j < |s| && j != i ==> s[j] != s[i]
  {}

  /** A ring without its i-th node, once the neighbours point past that node. */
  lemma PassedOver(head: Link, nodes: seq<Link>, i: nat)
    requires i < |nodes| && head !in nodes && Distinct(nodes)
    requires head.next == (if i == 0 then After(head, nodes, 0) else nodes[0])
    requires head.prev == (if i == |nodes| - 1 then Before(head, nodes, i) else nodes[|nodes| - 1])
    requires forall k {:trigger nodes[k].next} :: 0 <= k < |nodes| && k != i ==>
               nodes[k].next == After(head, nodes, if k + 1 == i then i else k)
    requires forall k {:trigger nodes[k].prev} :: 0 <= k < |nodes| && k != i ==>
               nodes[k].prev == Before(head, nodes, if k == i + 1 then i else k)
    ensures IsRing(head, nodes[..i] + nodes[i + 1..])
  {
    DistinctWithout(nodes, i);
    var rest := nodes[..i] + nodes[i + 1..];
    forall k | 0 <= k < |rest|
      ensures rest[k].next == After(head, rest, k) && rest[k].prev == Before(head, rest, k)
    {
      var j := if k < i then k else k + 1;
      assert rest[k] == nodes[j];
      NeighboursWithout(head, nodes, i, k);
    }
    HeadWithout(head, nodes, i);
    hide Distinct, After, Before;
  }

  lemma NeighboursWithout(head: Link, nodes: seq<Link>, i: nat, k: nat)
    requires i < |nodes| && k < |nodes| - 1
    ensures var rest := nodes[..i] + nodes[i + 1..];
            var j := if k < i then k else k + 1;
            && After(head, rest, k) == After(head, nodes, if j + 1 == i then i else j)
            && Before(head, rest, k) == Before(head, nodes, if j == i + 1 then i else j)
  {}

  lemma HeadWithout(head: Link, nodes: seq<Link>, i: nat)
    requires i < |nodes|
    ensures var rest := nodes[..i] + nodes[i + 1..];
            && After(head, rest, -1) == (if i == 0 then After(head, nodes, 0) else nodes[0])
            && Before(head, rest, |rest|) == (if i == |nodes| - 1 then Before(head, nodes, i) else nodes[|nodes| - 1])
  {}

  class Ring {
    const head: Link
    ghost var nodes: seq<Link>

    ghost predicate Valid()
      reads this, head, nodes
    {
      IsRing(head, nodes)
    }

    constructor ()
      ensures Valid() && nodes == [] && fresh(head)
    {
      head := new Link();
      nodes := [];
      new;
      head.next := head;
      head.prev := head;
    }

    /** _adx_list_add. */
    method InsertBetween(node: Link, prev: Link, next: Link)
      modifies node, prev, next
      ensures prev != node && next != node ==>
        && next.prev == node && node.next == next && node.prev == prev && prev.next == node
        && (prev != next ==> next.next == old(next.next) && prev.prev == old(prev.prev))
    {
      next.prev := node;
      node.next := next;
      node.prev := prev;
      prev.next := node;
    }

    /** adx_list_add puts the node at the end. */
    method Add(node: Link)
      requires Valid() && node != head && node !in nodes
      modifies this`nodes, node, head, nodes
      ensures Valid() && nodes == old(nodes) + [node]
    {
      ghost var n := |nodes|;
      assert n > 0 ==> nodes[n - 1].prev == Before(head, nodes, n - 1);
      InsertBetween(node, head.prev, head);
      nodes := nodes + [node];
      assert forall i {:trigger nodes[i]} :: 0 <= i < n ==> nodes[i] == old(nodes)[i];
    }

    /** adx_list_add_tail puts the node at the front. */
    method AddTail(node: Link)
      requires Valid() && node != head && node !in nodes
      modifies this`nodes, node, head, nodes
      ensures Valid() && nodes == [node] + old(nodes)
    {
      ghost var n := |nodes|;
      assert n > 0 ==> nodes[0].next == After(head, nodes, 0);
      InsertBetween(node, head, head.next);
      nodes := [node] + nodes;
      assert forall i {:trigger nodes[i]} :: 0 < i <= n ==> nodes[i] == old(nodes)[i - 1];
    }

    /** adx_list_del. */
    method Del(node: Link, ghost i: nat)
      requires Valid() && i < |nodes| && nodes[i] == node
      modifies this`nodes, head, nodes
      ensures Valid() && nodes == old(nodes)[..i] + old(nodes)[i + 1..]
    {
      node.next.prev := node.prev;
      node.prev.next := node.next;
      PassedOver(head, nodes, i);
      nodes := nodes[..i] + nodes[i + 1..];
    }

    method Empty() returns (r: bool)
      requires Valid()
      ensures r <==> nodes == []
    {
      var next := head.next;
      r := next == head && next == head.prev;
    }

    /** adx_queue: takes the first node off, if there is one. */
    method Pop() returns (r: Link?)
      requires Valid()
      modifies this`nodes, head, nodes
      ensures Valid()
      ensures if old(nodes) == [] then r == null && nodes == [] else r == old(nodes)[0] && nodes == old(nodes)[1..]
    {
      var p := head.next;
      if p != head {
        Del(p, 0);
        return p;
      }
      return null;
    }
  }
}
