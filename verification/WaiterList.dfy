/** p3-concurrent-channels/linked_list.c: the doubly linked waiter lists, and
    what channel_select and list_foreach do with them. */
module WaiterLists {
  import opened ChannelModel
  import opened ChannelWakeups

  class ListNode {
    var next: ListNode?
    var prev: ListNode?
    const data: nat  // never written after list_insert

    constructor (data: nat, next: ListNode?)
      ensures this.data == data && this.next == next && prev == null
    {
      this.data := data;
      this.next := next;
      prev := null;
    }
  }

  /** One sem_post for each element of ws in turn. */
  ghost function PostAll(sems: seq<nat>, ws: seq<nat>): (r: seq<nat>)
    ensures |r| == |sems|
    decreases |ws|
  {
    if ws == [] then sems
    else PostAll(Post(sems, ws[0]), ws[1..])
  }

  /** A walk posts every waiter once and nobody else. */
  lemma {:induction false} PostAllOnce(sems: seq<nat>, ws: seq<nat>, t: nat)
    requires NoDup(ws) && t < |sems|
    ensures PostAll(sems, ws)[t] == sems[t] + (if t in ws then 1 else 0)
    decreases |ws|
  {
    if ws != [] {
      PostAllOnce(Post(sems, ws[0]), ws[1..], t);
      assert ws[0] !in ws[1..];
    }
  }

  lemma {:induction false} PostAllAppend(sems: seq<nat>, ws: seq<nat>, x: nat)
    ensures PostAll(sems, ws + [x]) == Post(PostAll(sems, ws), x)
    decreases |ws|
  {
    if ws == [] {
    } else {
      assert (ws + [x])[1..] == ws[1..] + [x];
      PostAllAppend(Post(sems, ws[0]), ws[1..], x);
    }
  }

  lemma {:induction false} RemoveFirstAt(ws: seq<nat>, t: nat, k: nat)
    requires k < |ws| && ws[k] == t && t !in ws[..k]
    ensures RemoveFirst(ws, t) == ws[..k] + ws[k + 1..]
  {
    if k > 0 {
      assert ws[0] == ws[..k][0];
      assert ws[1..][..k - 1] == ws[..k][1..];
      RemoveFirstAt(ws[1..], t, k - 1);
    }
  }

  lemma {:induction false} RemoveAbsent(ws: seq<nat>, t: nat)
    requires t !in ws
    ensures RemoveFirst(ws, t) == ws
  {
    if ws != [] { RemoveAbsent(ws[1..], t); }
  }

  /** The i-th node, or NULL past either end. */
  ghost function At(nodes: seq<ListNode>, i: int): ListNode? {
    if 0 <= i < |nodes| then nodes[i] else null
  }

  ghost function DataOf(nodes: seq<ListNode>): (ws: seq<nat>)
    ensures |ws| == |nodes| && forall i :: 0 <= i < |nodes| ==> ws[i] == nodes[i].data
  {
    seq(|nodes|, i requires 0 <= i < |nodes| => nodes[i].data)
  }

  lemma DataWithout(nodes: seq<ListNode>, k: nat)
    requires k < |nodes|
    ensures DataOf(nodes[..k] + nodes[k + 1..]) == DataOf(nodes)[..k] + DataOf(nodes)[k + 1..]
  {
  }

  /** Links that skip the k-th node are those of the list without it. */
  lemma LinksAfterUnlink(was: seq<ListNode>, k: nat)
    requires k < |was|
    requires forall i {:trigger was[i].next} :: 0 <= i < |was| && i != k ==>
               was[i].next == (if i == k - 1 then At(was, k + 1) else At(was, i + 1))
    requires forall i {:trigger was[i].prev} :: 0 <= i < |was| && i != k ==>
               was[i].prev == (if i == k + 1 then At(was, k - 1) else At(was, i - 1))
    ensures var ns := was[..k] + was[k + 1..];
            (forall i {:trigger ns[i].next} :: 0 <= i < |ns| ==> ns[i].next == At(ns, i + 1)) &&
            (forall i {:trigger ns[i].prev} :: 0 <= i < |ns| ==> ns[i].prev == At(ns, i - 1))
  {
    var ns := was[..k] + was[k + 1..];
    forall i | 0 <= i < |ns| ensures ns[i].next == At(ns, i + 1) && ns[i].prev == At(ns, i - 1) {
      assert ns[i] == was[if i < k then i else i + 1];
    }
  }

  class List {
    var head: ListNode?
    var count: nat
    ghost var nodes: seq<ListNode>

    ghost predicate Valid()
      reads this, nodes
    {
      count == |nodes| &&
      head == At(nodes, 0) &&
      (forall i {:trigger nodes[i].next} :: 0 <= i < |nodes| ==> nodes[i].next == At(nodes, i + 1)) &&
      (forall i {:trigger nodes[i].prev} :: 0 <= i < |nodes| ==> nodes[i].prev == At(nodes, i - 1)) &&
      (forall i, j :: 0 <= i < j < |nodes| ==> nodes[i] != nodes[j])
    }

    /** The semaphores in the list, from the head. */
    ghost function Contents(): (ws: seq<nat>)
      reads this
      ensures |ws| == |nodes|
    {
      DataOf(nodes)
    }

    /** list_create */
    constructor ()
      ensures Valid() && Contents() == [] && nodes == []
    {
      head := null;
      count := 0;
      nodes := [];
    }

    /** list_find */
    method Find(t: nat) returns (node: ListNode?)
      requires Valid()
      ensures node == null <==> t !in Contents()
      ensures node != null ==>
              exists k :: 0 <= k < |nodes| && nodes[k] == node && t !in Contents()[..k] && Contents()[k] == t
    {
      node := head;
      ghost var k := 0;
      while node != null
        invariant 0 <= k <= |nodes|
        invariant node == At(nodes, k)
        invariant t !in Contents()[..k]
        decreases |nodes| - k
      {
        assert Contents()[k] == node.data;
        if node.data == t { return; }
        node := node.next;
        assert Contents()[..k + 1] == Contents()[..k] + [Contents()[k]];
        k := k + 1;
      }
      assert Contents()[..k] == Contents();
    }

    /** list_insert */
    method Insert(t: nat)
      requires Valid()
      modifies this, nodes
      ensures Valid() && Contents() == [t] + old(Contents())
      ensures |nodes| == |old(nodes)| + 1 && nodes[1..] == old(nodes) && fresh(nodes[0])
    {
      var node := new ListNode(t, head);
      if head != null { head.prev := node; }
      head := node;
      count := count + 1;
      nodes := [node] + nodes;
    }

    /** The pointer writes of list_remove, with the ghost list still the old one. */
    method Unlink(node: ListNode, ghost k: nat)
      requires Valid() && k < |nodes| && nodes[k] == node
      modifies this`head, nodes
      ensures head == (if k == 0 then At(nodes, 1) else old(head))
      ensures forall i {:trigger nodes[i].next} :: 0 <= i < |nodes| && i != k ==>
                nodes[i].next == (if i == k - 1 then At(nodes, k + 1) else At(nodes, i + 1))
      ensures forall i {:trigger nodes[i].prev} :: 0 <= i < |nodes| && i != k ==>
                nodes[i].prev == (if i == k + 1 then At(nodes, k - 1) else At(nodes, i - 1))
    {
      assert node.prev == At(nodes, k - 1) && node.next == At(nodes, k + 1);
      if node.prev != null { node.prev.next := node.next; } else { head := node.next; }
      if node.next != null { node.next.prev := node.prev; }
    }

    /** list_remove of the k-th node; the node itself is freed by the source. */
    method Remove(node: ListNode, ghost k: nat)
      requires Valid() && k < |nodes| && nodes[k] == node
      modifies this, nodes
      ensures Valid() && nodes == old(nodes)[..k] + old(nodes)[k + 1..]
      ensures Contents() == old(Contents())[..k] + old(Contents())[k + 1..]
    {
      Unlink(node, k);
      ghost var was := nodes;
      nodes := was[..k] + was[k + 1..];
      count := count - 1;
      LinksAfterUnlink(was, k);
      DataWithout(was, k);
    }

    /** What channel_select does under the list lock to register. */
    method Register(t: nat)
      requires Valid()
      modifies this, nodes
      ensures Valid() && Contents() == InsertIfAbsent(old(Contents()), t)
    {
      var node := Find(t);
      if node == null { Insert(t); }
    }

    /** What channel_select does under the list lock to unregister. */
    method Unregister(t: nat)
      requires Valid()
      modifies this, nodes
      ensures Valid() && Contents() == RemoveFirst(old(Contents()), t)
    {
      var node := Find(t);
      if node != null {
        ghost var k :| 0 <= k < |nodes| && nodes[k] == node && t !in Contents()[..k] && Contents()[k] == t;
        RemoveFirstAt(Contents(), t, k);
        Remove(node, k);
      } else {
        RemoveAbsent(Contents(), t);
      }
    }

    /** list_foreach: post the semaphore of every node. */
    method Foreach(sems: array<nat>)
      requires Valid() && forall k :: 0 <= k < |nodes| ==> nodes[k].data < sems.Length
      modifies sems
      ensures sems[..] == PostAll(old(sems[..]), Contents())
    {
      var curr := head;
      ghost var k, ws, was := 0, Contents(), sems[..];
      while curr != null
        invariant 0 <= k <= |nodes|
        invariant curr == At(nodes, k)
        invariant sems[..] == PostAll(was, ws[..k])
        decreases |nodes| - k
      {
        assert ws[..k + 1] == ws[..k] + [curr.data];
        PostAllAppend(was, ws[..k], curr.data);
        ghost var now := sems[..];
        sems[curr.data] := sems[curr.data] + 1;
        assert sems[..] == Post(now, curr.data);
        curr := curr.next;
        k := k + 1;
      }
      assert ws[..k] == ws;
    }
  }
}
