/**
 The intrusive doubly linked list (include/vibe/sys/list.h): link surgery on the nodes, proved to be
 the sequence operations that the scheduler model uses, and what the same surgery does to a list when
 it is applied to a node that it must not be applied to.
 */
module IntrusiveList {
  import opened Seqs

  /** A node, with the number of the structure that contains it (`CONTAINER_OF`) */
  class Node {
    const id: int
    var prev: Node?
    var next: Node?

    /** `vibe_list_node_init` */
    constructor (id: int)
      ensures this.id == id && prev == null && next == null
    {
      this.id := id;
      prev, next := null, null;
    }
  }

  /** The structures that the nodes are in */
  ghost function Ids(nodes: seq<Node>): (ids: seq<int>)
    ensures |ids| == |nodes| && forall i :: 0 <= i < |nodes| ==> ids[i] == nodes[i].id
  {
    seq(|nodes|, i requires 0 <= i < |nodes| => nodes[i].id)
  }

  /** The node at `i`, NULL off either end */
  ghost function Nth(nodes: seq<Node>, i: int): Node?
  {
    if 0 <= i < |nodes| then nodes[i] else null
  }

  ghost predicate Hooked(node: Node, prev: Node?, next: Node?)
    reads node
  {
    node.prev == prev && node.next == next
  }

  /** Node `i` links to its two neighbours. */
  ghost predicate Linked(nodes: seq<Node>, i: nat)
    requires i < |nodes|
    reads nodes
  {
    Hooked(nodes[i], Nth(nodes, i - 1), Nth(nodes, i + 1))
  }

  ghost predicate AllLinked(nodes: seq<Node>)
    reads nodes
  {
    forall i {:trigger Linked(nodes, i)} :: 0 <= i < |nodes| ==> Linked(nodes, i)
  }

  ghost predicate PointsBack(nodes: seq<Node>, j: nat)
    requires 0 < j < |nodes|
    reads nodes
  {
    nodes[j].prev == nodes[j - 1]
  }

  /** Node `j` skips the node at `k`. */
  ghost predicate Skips(was: seq<Node>, k: nat, j: nat)
    requires j < |was|
    reads was
  {
    Hooked(was[j], Nth(was, if j == k + 1 then k - 1 else j - 1), Nth(was, if j == k - 1 then k + 1 else j + 1))
  }

  /** Node `j` reckons with `node` behind the node at `k`. */
  ghost predicate Admits(was: seq<Node>, k: nat, node: Node, j: nat)
    requires j < |was|
    reads was
  {
    Hooked(was[j], if j == k + 1 then node else Nth(was, j - 1), if j == k then node else Nth(was, j + 1))
  }

  /** With the neighbours of the node at `k` hooked to each other, the rest is a list. */
  lemma Closed(was: seq<Node>, k: nat)
    requires k < |was|
    requires forall j {:trigger Skips(was, k, j)} :: 0 <= j < |was| && j != k ==> Skips(was, k, j)
    ensures var nodes := was[..k] + was[k + 1..];
            && AllLinked(nodes)
            && Nth(nodes, 0) == (if k == 0 then Nth(was, 1) else Nth(was, 0))
            && Nth(nodes, |nodes| - 1) == (if k == |was| - 1 then Nth(was, k - 1) else Nth(was, |was| - 1))
  {
    var nodes := was[..k] + was[k + 1..];
    forall i | 0 <= i < |nodes|
      ensures Linked(nodes, i)
    {
      assert Skips(was, k, if i < k then i else i + 1);
    }
  }

  /** With `node` hooked in behind the node at `k`, the whole is a list. */
  lemma Opened(was: seq<Node>, k: nat, node: Node)
    requires k < |was| && Hooked(node, was[k], Nth(was, k + 1))
    requires forall j {:trigger Admits(was, k, node, j)} :: 0 <= j < |was| ==> Admits(was, k, node, j)
    ensures var nodes := was[..k + 1] + [node] + was[k + 1..];
            && AllLinked(nodes)
            && Nth(nodes, 0) == was[0]
            && Nth(nodes, |nodes| - 1) == (if k == |was| - 1 then node else Nth(was, |was| - 1))
  {
    var nodes := was[..k + 1] + [node] + was[k + 1..];
    forall i | 0 <= i < |nodes|
      ensures Linked(nodes, i)
    {
      assert i != k + 1 ==> Admits(was, k, node, if i <= k then i else i - 1);
    }
  }

  class List {
    var head: Node?
    var tail: Node?
    var count: int
    ghost var nodes: seq<Node>

    /** `vibe_list_init` */
    constructor ()
      ensures Valid() && nodes == []
    {
      head, tail, count, nodes := null, null, 0, [];
    }

    /** The links and the two ends describe the sequence. */
    ghost predicate Describes(l: seq<Node>)
      reads this, l
    {
      NoDup(l) && head == Nth(l, 0) && tail == Nth(l, |l| - 1) && AllLinked(l)
    }

    /** They describe `nodes`, and so does the counter. */
    ghost predicate Valid()
      reads this, nodes
    {
      Describes(nodes) && count == |nodes|
    }

    /** `vibe_list_is_empty` */
    method IsEmpty() returns (empty: bool)
      requires Valid()
      ensures empty <==> nodes == []
    {
      empty := head == null;
    }

    // ---------- the surgery ----------

    /** The statements of `vibe_list_append` */
    method HookLast(node: Node)
      modifies this`head, this`tail, this`count, node, tail
      ensures tail == node && count == old(count) + 1
      ensures head == if old(tail) == null then node else old(head)
      ensures old(tail) != node ==> node.prev == old(tail) && node.next == null
      ensures old(tail) == node ==> node.prev == node && node.next == node
      ensures old(tail) != null && old(tail) != node ==> Hooked(old(tail), old(tail.prev), node)
    {
      node.next := null;
      node.prev := tail;
      if tail != null {
        tail.next := node;
      } else {
        head := node;
      }
      tail := node;
      count := count + 1;
    }

    /** The statements of `vibe_list_remove` */
    method Unhook(node: Node)
      requires node.prev != node && node.next != node && (node.prev != null ==> node.prev != node.next)
      modifies this`head, this`tail, this`count, node, node.prev, node.next
      ensures node.prev == null && node.next == null && count == old(count) - 1
      ensures head == if old(node.prev) == null then old(node.next) else old(head)
      ensures tail == if old(node.next) == null then old(node.prev) else old(tail)
      ensures old(node.prev) != null ==> Hooked(old(node.prev), old(node.prev.prev), old(node.next))
      ensures old(node.next) != null ==> Hooked(old(node.next), old(node.prev), old(node.next.next))
    {
      if node.prev != null {
        node.prev.next := node.next;
      } else {
        head := node.next;
      }
      if node.next != null {
        node.next.prev := node.prev;
      } else {
        tail := node.prev;
      }
      node.prev := null;
      node.next := null;
      count := count - 1;
    }

    // ---------- used as it should be ----------

    /** `vibe_list_append` */
    method Append(node: Node)
      requires Valid() && node !in nodes
      modifies this, node, nodes
      ensures Valid() && nodes == old(nodes) + [node]
    {
      ghost var was := nodes;
      if was != [] {
        Distinct(was, |was| - 1);
        assert Linked(was, |was| - 1);
      }
      HookLast(node);
      nodes := was + [node];
      forall i | 0 <= i < |nodes|
        ensures Linked(nodes, i)
      {
        assert i < |was| ==> old(Linked(was, i));
      }
    }

    /** `vibe_list_prepend` */
    method Prepend(node: Node)
      requires Valid() && node !in nodes
      modifies this, node, nodes
      ensures Valid() && nodes == [node] + old(nodes)
    {
      ghost var was := nodes;
      if was != [] {
        Distinct(was, 0);
        assert Linked(was, 0);
      }
      node.prev := null;
      node.next := head;
      if head != null {
        head.prev := node;
      } else {
        tail := node;
      }
      head := node;
      count := count + 1;
      nodes := [node] + was;
      forall i | 0 <= i < |nodes|
        ensures Linked(nodes, i)
      {
        assert i > 0 ==> old(Linked(was, i - 1));
      }
    }

    /** `vibe_list_insert_after`, where `after` is the node at `k` */
    method InsertAfter(after: Node, node: Node, ghost k: nat)
      requires Valid() && node !in nodes && k < |nodes| && nodes[k] == after
      modifies this, node, nodes
      ensures Valid() && nodes == old(nodes)[..k + 1] + [node] + old(nodes)[k + 1..]
    {
      hide NoDup;
      ghost var was := nodes;
      NoDupInsert(was, k + 1, node);
      Distinct(was, k);
      if k + 1 < |was| {
        Distinct(was, k + 1);
        assert Linked(was, k + 1);
      }
      assert Linked(was, k);
      node.prev := after;
      node.next := after.next;
      if after.next != null {
        after.next.prev := node;
      } else {
        tail := node;
      }
      after.next := node;
      count := count + 1;
      nodes := was[..k + 1] + [node] + was[k + 1..];
      forall j | 0 <= j < |was|
        ensures Admits(was, k, node, j)
      {
        assert old(Linked(was, j));
      }
      Opened(was, k, node);
    }

    /** `vibe_list_remove`: the node need not be looked up, only unhooked. */
    method Remove(node: Node)
      requires Valid() && node in nodes
      modifies this, nodes
      ensures Valid() && nodes == Without(old(nodes), node)
      ensures node.prev == null && node.next == null
    {
      hide Without, NoDup;
      ghost var was := nodes;
      ghost var k :| 0 <= k < |was| && was[k] == node;
      WithoutIndex(was, k);
      WithoutMembers(was, node);
      Distinct(was, k);
      if k > 0 {
        Distinct(was, k - 1);
      }
      if k + 1 < |was| {
        Distinct(was, k + 1);
      }
      assert Linked(was, k);
      Unhook(node);
      nodes := was[..k] + was[k + 1..];
      forall j | 0 <= j < |was| && j != k
        ensures Skips(was, k, j)
      {
        assert old(Linked(was, j));
      }
      Closed(was, k);
    }

    /** `vibe_list_get_head` */
    method GetHead() returns (node: Node?)
      requires Valid()
      modifies this, nodes
      ensures Valid()
      ensures old(nodes) == [] ==> node == null && nodes == []
      ensures old(nodes) != [] ==> node == old(nodes)[0] && nodes == old(nodes)[1..]
    {
      node := head;
      if node != null {
        WithoutIndex(nodes, 0);
        Remove(node);
      }
    }

    // ---------- used as it should not be ----------

    /** Removing a node that is in no list cuts off the whole list, and counts one down. */
    method RemoveStray(node: Node)
      requires Valid() && node.prev == null && node.next == null && node !in nodes
      modifies this, node
      ensures Describes([]) && count == |old(nodes)| - 1
    {
      Unhook(node);
    }

    /** Appending a node that is in the list already leaves links that describe no list at all. */
    method AppendAgain(node: Node)
      requires Valid() && node in nodes
      modifies this, node, nodes
      ensures count == old(count) + 1 && forall l: seq<Node> {:trigger Describes(l)} :: !Describes(l)
    {
      ghost var was := nodes;
      ghost var k :| 0 <= k < |was| && was[k] == node;
      Distinct(was, k);
      if k < |was| - 1 {
        Distinct(was, |was| - 1);
      }
      HookLast(node);
      forall j | k < j < |was|
        ensures PointsBack(was, j)
      {
        assert old(Linked(was, j));
      }
      forall l: seq<Node>
        ensures !Describes(l)
      {
        LeadsBack(l, was, k, node);
      }
    }

    /** From the new tail the links lead back to the node itself, so what they describe is no list. */
    lemma LeadsBack(l: seq<Node>, was: seq<Node>, k: nat, node: Node)
      requires k < |was| && was[k] == node && tail == node
      requires forall j {:trigger PointsBack(was, j)} :: k < j < |was| ==> PointsBack(was, j)
      requires node.prev == if k < |was| - 1 then was[|was| - 1] else node
      ensures !Describes(l)
    {
      if tail == Nth(l, |l| - 1) && AllLinked(l) {
        var i := Back(l, was, k, node, |was| - k);
        assert !NoDup(l);
      }
    }

    lemma {:induction false} Back(l: seq<Node>, was: seq<Node>, k: nat, node: Node, j: nat) returns (i: nat)
      requires k < |was| && was[k] == node && tail == node && tail == Nth(l, |l| - 1) && AllLinked(l)
      requires forall j {:trigger PointsBack(was, j)} :: k < j < |was| ==> PointsBack(was, j)
      requires node.prev == if k < |was| - 1 then was[|was| - 1] else node
      requires 0 < j <= |was| - k
      ensures i == |l| - 1 - j && l[i] == was[|was| - j] && l[|l| - 1] == node
    {
      assert Linked(l, |l| - 1);
      if j == 1 {
        i := |l| - 2;
      } else {
        i := Back(l, was, k, node, j - 1);
        assert Linked(l, i) && PointsBack(was, |was| - j + 1);
        i := i - 1;
      }
    }
  }
}
