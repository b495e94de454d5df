/** thread/threadlist.c: a doubly linked list of threads between two bookend nodes.

    The node of a thread is embedded in the thread. `nodes` is the whole chain, with the
    bookends; the list is the threads of the nodes between them.
  */
module ThreadLists {
  class Node {
    var prev: Node?
    var next: Node?
    var self: Thread?

    constructor ()
      ensures prev == null && next == null && self == null
    {
      prev, next, self := null, null, null;
    }
  }

  class Thread {
    const node: Node

    /** threadlistnode_init */
    constructor ()
      ensures fresh(node) && Detached()
    {
      node := new Node();
      new;
      node.self := this;
    }

    /** On no list: fully unlinked. */
    predicate Detached()
      reads node
    {
      node.self == this && node.prev == null && node.next == null
    }
  }

  /** Neighbours i and i + 1 of the chain point at each other. */
  ghost predicate Joined(nodes: seq<Node>, i: nat)
    requires i + 1 < |nodes|
    reads nodes[i], nodes[i + 1]
  {
    nodes[i].next == nodes[i + 1] && nodes[i + 1].prev == nodes[i]
  }

  ghost predicate Distinct(nodes: seq<Node>) {
    forall i, j | 0 <= i < j < |nodes| :: nodes[i] != nodes[j]
  }

  ghost function Insert(nodes: seq<Node>, k: nat, n: Node): seq<Node>
    requires k <= |nodes|
  {
    nodes[..k] + [n] + nodes[k..]
  }

  ghost function Delete(nodes: seq<Node>, k: nat): seq<Node>
    requires k < |nodes|
  {
    nodes[..k] + nodes[k + 1..]
  }

  lemma ShiftedIn(nodes: seq<Node>, k: nat, n: Node)
    requires 0 < k < |nodes| && Distinct(nodes) && n !in nodes
    ensures var s := Insert(nodes, k, n);
            && s[k] == n && s[k - 1] == nodes[k - 1] && s[k + 1] == nodes[k] && Distinct(s)
            && forall i | 0 <= i < |s| && i != k :: s[i] == nodes[if i < k then i else i - 1]
  {
  }

  lemma ShiftedOut(nodes: seq<Node>, k: nat)
    requires 0 < k < |nodes| - 1 && Distinct(nodes)
    ensures var s := Delete(nodes, k);
            && nodes[k] !in s && Distinct(s) && forall i | 0 <= i < |s| :: s[i] == nodes[if i < k then i else i + 1]
  {
  }

  class ThreadList {
    const head: Node
    const tail: Node
    var count: nat
    ghost var nodes: seq<Node>

    ghost predicate Chained()
      reads this, nodes
    {
      && |nodes| >= 2 && nodes[0] == head && nodes[|nodes| - 1] == tail && Distinct(nodes)
      && head.prev == null && tail.next == null && head.self == null && tail.self == null
      && (forall i | 0 <= i < |nodes| - 1 :: Joined(nodes, i))
      && (forall i | 0 < i < |nodes| - 1 :: nodes[i].self != null && nodes[i].self.node == nodes[i])
    }

    /** tl_count is the number of threads. */
    ghost predicate Valid()
      reads this, nodes
    {
      Chained() && count == |nodes| - 2
    }

    ghost function Contents(): (s: seq<Thread>)
      requires Chained()
      reads this, nodes
      ensures |s| == |nodes| - 2 && forall i | 0 <= i < |s| :: s[i] == nodes[i + 1].self
    {
      seq(|nodes| - 2, i requires 0 <= i < |nodes| - 2 reads this, nodes => nodes[i + 1].self)
    }

    /** threadlist_init */
    constructor ()
      ensures Valid() && Contents() == [] && fresh(head) && fresh(tail) && nodes == [head, tail]
    {
      var h := new Node();
      var t := new Node();
      h.next, t.prev := t, h;
      head, tail, count := h, t, 0;
      nodes := [h, t];
    }

    /** threadlist_insertafternode: t goes after the node at position k. */
    method InsertAfterNode(onlist: Node, t: Thread, ghost k: nat)
      requires Chained() && k < |nodes| - 1 && nodes[k] == onlist && t.Detached() && t.node !in nodes
      modifies this`nodes, {nodes[k], nodes[k + 1], t.node}
      ensures Chained() && nodes == Insert(old(nodes), k + 1, t.node) && t.node.self == t
      ensures forall n | n in old(nodes) :: n.self == old(n.self)
    {
      var addee := t.node;
      assert Joined(nodes, k);
      addee.prev := onlist;
      addee.next := onlist.next;
      addee.prev.next := addee;
      addee.next.prev := addee;
      nodes := Insert(nodes, k + 1, addee);
      ShiftedIn(old(nodes), k + 1, addee);
      forall i | 0 <= i < |nodes| - 1 ensures Joined(nodes, i) {
        assert i < (k + 1) - 1 ==> old(Joined(nodes, i));
        assert i > k + 1 ==> old(Joined(nodes, i - 1));
      }
    }

    /** threadlist_insertbeforenode: t goes before the node at position k. */
    method InsertBeforeNode(t: Thread, onlist: Node, ghost k: nat)
      requires Chained() && 0 < k < |nodes| && nodes[k] == onlist && t.Detached() && t.node !in nodes
      modifies this`nodes, {nodes[k - 1], nodes[k], t.node}
      ensures Chained() && nodes == Insert(old(nodes), k, t.node) && t.node.self == t
      ensures forall n | n in old(nodes) :: n.self == old(n.self)
    {
      var addee := t.node;
      assert Joined(nodes, k - 1);
      addee.prev := onlist.prev;
      addee.next := onlist;
      addee.prev.next := addee;
      addee.next.prev := addee;
      nodes := Insert(nodes, k, addee);
      ShiftedIn(old(nodes), k, addee);
      forall i | 0 <= i < |nodes| - 1 ensures Joined(nodes, i) {
        assert i < k - 1 ==> old(Joined(nodes, i));
        assert i > k ==> old(Joined(nodes, i - 1));
      }
    }

    /** threadlist_removenode: the node at position k is unlinked completely. */
    method RemoveNode(tln: Node, ghost k: nat)
      requires Chained() && 0 < k < |nodes| - 1 && nodes[k] == tln
      modifies this`nodes, {nodes[k - 1], nodes[k + 1], tln}
      ensures Chained() && nodes == Delete(old(nodes), k) && tln.prev == null && tln.next == null && tln !in nodes
      ensures forall n | n in old(nodes) :: n.self == old(n.self)
    {
      assert Joined(nodes, k - 1) && Joined(nodes, k);
      tln.prev.next := tln.next;
      tln.next.prev := tln.prev;
      tln.prev := null;
      tln.next := null;
      nodes := Delete(nodes, k);
      ShiftedOut(old(nodes), k);
      forall i | 0 <= i < |nodes| - 1 ensures Joined(nodes, i) {
        assert i < k - 1 ==> old(Joined(nodes, i));
        assert i >= k ==> old(Joined(nodes, i + 1));
      }
    }

    /** threadlist_addhead */
    method AddHead(t: Thread)
      requires Valid() && t.Detached() && t.node !in nodes
      modifies this, {nodes[0], nodes[1], t.node}
      ensures Valid() && Contents() == [t] + old(Contents())
    {
      InsertAfterNode(head, t, 0);
      count := count + 1;
    }

    /** threadlist_addtail */
    method AddTail(t: Thread)
      requires Valid() && t.Detached() && t.node !in nodes
      modifies this, {nodes[|nodes| - 2], nodes[|nodes| - 1], t.node}
      ensures Valid() && Contents() == old(Contents()) + [t]
    {
      InsertBeforeNode(t, tail, |nodes| - 1);
      count := count + 1;
    }

    /** threadlist_remhead: the first thread, or null from an empty list. */
    method RemHead() returns (t: Thread?)
      requires Valid()
      modifies this, {nodes[0], nodes[1], nodes[if |nodes| > 2 then 2 else 0]}
      ensures Valid() && (t == null <==> old(Contents()) == []) && (t == null ==> nodes == old(nodes))
      ensures t != null ==> t.Detached() && old(Contents()) == [t] + Contents()
    {
      assert Joined(nodes, 0);
      var tln := head.next;
      assert |nodes| > 2 ==> Joined(nodes, 1);
      if tln.next == null {
        return null;
      }
      RemoveNode(tln, 1);
      count := count - 1;
      t := tln.self;
    }

    /** threadlist_remtail */
    method RemTail() returns (t: Thread?)
      requires Valid()
      modifies this, {nodes[|nodes| - 1], nodes[|nodes| - 2], nodes[if |nodes| > 2 then |nodes| - 3 else 0]}
      ensures Valid() && (t == null <==> old(Contents()) == []) && (t == null ==> nodes == old(nodes))
      ensures t != null ==> t.Detached() && old(Contents()) == Contents() + [t]
    {
      assert Joined(nodes, |nodes| - 2);
      var tln := tail.prev;
      assert |nodes| > 2 ==> Joined(nodes, |nodes| - 3);
      if tln.prev == null {
        return null;
      }
      RemoveNode(tln, |nodes| - 2);
      count := count - 1;
      t := tln.self;
    }

    /** threadlist_insertafter: after the thread at position k. */
    method InsertAfter(onlist: Thread, addee: Thread, ghost k: nat)
      requires Valid() && k < |Contents()| && Contents()[k] == onlist && addee.Detached() && addee.node !in nodes
      modifies this, {nodes[k + 1], nodes[k + 2], addee.node}
      ensures Valid() && Contents() == old(Contents())[..k + 1] + [addee] + old(Contents())[k + 1..]
    {
      InsertAfterNode(onlist.node, addee, k + 1);
      count := count + 1;
    }

    /** threadlist_insertbefore */
    method InsertBefore(addee: Thread, onlist: Thread, ghost k: nat)
      requires Valid() && k < |Contents()| && Contents()[k] == onlist && addee.Detached() && addee.node !in nodes
      modifies this, {nodes[k], nodes[k + 1], addee.node}
      ensures Valid() && Contents() == old(Contents())[..k] + [addee] + old(Contents())[k..]
    {
      InsertBeforeNode(addee, onlist.node, k + 1);
      count := count + 1;
    }

    /** threadlist_remove */
    method Remove(t: Thread, ghost k: nat)
      requires Valid() && k < |Contents()| && Contents()[k] == t
      modifies this, {nodes[k], nodes[k + 2], t.node}
      ensures Valid() && t.Detached() && Contents() == old(Contents())[..k] + old(Contents())[k + 1..]
    {
      RemoveNode(t.node, k + 1);
      count := count - 1;
    }
  }
}
