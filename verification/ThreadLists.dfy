/** Thread control blocks and the two linked structures that hold them: a circular queue known by its rear,
    and a singly linked list. */
module ThreadLists {
  import opened SchedState

  class Tcb {
    const id: nat
    var join: nat
    var seeking: nat
    var quantums: nat
    var used: nat
    var fully: bool
    var prio: nat
    var scheduled: bool
    /** The mutex of the lock call the thread is in: part of its program counter. */
    ghost var locking: nat
    /** The mutex that the thread has released in a destroy call and not yet taken off the list. */
    ghost var destroying: nat
    /** The thread that a join call has tested, if it has come no further. */
    ghost var joining: Target

    ghost function View(): Thread
      reads this
    {
      Thread(join, seeking, quantums, used, fully, prio, scheduled, locking, destroying, joining)
    }

    constructor (id: nat)
      ensures this.id == id && View() == NEWBORN
    {
      this.id := id;
      join, seeking, quantums, used, fully, prio, scheduled := 0, 0, 0, 0, false, 0, false;
      locking, destroying, joining := 0, 0, Nobody;
    }

    predicate IsBlocked()
      reads this
      ensures IsBlocked() <==> View().Blocked()
    {
      join != 0 || seeking != 0
    }
  }

  /** Has `t` used no more than `other`? */
  predicate CompareUsage(t: Tcb, other: Tcb)
    reads t, other
    ensures CompareUsage(t, other) <==> t.View().AtMost(other.View())
  {
    t.quantums < other.quantums || (t.quantums == other.quantums && t.used <= other.used)
  }

  class Node {
    const data: Tcb
    var next: Node?

    constructor (data: Tcb, next: Node?)
      ensures this.data == data && this.next == next
    {
      this.data, this.next := data, next;
    }
  }

  /** The threads along a chain of nodes. */
  ghost function Along(spine: seq<Node>): (r: seq<Tcb>)
    ensures |r| == |spine| && forall i :: 0 <= i < |r| ==> r[i] == spine[i].data
  {
    seq(|spine|, i requires 0 <= i < |spine| => spine[i].data)
  }

  lemma AlongPut(spine: seq<Node>, k: nat, n: Node)
    requires k <= |spine|
    ensures Along(spine[..k] + [n] + spine[k..]) == Along(spine)[..k] + [n.data] + Along(spine)[k..]
  {
  }

  /** Is `k` the first position of a thread with id `target`? */
  ghost predicate FirstWithId(ts: seq<Tcb>, target: nat, k: nat) {
    k < |ts| && ts[k].id == target && forall i :: 0 <= i < k ==> ts[i].id != target
  }

  /** Is `k` where `t` belongs: the first position of a thread that has used at least as much? */
  ghost predicate Place(ts: seq<Tcb>, t: Tcb, k: nat)
    reads t, ts
  {
    && k <= |ts|
    && (k < |ts| ==> t.View().AtMost(ts[k].View()))
    && (forall i :: 0 <= i < k ==> !t.View().AtMost(ts[i].View()))
  }

  class Queue {
    var size: nat
    var rear: Node?
    /** The nodes, front first. */
    ghost var spine: seq<Node>
    /** The nodes it may use, among them all of those. */
    ghost var nodes: set<Node>

    ghost predicate Valid()
      reads this, nodes
    {
      && (forall i :: 0 <= i < |spine| ==> spine[i] in nodes)
      && size == |spine|
      && rear == (if spine == [] then null else spine[|spine| - 1])
      && (forall i :: 0 <= i < |spine| - 1 ==> spine[i].next == spine[i + 1])
      && (spine != [] ==> spine[|spine| - 1].next == spine[0])
      && (forall i, j :: 0 <= i < j < |spine| ==> spine[i] != spine[j])
    }

    ghost function Contents(): seq<Tcb>
      reads this
    {
      Along(spine)
    }

    constructor ()
      ensures Valid() && Contents() == [] && nodes == {}
    {
      size, rear, spine, nodes := 0, null, [], {};
    }

    method Enqueue(t: Tcb)
      requires Valid()
      modifies this, nodes
      ensures Valid() && fresh(nodes - old(nodes)) && Contents() == old(Contents()) + [t]
    {
      var item := new Node(t, null);
      if size == 0 {
        rear := item;
        rear.next := item;
      } else {
        item.next := rear.next;
        rear.next := item;
        rear := item;
      }
      size := size + 1;
      spine, nodes := spine + [item], nodes + {item};
    }

    method Dequeue() returns (t: Tcb)
      requires Valid() && Contents() != []
      modifies this, nodes
      ensures Valid() && nodes == old(nodes) && [t] + Contents() == old(Contents())
    {
      var front: Node;
      if size == 1 {
        front := rear;
        front.next := null;
        rear := null;
      } else {
        front := rear.next;
        rear.next := front.next;
      }
      size := size - 1;
      t := front.data;
      spine := spine[1..];
    }
  }

  class List {
    var size: nat
    var front: Node?
    ghost var spine: seq<Node>
    /** The nodes it may use, among them all of those. */
    ghost var nodes: set<Node>

    ghost predicate Valid()
      reads this, nodes
    {
      && (forall i :: 0 <= i < |spine| ==> spine[i] in nodes)
      && size == |spine|
      && front == (if spine == [] then null else spine[0])
      && (forall i :: 0 <= i < |spine| - 1 ==> spine[i].next == spine[i + 1])
      && (spine != [] ==> spine[|spine| - 1].next == null)
      && (forall i, j :: 0 <= i < j < |spine| ==> spine[i] != spine[j])
    }

    ghost function Contents(): seq<Tcb>
      reads this
    {
      Along(spine)
    }

    constructor ()
      ensures Valid() && Contents() == [] && nodes == {}
    {
      size, front, spine, nodes := 0, null, [], {};
    }

    /** The node after the first `k`. */
    ghost function NodeAt(k: nat): Node?
      reads this
    {
      if k < |spine| then spine[k] else null
    }

    method InsertAtFront(t: Tcb)
      requires Valid()
      modifies this
      ensures Valid() && fresh(nodes - old(nodes)) && Contents() == [t] + old(Contents())
    {
      var item := new Node(t, front);
      size := size + 1;
      front := item;
      spine, nodes := [item] + spine, nodes + {item};
    }

    /** Unlinks the first node whose thread has id `target`, the node at `k`. */
    method RemoveFrom(target: nat) returns (t: Tcb, ghost k: nat)
      requires Valid() && exists i :: 0 <= i < |Contents()| && Contents()[i].id == target
      modifies this, nodes
      ensures Valid() && nodes == old(nodes) && FirstWithId(old(Contents()), target, k)
      ensures t == old(Contents())[k] && Contents() == old(Contents())[..k] + old(Contents())[k + 1..]
    {
      if front.data.id == target {
        k, t := 0, front.data;
        RemoveFront();
        return;
      }
      var prev, ptr;
      prev, ptr, k := Locate(target);
      t := ptr.data;
      Unlink(prev, ptr, k);
    }

    method RemoveFront()
      requires Valid() && spine != []
      modifies this
      ensures Valid() && nodes == old(nodes) && spine == old(spine)[1..]
    {
      front := front.next;
      size := size - 1;
      spine := spine[1..];
    }

    /** The first node for `target`, at `k`, and the one before it. */
    method Locate(target: nat) returns (prev: Node, ptr: Node, ghost k: nat)
      requires Valid() && exists i :: 0 <= i < |Contents()| && Contents()[i].id == target
      requires spine[0].data.id != target
      ensures 1 <= k < |spine| && ptr == spine[k] && prev == spine[k - 1] && FirstWithId(Contents(), target, k)
    {
      ghost var i :| 0 <= i < |Contents()| && Contents()[i].id == target;
      assert i > 0 && front.next == spine[1];
      prev, ptr, k := front, front.next, 1;
      while ptr.data.id != target
        invariant 1 <= k <= i && ptr == spine[k] && prev == spine[k - 1]
        invariant forall i :: 0 <= i < k ==> spine[i].data.id != target
        decreases |spine| - k
      {
        assert k < i && ptr.next == spine[k + 1];
        prev, ptr, k := ptr, ptr.next, k + 1;
      }
    }

    /** Takes out the node at `k`, which follows `prev`. */
    method Unlink(prev: Node, ptr: Node, ghost k: nat)
      requires Valid() && 1 <= k < |spine| && ptr == spine[k] && prev == spine[k - 1]
      modifies this, prev
      ensures Valid() && nodes == old(nodes) && spine == old(spine)[..k] + old(spine)[k + 1..]
      ensures Contents() == old(Contents())[..k] + old(Contents())[k + 1..]
    {
      prev.next := ptr.next;
      size := size - 1;
      spine := spine[..k] + spine[k + 1..];
    }

    /** Puts in a node at `k`, after `prev`. */
    method LinkAfter(prev: Node, item: Node, ghost k: nat)
      requires Valid() && 1 <= k <= |spine| && prev == spine[k - 1] && item !in spine && item.next == NodeAt(k)
      modifies this, prev
      ensures Valid() && nodes == old(nodes) + {item} && spine == old(spine)[..k] + [item] + old(spine)[k..]
      ensures Contents() == old(Contents())[..k] + [item.data] + old(Contents())[k..]
    {
      hide Along;
      AlongPut(spine, k, item);
      prev.next := item;
      size := size + 1;
      spine, nodes := spine[..k] + [item] + spine[k..], nodes + {item};
    }

    /** Inserts `t` before the first thread that has used at least as much. */
    method InsertByUsage(t: Tcb) returns (ghost k: nat)
      requires Valid()
      modifies this, nodes
      ensures Valid() && fresh(nodes - old(nodes)) && Place(old(Contents()), t, k)
      ensures Contents() == old(Contents())[..k] + [t] + old(Contents())[k..]
    {
      hide Valid, Along;
      var prev, ptr;
      prev, ptr, k := Search(t);
      if prev == null {
        InsertAtFront(t);
      } else {
        var item := new Node(t, ptr);
        LinkAfter(prev, item, k);
      }
    }

    /** The place of `t`: the node at it and the one before it, null at the front. */
    method Search(t: Tcb) returns (prev: Node?, ptr: Node?, ghost k: nat)
      requires Valid()
      ensures k <= |spine| && ptr == NodeAt(k) && prev == (if k == 0 then null else spine[k - 1])
      ensures Place(Contents(), t, k)
      ensures prev != null ==> prev in nodes
    {
      prev, ptr, k := null, front, 0;
      while ptr != null && !CompareUsage(t, ptr.data)
        invariant k <= |spine| && ptr == NodeAt(k) && prev == (if k == 0 then null else spine[k - 1])
        invariant forall i :: 0 <= i < k ==> !t.View().AtMost(spine[i].data.View())
        decreases |spine| - k
      {
        prev, ptr, k := ptr, ptr.next, k + 1;
      }
    }
  }
}
