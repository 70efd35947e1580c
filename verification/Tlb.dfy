/** The translation lookaside buffer: a singly linked list of (address, cell) pairs,
    most recently used first. */
module Tlb {
  import Arithmetic

  /** A cached translation: a virtual address and the page-table cell of its page. */
  datatype Entry = Entry(va: nat, cell: nat)

  class Node {
    const entry: Entry
    var next: Node?

    constructor (entry: Entry, next: Node?)
      ensures this.entry == entry && this.next == next
    {
      this.entry := entry;
      this.next := next;
    }
  }

  ghost function EntriesOf(nodes: seq<Node>): (r: seq<Entry>)
    ensures |r| == |nodes|
    ensures forall i :: 0 <= i < |r| ==> r[i] == nodes[i].entry
  {
    seq(|nodes|, i requires 0 <= i < |nodes| => nodes[i].entry)
  }

  ghost function NodeSet(nodes: seq<Node>): set<Node> {
    set n | n in nodes
  }

  class Cache {
    const pageSize: nat
    const capacity: nat
    var size: nat
    var front: Node?
    /** The nodes from `front` on, and the set of them. */
    ghost var spine: seq<Node>
    ghost var repr: set<Node>

    ghost predicate Valid()
      reads this, spine
    {
      && repr == NodeSet(spine)
      && pageSize > 0 && capacity > 0
      && size == |spine|
      && front == (if spine == [] then null else spine[0])
      && (forall i, j :: 0 <= i < j < |spine| ==> spine[i] != spine[j])
      && (forall i :: 0 <= i < |spine| - 1 ==> spine[i].next == spine[i + 1])
      && (spine != [] ==> spine[|spine| - 1].next == null)
    }

    ghost function Contents(): (r: seq<Entry>)
      reads this, spine
      ensures |r| == |spine|
    {
      EntriesOf(spine)
    }

    constructor (pageSize: nat, capacity: nat)
      requires pageSize > 0 && capacity > 0
      ensures Valid() && spine == [] && repr == {} && this.pageSize == pageSize && this.capacity == capacity
    {
      this.pageSize := pageSize;
      this.capacity := capacity;
      size := 0;
      front := null;
      spine, repr := [], {};
    }

    /** Do the two addresses lie in the same page? */
    predicate Equivalent(va1: nat, va2: nat)
      requires pageSize > 0
    {
      Arithmetic.Quotient(va1, pageSize) == Arithmetic.Quotient(va2, pageSize)
    }

    /** Unlinks and returns the first entry for the page of `target`, or returns null.
        `k` is its position, or the length of the list. */
    method SearchAndRemove(target: nat) returns (found: Node?, ghost k: nat)
      requires Valid()
      modifies this, repr
      ensures Valid() && repr <= old(repr)
      ensures k <= |old(Contents())|
      ensures forall i :: 0 <= i < k ==> !Equivalent(old(Contents())[i].va, target)
      ensures found == null <==> k == |old(Contents())|
      ensures found == null ==> Contents() == old(Contents()) && size == old(size)
      ensures found != null ==>
        && found.entry == old(Contents())[k] && Equivalent(found.entry.va, target)
        && found in old(repr) && found !in repr && size + 1 == old(size)
        && Contents() == old(Contents())[..k] + old(Contents())[k + 1..]
    {
      found, k := null, 0;
      if size >= 1 {
        if Equivalent(front.entry.va, target) {
          found := front;
          front := found.next;
          size := size - 1;
          found.next := null;
          spine := spine[1..];
          repr := NodeSet(spine);
          return;
        }
        var prev, ptr;
        prev, ptr, k := Search(target);
        if ptr != null {
          Unlink(prev, ptr, k);
        }
        found := ptr;
      }
    }

    /** Walks the list behind its front up to the first entry for the page of `target`. */
    method Search(target: nat) returns (prev: Node, ptr: Node?, ghost k: nat)
      requires Valid() && size >= 1 && !Equivalent(front.entry.va, target)
      ensures 1 <= k <= |spine| && prev == spine[k - 1]
      ensures ptr == if k < |spine| then spine[k] else null
      ensures ptr != null ==> Equivalent(ptr.entry.va, target)
      ensures forall i :: 0 <= i < k ==> !Equivalent(spine[i].entry.va, target)
    {
      prev := front;
      ptr := front.next;
      k := 1;
      while ptr != null && !Equivalent(ptr.entry.va, target)
        invariant 1 <= k <= |spine| && prev == spine[k - 1]
        invariant ptr == if k < |spine| then spine[k] else null
        invariant forall i :: 0 <= i < k ==> !Equivalent(spine[i].entry.va, target)
        decreases |spine| - k
      {
        prev := prev.next;
        ptr := ptr.next;
        k := k + 1;
      }
    }

    method Unlink(prev: Node, ptr: Node, ghost k: nat)
      requires Valid() && 1 <= k < |spine| && prev == spine[k - 1] && ptr == spine[k]
      modifies this, prev, ptr
      ensures Valid() && repr <= old(repr) && ptr !in repr && size + 1 == old(size)
      ensures spine == old(spine)[..k] + old(spine)[k + 1..]
    {
      prev.next := ptr.next;
      size := size - 1;
      ptr.next := null;
      spine := spine[..k] + spine[k + 1..];
      repr := NodeSet(spine);
    }

    /** Drops the last, that is least recently used, entry. */
    method EvictLeastRecent()
      requires Valid()
      modifies this, repr
      ensures Valid() && repr <= old(repr)
      ensures Contents() == if |old(Contents())| == 0 then [] else old(Contents())[..|old(Contents())| - 1]
      ensures size == if old(size) == 0 then 0 else old(size) - 1
    {
      if size == 0 {
        return;
      } else if size == 1 {
        size := size - 1;
        front := null;
        spine, repr := [], {};
        return;
      }
      var prev := front;
      var ptr := prev.next;
      ghost var k := 1;
      while ptr.next != null
        invariant 1 <= k < |spine|
        invariant prev == spine[k - 1] && ptr == spine[k]
        invariant k < |spine| - 1 ==> ptr.next == spine[k + 1]
        decreases |spine| - k
      {
        prev := prev.next;
        ptr := ptr.next;
        k := k + 1;
      }
      prev.next := null;
      size := size - 1;
      spine := spine[..|spine| - 1];
      repr := NodeSet(spine);
    }

    /** Puts an unlinked entry in front. */
    method Reinsert(item: Node)
      requires Valid() && item !in repr
      modifies this, item
      ensures Valid() && repr == old(repr) + {item} && size == old(size) + 1
      ensures Contents() == [item.entry] + old(Contents())
    {
      item.next := front;
      front := item;
      size := size + 1;
      spine := [item] + spine;
      repr := NodeSet(spine);
    }

    /** Caches a translation in front, after making room for it. */
    method Add(va: nat, cell: nat)
      requires Valid() && size <= capacity
      modifies this, repr
      ensures Valid() && size <= capacity && fresh(repr - old(repr))
      ensures Contents() == [Entry(va, cell)] +
        (if |old(Contents())| == capacity then old(Contents())[..capacity - 1] else old(Contents()))
    {
      hide NodeSet;
      if size == capacity {
        EvictLeastRecent();
      }
      var item := new Node(Entry(va, cell), front);
      Reinsert(item);
    }
  }
}
