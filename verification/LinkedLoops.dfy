/** The loops of the two schedulers over their linked structures: taking in new arrivals, and searching a level. Each
    does to the lists of ids what the state machine says. */
module LinkedLoops {
  import opened Collections
  import opened SchedState
  import opened SchedInv
  import opened ThreadLists
  import opened Schedulers

  lemma Sized(q: Queue)
    requires q.Valid()
    ensures q.size == |q.Contents()|
  {
  }

  // ---- New arrivals, feedback policy

  ghost predicate Apart(arrival: Queue, top: Queue, tcbs: List)
    reads arrival, arrival.nodes, top, top.nodes, tcbs, tcbs.nodes
  {
    && arrival.Valid() && top.Valid() && tcbs.Valid() && arrival != top
    && arrival.nodes !! top.nodes && arrival.nodes !! tcbs.nodes && top.nodes !! tcbs.nodes
  }

  /** New arrivals go behind the top level, and in front of the list of threads. */
  method AdmitArrivals(arrival: Queue, top: Queue, tcbs: List)
    requires Apart(arrival, top, tcbs)
    modifies arrival, arrival.nodes, top, top.nodes, tcbs
    ensures Apart(arrival, top, tcbs) && arrival.Contents() == []
    ensures IdsOf(top.Contents()) == old(IdsOf(top.Contents())) + old(IdsOf(arrival.Contents()))
    ensures IdsOf(tcbs.Contents()) == Reversed(old(IdsOf(arrival.Contents()))) + old(IdsOf(tcbs.Contents()))
  {
    hide Queue.Valid, List.Valid, Along, IdsOf, Reversed;
    ghost var a0, t0, l0 := IdsOf(arrival.Contents()), IdsOf(top.Contents()), IdsOf(tcbs.Contents());
    Sized(arrival);
    while arrival.size != 0
      invariant Apart(arrival, top, tcbs) && arrival.size == |arrival.Contents()|
      invariant arrival.nodes == old(arrival.nodes)
      invariant fresh(top.nodes - old(top.nodes)) && fresh(tcbs.nodes - old(tcbs.nodes))
      invariant IdsOf(top.Contents()) + IdsOf(arrival.Contents()) == t0 + a0
      invariant Reversed(IdsOf(arrival.Contents())) + IdsOf(tcbs.Contents()) == Reversed(a0) + l0
      decreases arrival.size
    {
      MovedOne(arrival.Contents(), top.Contents(), tcbs.Contents());
      AdmitOne(arrival, top, tcbs);
    }
    MovedAll(top.Contents(), tcbs.Contents());
  }

  method AdmitOne(arrival: Queue, top: Queue, tcbs: List)
    requires Apart(arrival, top, tcbs) && arrival.Contents() != []
    modifies arrival, arrival.nodes, top, top.nodes, tcbs
    ensures Apart(arrival, top, tcbs) && arrival.size == |arrival.Contents()| && arrival.nodes == old(arrival.nodes)
    ensures fresh(top.nodes - old(top.nodes)) && fresh(tcbs.nodes - old(tcbs.nodes))
    ensures arrival.Contents() == old(arrival.Contents())[1..]
    ensures top.Contents() == old(top.Contents()) + [old(arrival.Contents())[0]]
    ensures tcbs.Contents() == [old(arrival.Contents())[0]] + old(tcbs.Contents())
  {
    hide Queue.Valid, List.Valid, Along;
    var t := arrival.Dequeue();
    top.Enqueue(t);
    tcbs.InsertAtFront(t);
    Sized(arrival);
  }

  lemma MovedOne(a: seq<Tcb>, t: seq<Tcb>, l: seq<Tcb>)
    ensures a != [] ==> IdsOf(t + [a[0]]) + IdsOf(a[1..]) == IdsOf(t) + IdsOf(a)
    ensures a != [] ==> Reversed(IdsOf(a[1..])) + IdsOf([a[0]] + l) == Reversed(IdsOf(a)) + IdsOf(l)
  {
    if a != [] {
      assert IdsOf(a)[1..] == IdsOf(a[1..]);
      assert IdsOf([a[0]] + l) == [a[0].id] + IdsOf(l);
    }
  }

  lemma MovedAll(t: seq<Tcb>, l: seq<Tcb>)
    ensures IdsOf(t) + IdsOf([]) == IdsOf(t) && Reversed(IdsOf([])) + IdsOf(l) == IdsOf(l)
  {
  }

  // ---- New arrivals, shortest job first

  ghost predicate TwoApart(arrival: Queue, tcbs: List)
    reads arrival, arrival.nodes, tcbs, tcbs.nodes
  {
    arrival.Valid() && tcbs.Valid() && arrival.nodes !! tcbs.nodes
  }

  /** New arrivals go each where its usage says. */
  method GatherArrivals(arrival: Queue, tcbs: List, ghost table: seq<Tcb>)
    requires TwoApart(arrival, tcbs) && Filed(arrival.Contents(), table) && Filed(tcbs.Contents(), table)
    modifies arrival, arrival.nodes, tcbs, tcbs.nodes
    ensures TwoApart(arrival, tcbs) && arrival.Contents() == [] && Filed(tcbs.Contents(), table)
    ensures Known(|Views(table)|, old(IdsOf(arrival.Contents())))
    ensures IdsOf(tcbs.Contents()) ==
      InsertAll(Views(table), old(IdsOf(tcbs.Contents())), old(IdsOf(arrival.Contents())))
  {
    hide Queue.Valid, List.Valid, Along, IdsOf, Views, InsertAll, InsertByUsage, Filed, Known;
    ghost var a0, l0 := IdsOf(arrival.Contents()), IdsOf(tcbs.Contents());
    Sized(arrival);
    FiledKnown(arrival.Contents(), table);
    while arrival.size != 0
      invariant TwoApart(arrival, tcbs) && arrival.size == |arrival.Contents()|
      invariant arrival.nodes == old(arrival.nodes) && fresh(tcbs.nodes - old(tcbs.nodes))
      invariant Filed(arrival.Contents(), table) && Filed(tcbs.Contents(), table)
      invariant Known(|Views(table)|, a0) && Known(|Views(table)|, IdsOf(arrival.Contents()))
      invariant InsertAll(Views(table), IdsOf(tcbs.Contents()), IdsOf(arrival.Contents())) ==
                InsertAll(Views(table), l0, a0)
      decreases arrival.size
    {
      GatherOne(arrival, tcbs, table);
    }
    NoneToInsert(Views(table), IdsOf(tcbs.Contents()));
  }

  lemma FiledKnown(ts: seq<Tcb>, table: seq<Tcb>)
    requires Filed(ts, table)
    ensures Known(|Views(table)|, IdsOf(ts))
  {
  }

  lemma NoneToInsert(threads: seq<Thread>, q: seq<nat>)
    ensures Known(|threads|, IdsOf([])) && InsertAll(threads, q, IdsOf([])) == q
  {
  }

  method GatherOne(arrival: Queue, tcbs: List, ghost table: seq<Tcb>)
    requires TwoApart(arrival, tcbs) && Filed(arrival.Contents(), table) && Filed(tcbs.Contents(), table)
    requires arrival.Contents() != []
    modifies arrival, arrival.nodes, tcbs, tcbs.nodes
    ensures TwoApart(arrival, tcbs) && arrival.size == |arrival.Contents()| && arrival.nodes == old(arrival.nodes)
    ensures fresh(tcbs.nodes - old(tcbs.nodes))
    ensures |arrival.Contents()| < |old(arrival.Contents())|
    ensures Filed(arrival.Contents(), table) && Filed(tcbs.Contents(), table)
    ensures Known(|Views(table)|, IdsOf(arrival.Contents())) && Known(|Views(table)|, old(IdsOf(arrival.Contents())))
    ensures InsertAll(Views(table), IdsOf(tcbs.Contents()), IdsOf(arrival.Contents())) ==
            InsertAll(Views(table), old(IdsOf(tcbs.Contents())), old(IdsOf(arrival.Contents())))
  {
    hide Queue.Valid, List.Valid, Along, IdsOf, Views, InsertAll, InsertByUsage, Filed, Known, Place;
    ghost var a, l := arrival.Contents(), tcbs.Contents();
    var t := arrival.Dequeue();
    assert a[0] == t && a[1..] == arrival.Contents();
    Sized(arrival);
    ghost var k := tcbs.InsertByUsage(t);
    FirstInserted(table, a, l, k);
  }

  /** The first arrival inserted at `k`, where it belongs. */
  lemma FirstInserted(table: seq<Tcb>, a: seq<Tcb>, l: seq<Tcb>, k: nat)
    requires Filed(a, table) && Filed(l, table) && a != [] && Place(l, a[0], k)
    ensures Filed(a[1..], table) && Filed(l[..k] + [a[0]] + l[k..], table)
    ensures Known(|Views(table)|, IdsOf(a)) && Known(|Views(table)|, IdsOf(a[1..]))
    ensures InsertAll(Views(table), IdsOf(l[..k] + [a[0]] + l[k..]), IdsOf(a[1..])) ==
            InsertAll(Views(table), IdsOf(l), IdsOf(a))
  {
    hide InsertAll, Position;
    FiledKnown(a, table);
    FiledKnown(a[1..], table);
    FiledKnown(l, table);
    PositionAt(Views(table), IdsOf(l), a[0].View(), k);
    assert IdsOf(l[..k] + [a[0]] + l[k..]) == InsertByUsage(Views(table), IdsOf(l), a[0].id);
    assert IdsOf(a)[1..] == IdsOf(a[1..]);
    InsertFirst(Views(table), IdsOf(l), IdsOf(a));
  }

  lemma InsertFirst(threads: seq<Thread>, q: seq<nat>, ts: seq<nat>)
    requires Known(|threads|, ts) && ts != []
    ensures InsertAll(threads, q, ts) == InsertAll(threads, InsertByUsage(threads, q, ts[0]), ts[1..])
  {
  }

  // ---- Searching a level

  /** Takes threads from the front of a level until one is not blocked; the others go behind. If all are blocked,
      the level is in the end as it was. */
  method SearchLevel(level: Queue, ghost table: seq<Tcb>) returns (running: Tcb?)
    requires level.Valid() && Filed(level.Contents(), table)
    modifies level, level.nodes
    ensures level.Valid() && fresh(level.nodes - old(level.nodes))
    ensures
      var q := old(IdsOf(level.Contents()));
      var k := FirstUnblocked(Views(table), q);
      if k == |q| then running == null && IdsOf(level.Contents()) == q
      else running != null && running.id == q[k] && IdsOf(level.Contents()) == q[k + 1..] + q[..k]
  {
    hide Queue.Valid, Along, Views, FirstUnblocked, Filed, IdsOf, Turned, BlockedUpTo;
    ghost var q, j := level.Contents(), 0;
    Sized(level);
    NotTurned(q);
    var left := level.size;
    while left != 0
      invariant level.Valid() && fresh(level.nodes - old(level.nodes)) && j + left == |q|
      invariant level.Contents() == Turned(q, j) && BlockedUpTo(q, j)
    {
      var candidate, able := TryFirst(level, q, j);
      if able {
        FoundAt(q, table, j);
        return candidate;
      }
      left, j := left - 1, j + 1;
    }
    FoundAt(q, table, j);
    return null;
  }

  /** The first `j` put behind the others. */
  ghost function Turned(q: seq<Tcb>, j: nat): seq<Tcb>
    requires j <= |q|
  {
    q[j..] + q[..j]
  }

  ghost predicate BlockedUpTo(q: seq<Tcb>, j: nat)
    reads q
  {
    j <= |q| && forall i :: 0 <= i < j ==> q[i].View().Blocked()
  }

  lemma NotTurned(q: seq<Tcb>)
    ensures Turned(q, 0) == q && BlockedUpTo(q, 0)
  {
  }

  /** The front thread comes off; if it is blocked it goes behind. */
  method TryFirst(level: Queue, ghost q: seq<Tcb>, ghost j: nat) returns (candidate: Tcb, able: bool)
    requires level.Valid() && j < |q| && level.Contents() == Turned(q, j) && BlockedUpTo(q, j)
    modifies level, level.nodes
    ensures level.Valid() && fresh(level.nodes - old(level.nodes)) && candidate == q[j]
    ensures able <==> !candidate.View().Blocked()
    ensures if able then level.Contents() == q[j + 1..] + q[..j] else level.Contents() == Turned(q, j + 1)
    ensures BlockedUpTo(q, if able then j else j + 1)
  {
    hide Queue.Valid, Along, Turned, BlockedUpTo, Thread.Blocked;
    TurnedNext(q, j);
    candidate := level.Dequeue();
    assert level.Contents() == ([candidate] + level.Contents())[1..];
    able := !candidate.IsBlocked();
    if !able {
      level.Enqueue(candidate);
    }
  }

  lemma TurnedNext(q: seq<Tcb>, j: nat)
    requires j < |q| && BlockedUpTo(q, j)
    ensures |Turned(q, j)| > 0 && Turned(q, j)[0] == q[j] && Turned(q, j)[1..] == q[j + 1..] + q[..j]
    ensures q[j + 1..] + q[..j] + [q[j]] == Turned(q, j + 1)
    ensures q[j].View().Blocked() ==> BlockedUpTo(q, j + 1)
  {
  }

  lemma FoundAt(q: seq<Tcb>, table: seq<Tcb>, k: nat)
    requires Filed(q, table) && BlockedUpTo(q, k) && (k < |q| ==> !q[k].View().Blocked())
    ensures FirstUnblocked(Views(table), IdsOf(q)) == k
    ensures k < |q| ==> IdsOf(q[k + 1..] + q[..k]) == IdsOf(q)[k + 1..] + IdsOf(q)[..k]
    ensures Turned(q, |q|) == q
  {
    hide FirstUnblocked, Thread.Blocked;
    FirstAt(Views(table), IdsOf(q), k);
  }

  // ---- Taking the shortest job

  /** The first thread of the list that is not blocked comes off it. */
  method TakeShortest(tcbs: List, ghost table: seq<Tcb>) returns (running: Tcb)
    requires tcbs.Valid() && Filed(tcbs.Contents(), table)
    requires FirstUnblocked(Views(table), IdsOf(tcbs.Contents())) < |tcbs.Contents()|
    modifies tcbs, tcbs.nodes
    ensures tcbs.Valid() && tcbs.nodes == old(tcbs.nodes) && Filed(tcbs.Contents(), table)
    ensures
      var q := old(IdsOf(tcbs.Contents()));
      var k := FirstUnblocked(Views(table), q);
      k < |q| && running.id == q[k] && IdsOf(tcbs.Contents()) == Without(q, q[k])
  {
    hide List.Valid, Along, Views, FirstUnblocked, Filed, IdsOf, Without, FirstWithId;
    ghost var q := tcbs.Contents();
    var first := FindFirstUnblocked(tcbs, table);
    HasId(q, first.id);
    ghost var k;
    running, k := tcbs.RemoveFrom(first.id);
    TakenOff(q, table, first.id, k);
  }

  method FindFirstUnblocked(tcbs: List, ghost table: seq<Tcb>) returns (t: Tcb)
    requires tcbs.Valid() && Filed(tcbs.Contents(), table)
    requires FirstUnblocked(Views(table), IdsOf(tcbs.Contents())) < |tcbs.Contents()|
    ensures var q := IdsOf(tcbs.Contents()); var k := FirstUnblocked(Views(table), q); k < |q| && t.id == q[k]
  {
    hide Views, FirstUnblocked, Filed, IdsOf, BlockedUpTo;
    ghost var q, k := tcbs.Contents(), 0;
    NotTurned(q);
    var ptr := tcbs.front;
    FirstBounds(q, table, 0);
    while ptr.data.IsBlocked()
      invariant k < |tcbs.spine| && ptr == tcbs.spine[k] && BlockedUpTo(q, k)
      decreases |tcbs.spine| - k
    {
      TurnedNext(q, k);
      FirstBounds(q, table, k + 1);
      k, ptr := k + 1, ptr.next;
    }
    FoundAt(q, table, k);
    IdAt(q, k);
    t := ptr.data;
  }

  lemma IdAt(q: seq<Tcb>, k: nat)
    requires k < |q|
    ensures |IdsOf(q)| == |q| && IdsOf(q)[k] == q[k].id
  {
  }

  /** With only blocked threads before it, the first that is not blocked is still to come. */
  lemma FirstBounds(q: seq<Tcb>, table: seq<Tcb>, k: nat)
    requires Filed(q, table) && BlockedUpTo(q, k) && FirstUnblocked(Views(table), IdsOf(q)) < |q|
    ensures k < |q|
  {
    if k == |q| {
      FoundAt(q, table, k);
    }
  }

  lemma HasId(q: seq<Tcb>, target: nat)
    requires target in IdsOf(q)
    ensures exists i :: 0 <= i < |q| && q[i].id == target
  {
    var i :| 0 <= i < |q| && IdsOf(q)[i] == target;
    assert q[i].id == target;
  }

  lemma TakenOff(q: seq<Tcb>, table: seq<Tcb>, target: nat, k: nat)
    requires Filed(q, table) && FirstWithId(q, target, k)
    ensures IdsOf(q[..k] + q[k + 1..]) == Without(IdsOf(q), target) && Filed(q[..k] + q[k + 1..], table)
    ensures q[k].id == target
  {
    hide Without;
    WithoutAt(IdsOf(q), k);
    assert IdsOf(q[..k] + q[k + 1..]) == IdsOf(q)[..k] + IdsOf(q)[k + 1..];
  }
}
