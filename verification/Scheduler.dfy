/** The thread library over thread control blocks. Every call, signal, termination and scheduler pass does to the
    abstract state what `SchedState.Apply` says. */
module Schedulers {
  import opened Collections
  import opened SchedState
  import opened SchedInv
  import opened ThreadLists

  /** A mutex on the library's list of them: its number and who holds it, or 0. */
  datatype Mutex = Mutex(num: nat, holder: nat)

  ghost function Views(table: seq<Tcb>): (r: seq<Thread>)
    reads table
    ensures |r| == |table| && forall i :: 0 <= i < |r| ==> r[i] == table[i].View()
  {
    seq(|table|, i requires 0 <= i < |table| reads table => table[i].View())
  }

  ghost function IdsOf(ts: seq<Tcb>): (r: seq<nat>)
    ensures |r| == |ts| && forall i :: 0 <= i < |r| ==> r[i] == ts[i].id
  {
    seq(|ts|, i requires 0 <= i < |ts| => ts[i].id)
  }

  ghost function LevelIds(levels: seq<seq<Tcb>>): (r: seq<seq<nat>>)
    ensures |r| == |levels| && forall i :: 0 <= i < |r| ==> r[i] == IdsOf(levels[i])
  {
    seq(|levels|, i requires 0 <= i < |levels| => IdsOf(levels[i]))
  }

  ghost function Holders(mutexes: seq<Mutex>): map<nat, nat> {
    if mutexes == [] then map[] else Holders(mutexes[1..])[mutexes[0].num := mutexes[0].holder]
  }

  ghost predicate InTable(t: Tcb, table: seq<Tcb>) {
    1 <= t.id <= |table| && table[t.id - 1] == t
  }

  ghost predicate Filed(ts: seq<Tcb>, table: seq<Tcb>) {
    forall i :: 0 <= i < |ts| ==> InTable(ts[i], table)
  }

  ghost predicate LevelsFiled(levels: seq<seq<Tcb>>, table: seq<Tcb>) {
    forall l :: 0 <= l < |levels| ==> Filed(levels[l], table)
  }

  ghost predicate TableOk(table: seq<Tcb>) {
    forall i :: 0 <= i < |table| ==> table[i].id == i + 1
  }

  ghost predicate MutexesOk(mutexes: seq<Mutex>, last: nat) {
    && (forall i :: 0 <= i < |mutexes| ==> mutexes[i].num <= last)
    && (forall i, j :: 0 <= i < j < |mutexes| ==> mutexes[i].num != mutexes[j].num)
  }

  lemma FiledJoin(a: seq<Tcb>, b: seq<Tcb>, table: seq<Tcb>)
    requires Filed(a, table) && Filed(b, table)
    ensures Filed(a + b, table)
  {
  }

  lemma FiledOne(t: Tcb, table: seq<Tcb>)
    requires InTable(t, table)
    ensures Filed([t], table) && IdsOf([t]) == [t.id]
  {
  }

  lemma HoldersOf(mutexes: seq<Mutex>, k: nat)
    requires k < |mutexes| && forall i, j :: 0 <= i < j < |mutexes| ==> mutexes[i].num != mutexes[j].num
    ensures mutexes[k].num in Holders(mutexes) && Holders(mutexes)[mutexes[k].num] == mutexes[k].holder
  {
    if k > 0 {
      HoldersOf(mutexes[1..], k - 1);
    }
  }

  lemma HoldersKeys(mutexes: seq<Mutex>, m: nat)
    ensures m in Holders(mutexes) <==> exists k :: 0 <= k < |mutexes| && mutexes[k].num == m
  {
    if mutexes != [] {
      HoldersKeys(mutexes[1..], m);
      if k :| 0 <= k < |mutexes| && mutexes[k].num == m {
        assert k > 0 ==> mutexes[1..][k - 1].num == m;
      }
    }
  }

  lemma Tail(mutexes: seq<Mutex>, last: nat)
    requires MutexesOk(mutexes, last) && mutexes != []
    ensures MutexesOk(mutexes[1..], last) && mutexes[0].num !in Holders(mutexes[1..])
  {
    HoldersKeys(mutexes[1..], mutexes[0].num);
  }

  /** The mutex at `k` changes hands. */
  lemma {:induction false} HoldersChange(mutexes: seq<Mutex>, last: nat, k: nat, h: nat)
    requires MutexesOk(mutexes, last) && k < |mutexes|
    ensures MutexesOk(mutexes[k := mutexes[k].(holder := h)], last)
    ensures Holders(mutexes[k := mutexes[k].(holder := h)]) == Holders(mutexes)[mutexes[k].num := h]
  {
    Tail(mutexes, last);
    if k > 0 {
      HoldersChange(mutexes[1..], last, k - 1, h);
      assert mutexes[k := mutexes[k].(holder := h)][1..] == mutexes[1..][k - 1 := mutexes[k].(holder := h)];
    }
  }

  lemma HoldersCons(x: Mutex, mutexes: seq<Mutex>)
    ensures Holders([x] + mutexes) == Holders(mutexes)[x.num := x.holder]
  {
    assert ([x] + mutexes)[1..] == mutexes;
  }

  /** A mutex is taken off the list. */
  lemma {:induction false} HoldersCut(a: seq<Mutex>, x: Mutex, b: seq<Mutex>)
    requires forall i :: 0 <= i < |a| ==> a[i].num != x.num
    requires x.num !in Holders(b)
    ensures Holders(a + b) == Holders(a + [x] + b) - {x.num}
  {
    hide Holders;
    if a == [] {
      HoldersCons(x, b);
      assert a + b == b && a + [x] + b == [x] + b;
    } else {
      var rest := a[1..];
      HoldersCut(rest, x, b);
      HoldersCons(a[0], rest + b);
      HoldersCons(a[0], rest + [x] + b);
      assert a + b == [a[0]] + (rest + b);
      assert a + [x] + b == [a[0]] + (rest + [x] + b);
    }
  }

  lemma HoldersRemove(mutexes: seq<Mutex>, last: nat, k: nat)
    requires MutexesOk(mutexes, last) && k < |mutexes|
    ensures Holders(mutexes[..k] + mutexes[k + 1..]) == Holders(mutexes) - {mutexes[k].num}
  {
    hide Holders;
    var a, b := mutexes[..k], mutexes[k + 1..];
    OnlyAt(mutexes, last, k);
    HoldersKeys(b, mutexes[k].num);
    HoldersCut(a, mutexes[k], b);
    assert a + [mutexes[k]] + b == mutexes;
  }

  lemma OnlyAt(mutexes: seq<Mutex>, last: nat, k: nat)
    requires MutexesOk(mutexes, last) && k < |mutexes|
    ensures forall i :: 0 <= i < k ==> mutexes[..k][i].num != mutexes[k].num
    ensures var b := mutexes[k + 1..]; forall i :: 0 <= i < |b| ==> b[i].num != mutexes[k].num
  {
  }

  ghost predicate NotAmong(m: nat, mutexes: seq<Mutex>) {
    forall i :: 0 <= i < |mutexes| ==> mutexes[i].num != m
  }

  lemma HoldersNone(mutexes: seq<Mutex>, m: nat)
    requires NotAmong(m, mutexes[..|mutexes|])
    ensures Holders(mutexes) - {m} == Holders(mutexes)
  {
    HoldersKeys(mutexes, m);
    assert mutexes[..|mutexes|] == mutexes;
  }

  lemma FewerOk(mutexes: seq<Mutex>, last: nat, k: nat)
    requires MutexesOk(mutexes, last) && k < |mutexes|
    ensures MutexesOk(mutexes[..k] + mutexes[k + 1..], last)
  {
    var ms := mutexes[..k] + mutexes[k + 1..];
    assert forall i :: 0 <= i < |ms| ==> ms[i] == mutexes[if i < k then i else i + 1];
  }

  lemma IdsJoin(a: seq<Tcb>, b: seq<Tcb>)
    ensures IdsOf(a + b) == IdsOf(a) + IdsOf(b)
  {
  }

  lemma IdsCut(ts: seq<Tcb>, k: nat)
    requires k <= |ts|
    ensures IdsOf(ts[..k]) == IdsOf(ts)[..k] && IdsOf(ts[k..]) == IdsOf(ts)[k..]
  {
  }

  class Scheduler {
    const policy: Policy
    var arrival: seq<Tcb>
    var levels: seq<seq<Tcb>>
    var tcbs: seq<Tcb>
    var ended: seq<Tcb>
    var running: Tcb?
    var total: nat
    var lastTid: nat
    var lastMutex: nat
    var mutexes: seq<Mutex>
    var timer: nat

    /** All control blocks ever created, by id. */
    ghost var table: seq<Tcb>
    /** Has the scheduler been entered? The place its context is at. */
    var started: bool
    ghost var scheduling: bool

    ghost predicate Built()
      reads this
    {
      && TableOk(table) && lastTid == |table| && |levels| == QUEUE_LEVELS
      && LevelsFiled(levels, table) && Filed(arrival, table) && Filed(tcbs, table) && Filed(ended, table)
      && (running != null ==> InTable(running, table))
      && MutexesOk(mutexes, lastMutex)
    }

    ghost function View(): State
      reads this, table
    {
      State(policy, Views(table), IdsOf(arrival), LevelIds(levels), IdsOf(tcbs), IdsOf(ended),
            if running == null then 0 else running.id, total, lastMutex, Holders(mutexes), started, scheduling, timer)
    }

    ghost predicate Valid()
      reads this, table
    {
      Built() && Inv(View())
    }

    /** Everything empty, and a control block for the calling thread. */
    constructor (policy: Policy)
      ensures Valid() && View() == Start(policy) && fresh(table[0])
    {
      this.policy := policy;
      var main := new Tcb(MAIN);
      arrival, levels, tcbs, ended, mutexes := [], [[], [], [], []], [], [], [];
      running, total, lastTid, lastMutex, timer := main, 0, MAIN, 0, 0;
      table, started, scheduling := [main], false, false;
      new;
      assert View() == Start(policy);
      StartInv(policy);
    }

    // ---- Calls and signals

    /** A new thread waits in the arrival queue. */
    method CreateWorker() returns (tid: nat)
      requires Valid() && Enabled(View(), Create)
      modifies this
      ensures Valid() && View() == Apply(old(View()), Create)
      ensures |table| == |old(table)| + 1 && table[..|old(table)|] == old(table) && fresh(table[|old(table)|])
      ensures tid == |table|
    {
      hide Inv, Built;
      InvBuilt();
      StepKeeps(View(), Create);
      tid := Register();
    }

    lemma InvBuilt()
      requires Valid()
      ensures Built()
    {
    }

    method Register() returns (tid: nat)
      requires Built()
      modifies this
      ensures Built() && View() == old(View()).(threads := old(View()).threads + [NEWBORN],
        arrival := old(View()).arrival + [tid])
      ensures |table| == |old(table)| + 1 && table[..|old(table)|] == old(table) && fresh(table[|old(table)|])
      ensures tid == |table|
    {
      hide Filed, IdsOf, LevelIds, Holders, MutexesOk, Views;
      lastTid := lastTid + 1;
      tid := lastTid;
      var t := new Tcb(tid);
      table := table + [t];
      StillFiled(old(table));
      FiledOne(t, table);
      FiledJoin(arrival, [t], table);
      IdsJoin(arrival, [t]);
      arrival := arrival + [t];
      assert Views(table) == old(Views(table)) + [NEWBORN];
    }

    lemma StillFiled(was: seq<Tcb>)
      requires was <= table && LevelsFiled(levels, was) && Filed(arrival, was) && Filed(tcbs, was) && Filed(ended, was)
      ensures LevelsFiled(levels, table) && Filed(arrival, table) && Filed(tcbs, table) && Filed(ended, table)
    {
    }

    /** Gives up the processor after `elapsed` microseconds. */
    method YieldAfter(elapsed: nat)
      requires Built() && running != null
      modifies this, table
      ensures Built() && table == old(table) && View() == YieldStep(old(View()), elapsed)
    {
      hide Filed, LevelsFiled, IdsOf, LevelIds, Holders, MutexesOk, Views, TableOk;
      Charge(elapsed);
      scheduling := true;
    }

    /** Adds to the time a thread has used; tells whether a quantum is used up. */
    static method AddTime(t: Tcb, elapsed: nat) returns (ticked: bool)
      modifies t
      ensures t.View() == Yielded(old(t.View()), elapsed)
      ensures Ticks(old(t.View()), elapsed) == if ticked then 1 else 0
    {
      t.used := t.used + elapsed;
      ticked := t.used >= TIME_QUANTUM;
      if ticked {
        t.fully := true;
        t.used := 0;
        t.quantums := t.quantums + 1;
      }
    }

    /** Adds to the time the running thread has used; a quantum used up is counted. */
    method Charge(elapsed: nat)
      requires Built() && running != null
      modifies this`total, running
      ensures Built() && View() == YieldStep(old(View()), elapsed).(scheduling := scheduling)
    {
      hide Filed, LevelsFiled, IdsOf, LevelIds, Holders, MutexesOk, Views, TableOk, Yielded, Ticks;
      var ticked := AddTime(running, elapsed);
      if ticked {
        total := total + 1;
      }
      OneChanged();
    }

    twostate lemma OneChanged()
      requires old(Built()) && table == old(table) && running == old(running) && running != null
      requires forall i :: 0 <= i < |table| && table[i] != running ==> table[i].View() == old(table[i].View())
      ensures Views(table) == old(Views(table))[running.id - 1 := running.View()]
    {
    }

    /** Looks whether a thread has ended, with the timer masked; if not, the wait comes with `WorkerWait`. */
    method WorkerJoin(target: nat) returns (done: bool)
      requires Valid() && Enabled(View(), Join(target))
      modifies this, table
      ensures Valid() && table == old(table) && View() == Apply(old(View()), Join(target))
      ensures done <==> target in View().ended
    {
      hide Inv, LevelsFiled, LevelIds, Holders, MutexesOk, Views;
      StepKeeps(View(), Join(target));
      done := Contains(ended, target);
      if !done {
        SetJoining(Of(target));
      }
    }

    /** The rest of a join call whose target had not ended: waits for it, even if it has by now. */
    method WorkerWait(target: nat, elapsed: nat)
      requires Valid() && Enabled(View(), Wait(target, elapsed))
      modifies this, table
      ensures Valid() && table == old(table) && View() == Apply(old(View()), Wait(target, elapsed))
    {
      hide Inv, LevelsFiled, LevelIds, Holders, MutexesOk, Views;
      StepKeeps(View(), Wait(target, elapsed));
      SetJoin(target, Nobody);
      YieldAfter(elapsed);
    }

    ghost method SetJoining(joining: Target)
      requires Built() && running != null
      modifies running
      ensures Built() && View() == old(View()).With(running.id, old(View()).At(running.id).(joining := joining))
    {
      hide LevelsFiled, Filed, LevelIds, Holders, MutexesOk, Views;
      running.joining := joining;
      OneChanged();
    }

    method SetJoin(target: nat, ghost joining: Target)
      requires Built() && running != null
      modifies running
      ensures Built()
      ensures View() == old(View()).With(running.id, old(View()).At(running.id).(join := target, joining := joining))
    {
      hide LevelsFiled, Filed, LevelIds, Holders, MutexesOk, Views;
      running.join := target;
      running.joining := joining;
      OneChanged();
    }

    /** Is there a thread with this id in the list? */
    static method Contains(ts: seq<Tcb>, target: nat) returns (r: bool)
      ensures r <==> target in IdsOf(ts)
    {
      for i := 0 to |ts|
        invariant target !in IdsOf(ts)[..i]
      {
        if ts[i].id == target {
          assert IdsOf(ts)[i] == target;
          return true;
        }
      }
      assert IdsOf(ts)[..|ts|] == IdsOf(ts);
      return false;
    }

    method MutexInit() returns (m: nat)
      requires Valid() && Enabled(View(), InitMutex)
      modifies this
      ensures Valid() && table == old(table) && View() == Apply(old(View()), InitMutex) && m == lastMutex
    {
      hide Inv, LevelsFiled, Filed, LevelIds, Views;
      StepKeeps(View(), InitMutex);
      lastMutex := lastMutex + 1;
      m := lastMutex;
      mutexes := [Mutex(m, 0)] + mutexes;
      assert mutexes[1..] == old(mutexes);
    }

    /** The place of mutex `m` on the list. */
    method Fetch(m: nat) returns (k: nat)
      requires MutexesOk(mutexes, lastMutex) && m in Holders(mutexes)
      ensures k < |mutexes| && mutexes[k].num == m && Holders(mutexes)[m] == mutexes[k].holder
    {
      HoldersKeys(mutexes, m);
      k := 0;
      while mutexes[k].num != m
        invariant k < |mutexes| && forall i :: 0 <= i < k ==> mutexes[i].num != m
        decreases |mutexes| - k
      {
        k := k + 1;
      }
      HoldersOf(mutexes, k);
    }

    /** One round of the lock call: takes the mutex if nobody holds it, else waits for its release. */
    method MutexLockRound(m: nat, elapsed: nat) returns (acquired: bool)
      requires Valid() && Enabled(View(), Lock(m, elapsed))
      modifies this, table
      ensures Valid() && table == old(table) && View() == Apply(old(View()), Lock(m, elapsed))
      ensures acquired <==> View().At(old(View()).running).locking == 0
    {
      hide Inv, LevelsFiled, Filed, LevelIds, Views, Holders, MutexesOk;
      StepKeeps(View(), Lock(m, elapsed));
      var k := Fetch(m);
      NotZero(m);
      acquired := mutexes[k].holder == 0;
      if acquired {
        Acquire(k);
      } else {
        AwaitRelease(m, elapsed);
      }
    }

    method Acquire(k: nat)
      requires Built() && running != null && k < |mutexes|
      modifies this, running
      ensures Built() && table == old(table) && old(View()).Created(old(View()).running)
      ensures var s := old(View());
        View() == s.With(s.running, s.At(s.running).(locking := 0))
                    .(holders := s.holders[old(mutexes)[k].num := s.running])
    {
      hide LevelsFiled, Filed, LevelIds, Views, Holders, MutexesOk;
      SetWait(running.seeking, 0);
      Assign(k, running.id);
    }

    method AwaitRelease(m: nat, elapsed: nat)
      requires Built() && running != null
      modifies this, table
      ensures Built() && table == old(table) && old(View()).Created(old(View()).running)
      ensures var s := old(View());
        View() == YieldStep(s.With(s.running, s.At(s.running).(seeking := m, locking := m)), elapsed)
    {
      hide LevelsFiled, Filed, LevelIds, Views, Holders, MutexesOk;
      SetWait(m, m);
      YieldAfter(elapsed);
    }

    lemma NotZero(m: nat)
      requires Valid() && m in View().holders
      ensures m != 0
    {
      hide PartitionOf, LevelsOf, Clocks, Waiting, Sorted;
    }

    method SetWait(m: nat, ghost locking: nat)
      requires Built() && running != null
      modifies running
      ensures Built() && View() == old(View()).With(running.id,
        old(View()).At(running.id).(seeking := m, locking := locking))
    {
      hide LevelsFiled, Filed, LevelIds, Holders, MutexesOk, Views;
      running.seeking := m;
      running.locking := locking;
      OneChanged();
    }

    /** The mutex at `k` goes to `holder`, 0 for nobody. */
    method Assign(k: nat, holder: nat)
      requires Built() && k < |mutexes|
      modifies this`mutexes
      ensures Built() && View() == old(View()).(holders := old(View()).holders[old(mutexes)[k].num := holder])
    {
      hide LevelsFiled, Filed, LevelIds, Views, Holders, MutexesOk;
      HoldersChange(mutexes, lastMutex, k, holder);
      mutexes := mutexes[k := mutexes[k].(holder := holder)];
    }

    /** The release of a mutex by its holder. */
    method Release(m: nat)
      requires Built() && running != null && View().Holds(running.id, m) && m != 0
      modifies this, table
      ensures Built() && table == old(table) && running == old(running) && View() == UnlockStep(old(View()), m)
    {
      hide LevelsFiled, Filed, LevelIds, Views, Holders, MutexesOk;
      var k := Fetch(m);
      assert mutexes[k].holder == running.id;
      Assign(k, 0);
      var woken := BroadcastRelease(m);
    }

    method MutexUnlock(m: nat)
      requires Valid() && Enabled(View(), Unlock(m))
      modifies this, table
      ensures Valid() && table == old(table) && View() == Apply(old(View()), Unlock(m))
    {
      hide Inv, UnlockStep, LevelsFiled, Filed, LevelIds, Views, Holders, MutexesOk;
      StepKeeps(View(), Unlock(m));
      NotZero(m);
      Release(m);
    }

    /** A free mutex is taken off the list. A held one is released, which lifts the mask of the timer: the removal comes
        with `MutexRemove`. */
    method MutexDestroy(m: nat)
      requires Valid() && Enabled(View(), Destroy(m))
      modifies this, table
      ensures Valid() && table == old(table) && View() == Apply(old(View()), Destroy(m))
    {
      hide Inv, UnlockStep, LevelsFiled, Filed, LevelIds, Views, Holders, MutexesOk;
      StepKeeps(View(), Destroy(m));
      NotZero(m);
      var k := Fetch(m);
      if mutexes[k].holder == 0 {
        TakeOffList(m);
      } else {
        ReleaseToDestroy(m);
      }
    }

    /** The rest of a destroy call that found the mutex held. Does nothing if somebody else has destroyed it since. */
    method MutexRemove(m: nat)
      requires Valid() && Enabled(View(), Remove(m))
      modifies this, table
      ensures Valid() && table == old(table) && View() == Apply(old(View()), Remove(m))
    {
      hide Inv, LevelsFiled, Filed, LevelIds, Views, Holders, MutexesOk;
      StepKeeps(View(), Remove(m));
      SetDestroying(0);
      TakeOffList(m);
    }

    method ReleaseToDestroy(m: nat)
      requires Built() && running != null && View().Holds(running.id, m) && m != 0
      modifies this, table
      ensures Built() && table == old(table)
      ensures var s, t := UnlockStep(old(View()), m), old(View()).running;
        s.Created(t) && View() == s.With(t, s.At(t).(destroying := m))
    {
      hide LevelsFiled, Filed, LevelIds, Views, Holders, MutexesOk, Broadcast;
      Release(m);
      SetDestroying(m);
    }

    ghost method SetDestroying(m: nat)
      requires Built() && running != null
      modifies running
      ensures Built() && View() == old(View()).With(running.id, old(View()).At(running.id).(destroying := m))
    {
      hide LevelsFiled, Filed, LevelIds, Holders, MutexesOk, Views;
      running.destroying := m;
      OneChanged();
    }

    /** Removes mutex `m` from the list, if it is there. */
    method TakeOffList(m: nat)
      requires Built()
      modifies this`mutexes
      ensures Built() && View() == RemoveMutex(old(View()), m)
    {
      hide LevelsFiled, Filed, LevelIds, Views, Holders, MutexesOk;
      for k := 0 to |mutexes|
        invariant mutexes == old(mutexes) && NotAmong(m, mutexes[..k])
      {
        if mutexes[k].num == m {
          HoldersRemove(mutexes, lastMutex, k);
          FewerOk(mutexes, lastMutex, k);
          mutexes := mutexes[..k] + mutexes[k + 1..];
          return;
        }
      }
      HoldersNone(mutexes, m);
    }

    /** Wakes every listed thread that seeks mutex `m`; tells whether there was one. */
    method BroadcastRelease(m: nat) returns (result: bool)
      requires Built() && m != 0
      modifies table
      ensures Built() && View() == old(View()).(threads := Broadcast(old(View()).threads, View().tcbs, m))
      ensures result <==> Sought(old(View()).threads, View().tcbs, m)
    {
      hide LevelsFiled, LevelIds, Holders, MutexesOk, Views, Broadcast, Sought;
      result := false;
      ghost var ids, was := IdsOf(tcbs), Views(table);
      NobodyWoken(was, m);
      for i := 0 to |tcbs|
        invariant Views(table) == Broadcast(was, ids[..i], m)
        invariant result <==> Sought(was, ids[..i], m)
      {
        assert ids[..i + 1] == ids[..i] + [tcbs[i].id];
        WokenNext(was, ids[..i], tcbs[i].id, m);
        SoughtNext(was, ids[..i], tcbs[i].id, m);
        if tcbs[i].seeking == m {
          Wake(tcbs[i]);
          result := true;
        }
      }
      assert ids[..|tcbs|] == ids;
    }

    method Wake(t: Tcb)
      requires TableOk(table) && InTable(t, table)
      modifies t
      ensures Views(table) == old(Views(table))[t.id - 1 := old(Views(table))[t.id - 1].(seeking := 0)]
    {
      t.seeking := 0;
    }

    /** The time quantum is over: the signal handler gives up the processor for the running thread. */
    method TimerSignal()
      requires Valid() && Enabled(View(), Timer)
      modifies this, table
      ensures Valid() && table == old(table) && View() == Apply(old(View()), Timer)
    {
      hide Inv, Built;
      InvBuilt();
      StepKeeps(View(), Timer);
      UseUpQuantum();
    }

    method UseUpQuantum()
      requires Built() && running != null
      modifies this, table
      ensures Built() && table == old(table) && View() == TimerStep(old(View()))
    {
      hide LevelsFiled, Filed, IdsOf, LevelIds, Holders, MutexesOk, Views, TableOk;
      running.fully := true;
      running.quantums := running.quantums + 1;
      total := total + 1;
      running.used := 0;
      scheduling := true;
      OneChanged();
    }

    method WorkerYield(elapsed: nat)
      requires Valid() && Enabled(View(), Yield(elapsed))
      modifies this, table
      ensures Valid() && table == old(table) && View() == Apply(old(View()), Yield(elapsed))
    {
      hide Inv, Built;
      InvBuilt();
      StepKeeps(View(), Yield(elapsed));
      YieldAfter(elapsed);
    }

    // ---- Termination

    /** Cleans up after the running thread, which has ended. */
    method CleanExited()
      requires Valid() && Enabled(View(), Exit)
      modifies this, table
      ensures Valid() && table == old(table) && View() == Apply(old(View()), Exit)
    {
      hide Inv, Built, Without, Alert;
      InvBuilt();
      StepKeeps(View(), Exit);
      var listed := Contains(tcbs, running.id);
      if listed {
        RemoveFromTcbs(running.id);
      }
      MoveToEnded();
    }

    method RemoveFromTcbs(target: nat)
      requires Built() && target in View().tcbs
      modifies this`tcbs
      ensures Built() && View() == old(View()).(tcbs := Without(old(View()).tcbs, target))
    {
      hide LevelsFiled, IdsOf, LevelIds, Holders, MutexesOk, Views, TableOk, Without;
      var k := FindTcb(target);
      WithoutAt(IdsOf(tcbs), k);
      IdsCut(tcbs, k);
      IdsCut(tcbs, k + 1);
      IdsJoin(tcbs[..k], tcbs[k + 1..]);
      tcbs := tcbs[..k] + tcbs[k + 1..];
    }

    /** Where the list has the thread. */
    method FindTcb(target: nat) returns (k: nat)
      requires target in IdsOf(tcbs)
      ensures k < |tcbs| && IdsOf(tcbs)[k] == target && forall i :: 0 <= i < k ==> IdsOf(tcbs)[i] != target
    {
      ghost var i :| 0 <= i < |tcbs| && IdsOf(tcbs)[i] == target;
      k := 0;
      while tcbs[k].id != target
        invariant k <= i && forall j :: 0 <= j < k ==> tcbs[j].id != target
        decreases |tcbs| - k
      {
        k := k + 1;
      }
    }

    /** The running thread goes to the ended ones, and who waited for it wakes. */
    method MoveToEnded()
      requires Built() && running != null
      modifies this, table
      ensures Built() && table == old(table)
      ensures var s := old(View());
        View() == s.(ended := [s.running] + s.ended, threads := Alert(s.threads, s.tcbs, s.running), running := 0,
          scheduling := true)
    {
      hide LevelsFiled, Filed, IdsOf, LevelIds, Holders, MutexesOk, Views, TableOk, Alert;
      FiledOne(running, table);
      FiledJoin([running], ended, table);
      IdsJoin([running], ended);
      ended := [running] + ended;
      AlertWaiting(running.id);
      running := null;
      scheduling := true;
    }

    /** Wakes every listed thread that waits for `t` to end. */
    method AlertWaiting(t: nat)
      requires Built() && t != 0
      modifies table
      ensures Built() && View() == old(View()).(threads := Alert(old(View()).threads, View().tcbs, t))
    {
      hide LevelsFiled, LevelIds, Holders, MutexesOk, Views, Alert;
      ghost var ids, was := IdsOf(tcbs), Views(table);
      NobodyAlerted(was, t);
      for i := 0 to |tcbs|
        invariant Views(table) == Alert(was, ids[..i], t)
      {
        assert ids[..i + 1] == ids[..i] + [tcbs[i].id];
        AlertedNext(was, ids[..i], tcbs[i].id, t);
        if tcbs[i].join == t {
          Unjoin(tcbs[i]);
        }
      }
      assert ids[..|tcbs|] == ids;
    }

    method Unjoin(t: Tcb)
      requires TableOk(table) && InTable(t, table)
      modifies t
      ensures Views(table) == old(Views(table))[t.id - 1 := old(Views(table))[t.id - 1].(join := 0)]
    {
      t.join := 0;
    }

    // ---- A pass of the feedback scheduler

    /** The first entry into the scheduler takes the main thread into the list. */
    method Schedule()
      requires Valid() && Enabled(View(), Pass) && policy == Mlfq && !started
      modifies this, table
      ensures Valid() && table == old(table) && View() == Apply(old(View()), Pass)
    {
      hide PartitionOf, LevelsOf, Clocks, Waiting, Mutexes, Admit, Requeue, Boost, Choose, Dispatch, Sorted,
        LevelsFiled, Filed, IdsOf, LevelIds, Holders, MutexesOk, Views, TableOk;
      ghost var s := View();
      EnrollKeeps(s);
      InsertTcb(running);
      started := true;
      EnrolledPass(s);
      SchedMlfq();
    }

    method SchedMlfq()
      requires Valid() && Enabled(View(), Pass) && policy == Mlfq && started
      modifies this, table
      ensures Valid() && table == old(table) && View() == Apply(old(View()), Pass)
    {
      hide Inv, LevelsFiled, Filed, IdsOf, LevelIds, Holders, MutexesOk, Views, TableOk, Admit, Requeue, Boost, Choose,
        Dispatch, Ready, Apply, Enabled;
      ghost var s := View();
      PassStages(s);
      AdmitArrivals();
      RequeueRunning();
      BoostIfDue();
      ChooseCandidate();
      DispatchRunning();
    }

    method BoostIfDue()
      requires Built()
      modifies this, table
      ensures Built() && table == old(table) && View() == Boost(old(View())) && running == old(running)
    {
      hide LevelsFiled, Filed, IdsOf, LevelIds, Holders, MutexesOk, Views, TableOk, BoostAll;
      if total >= DECAY {
        total := total % DECAY;
        BoostAllQueues();
      }
    }

    method AdmitArrivals()
      requires Built()
      modifies this
      ensures Built() && table == old(table) && View() == Admit(old(View()))
    {
      hide LevelsFiled, Filed, IdsOf, LevelIds, Holders, MutexesOk, Views, TableOk, Admit;
      while arrival != []
        invariant Built() && table == old(table) && Admit(View()) == Admit(old(View()))
        decreases |arrival|
      {
        AdmitOne(View());
        AdmitFirst();
      }
      AdmitNone(View());
    }

    method AdmitFirst()
      requires Built() && arrival != []
      modifies this
      ensures Built() && table == old(table) && |arrival| < |old(arrival)|
      ensures old(View()).arrival != []
      ensures View() == OneAdmitted(old(View()))
    {
      hide Holders, MutexesOk, Views, TableOk;
      var t := arrival[0];
      arrival := arrival[1..];
      Enqueue(0, t);
      tcbs := [t] + tcbs;
      IdsJoin([t], old(tcbs));
      IdsJoin([t], arrival);
      assert [t] + arrival == old(arrival);
    }

    method Enqueue(l: nat, t: Tcb)
      requires Built() && l < QUEUE_LEVELS && InTable(t, table)
      modifies this`levels
      ensures Built() && View() == old(View()).(levels := old(View()).levels[l := old(View()).levels[l] + [t.id]])
      ensures forall i :: 0 <= i < QUEUE_LEVELS && i != l ==> levels[i] == old(levels)[i]
    {
      hide IdsOf, Holders, MutexesOk, Views, TableOk;
      FiledOne(t, table);
      FiledJoin(levels[l], [t], table);
      IdsJoin(levels[l], [t]);
      levels := levels[l := levels[l] + [t]];
      assert LevelIds(levels) == old(LevelIds(levels))[l := IdsOf(levels[l])];
    }

    method Dequeue(l: nat) returns (t: Tcb)
      requires Built() && l < QUEUE_LEVELS && levels[l] != []
      modifies this`levels
      ensures Built() && InTable(t, table) && old(View()).levels[l] != [] && t.id == old(View()).levels[l][0]
      ensures View() == old(View()).(levels := old(View()).levels[l := old(View()).levels[l][1..]])
      ensures |levels[l]| == |old(levels)[l]| - 1 && forall i :: 0 <= i < QUEUE_LEVELS && i != l ==>
        levels[i] == old(levels)[i]
    {
      hide IdsOf, Holders, MutexesOk, Views, TableOk;
      t := levels[l][0];
      var rest := levels[l][1..];
      assert levels[l] == [t] + rest;
      IdsJoin([t], rest);
      FiledOne(t, table);
      levels := levels[l := rest];
      assert LevelIds(levels) == old(LevelIds(levels))[l := IdsOf(rest)];
    }

    /** The running thread goes to its level, one lower if it used up its quantum. */
    method RequeueRunning()
      requires Built() && (running != null ==> View().At(running.id).prio < QUEUE_LEVELS)
      modifies this, table
      ensures Built() && table == old(table) && View() == Requeue(old(View()))
    {
      hide LevelsFiled, Filed, IdsOf, LevelIds, Holders, MutexesOk, Views, TableOk;
      if running != null {
        Demote(running);
        Enqueue(running.prio, running);
        running := null;
      }
    }

    method Demote(t: Tcb)
      requires Built() && running == t
      modifies t
      ensures Built() && View() == old(View()).With(t.id, Demoted(old(View()).At(t.id)))
    {
      hide LevelsFiled, Filed, IdsOf, LevelIds, Holders, MutexesOk, Views, TableOk;
      if t.fully {
        t.fully := false;
        t.used := 0;
        t.prio := if t.prio == QUEUE_LEVELS - 1 then t.prio else t.prio + 1;
      }
      OneChanged();
    }

    /** Every thread below the top level goes to the top. */
    method BoostAllQueues()
      requires Built()
      modifies this, table
      ensures Built() && table == old(table) && View() == BoostAll(old(View())) && running == old(running)
    {
      hide LevelsFiled, Filed, IdsOf, LevelIds, Holders, MutexesOk, Views, TableOk, BoostAll;
      for level := 1 to QUEUE_LEVELS
        invariant Built() && table == old(table) && BoostAll(View()) == BoostAll(old(View())) && running == old(running)
        invariant forall l :: 1 <= l < level ==> View().levels[l] == []
      {
        BoostLevel(level);
      }
      BoostNone(View());
    }

    method BoostLevel(level: nat)
      requires Built() && 1 <= level < QUEUE_LEVELS && forall l :: 1 <= l < level ==> View().levels[l] == []
      modifies this, table
      ensures Built() && table == old(table) && BoostAll(View()) == BoostAll(old(View())) && running == old(running)
      ensures forall l :: 1 <= l <= level ==> View().levels[l] == []
    {
      hide LevelsFiled, Filed, IdsOf, LevelIds, Holders, MutexesOk, Views, TableOk, BoostAll, OneBoosted;
      while levels[level] != []
        invariant Built() && table == old(table) && BoostAll(View()) == BoostAll(old(View())) && running == old(running)
        invariant forall l :: 1 <= l < level ==> View().levels[l] == []
        decreases |levels[level]|
      {
        FirstCreated(level);
        BoostOne(View(), level);
        BoostFirst(level);
      }
    }

    method BoostFirst(level: nat)
      requires Built() && 1 <= level < QUEUE_LEVELS && levels[level] != []
      modifies this, table
      ensures Built() && table == old(table) && running == old(running) && |levels[level]| < |old(levels)[level]|
      ensures old(View()).levels[level] != [] && old(View()).Created(old(View()).levels[level][0])
      ensures View() == OneBoosted(old(View()), level)
    {
      hide LevelsFiled, Filed, IdsOf, LevelIds, Holders, MutexesOk, Views, TableOk;
      FirstCreated(level);
      var t := Dequeue(level);
      Reset(t);
      Enqueue(0, t);
    }

    lemma FirstCreated(l: nat)
      requires Built() && l < QUEUE_LEVELS && levels[l] != []
      ensures View().levels[l] != [] && View().Created(View().levels[l][0])
    {
    }

    method Reset(t: Tcb)
      requires Built() && InTable(t, table)
      modifies t
      ensures Built() && View() == old(View()).With(t.id, old(View()).At(t.id).(used := 0, fully := false, prio := 0))
    {
      hide LevelsFiled, Filed, IdsOf, LevelIds, Holders, MutexesOk;
      t.used := 0;
      t.fully := false;
      t.prio := 0;
      assert Views(table) == old(Views(table))[t.id - 1 := t.View()];
    }

    /** Takes the first thread that is not blocked from the highest level that has one. */
    method ChooseCandidate()
      requires Built() && running == null
      modifies this
      ensures Built() && table == old(table) && View() == Choose(old(View()))
    {
      hide Inv, LevelsFiled, Filed, IdsOf, LevelIds, Holders, MutexesOk, Views, TableOk, FirstUnblocked, PickLevel;
      ghost var s := View();
      var level := 0;
      while running == null && level < QUEUE_LEVELS
        invariant Built() && table == old(table) && level <= QUEUE_LEVELS
        invariant running == null ==> View() == s && NoneBelow(s, level)
        invariant running != null ==> View() == Choose(s)
      {
        LevelChoice(s, level);
        TryLevel(level);
        level := level + 1;
      }
      if running == null {
        NoChoice(s);
      }
    }

    /** Goes once through a level, putting the blocked threads back, until it finds one that is not blocked. */
    method TryLevel(level: nat)
      requires Built() && running == null && level < QUEUE_LEVELS
      modifies this
      ensures Built() && table == old(table) && View() == LevelTried(old(View()), level)
      ensures running == null ==>
        FirstUnblocked(old(View()).threads, old(View()).levels[level]) == |old(View()).levels[level]|
    {
      hide LevelsFiled, Filed, IdsOf, LevelIds, Holders, MutexesOk, Views, TableOk, FirstUnblocked, LevelTried, Rotated,
        Passed;
      ghost var s := View();
      var waiting := |levels[level]|;
      SizeOf(levels, level);
      ghost var j := 0;
      NotRotated(s, level);
      while waiting > 0
        invariant Built() && table == old(table) && running == null && j >= 0 && waiting >= 0
        invariant j + waiting == |s.levels[level]| && Passed(s, level, j) && View() == Rotated(s, level, j)
      {
        SizeOf(levels, level);
        LevelCreated(s, level, j);
        RotateOnce(s, level, j);
        var found := TryFirst(level);
        if found {
          return;
        }
        waiting := waiting - 1;
        j := j + 1;
      }
      RotatedAll(s, level);
    }

    lemma LevelCreated(s: State, l: nat, j: nat)
      requires Built() && l < |s.levels| == QUEUE_LEVELS && j < |s.levels[l]| && View() == Rotated(s, l, j)
      ensures s.Created(s.levels[l][j])
    {
      hide Holders, MutexesOk, TableOk;
      assert View().levels[l][0] == s.levels[l][j];
      assert LevelIds(levels)[l] == IdsOf(levels[l]);
    }

    /** Takes the first thread of a level to run, or puts it back behind the others if it is blocked. */
    method TryFirst(level: nat) returns (found: bool)
      requires Built() && running == null && level < QUEUE_LEVELS && levels[level] != []
      modifies this
      ensures Built() && table == old(table) && (found <==> running != null)
      ensures old(View()).levels[level] != [] && old(View()).Created(old(View()).levels[level][0])
      ensures var s := old(View()); var t := s.levels[level][0];
        && (found <==> !s.At(t).Blocked())
        && View() == (if found then s.(running := t, levels := s.levels[level := s.levels[level][1..]])
                      else s.(levels := s.levels[level := s.levels[level][1..] + [t]]))
    {
      hide LevelsFiled, Filed, IdsOf, LevelIds, Holders, MutexesOk, Views, TableOk;
      FirstCreated(level);
      var candidate := Dequeue(level);
      found := !candidate.IsBlocked();
      if found {
        running := candidate;
        return;
      }
      Enqueue(level, candidate);
    }

    /** Sets the timer for what is left of the quantum, unless all others wait for terminations, and hands over. */
    method DispatchRunning()
      requires Built() && running != null && running.used < TIME_QUANTUM
      modifies this, table
      ensures Built() && table == old(table) && View() == Dispatch(old(View()))
    {
      hide LevelsFiled, Filed, IdsOf, LevelIds, Holders, MutexesOk, Views, TableOk, OthersJoining, Dispatch;
      ghost var s := View();
      MarkScheduled();
      SameJoins(s, View());
      SetTimer();
      DispatchIs(s, timer);
      scheduling := false;
    }

    method SetTimer()
      requires Built() && running != null && running.used < TIME_QUANTUM
      modifies this`timer
      ensures Built() && View() == old(View()).(timer := timer)
      ensures timer == if OthersJoining(View().threads, View().tcbs, running.id) then 0 else TIME_QUANTUM - running.used
    {
      hide LevelsFiled, Filed, IdsOf, LevelIds, Holders, MutexesOk, Views, TableOk, OthersJoining;
      var blocked := RemainingThreadsBlocked(running.id);
      timer := if !blocked then TIME_QUANTUM - running.used else 0;
    }

    method MarkScheduled()
      requires Built() && running != null
      modifies running
      ensures Built() && View() == old(View()).With(running.id, old(View()).At(running.id).(scheduled := true))
      ensures running.used == old(running.used)
    {
      hide LevelsFiled, Filed, IdsOf, LevelIds, Holders, MutexesOk, Views, TableOk;
      if !running.scheduled {
        running.scheduled := true;
      }
      OneChanged();
    }

    /** Do all listed threads but `t` wait for another to end? */
    method RemainingThreadsBlocked(t: nat) returns (r: bool)
      requires Built()
      ensures r <==> OthersJoining(View().threads, View().tcbs, t)
    {
      hide LevelsFiled, LevelIds, Holders, MutexesOk;
      for i := 0 to |tcbs|
        invariant forall k :: 0 <= k < i && tcbs[k].id != t ==> tcbs[k].join != 0
      {
        if tcbs[i].join == 0 && tcbs[i].id != t {
          assert View().tcbs[i] == tcbs[i].id;
          return false;
        }
      }
      return true;
    }

    // ---- A pass of the shortest-job scheduler

    /** Inserts `t` before the first listed thread that has used at least as much. */
    method InsertTcb(t: Tcb)
      requires Built() && InTable(t, table)
      modifies this`tcbs
      ensures Built() && View() == old(View()).(tcbs := InsertByUsage(old(View()).threads, old(View()).tcbs, t.id))
    {
      hide LevelsFiled, LevelIds, Holders, MutexesOk, Position, IdsOf;
      var k := FindPlace(t);
      FiledOne(t, table);
      FiledJoin(tcbs[..k] + [t], tcbs[k..], table);
      IdsCut(tcbs, k);
      IdsJoin(tcbs[..k], [t]);
      IdsJoin(tcbs[..k] + [t], tcbs[k..]);
      tcbs := tcbs[..k] + [t] + tcbs[k..];
    }

    /** Where `t` belongs in the list. */
    method FindPlace(t: Tcb) returns (k: nat)
      requires Built() && InTable(t, table)
      ensures k <= |tcbs| && k == Position(View().threads, View().tcbs, View().threads[t.id - 1])
    {
      hide LevelsFiled, LevelIds, Holders, MutexesOk, Position;
      k := 0;
      while k < |tcbs| && !CompareUsage(t, tcbs[k])
        invariant k <= |tcbs| && forall i :: 0 <= i < k ==> !t.View().AtMost(tcbs[i].View())
      {
        k := k + 1;
      }
      PositionAt(View().threads, View().tcbs, t.View(), k);
    }

    method SchedPsjf()
      requires Valid() && Enabled(View(), Pass) && policy == Psjf
      modifies this, table
      ensures Valid() && table == old(table) && View() == Apply(old(View()), Pass)
    {
      hide Inv, LevelsFiled, Filed, IdsOf, LevelIds, Holders, MutexesOk, Views, TableOk, Gathered, Take, Dispatch;
      ghost var s := View();
      StepKeeps(s, Pass);
      GatheredFinds(s);
      GatherAll();
      TakeIgnoresRunner(Gathered(s), View().running);
      TakeFirst();
      DispatchRunning();
    }

    /** New arrivals and the thread that ran go to their places in the list. */
    method GatherAll()
      requires Built()
      modifies this
      ensures Built() && table == old(table) && Known(|old(View()).threads|, old(View()).arrival)
      ensures View() == Gathered(old(View())).(running := old(View()).running)
    {
      hide LevelsFiled, Filed, IdsOf, LevelIds, Holders, MutexesOk, Views, TableOk, InsertByUsage;
      ghost var s := View();
      ArrivalKnown();
      while arrival != []
        invariant Built() && table == old(table) && running == old(running) && Known(|s.threads|, View().arrival)
        invariant View() == s.(arrival := View().arrival, tcbs := View().tcbs)
        invariant InsertAll(s.threads, View().tcbs, View().arrival) == InsertAll(s.threads, s.tcbs, s.arrival)
        decreases |arrival|
      {
        var t := TakeArrival();
        InsertTcb(t);
      }
      NoArrivals();
      if running != null {
        InsertTcb(running);
      }
    }

    lemma NoArrivals()
      requires arrival == []
      ensures View().arrival == []
    {
    }

    lemma ArrivalKnown()
      requires Built()
      ensures Known(|View().threads|, View().arrival)
    {
    }

    method TakeArrival() returns (t: Tcb)
      requires Built() && arrival != []
      modifies this`arrival
      ensures Built() && InTable(t, table) && |arrival| == |old(arrival)| - 1 && old(View()).arrival != []
      ensures t.id == old(View()).arrival[0] && View() == old(View()).(arrival := old(View()).arrival[1..])
    {
      hide LevelsFiled, LevelIds, Holders, MutexesOk, Views, TableOk;
      t := arrival[0];
      arrival := arrival[1..];
      assert IdsOf(arrival) == IdsOf(old(arrival))[1..];
    }

    /** The first listed thread that is not blocked comes off the list to run. */
    method TakeFirst()
      requires Built() && FirstUnblocked(View().threads, View().tcbs) < |View().tcbs|
      modifies this
      ensures Built() && table == old(table) && running != null && View() == Take(old(View()))
    {
      hide LevelsFiled, Filed, IdsOf, LevelIds, Holders, MutexesOk, Views, TableOk, Without, FirstUnblocked;
      var t := FindFirstUnblocked();
      RemoveFromTcbs(t.id);
      running := t;
    }

    method FindFirstUnblocked() returns (t: Tcb)
      requires Built() && FirstUnblocked(View().threads, View().tcbs) < |View().tcbs|
      ensures InTable(t, table) && t.id == View().tcbs[FirstUnblocked(View().threads, View().tcbs)]
    {
      hide LevelsFiled, LevelIds, Holders, MutexesOk, FirstUnblocked;
      ghost var s := View();
      var k := 0;
      FirstIs(s.threads, s.tcbs);
      while tcbs[k].IsBlocked()
        invariant 0 <= k <= FirstUnblocked(s.threads, s.tcbs)
        decreases |tcbs| - k
      {
        assert s.threads[s.tcbs[k] - 1] == tcbs[k].View();
        k := k + 1;
      }
      return tcbs[k];
    }
  }

  /** What the stages of a pass rely on. */
  lemma PassStages(s: State)
    requires Inv(s) && s.policy == Mlfq && s.started && Enabled(s, Pass)
    ensures var r := Boost(Requeue(Admit(s)));
      r == Ready(s) && Apply(s, Pass) == Dispatch(Choose(r)) && Inv(Dispatch(Choose(r)))
    ensures Admit(s).running == s.running
    ensures s.Created(s.running) ==> Admit(s).Created(s.running) && Admit(s).At(s.running).prio < QUEUE_LEVELS
    ensures Ready(s).running == 0
    ensures var c := Choose(Ready(s)); c.Created(c.running) && c.At(c.running).used < TIME_QUANTUM
  {
    hide PartitionOf, Waiting, Mutexes, Choose, SameWaits, Requeue, Boost;
    StepKeeps(s, Pass);
    ReadyKeeps(s);
    var t :| s.Live(t) && !s.At(t).Blocked();
    LiveSame(s, Ready(s), t);
    ChooseKeeps(Ready(s));
  }

  /** The first new arrival is taken in. */
  ghost function OneAdmitted(s: State): State
    requires s.arrival != [] && |s.levels| == QUEUE_LEVELS
  {
    s.(levels := s.levels[0 := s.levels[0] + [s.arrival[0]]], tcbs := [s.arrival[0]] + s.tcbs,
      arrival := s.arrival[1..])
  }

  lemma AdmitOne(s: State)
    requires s.arrival != [] && |s.levels| == QUEUE_LEVELS
    ensures Admit(OneAdmitted(s)) == Admit(s)
  {
    assert s.arrival == [s.arrival[0]] + s.arrival[1..];
    assert s.levels[0] + [s.arrival[0]] + s.arrival[1..] == s.levels[0] + s.arrival;
    assert Reversed(s.arrival[1..]) + ([s.arrival[0]] + s.tcbs) == Reversed(s.arrival) + s.tcbs;
  }

  /** The first thread of a level boosted. */
  ghost function OneBoosted(s: State, l: nat): State
    requires |s.levels| == QUEUE_LEVELS && 1 <= l < QUEUE_LEVELS && s.levels[l] != [] && s.Created(s.levels[l][0])
  {
    var t := s.levels[l][0];
    s.With(t, s.At(t).(used := 0, fully := false, prio := 0))
      .(levels := s.levels[l := s.levels[l][1..]][0 := s.levels[0] + [t]])
  }

  /** With the levels between empty, boosting the first thread of a level first makes no difference. */
  lemma BoostOne(s: State, l: nat)
    requires |s.levels| == QUEUE_LEVELS && 1 <= l < QUEUE_LEVELS && s.levels[l] != [] && s.Created(s.levels[l][0])
    requires forall i :: 1 <= i < l ==> s.levels[i] == []
    ensures var s' := OneBoosted(s, l); BoostAll(s') == BoostAll(s) && forall i :: 1 <= i < l ==> s'.levels[i] == []
  {
    var t := s.levels[l][0];
    var s' := OneBoosted(s, l);
    var below, below' := s.levels[1] + s.levels[2] + s.levels[3], s'.levels[1] + s'.levels[2] + s'.levels[3];
    assert below == [t] + below';
    assert s'.levels[0] + below' == s.levels[0] + below;
    assert Boosted(s'.threads, below') == Boosted(s.threads, below);
  }

  lemma BoostNone(s: State)
    requires |s.levels| == QUEUE_LEVELS && forall l :: 1 <= l < QUEUE_LEVELS ==> s.levels[l] == []
    ensures BoostAll(s) == s
  {
    var below := s.levels[1] + s.levels[2] + s.levels[3];
    assert below == [] && s.levels[0] + below == s.levels[0];
    assert Boosted(s.threads, below) == s.threads;
    assert [s.levels[0], [], [], []] == s.levels;
  }

  lemma EnrolledPass(s: State)
    requires Inv(s) && s.policy == Mlfq && !s.started && Enabled(s, Pass)
    ensures Enabled(Enroll(s), Pass) && Apply(Enroll(s), Pass) == Apply(s, Pass)
  {
    EnrollKeeps(s);
    var t :| s.Live(t) && !s.At(t).Blocked();
    assert Enroll(s).Live(t) && !Enroll(s).At(t).Blocked();
    assert Enroll(Enroll(s)) == Enroll(s);
  }

  lemma NoChoice(s: State)
    requires NoneBelow(s, |s.levels|)
    ensures Choose(s) == s
  {
    hide FirstUnblocked;
    PickLevelAt(s, 0, |s.levels|);
  }

  lemma SizeOf(levels: seq<seq<Tcb>>, l: nat)
    requires l < |levels|
    ensures |LevelIds(levels)[l]| == |levels[l]|
  {
  }

  /** The first `j` threads of a level put behind the others. */
  ghost function Rotated(s: State, l: nat, j: nat): State
    requires l < |s.levels| && j <= |s.levels[l]|
  {
    s.(levels := s.levels[l := s.levels[l][j..] + s.levels[l][..j]])
  }

  /** Are the first `j` threads of a level blocked? */
  ghost predicate Passed(s: State, l: nat, j: nat)
    requires l < |s.levels|
  {
    j <= |s.levels[l]| && forall i :: 0 <= i < j ==> s.Created(s.levels[l][i]) && s.At(s.levels[l][i]).Blocked()
  }

  lemma NotRotated(s: State, l: nat)
    requires l < |s.levels|
    ensures Rotated(s, l, 0) == s && Passed(s, l, 0)
  {
    var q := s.levels[l];
    assert q[0..] + q[..0] == q;
  }

  lemma RotateOnce(s: State, l: nat, j: nat)
    requires l < |s.levels| && j < |s.levels[l]| && Passed(s, l, j) && s.Created(s.levels[l][j])
    ensures var r := Rotated(s, l, j); var t := s.levels[l][j];
      && |r.levels[l]| > 0 && r.levels[l][0] == t
      && (s.At(t).Blocked() ==>
            Passed(s, l, j + 1) && r.(levels := r.levels[l := r.levels[l][1..] + [t]]) == Rotated(s, l, j + 1))
      && (!s.At(t).Blocked() ==>
            r.(running := t, levels := r.levels[l := r.levels[l][1..]]) == LevelTried(s, l))
  {
    hide FirstUnblocked;
    var q := s.levels[l];
    assert (q[j..] + q[..j])[1..] == q[j + 1..] + q[..j];
    assert q[j + 1..] + q[..j] + [q[j]] == q[j + 1..] + q[..j + 1];
    if !s.At(q[j]).Blocked() {
      FirstAt(s.threads, q, j);
    }
  }

  lemma RotatedAll(s: State, l: nat)
    requires l < |s.levels| && Passed(s, l, |s.levels[l]|)
    ensures Rotated(s, l, |s.levels[l]|) == s && LevelTried(s, l) == s
    ensures FirstUnblocked(s.threads, s.levels[l]) == |s.levels[l]|
  {
    hide FirstUnblocked;
    var q := s.levels[l];
    assert q[|q|..] + q[..|q|] == q;
    FirstAt(s.threads, q, |q|);
  }

  lemma {:induction false} PositionAt(threads: seq<Thread>, q: seq<nat>, th: Thread, k: nat)
    requires Known(|threads|, q) && k <= |q| && forall i :: 0 <= i < k ==> !th.AtMost(threads[q[i] - 1])
    requires k < |q| ==> th.AtMost(threads[q[k] - 1])
    ensures Position(threads, q, th) == k
  {
    if k > 0 {
      assert Known(|threads|, q[1..]);
      PositionAt(threads, q[1..], th, k - 1);
    }
  }

  lemma DispatchIs(s: State, timer: nat)
    requires s.Created(s.running) && s.At(s.running).used < TIME_QUANTUM
    requires timer == if OthersJoining(s.threads, s.tcbs, s.running) then 0 else TIME_QUANTUM - s.At(s.running).used
    ensures s.With(s.running, s.At(s.running).(scheduled := true)).(timer := timer, scheduling := false) == Dispatch(s)
  {
  }

  lemma SameJoins(s: State, s': State)
    requires s.Created(s.running) && s' == s.With(s.running, s.At(s.running).(scheduled := true))
    ensures OthersJoining(s'.threads, s'.tcbs, s.running) <==> OthersJoining(s.threads, s.tcbs, s.running)
  {
    assert forall i :: 0 <= i < |s.threads| ==> s'.threads[i].join == s.threads[i].join;
  }

  lemma TakeIgnoresRunner(s: State, t: nat)
    requires FirstUnblocked(s.threads, s.tcbs) < |s.tcbs|
    ensures Take(s.(running := t)) == Take(s) && Take(s).running == s.tcbs[FirstUnblocked(s.threads, s.tcbs)]
    ensures Take(s).threads == s.threads
  {
    hide FirstUnblocked, Without;
  }

  /** After gathering, the list has a thread that is not blocked, and whichever is taken has part of its quantum
      left. */
  lemma GatheredFinds(s: State)
    requires Inv(s) && s.policy == Psjf && Enabled(s, Pass)
    ensures var g := Gathered(s);
      && FirstUnblocked(g.threads, g.tcbs) < |g.tcbs|
      && g.threads == s.threads && (forall i :: 0 <= i < |s.threads| ==> s.threads[i].used < TIME_QUANTUM)
  {
    hide PartitionOf, LevelsOf, Waiting, Mutexes, Gathered, SameWaits, FirstUnblocked;
    GatheredKeeps(s);
    var t :| s.Live(t) && !s.At(t).Blocked();
    LiveSame(s, Gathered(s), t);
    TakeIsLeast(Gathered(s));
  }

  lemma NobodyAlerted(threads: seq<Thread>, t: nat)
    ensures Alert(threads, [], t) == threads
  {
  }

  lemma AlertedNext(threads: seq<Thread>, ts: seq<nat>, t': nat, t: nat)
    requires 1 <= t' <= |threads|
    ensures var b := Alert(threads, ts, t);
      Alert(threads, ts + [t'], t) == if b[t' - 1].join == t then b[t' - 1 := b[t' - 1].(join := 0)] else b
  {
  }

  /** Does a thread among `ts` seek mutex `m`? */
  ghost predicate Sought(threads: seq<Thread>, ts: seq<nat>, m: nat) {
    exists i :: 0 <= i < |ts| && 1 <= ts[i] <= |threads| && threads[ts[i] - 1].seeking == m
  }

  lemma NobodyWoken(threads: seq<Thread>, m: nat)
    ensures Broadcast(threads, [], m) == threads && !Sought(threads, [], m)
  {
  }

  lemma WokenNext(threads: seq<Thread>, ts: seq<nat>, t: nat, m: nat)
    requires 1 <= t <= |threads|
    ensures var b := Broadcast(threads, ts, m);
      Broadcast(threads, ts + [t], m) == if b[t - 1].seeking == m then b[t - 1 := b[t - 1].(seeking := 0)] else b
  {
  }

  lemma SoughtNext(threads: seq<Thread>, ts: seq<nat>, t: nat, m: nat)
    requires 1 <= t <= |threads| && m != 0
    ensures Sought(threads, ts + [t], m) <==> Sought(threads, ts, m) || Broadcast(threads, ts, m)[t - 1].seeking == m
  {
    assert (ts + [t])[|ts|] == t;
    forall i | 0 <= i < |ts| ensures (ts + [t])[i] == ts[i] {
    }
  }
}
