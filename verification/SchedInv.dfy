/** What every step of the thread library keeps. */
module SchedInv {
  import opened Collections
  import opened SchedState

  /** The ids 1 to `n`, each once. */
  ghost function Ids(n: nat): (r: multiset<nat>)
    ensures forall t :: r[t] == if 1 <= t <= n then 1 else 0
  {
    if n == 0 then multiset{} else Ids(n - 1) + multiset{n}
  }

  ghost function Self(t: nat): multiset<nat> {
    if t == 0 then multiset{} else multiset{t}
  }

  ghost function InLevels(levels: seq<seq<nat>>): multiset<nat>
    requires |levels| == QUEUE_LEVELS
  {
    multiset(levels[0]) + multiset(levels[1]) + multiset(levels[2]) + multiset(levels[3])
  }

  /** The threads waiting for the processor. */
  ghost function Queued(s: State): multiset<nat>
    requires Shaped(s)
  {
    if s.policy == Mlfq then InLevels(s.levels) else multiset(s.tcbs)
  }

  /** Every created thread is in exactly one place: running, newly arrived, queued once, or ended.
      Under the feedback policy the list of threads has those running or queued, once the scheduler has run. */
  ghost predicate Partition(s: State)
    requires Shaped(s)
  {
    PartitionOf(s.policy, s.started, |s.threads|, s.arrival, s.levels, s.tcbs, s.ended, s.running)
  }

  ghost predicate PartitionOf(policy: Policy, started: bool, n: nat, arrival: seq<nat>, levels: seq<seq<nat>>,
                              tcbs: seq<nat>, ended: seq<nat>, running: nat)
    requires |levels| == QUEUE_LEVELS
  {
    && multiset(arrival) + (if policy == Mlfq then InLevels(levels) else multiset(tcbs)) + multiset(ended) +
         Self(running) == Ids(n)
    && (policy == Psjf ==> levels == [[], [], [], []])
    && (policy == Mlfq && started ==> multiset(tcbs) == InLevels(levels) + Self(running))
    && (policy == Mlfq && !started ==> tcbs == [] && levels == [[], [], [], []] && ended == [] && running == MAIN)
  }

  /** A thread's level is the one it is queued at. */
  ghost predicate Levels(s: State) {
    LevelsOf(s.threads, s.arrival, s.levels)
  }

  ghost predicate LevelsOf(threads: seq<Thread>, arrival: seq<nat>, levels: seq<seq<nat>>) {
    && (forall l, i :: 0 <= l < |levels| && 0 <= i < |levels[l]| ==> AtLevel(threads, levels[l][i], l))
    && (forall i :: 0 <= i < |arrival| ==> AtLevel(threads, arrival[i], 0))
    && (forall i :: 0 <= i < |threads| ==> threads[i].prio < QUEUE_LEVELS)
  }

  ghost predicate AtLevel(threads: seq<Thread>, t: nat, l: nat) {
    1 <= t <= |threads| && threads[t - 1].prio == l
  }

  /** The unused part of a quantum is never empty; before each dispatch the decay counter was brought down. */
  ghost predicate Clocks(s: State) {
    && (forall i :: 0 <= i < |s.threads| ==> s.threads[i].used < TIME_QUANTUM)
    && (s.policy == Mlfq ==> s.total <= DECAY && (!s.scheduling ==> s.total < DECAY))
    && (!s.scheduling ==> s.timer <= TIME_QUANTUM)
  }

  /** Only threads in the list of threads, which unlock and termination look through, are blocked or in a lock
      call, or the one that has just given up the processor; who seeks a mutex is in the lock call for it; who is
      destroying one is in no lock call, waits for nothing, and does not hold it. */
  ghost predicate Waiting(s: State) {
    && (!s.scheduling ==> s.Created(s.running) && !s.At(s.running).Blocked())
    && (forall i :: 0 <= i < |s.threads| ==> Waits(s.threads[i], i + 1, s.holders))
    && (forall i :: 0 <= i < |s.threads| ==> Listed(s.threads[i], i + 1, s.tcbs, s.running))
  }

  ghost predicate Waits(th: Thread, t: nat, holders: map<nat, nat>) {
    && (th.seeking != 0 ==> th.join == 0 && th.locking == th.seeking)
    && (th.destroying != 0 ==>
          th.locking == 0 && !th.Blocked() && (th.destroying in holders ==> holders[th.destroying] != t))
    && (th.joining != Nobody ==> th.locking == th.destroying == 0 && !th.Blocked())
  }

  ghost predicate Listed(th: Thread, t: nat, tcbs: seq<nat>, running: nat) {
    th.Blocked() || th.locking != 0 ==> t in tcbs || t == running
  }

  ghost predicate Mutexes(s: State) {
    forall m :: m in s.holders ==> 1 <= m <= s.mutexes && s.holders[m] <= |s.threads|
  }

  /** In ascending order of usage. */
  ghost predicate Sorted(threads: seq<Thread>, q: seq<nat>) {
    && Known(|threads|, q)
    && (forall i, j :: 0 <= i < j < |q| ==> NoMore(threads, q[i], q[j]))
  }

  /** Has thread `t` used no more than thread `t'`? */
  ghost predicate NoMore(threads: seq<Thread>, t: nat, t': nat) {
    1 <= t <= |threads| && 1 <= t' <= |threads| && threads[t - 1].AtMost(threads[t' - 1])
  }

  ghost predicate Inv(s: State) {
    && Shaped(s) && Partition(s) && Levels(s) && Clocks(s) && Waiting(s) && Mutexes(s)
    && (s.policy == Psjf ==> Sorted(s.threads, s.tcbs))
    && MAIN !in s.ended && |s.threads| >= 1
  }

  lemma StartInv(policy: Policy)
    ensures Inv(Start(policy))
  {
  }

  // ---- What the partition says of one thread

  lemma Places(s: State)
    requires Shaped(s) && Partition(s)
    ensures forall t {:trigger t in s.tcbs} :: t in s.tcbs ==> s.Created(t) && t !in s.ended && t !in s.arrival
    ensures forall t {:trigger t in s.arrival} :: t in s.arrival ==> s.Created(t) && t !in s.ended && t != s.running
    ensures s.running != 0 ==> s.Created(s.running) && s.running !in s.ended
    ensures s.policy == Psjf ==> s.running !in s.tcbs
    ensures forall t :: s.Created(t) ==> t in s.arrival || t in s.tcbs || t in s.ended || t == s.running
    ensures forall t {:trigger t in s.ended} :: t in s.ended ==> s.Created(t)
  {
    var all := multiset(s.arrival) + Queued(s) + multiset(s.ended) + Self(s.running);
    forall t
      ensures t in s.tcbs ==> s.Created(t) && t !in s.ended && t !in s.arrival
      ensures t in s.arrival ==> s.Created(t) && t !in s.ended && t != s.running
      ensures t == s.running != 0 ==> s.Created(t) && t !in s.ended
      ensures s.policy == Psjf && t == s.running != 0 ==> t !in s.tcbs
      ensures t in s.ended ==> s.Created(t)
      ensures s.Created(t) ==> t in s.arrival || t in s.tcbs || t in s.ended || t == s.running
    {
      assert all[t] == multiset(s.arrival)[t] + Queued(s)[t] + multiset(s.ended)[t] + Self(s.running)[t];
      assert s.policy == Mlfq && s.started ==> multiset(s.tcbs)[t] == Queued(s)[t] + Self(s.running)[t];
    }
  }

  lemma QueuedPlaces(s: State, l: nat, t: nat)
    requires Shaped(s) && Partition(s) && l < QUEUE_LEVELS && t in s.levels[l]
    ensures s.Created(t) && t !in s.ended && t !in s.arrival && t != s.running
    ensures s.policy == Mlfq && s.started && t in s.tcbs
    ensures forall l' :: 0 <= l' < QUEUE_LEVELS && l' != l ==> t !in s.levels[l']
  {
    var all := multiset(s.arrival) + Queued(s) + multiset(s.ended) + Self(s.running);
    assert all[t] == multiset(s.arrival)[t] + Queued(s)[t] + multiset(s.ended)[t] + Self(s.running)[t];
    InLevelsCount(s.levels, l, t);
    assert multiset(s.levels[l])[t] >= 1;
    assert s.policy == Mlfq && s.started;
    assert multiset(s.tcbs)[t] >= 1;
  }

  lemma InLevelsCount(levels: seq<seq<nat>>, l: nat, t: nat)
    requires |levels| == QUEUE_LEVELS && l < QUEUE_LEVELS && t in levels[l]
    ensures InLevels(levels)[t] >= 1
    ensures InLevels(levels)[t] == 1 ==> forall l' :: 0 <= l' < QUEUE_LEVELS && l' != l ==> t !in levels[l']
  {
    var a, b, c, d := multiset(levels[0])[t], multiset(levels[1])[t], multiset(levels[2])[t], multiset(levels[3])[t];
    assert InLevels(levels)[t] == a + b + c + d;
    assert forall l' :: 0 <= l' < QUEUE_LEVELS && t in levels[l'] ==> t in multiset(levels[l']);
  }

  // ---- The calls keep the invariant

  /** Only the running thread's usage, waits and lock call change. */
  ghost predicate RunnerOnly(s: State, th: Thread, s': State)
    requires s.Created(s.running)
  {
    && s' == s.(threads := s.threads[s.running - 1 := th], total := s'.total, scheduling := s'.scheduling,
         holders := s'.holders)
    && th.prio == s.At(s.running).prio
  }

  lemma RunnerOnlyKeeps(s: State, th: Thread, s': State)
    requires Inv(s) && s.Created(s.running) && RunnerOnly(s, th, s')
    ensures Shaped(s') && Partition(s') && Levels(s')
    ensures s'.policy == Psjf ==> Sorted(s'.threads, s'.tcbs)
  {
    hide PartitionOf, Clocks, Waiting, Mutexes, Thread.AtMost;
    if s.policy == Psjf {
      OutOfList(s);
    }
  }

  lemma OutOfList(s: State)
    requires Shaped(s) && Partition(s) && s.policy == Psjf
    ensures forall i :: 0 <= i < |s.tcbs| ==> s.tcbs[i] != s.running
  {
    Places(s);
  }

  lemma YieldKeeps(s: State, elapsed: nat)
    requires Inv(s) && s.InUserCode()
    ensures Inv(YieldStep(s, elapsed))
  {
    hide PartitionOf, LevelsOf, Sorted;
    var s' := YieldStep(s, elapsed);
    RunnerOnlyKeeps(s, s'.At(s.running), s');
  }

  lemma TimerKeeps(s: State)
    requires Inv(s) && Enabled(s, Timer)
    ensures Inv(TimerStep(s))
  {
    hide PartitionOf, LevelsOf, Sorted;
    RunnerOnlyKeeps(s, TimerStep(s).At(s.running), TimerStep(s));
  }

  lemma JoinKeeps(s: State, t: nat)
    requires Inv(s) && Enabled(s, Join(t))
    ensures Inv(TestStep(s, t))
  {
    hide PartitionOf, LevelsOf, Sorted;
    var s' := TestStep(s, t);
    RunnerOnlyKeeps(s, s'.At(s.running), s');
  }

  lemma WaitKeeps(s: State, t: nat, elapsed: nat)
    requires Inv(s) && Enabled(s, Wait(t, elapsed))
    ensures Inv(WaitStep(s, t, elapsed))
  {
    hide PartitionOf, LevelsOf, Sorted;
    var s' := WaitStep(s, t, elapsed);
    RunnerOnlyKeeps(s, s'.At(s.running), s');
  }

  lemma LockKeeps(s: State, m: nat, elapsed: nat)
    requires s.Created(s.running) && m in s.holders && Enabled(s, Lock(m, elapsed)) && Inv(s)
    ensures Inv(LockStep(s, m, elapsed))
  {
    hide PartitionOf, LevelsOf, Sorted;
    var s' := LockStep(s, m, elapsed);
    RunnerOnlyKeeps(s, s'.At(s.running), s');
  }

  /** A release: those that sought the mutex, and nothing else, change. */
  lemma BroadcastKeeps(s: State, threads: seq<Thread>, m: nat)
    requires Inv(s) && threads == Broadcast(s.threads, s.tcbs, m)
    ensures Inv(s.(threads := threads))
    ensures m != 0 ==> forall i :: 0 <= i < |threads| ==> threads[i].seeking != m || i + 1 == s.running
  {
    hide PartitionOf, LevelsOf, Sorted;
    BroadcastSame(s.threads, s.arrival, s.levels, s.tcbs, m);
  }

  lemma BroadcastSame(threads: seq<Thread>, arrival: seq<nat>, levels: seq<seq<nat>>, tcbs: seq<nat>, m: nat)
    ensures LevelsOf(threads, arrival, levels) ==> LevelsOf(Broadcast(threads, tcbs, m), arrival, levels)
    ensures Sorted(threads, tcbs) ==> Sorted(Broadcast(threads, tcbs, m), tcbs)
  {
    SameUsage(threads, Broadcast(threads, tcbs, m), arrival, levels, tcbs);
  }

  /** Neither the levels nor the order look at what a thread waits for. */
  lemma SameUsage(threads: seq<Thread>, threads': seq<Thread>, arrival: seq<nat>, levels: seq<seq<nat>>, q: seq<nat>)
    requires |threads'| == |threads|
    requires forall i :: 0 <= i < |threads| ==>
      threads'[i].prio == threads[i].prio && threads'[i].quantums == threads[i].quantums
        && threads'[i].used == threads[i].used
    ensures LevelsOf(threads, arrival, levels) ==> LevelsOf(threads', arrival, levels)
    ensures Sorted(threads, q) ==> Sorted(threads', q)
  {
    assert forall t, l :: AtLevel(threads, t, l) ==> AtLevel(threads', t, l);
  }

  lemma UnlockKeeps(s: State, m: nat)
    requires Inv(s) && s.InUserCode() && s.Holds(s.running, m)
    ensures Inv(UnlockStep(s, m))
    ensures forall i :: 0 <= i < |s.threads| ==> UnlockStep(s, m).threads[i].seeking != m
  {
    hide PartitionOf, LevelsOf, Sorted;
    var s1 := s.(threads := Broadcast(s.threads, s.tcbs, m));
    BroadcastKeeps(s, s1.threads, m);
    assert !s1.At(s.running).Blocked();
  }

  lemma DestroyKeeps(s: State, m: nat)
    requires Inv(s) && Enabled(s, Destroy(m))
    ensures Inv(DestroyStep(s, m))
  {
    hide Inv, UnlockStep;
    if s.Holds(0, m) {
      RemovalKeeps(s, m);
    } else {
      UnlockKeeps(s, m);
      HolderIsNone(s, m);
      MarkKeeps(UnlockStep(s, m), m);
    }
  }

  lemma HolderIsNone(s: State, m: nat)
    requires Inv(s) && s.InUserCode() && s.Holds(s.running, m)
    ensures m != 0 && UnlockStep(s, m).Holds(0, m) && UnlockStep(s, m).InUserCode()
      && UnlockStep(s, m).running == s.running
    ensures UnlockStep(s, m).At(s.running) == s.At(s.running)
  {
    hide PartitionOf, LevelsOf, Sorted, Clocks;
  }

  /** The running thread has come to, or past, the removal. */
  lemma MarkKeeps(s: State, m: nat)
    requires Inv(s) && !s.scheduling && s.Created(s.running) && s.At(s.running).locking == 0
    requires s.At(s.running).joining == Nobody
    requires m in s.holders ==> s.holders[m] != s.running
    ensures Inv(s.With(s.running, s.At(s.running).(destroying := m)))
  {
    hide PartitionOf, LevelsOf, Sorted;
    var th := s.At(s.running).(destroying := m);
    RunnerOnlyKeeps(s, th, s.With(s.running, th));
  }

  lemma RemoveKeeps(s: State, m: nat)
    requires Inv(s) && Enabled(s, Remove(m))
    ensures Inv(RemoveStep(s, m))
  {
    hide Inv;
    NotDestroying(s);
    var th := s.At(s.running).(destroying := 0);
    MarkKeeps(s, 0);
    RemovalKeeps(s.With(s.running, th), m);
  }

  lemma NotDestroying(s: State)
    requires Inv(s) && !s.scheduling && s.Created(s.running) && s.At(s.running).destroying != 0
    ensures s.At(s.running).locking == 0 && s.At(s.running).joining == Nobody && 0 !in s.holders
  {
    hide PartitionOf, LevelsOf, Sorted, Clocks;
    assert Waits(s.threads[s.running - 1], s.running, s.holders);
  }

  lemma RemovalKeeps(s: State, m: nat)
    requires Inv(s)
    ensures Inv(RemoveMutex(s, m))
  {
    hide PartitionOf, LevelsOf, Sorted;
  }

  lemma InitMutexKeeps(s: State)
    requires Inv(s) && s.InUserCode()
    ensures Inv(Apply(s, InitMutex))
  {
    hide PartitionOf, LevelsOf, Sorted;
  }

  lemma CreateKeeps(s: State)
    requires Inv(s) && s.InUserCode()
    ensures Inv(Apply(s, Create))
  {
    hide PartitionOf, LevelsOf, Sorted;
    PartitionOneMore(s.policy, s.started, |s.threads|, s.arrival, s.levels, s.tcbs, s.ended, s.running);
    LevelsOneMore(s.threads, s.arrival, s.levels);
    if s.policy == Psjf {
      SortedOneMore(s.threads, s.tcbs);
    }
  }

  lemma PartitionOneMore(policy: Policy, started: bool, n: nat, arrival: seq<nat>, levels: seq<seq<nat>>,
                         tcbs: seq<nat>, ended: seq<nat>, running: nat)
    requires |levels| == QUEUE_LEVELS && PartitionOf(policy, started, n, arrival, levels, tcbs, ended, running)
    ensures PartitionOf(policy, started, n + 1, arrival + [n + 1], levels, tcbs, ended, running)
  {
    assert Ids(n + 1) == Ids(n) + multiset{n + 1};
  }

  lemma LevelsOneMore(threads: seq<Thread>, arrival: seq<nat>, levels: seq<seq<nat>>)
    requires LevelsOf(threads, arrival, levels)
    ensures LevelsOf(threads + [NEWBORN], arrival + [|threads| + 1], levels)
  {
    assert forall t, l :: AtLevel(threads, t, l) ==> AtLevel(threads + [NEWBORN], t, l);
  }

  lemma SortedOneMore(threads: seq<Thread>, q: seq<nat>)
    requires Sorted(threads, q)
    ensures Sorted(threads + [NEWBORN], q)
  {
    hide Thread.AtMost;
  }

  // ---- Termination

  lemma {:induction false} WithoutCount(q: seq<nat>, t: nat)
    ensures t in q ==> multiset(Without(q, t)) == multiset(q) - multiset{t}
    ensures t !in q ==> Without(q, t) == q
  {
    if q != [] {
      assert q == [q[0]] + q[1..];
      assert multiset(q) == multiset{q[0]} + multiset(q[1..]);
      if q[0] != t {
        WithoutCount(q[1..], t);
      }
    }
  }

  lemma RunnerNotListed(policy: Policy, started: bool, n: nat, arrival: seq<nat>, levels: seq<seq<nat>>, tcbs: seq<nat>,
                        ended: seq<nat>, t: nat)
    requires |levels| == QUEUE_LEVELS && PartitionOf(policy, started, n, arrival, levels, tcbs, ended, t)
    requires policy == Psjf && t > 0
    ensures t !in tcbs
  {
    assert (multiset(arrival) + multiset(tcbs) + multiset(ended) + Self(t))[t] <= 1;
  }

  lemma PartitionExit(policy: Policy, started: bool, n: nat, arrival: seq<nat>, levels: seq<seq<nat>>, tcbs: seq<nat>,
                      ended: seq<nat>, t: nat)
    requires |levels| == QUEUE_LEVELS && PartitionOf(policy, started, n, arrival, levels, tcbs, ended, t) && 1 < t <= n
    ensures PartitionOf(policy, started, n, arrival, levels, Without(tcbs, t), [t] + ended, 0)
    ensures policy == Psjf ==> Without(tcbs, t) == tcbs
  {
    hide Ids, InLevels, Without;
    WithoutCount(tcbs, t);
    if policy == Psjf {
      RunnerNotListed(policy, started, n, arrival, levels, tcbs, ended, t);
    }
    if policy == Mlfq && started {
      assert Self(t)[t] == 1;
      assert multiset(tcbs) - Self(t) == InLevels(levels);
    }
  }

  lemma OthersStay(q: seq<nat>, t: nat)
    ensures forall t' :: t' in q && t' != t ==> t' in Without(q, t)
  {
  }

  lemma AlertKeeps(threads: seq<Thread>, arrival: seq<nat>, levels: seq<seq<nat>>, tcbs: seq<nat>, t: nat)
    ensures LevelsOf(threads, arrival, levels) ==> LevelsOf(Alert(threads, tcbs, t), arrival, levels)
    ensures Sorted(threads, tcbs) ==> Sorted(Alert(threads, tcbs, t), tcbs)
  {
    SameUsage(threads, Alert(threads, tcbs, t), arrival, levels, tcbs);
  }

  lemma ExitKeeps(s: State)
    requires Inv(s) && Enabled(s, Exit)
    ensures Inv(ExitStep(s))
    ensures s.running in ExitStep(s).ended
    ensures forall i :: 0 <= i < |s.threads| ==> ExitStep(s).threads[i].join != s.running
  {
    hide PartitionOf, Without, LevelsOf, Sorted;
    PartitionExit(s.policy, s.started, |s.threads|, s.arrival, s.levels, s.tcbs, s.ended, s.running);
    OthersStay(s.tcbs, s.running);
    AlertKeeps(s.threads, s.arrival, s.levels, Without(s.tcbs, s.running), s.running);
  }

  // ---- A pass of the feedback scheduler

  lemma EnrollKeeps(s: State)
    requires Inv(s) && s.policy == Mlfq && s.scheduling
    ensures Inv(Enroll(s)) && Enroll(s).started
    ensures Enroll(s) == s.(tcbs := Enroll(s).tcbs, started := true)
  {
    hide LevelsOf;
    if !s.started {
      assert s.running == MAIN && s.tcbs == [];
      assert Enroll(s).tcbs == [MAIN];
    }
  }

  lemma ReversedCount(q: seq<nat>)
    ensures multiset(Reversed(q)) == multiset(q)
  {
    if q != [] {
      ReversedCount(q[1..]);
      assert q == [q[0]] + q[1..];
    }
  }

  lemma AdmitKeeps(s: State)
    requires Inv(s) && s.policy == Mlfq && s.scheduling && s.started
    ensures Inv(Admit(s))
  {
    hide LevelsOf, PartitionOf;
    var s' := Admit(s);
    assert LevelsOf(s'.threads, s'.arrival, s'.levels) by {
      AdmitLevels(s.threads, s.arrival, s.levels);
    }
    AdmitPartition(|s.threads|, s.arrival, s.levels, s.tcbs, s.ended, s.running);
    ReversedCount(s.arrival);
  }

  lemma InLevelsGrow(levels: seq<seq<nat>>, l: nat, ts: seq<nat>)
    requires |levels| == QUEUE_LEVELS && l < QUEUE_LEVELS
    ensures InLevels(levels[l := levels[l] + ts]) == InLevels(levels) + multiset(ts)
  {
    assert multiset(levels[l] + ts) == multiset(levels[l]) + multiset(ts);
  }

  lemma AdmitLevels(threads: seq<Thread>, arrival: seq<nat>, levels: seq<seq<nat>>)
    requires |levels| == QUEUE_LEVELS && LevelsOf(threads, arrival, levels)
    ensures LevelsOf(threads, [], levels[0 := levels[0] + arrival])
  {
  }

  lemma AdmitPartition(n: nat, arrival: seq<nat>, levels: seq<seq<nat>>, tcbs: seq<nat>, ended: seq<nat>, running: nat)
    requires |levels| == QUEUE_LEVELS && PartitionOf(Mlfq, true, n, arrival, levels, tcbs, ended, running)
    ensures PartitionOf(Mlfq, true, n, [], levels[0 := levels[0] + arrival], Reversed(arrival) + tcbs, ended, running)
  {
    hide InLevels, Ids;
    ReversedCount(arrival);
    InLevelsGrow(levels, 0, arrival);
  }

  lemma RequeueKeeps(s: State)
    requires Inv(s) && s.policy == Mlfq && s.scheduling && s.started
    ensures Inv(Requeue(s)) && Requeue(s).running == 0
  {
    hide LevelsOf, PartitionOf;
    var s' := Requeue(s);
    if s.running != 0 {
      Places(s);
      RunnerLevel(s);
      RequeuePartition(|s.threads|, s.arrival, s.levels, s.tcbs, s.ended, s.running, Demoted(s.At(s.running)).prio);
      assert LevelsOf(s'.threads, s'.arrival, s'.levels) by {
        RequeueLevels(s);
      }
    }
  }

  lemma RunnerLevel(s: State)
    requires Levels(s) && s.Created(s.running)
    ensures s.At(s.running).prio < QUEUE_LEVELS
  {
  }

  lemma RequeueLevels(s: State)
    requires Shaped(s) && Partition(s) && Levels(s) && s.running != 0 && s.Created(s.running)
    ensures LevelsOf(Requeue(s).threads, Requeue(s).arrival, Requeue(s).levels)
  {
    hide PartitionOf;
    Places(s);
    forall l, i | 0 <= l < QUEUE_LEVELS && 0 <= i < |s.levels[l]|
      ensures s.levels[l][i] != s.running
    {
      QueuedPlaces(s, l, s.levels[l][i]);
    }
    assert forall i :: 0 <= i < |s.arrival| ==> s.arrival[i] in s.arrival;
  }

  lemma RequeuePartition(n: nat, arrival: seq<nat>, levels: seq<seq<nat>>, tcbs: seq<nat>, ended: seq<nat>,
                         running: nat, l: nat)
    requires |levels| == QUEUE_LEVELS && PartitionOf(Mlfq, true, n, arrival, levels, tcbs, ended, running)
    requires running != 0 && l < QUEUE_LEVELS
    ensures PartitionOf(Mlfq, true, n, arrival, levels[l := levels[l] + [running]], tcbs, ended, 0)
    ensures running in tcbs
  {
    hide InLevels, Ids;
    InLevelsGrow(levels, l, [running]);
    assert running in multiset(tcbs);
  }

  /** When every thread is boosted the top level holds all of them, as the program asserts. */
  lemma BoostKeeps(s: State)
    requires Inv(s) && s.policy == Mlfq && s.scheduling && s.started && s.running == 0
    ensures Inv(Boost(s)) && Boost(s).total < DECAY
    ensures s.total >= DECAY ==> |Boost(s).levels[0]| == |s.tcbs|
  {
    hide LevelsOf, PartitionOf;
    if s.total >= DECAY {
      var s' := Boost(s);
      BoostPartition(|s.threads|, s.arrival, s.levels, s.tcbs, s.ended);
      assert LevelsOf(s'.threads, s'.arrival, s'.levels) by {
        BoostLevels(s);
      }
    }
  }

  lemma BoostPartition(n: nat, arrival: seq<nat>, levels: seq<seq<nat>>, tcbs: seq<nat>, ended: seq<nat>)
    requires |levels| == QUEUE_LEVELS && PartitionOf(Mlfq, true, n, arrival, levels, tcbs, ended, 0)
    ensures PartitionOf(Mlfq, true, n, arrival, [levels[0] + (levels[1] + levels[2] + levels[3]), [], [], []], tcbs,
      ended, 0)
    ensures |levels[0] + (levels[1] + levels[2] + levels[3])| == |tcbs|
  {
    var all := levels[0] + (levels[1] + levels[2] + levels[3]);
    assert InLevels(levels) == multiset(all);
    assert InLevels([all, [], [], []]) == multiset(all);
    assert |multiset(tcbs)| == |multiset(all)|;
  }

  lemma BoostLevels(s: State)
    requires Shaped(s) && Partition(s) && Levels(s)
    ensures LevelsOf(BoostAll(s).threads, s.arrival, BoostAll(s).levels)
  {
    hide PartitionOf;
    var below := s.levels[1] + s.levels[2] + s.levels[3];
    var threads := Boosted(s.threads, below);
    var all := s.levels[0] + below;
    forall i | 0 <= i < |all| ensures AtLevel(threads, all[i], 0) {
      if i >= |s.levels[0]| {
        assert all[i] in below;
      } else {
        assert AtLevel(s.threads, all[i], 0);
      }
    }
    forall i | 0 <= i < |s.arrival| ensures AtLevel(threads, s.arrival[i], 0) {
    }
  }

  // ---- Choosing

  /** All threads listed are blocked. */
  ghost predicate AllBlocked(threads: seq<Thread>, q: seq<nat>)
    requires Known(|threads|, q)
  {
    forall i :: 0 <= i < |q| ==> threads[q[i] - 1].Blocked()
  }

  lemma {:induction false} FirstIs(threads: seq<Thread>, q: seq<nat>)
    requires Known(|threads|, q)
    ensures var k := FirstUnblocked(threads, q);
      && (k < |q| ==> !threads[q[k] - 1].Blocked())
      && AllBlocked(threads, q[..k])
      && (forall i :: 0 <= i < k ==> threads[q[i] - 1].Blocked())
  {
    if q != [] && threads[q[0] - 1].Blocked() {
      assert Known(|threads|, q[1..]);
      FirstIs(threads, q[1..]);
      var k := FirstUnblocked(threads, q[1..]);
      assert q[..k + 1] == [q[0]] + q[1..][..k];
    }
  }

  lemma {:induction false} PickLevelIs(threads: seq<Thread>, levels: seq<seq<nat>>, from: nat)
    requires from <= |levels| && forall l :: 0 <= l < |levels| ==> Known(|threads|, levels[l])
    ensures forall l :: from <= l < PickLevel(threads, levels, from) ==> AllBlocked(threads, levels[l])
    decreases |levels| - from
  {
    if from < |levels| {
      FirstIs(threads, levels[from]);
      if FirstUnblocked(threads, levels[from]) == |levels[from]| {
        assert levels[from][..|levels[from]|] == levels[from];
        PickLevelIs(threads, levels, from + 1);
      }
    }
  }

  lemma LevelsKnown(s: State)
    requires Shaped(s) && Levels(s)
    ensures forall l :: 0 <= l < QUEUE_LEVELS ==> Known(|s.threads|, s.levels[l])
  {
    forall l, i | 0 <= l < QUEUE_LEVELS && 0 <= i < |s.levels[l]| ensures 1 <= s.levels[l][i] <= |s.threads| {
      assert AtLevel(s.threads, s.levels[l][i], l);
    }
  }

  /** Nobody runs, nobody has newly arrived: who is live is queued. */
  lemma LiveIsQueued(s: State, t: nat) returns (l: nat)
    requires Shaped(s) && Partition(s) && s.policy == Mlfq && s.started && s.running == 0 && s.arrival == []
      && s.Live(t)
    ensures l < QUEUE_LEVELS && t in s.levels[l]
  {
    Places(s);
    assert multiset(s.tcbs)[t] >= 1;
    assert InLevels(s.levels)[t] >= 1;
    l := if t in s.levels[0] then 0 else if t in s.levels[1] then 1 else if t in s.levels[2] then 2 else 3;
  }

  /** The scan finds a thread exactly when some live one is not blocked. */
  lemma ChooseFinds(s: State)
    requires Shaped(s) && Partition(s) && Levels(s)
    requires s.policy == Mlfq && s.started && s.running == 0 && s.arrival == []
    ensures PickLevel(s.threads, s.levels, 0) < QUEUE_LEVELS <==> exists t :: s.Live(t) && !s.At(t).Blocked()
  {
    hide PartitionOf, LevelsOf;
    LevelsKnown(s);
    PickLevelIs(s.threads, s.levels, 0);
    var l := PickLevel(s.threads, s.levels, 0);
    if l < QUEUE_LEVELS {
      var q := s.levels[l];
      FirstIs(s.threads, q);
      var t := q[FirstUnblocked(s.threads, q)];
      QueuedPlaces(s, l, t);
      assert s.Live(t) && !s.At(t).Blocked();
    }
    forall t | s.Live(t) && !s.At(t).Blocked() ensures l < QUEUE_LEVELS {
      var l' := LiveIsQueued(s, t);
      var i :| 0 <= i < |s.levels[l']| && s.levels[l'][i] == t;
    }
  }

  lemma ChooseKeeps(s: State)
    requires Inv(s) && s.policy == Mlfq && s.scheduling && s.started && s.running == 0 && s.arrival == []
    requires exists t :: s.Live(t) && !s.At(t).Blocked()
    ensures Inv(Choose(s)) && Choose(s).Created(Choose(s).running) && !Choose(s).At(Choose(s).running).Blocked()
  {
    hide PartitionOf, LevelsOf;
    ChooseFinds(s);
    var l := PickLevel(s.threads, s.levels, 0);
    var q := s.levels[l];
    var k := FirstUnblocked(s.threads, q);
    LevelsKnown(s);
    FirstIs(s.threads, q);
    ChoosePartition(|s.threads|, s.levels, s.tcbs, s.ended, l, k);
    ChooseLevels(s.threads, s.levels, l, k);
  }

  lemma ChoosePartition(n: nat, levels: seq<seq<nat>>, tcbs: seq<nat>, ended: seq<nat>, l: nat, k: nat)
    requires |levels| == QUEUE_LEVELS && PartitionOf(Mlfq, true, n, [], levels, tcbs, ended, 0)
    requires l < QUEUE_LEVELS && k < |levels[l]|
    ensures levels[l][k] != 0
    ensures PartitionOf(Mlfq, true, n, [], levels[l := levels[l][k + 1..] + levels[l][..k]], tcbs, ended, levels[l][k])
  {
    hide Ids, InLevels;
    var q, t := levels[l], levels[l][k];
    ChooseCount(levels, l, k);
    assert t in multiset(tcbs);
    assert Ids(n)[t] >= 1;
  }

  lemma ChooseCount(levels: seq<seq<nat>>, l: nat, k: nat)
    requires |levels| == QUEUE_LEVELS && l < QUEUE_LEVELS && k < |levels[l]|
    ensures InLevels(levels) == InLevels(levels[l := levels[l][k + 1..] + levels[l][..k]]) + multiset{levels[l][k]}
  {
    hide InLevels;
    var q, t := levels[l], levels[l][k];
    var q' := q[k + 1..] + q[..k];
    var rest := levels[l := q'];
    InLevelsGrow(rest, l, [t]);
    assert q == q[..k] + [t] + q[k + 1..];
    InLevelsSame(rest[l := rest[l] + [t]], l, q);
    assert rest[l := rest[l] + [t]][l := q] == levels;
  }

  lemma InLevelsSame(levels: seq<seq<nat>>, l: nat, q: seq<nat>)
    requires |levels| == QUEUE_LEVELS && l < QUEUE_LEVELS && multiset(levels[l]) == multiset(q)
    ensures InLevels(levels[l := q]) == InLevels(levels)
  {
  }

  lemma ChooseLevels(threads: seq<Thread>, levels: seq<seq<nat>>, l: nat, k: nat)
    requires LevelsOf(threads, [], levels) && l < |levels| && k < |levels[l]|
    ensures LevelsOf(threads, [], levels[l := levels[l][k + 1..] + levels[l][..k]])
  {
    var q := levels[l][k + 1..] + levels[l][..k];
    forall i | 0 <= i < |q| ensures AtLevel(threads, q[i], l) {
      var j := if i < |levels[l]| - k - 1 then i + k + 1 else i - (|levels[l]| - k - 1);
      assert q[i] == levels[l][j];
    }
  }

  lemma DispatchKeeps(s: State)
    requires Inv(s) && s.Created(s.running) && !s.At(s.running).Blocked() && (s.policy == Mlfq ==> s.total < DECAY)
    ensures Inv(Dispatch(s)) && !Dispatch(s).scheduling && Dispatch(s).running == s.running
  {
    hide PartitionOf, LevelsOf, Sorted;
    var th := s.At(s.running).(scheduled := true);
    SameUsage(s.threads, s.threads[s.running - 1 := th], s.arrival, s.levels, s.tcbs);
  }

  /** What the scheduler's own steps leave alone: who waits for what, who has ended, who holds what. */
  ghost predicate SameWaits(s: State, s': State) {
    && s'.ended == s.ended && s'.holders == s.holders && s'.policy == s.policy && s'.mutexes == s.mutexes
    && |s'.threads| == |s.threads|
    && (forall i :: 0 <= i < |s.threads| ==>
          && s'.threads[i].join == s.threads[i].join && s'.threads[i].seeking == s.threads[i].seeking
          && s'.threads[i].locking == s.threads[i].locking && s'.threads[i].destroying == s.threads[i].destroying
          && s'.threads[i].joining == s.threads[i].joining)
  }

  lemma ReadyKeeps(s: State)
    requires Inv(s) && s.policy == Mlfq && s.scheduling
    ensures var r := Ready(s);
      Inv(r) && r.policy == Mlfq && r.started && r.scheduling && r.running == 0 && r.arrival == [] && r.total < DECAY
        && SameWaits(s, r)
  {
    hide PartitionOf, LevelsOf, Clocks, Waiting, Mutexes, Demoted, Boosted;
    EnrollKeeps(s);
    AdmitKeeps(Enroll(s));
    var s1 := Admit(Enroll(s));
    RequeueKeeps(s1);
    RequeueWaits(s1);
    BoostKeeps(Requeue(s1));
    BoostWaits(Requeue(s1));
  }

  lemma RequeueWaits(s: State)
    requires |s.levels| == QUEUE_LEVELS
    ensures SameWaits(s, Requeue(s)) && Requeue(s).arrival == s.arrival && Requeue(s).scheduling == s.scheduling
    ensures Requeue(s).started == s.started
  {
  }

  lemma BoostWaits(s: State)
    requires |s.levels| == QUEUE_LEVELS
    ensures SameWaits(s, Boost(s)) && Boost(s).arrival == s.arrival && Boost(s).scheduling == s.scheduling
    ensures Boost(s).started == s.started && Boost(s).running == s.running
  {
  }

  lemma LiveSame(s: State, s': State, t: nat)
    requires SameWaits(s, s')
    ensures s.Live(t) && !s.At(t).Blocked() <==> s'.Live(t) && !s'.At(t).Blocked()
  {
  }

  lemma MlfqPassKeeps(s: State)
    requires Inv(s) && s.policy == Mlfq && Enabled(s, Pass)
    ensures Inv(MlfqPass(s)) && !MlfqPass(s).scheduling && SameWaits(s, MlfqPass(s))
  {
    hide PartitionOf, LevelsOf, Clocks, Waiting, Mutexes, Ready, Choose, Dispatch, SameWaits;
    ReadyKeeps(s);
    var r := Ready(s);
    var t :| s.Live(t) && !s.At(t).Blocked();
    LiveSame(s, r, t);
    ChooseKeeps(r);
    ChooseWaits(r);
    DispatchKeeps(Choose(r));
    DispatchWaits(s, r, Choose(r));
  }

  lemma ChooseWaits(s: State)
    ensures Choose(s) == s.(running := Choose(s).running, levels := Choose(s).levels)
    ensures |Choose(s).levels| == |s.levels|
  {
  }

  lemma DispatchWaits(s: State, r: State, c: State)
    requires SameWaits(s, r) && c == r.(running := c.running, levels := c.levels)
    ensures SameWaits(s, Dispatch(c))
  {
  }

  // ---- A pass of the shortest-job scheduler

  lemma {:induction false} PositionIs(threads: seq<Thread>, q: seq<nat>, th: Thread)
    requires Known(|threads|, q)
    ensures var k := Position(threads, q, th);
      && (k < |q| ==> th.AtMost(threads[q[k] - 1]))
      && (forall i :: 0 <= i < k ==> threads[q[i] - 1].AtMost(th))
  {
    if q != [] && !th.AtMost(threads[q[0] - 1]) {
      assert Known(|threads|, q[1..]);
      PositionIs(threads, q[1..], th);
    }
  }

  lemma InsertKeepsSorted(threads: seq<Thread>, q: seq<nat>, t: nat)
    requires Sorted(threads, q) && 1 <= t <= |threads|
    ensures Sorted(threads, InsertByUsage(threads, q, t))
  {
    hide Thread.AtMost, Position;
    var th := threads[t - 1];
    var k := Position(threads, q, th);
    PositionIs(threads, q, th);
    forall i | k <= i < |q| ensures NoMore(threads, t, q[i]) {
      assert i > k ==> NoMore(threads, q[k], q[i]);
      Transitive(threads, t, q[k], q[i]);
    }
    Between(threads, q, k, t);
  }

  lemma InsertCount(threads: seq<Thread>, q: seq<nat>, t: nat)
    requires 1 <= t <= |threads|
    ensures multiset(InsertByUsage(threads, q, t)) == multiset(q) + multiset{t}
  {
    hide Position;
    var k := Position(threads, q, threads[t - 1]);
    assert q == q[..k] + q[k..];
  }

  lemma Transitive(threads: seq<Thread>, t1: nat, t2: nat, t3: nat)
    ensures NoMore(threads, t1, t2) && NoMore(threads, t2, t3) ==> NoMore(threads, t1, t3)
  {
  }

  lemma Between(threads: seq<Thread>, q: seq<nat>, k: nat, t: nat)
    requires Sorted(threads, q) && k <= |q| && 1 <= t <= |threads|
    requires forall i :: 0 <= i < k ==> NoMore(threads, q[i], t)
    requires forall i :: k <= i < |q| ==> NoMore(threads, t, q[i])
    ensures Sorted(threads, q[..k] + [t] + q[k..])
  {
    hide NoMore;
    var r := q[..k] + [t] + q[k..];
    forall i, j | 0 <= i < j < |r| ensures NoMore(threads, r[i], r[j]) {
      if i == k {
        assert r[j] == q[j - 1];
      } else if j == k {
        assert r[i] == q[i];
      } else {
        assert r[i] == q[if i < k then i else i - 1] && r[j] == q[if j < k then j else j - 1];
      }
    }
  }

  lemma {:induction false} InsertAllKeepsSorted(threads: seq<Thread>, q: seq<nat>, ts: seq<nat>)
    requires Sorted(threads, q) && Known(|threads|, ts)
    ensures Sorted(threads, InsertAll(threads, q, ts))
    ensures multiset(InsertAll(threads, q, ts)) == multiset(q) + multiset(ts)
    decreases |ts|
  {
    hide Sorted;
    if ts != [] {
      assert ts == [ts[0]] + ts[1..];
      InsertKeepsSorted(threads, q, ts[0]);
      InsertCount(threads, q, ts[0]);
      InsertAllKeepsSorted(threads, InsertByUsage(threads, q, ts[0]), ts[1..]);
    }
  }

  lemma GatheredKeeps(s: State)
    requires Inv(s) && s.policy == Psjf && s.scheduling
    ensures var g := Gathered(s);
      Inv(g) && g.running == 0 && g.arrival == [] && g.scheduling && SameWaits(s, g) && g.policy == Psjf
    ensures Gathered(s).threads == s.threads
  {
    hide PartitionOf, LevelsOf, Sorted;
    Places(s);
    InsertAllKeepsSorted(s.threads, s.tcbs, s.arrival);
    var q := InsertAll(s.threads, s.tcbs, s.arrival);
    if s.running != 0 {
      InsertKeepsSorted(s.threads, q, s.running);
      InsertCount(s.threads, q, s.running);
    }
    assert multiset(Gathered(s).tcbs) == multiset(s.tcbs) + multiset(s.arrival) + Self(s.running);
    GatheredPartition(s.started, |s.threads|, s.arrival, s.levels, s.tcbs, s.ended, s.running, Gathered(s).tcbs);
    ArrivedLevels(s.threads, s.arrival, s.levels);
    MoreListed(s.threads, s.tcbs, s.arrival, s.running, Gathered(s).tcbs);
  }

  lemma MoreListed(threads: seq<Thread>, tcbs: seq<nat>, arrival: seq<nat>, running: nat, tcbs': seq<nat>)
    requires multiset(tcbs') == multiset(tcbs) + multiset(arrival) + Self(running)
    ensures forall i :: 0 <= i < |threads| && Listed(threads[i], i + 1, tcbs, running) ==>
      Listed(threads[i], i + 1, tcbs', 0)
  {
    forall t: nat | t != 0 && (t in tcbs || t == running) ensures t in tcbs' {
      assert t in multiset(tcbs');
    }
  }

  lemma ArrivedLevels(threads: seq<Thread>, arrival: seq<nat>, levels: seq<seq<nat>>)
    requires LevelsOf(threads, arrival, levels)
    ensures LevelsOf(threads, [], levels)
  {
  }

  lemma GatheredPartition(started: bool, n: nat, arrival: seq<nat>, levels: seq<seq<nat>>, tcbs: seq<nat>,
                          ended: seq<nat>, running: nat, tcbs': seq<nat>)
    requires |levels| == QUEUE_LEVELS && PartitionOf(Psjf, started, n, arrival, levels, tcbs, ended, running)
    requires multiset(tcbs') == multiset(tcbs) + multiset(arrival) + Self(running)
    ensures PartitionOf(Psjf, started, n, [], levels, tcbs', ended, 0)
  {
    hide Ids;
  }

  /** The chosen thread has used the least of all that are not blocked. */
  lemma FirstIsLeast(threads: seq<Thread>, q: seq<nat>)
    requires Sorted(threads, q)
    ensures var k := FirstUnblocked(threads, q);
      forall i :: 0 <= i < |q| && !threads[q[i] - 1].Blocked() ==> k <= i && threads[q[k] - 1].AtMost(threads[q[i] - 1])
  {
    hide Thread.AtMost, FirstUnblocked;
    FirstIs(threads, q);
    var k := FirstUnblocked(threads, q);
    assert forall i :: 0 <= i < k ==> q[..k][i] == q[i];
    Reflexive(threads);
    assert forall i :: k < i < |q| ==> NoMore(threads, q[k], q[i]);
  }

  lemma Reflexive(threads: seq<Thread>)
    ensures forall i :: 0 <= i < |threads| ==> threads[i].AtMost(threads[i])
  {
  }

  lemma {:induction false} WithoutKeepsSorted(threads: seq<Thread>, q: seq<nat>, t: nat)
    requires Sorted(threads, q)
    ensures Sorted(threads, Without(q, t)) && forall x :: x in Without(q, t) ==> x in q
  {
    hide NoMore;
    if q != [] {
      assert Sorted(threads, q[1..]);
      if q[0] != t {
        WithoutKeepsSorted(threads, q[1..], t);
        InFront(threads, q, Without(q[1..], t));
      }
    }
  }

  lemma InFront(threads: seq<Thread>, q: seq<nat>, r: seq<nat>)
    requires Sorted(threads, q) && q != [] && Sorted(threads, r) && forall x :: x in r ==> x in q[1..]
    ensures Sorted(threads, [q[0]] + r)
  {
    hide NoMore;
    forall i | 0 <= i < |r| ensures NoMore(threads, q[0], r[i]) {
      assert r[i] in q[1..];
    }
  }

  lemma TakeIsLeast(s: State)
    requires Inv(s) && s.policy == Psjf && s.running == 0 && s.arrival == []
    ensures var k := FirstUnblocked(s.threads, s.tcbs);
      && (k < |s.tcbs| ==> s.Created(s.tcbs[k]) && !s.At(s.tcbs[k]).Blocked())
      && forall t :: s.Live(t) && !s.At(t).Blocked() ==> k < |s.tcbs| && s.At(s.tcbs[k]).AtMost(s.At(t))
  {
    hide PartitionOf, LevelsOf, Thread.AtMost, FirstUnblocked, NoMore;
    var q := s.tcbs;
    Places(s);
    FirstIs(s.threads, q);
    FirstIsLeast(s.threads, q);
    var k := FirstUnblocked(s.threads, q);
    forall t | s.Live(t) && !s.At(t).Blocked() ensures k < |q| && s.threads[q[k] - 1].AtMost(s.At(t)) {
      var i :| 0 <= i < |q| && q[i] == t;
    }
  }

  lemma TakeKeeps(s: State)
    requires Inv(s) && s.policy == Psjf && s.scheduling && s.running == 0 && s.arrival == []
    requires exists t :: s.Live(t) && !s.At(t).Blocked()
    ensures Inv(Take(s)) && Take(s).Created(Take(s).running) && !Take(s).At(Take(s).running).Blocked()
    ensures Take(s) == s.(running := Take(s).running, tcbs := Take(s).tcbs)
    ensures forall t :: s.Live(t) && !s.At(t).Blocked() ==>
      s.Created(Take(s).running) && s.At(Take(s).running).AtMost(s.At(t))
  {
    hide PartitionOf, LevelsOf, Thread.AtMost, Without, FirstUnblocked, Sorted;
    var q := s.tcbs;
    TakeIsLeast(s);
    var k := FirstUnblocked(s.threads, q);
    WithoutKeepsSorted(s.threads, q, q[k]);
    WithoutCount(q, q[k]);
    OthersStay(q, q[k]);
    TakePartition(s.started, |s.threads|, s.levels, q, s.ended, q[k], Without(q, q[k]));
  }

  lemma TakePartition(started: bool, n: nat, levels: seq<seq<nat>>, tcbs: seq<nat>, ended: seq<nat>, t: nat,
                      tcbs': seq<nat>)
    requires |levels| == QUEUE_LEVELS && PartitionOf(Psjf, started, n, [], levels, tcbs, ended, 0) && t in tcbs
      && t != 0
    requires multiset(tcbs') == multiset(tcbs) - multiset{t}
    ensures PartitionOf(Psjf, started, n, [], levels, tcbs', ended, t)
  {
    hide Ids;
    assert multiset(tcbs') + Self(t) == multiset(tcbs);
  }

  lemma PsjfPassKeeps(s: State)
    requires Inv(s) && s.policy == Psjf && Enabled(s, Pass)
    ensures Inv(PsjfPass(s)) && !PsjfPass(s).scheduling && SameWaits(s, PsjfPass(s))
  {
    hide PartitionOf, LevelsOf, Clocks, Waiting, Mutexes, Gathered, Take, Dispatch, SameWaits;
    GatheredKeeps(s);
    var g := Gathered(s);
    var t :| s.Live(t) && !s.At(t).Blocked();
    LiveSame(s, g, t);
    TakeKeeps(g);
    DispatchKeeps(Take(g));
    TakeWaits(s, g, Take(g));
  }

  lemma TakeWaits(s: State, g: State, c: State)
    requires SameWaits(s, g) && c == g.(running := c.running, tcbs := c.tcbs)
    ensures SameWaits(s, Dispatch(c))
  {
  }

  // ---- Every step of every run

  lemma StepKeeps(s: State, e: Event)
    requires Inv(s) && Enabled(s, e)
    ensures Inv(Apply(s, e))
  {
    hide Inv, YieldStep, TimerStep, LockStep, UnlockStep, DestroyStep, RemoveStep, ExitStep, MlfqPass, PsjfPass;
    match e {
      case Create => CreateKeeps(s);
      case Yield(elapsed) => YieldKeeps(s, elapsed);
      case Timer => TimerKeeps(s);
      case Join(t) => JoinKeeps(s, t);
      case Wait(t, elapsed) => WaitKeeps(s, t, elapsed);
      case InitMutex => InitMutexKeeps(s);
      case Lock(m, elapsed) => LockKeeps(s, m, elapsed);
      case Unlock(m) => UnlockKeeps(s, m);
      case Destroy(m) => DestroyKeeps(s, m);
      case Remove(m) => RemoveKeeps(s, m);
      case Exit => ExitKeeps(s);
      case Pass =>
        if s.policy == Mlfq {
          MlfqPassKeeps(s);
        } else {
          PsjfPassKeeps(s);
        }
    }
  }

  // ---- The stages of a pass, told by what they find

  lemma AdmitNone(s: State)
    requires s.arrival == [] && |s.levels| == QUEUE_LEVELS
    ensures Admit(s) == s
  {
    assert s.levels[0] + s.arrival == s.levels[0];
  }

  /** No level above `l` has a thread that is not blocked. */
  ghost predicate NoneBelow(s: State, l: nat) {
    l <= |s.levels| && forall i :: 0 <= i < l ==> FirstUnblocked(s.threads, s.levels[i]) == |s.levels[i]|
  }

  /** A level searched: the first thread that is not blocked taken out, those before it put behind. */
  ghost function LevelTried(s: State, l: nat): State
    requires l < |s.levels|
  {
    var q := s.levels[l];
    var k := FirstUnblocked(s.threads, q);
    if k == |q| then s else s.(running := q[k], levels := s.levels[l := q[k + 1..] + q[..k]])
  }

  lemma LevelChoice(s: State, l: nat)
    requires NoneBelow(s, l) && l < |s.levels|
    ensures FirstUnblocked(s.threads, s.levels[l]) < |s.levels[l]| ==> LevelTried(s, l) == Choose(s)
    ensures FirstUnblocked(s.threads, s.levels[l]) == |s.levels[l]| ==> NoneBelow(s, l + 1)
  {
    hide FirstUnblocked;
    if FirstUnblocked(s.threads, s.levels[l]) < |s.levels[l]| {
      PickLevelAt(s, 0, l);
    }
  }

  lemma {:induction false} PickLevelAt(s: State, from: nat, l: nat)
    requires NoneBelow(s, l) && from <= l <= |s.levels|
    requires l < |s.levels| ==> FirstUnblocked(s.threads, s.levels[l]) < |s.levels[l]|
    ensures PickLevel(s.threads, s.levels, from) == l
    decreases l - from
  {
    hide FirstUnblocked;
    if from < l {
      PickLevelAt(s, from + 1, l);
    }
  }

  /** The first that is not blocked, told by what comes before it. */
  lemma {:induction false} FirstAt(threads: seq<Thread>, q: seq<nat>, k: nat)
    requires k <= |q| && forall i :: 0 <= i < k ==> 1 <= q[i] <= |threads| && threads[q[i] - 1].Blocked()
    requires k < |q| ==> 1 <= q[k] <= |threads| && !threads[q[k] - 1].Blocked()
    ensures FirstUnblocked(threads, q) == k
  {
    if k > 0 {
      FirstAt(threads, q[1..], k - 1);
    }
  }
}
