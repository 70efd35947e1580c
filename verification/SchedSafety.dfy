/** What holds in every reachable state of the thread library: where threads are, that wakeups are not lost, and that
    the scheduler finds a thread unless threads wait in a circle. */
module SchedSafety {
  import opened Collections
  import opened SchedState
  import opened SchedInv
  import opened SchedRuns
  import opened SchedTheorems
  import opened SchedMutex
  import opened SchedJoin
  import opened SchedLaws

  // ---- Where threads are

  function Count(q: seq<nat>, t: nat): nat {
    multiset(q)[t]
  }

  /** Every created thread is in exactly one place, counted over all queues, and no other id is anywhere. */
  lemma OnePlace(s: State, t: nat)
    requires Inv(s) && s.policy == Mlfq
    ensures (if t == s.running != 0 then 1 else 0) + Count(s.arrival, t) + Count(s.levels[0], t) + Count(s.levels[1], t)
            + Count(s.levels[2], t) + Count(s.levels[3], t) + Count(s.ended, t) == if s.Created(t) then 1 else 0
  {
    hide LevelsOf, Clocks, Waiting, Mutexes;
    var all := multiset(s.arrival) + Queued(s) + multiset(s.ended) + Self(s.running);
    assert all[t] == multiset(s.arrival)[t] + Queued(s)[t] + multiset(s.ended)[t] + Self(s.running)[t];
    assert InLevels(s.levels)[t]
        == multiset(s.levels[0])[t] + multiset(s.levels[1])[t] + multiset(s.levels[2])[t] + multiset(s.levels[3])[t];
  }

  /** A queued thread is at the level it is marked with. */
  lemma QueuedAtItsLevel(s: State, l: nat, t: nat)
    requires Inv(s) && l < QUEUE_LEVELS && t in s.levels[l]
    ensures s.Created(t) && s.At(t).prio == l
  {
    hide PartitionOf, Clocks, Waiting, Mutexes;
    var i :| 0 <= i < |s.levels[l]| && s.levels[l][i] == t;
    assert AtLevel(s.threads, t, l);
  }

  /** Once the scheduler has run, the list of threads has each live thread that is past its arrival, once. */
  lemma ListedOnce(s: State, t: nat)
    requires Inv(s) && s.policy == Mlfq && s.started
    ensures Count(s.tcbs, t) == if s.Live(t) && t !in s.arrival then 1 else 0
  {
    hide LevelsOf, Clocks, Waiting, Mutexes, InLevels;
    var all := multiset(s.arrival) + Queued(s) + multiset(s.ended) + Self(s.running);
    assert all[t] == multiset(s.arrival)[t] + multiset(s.tcbs)[t] + multiset(s.ended)[t];
    assert Count(s.arrival, t) > 0 <==> t in s.arrival;
    assert Count(s.ended, t) > 0 <==> t in s.ended;
  }

  /** The timer is armed exactly when a thread other than the dispatched one does not wait for a termination, and
      always for what is left of its quantum, never for nothing. */
  lemma TimerArmed(s: State)
    requires Inv(s) && Enabled(s, Pass)
    ensures var s' := Apply(s, Pass);
      && s'.Created(s'.running) && s'.At(s'.running).used < TIME_QUANTUM
      && (s'.timer != 0 <==>
            exists i :: 0 <= i < |s'.tcbs| && s'.tcbs[i] != s'.running && s'.Created(s'.tcbs[i])
                        && s'.At(s'.tcbs[i]).join == 0)
      && (s'.timer != 0 ==> s'.timer == TIME_QUANTUM - s'.At(s'.running).used)
      && (s.policy == Mlfq ==> s'.total < DECAY)
  {
    hide PartitionOf, LevelsOf, Mutexes, Ready, Choose, Gathered, Take, SameWaits;
    StepKeeps(s, Pass);
    var t :| s.Live(t) && !s.At(t).Blocked();
    if s.policy == Mlfq {
      ReadyKeeps(s);
      LiveSame(s, Ready(s), t);
      ChooseKeeps(Ready(s));
      ChooseWaits(Ready(s));
      TimerSet(Choose(Ready(s)));
    } else {
      GatheredKeeps(s);
      LiveSame(s, Gathered(s), t);
      TakeKeeps(Gathered(s));
      TimerSet(Take(Gathered(s)));
    }
  }

  lemma TimerSet(c: State)
    requires c.Created(c.running) && c.At(c.running).used < TIME_QUANTUM
    ensures var s' := Dispatch(c);
      && s'.Created(s'.running) && s'.At(s'.running).used < TIME_QUANTUM && s'.total == c.total
      && (s'.timer != 0 <==>
            exists i :: 0 <= i < |s'.tcbs| && s'.tcbs[i] != s'.running && s'.Created(s'.tcbs[i])
                        && s'.At(s'.tcbs[i]).join == 0)
      && (s'.timer != 0 ==> s'.timer == TIME_QUANTUM - s'.At(s'.running).used)
  {
    hide Dispatch;
    DispatchLaw(c);
  }

  // ---- Shortest job first

  /** Comparing whole quantums first and the rest second compares the time used. */
  lemma UsageOrder(th: Thread, other: Thread)
    requires th.used < TIME_QUANTUM && other.used < TIME_QUANTUM
    ensures th.AtMost(other) <==> th.Total() <= other.Total()
  {
  }

  /** The shortest-job scheduler dispatches a thread that has used the least time of all that are not blocked. */
  lemma DispatchesLeast(s: State, t: nat)
    requires Inv(s) && s.policy == Psjf && Enabled(s, Pass) && s.Live(t) && !s.At(t).Blocked()
    ensures var r := Apply(s, Pass).running;
      s.Live(r) && !s.At(r).Blocked() && s.At(r).Total() <= s.At(t).Total()
  {
    hide PartitionOf, LevelsOf, Mutexes, Gathered, Take, SameWaits, Thread.Total, Thread.AtMost;
    GatheredKeeps(s);
    var g := Gathered(s);
    LiveSame(s, g, t);
    TakeKeeps(g);
    var r := Take(g).running;
    Places(Take(g));
    LiveSame(s, g, r);
    UsageOrder(s.At(r), s.At(t));
  }

  /** A yield charges the time it ran, or the whole quantum once that is reached; a timer signal charges the quantum. */
  lemma Charged(th: Thread, elapsed: nat)
    requires th.used < TIME_QUANTUM
    ensures var th' := Yielded(th, elapsed);
      && th'.used < TIME_QUANTUM
      && th'.Total() == (if th.used + elapsed < TIME_QUANTUM then th.Total() + elapsed
           else (th.Total() / TIME_QUANTUM + 1) * TIME_QUANTUM)
      && (th'.fully <==> th.fully || Ticks(th, elapsed) == 1)
  {
    assert th.Total() / TIME_QUANTUM == th.quantums;
  }

  // ---- Demotion

  /** When the scheduler comes to choose, the thread that ran stands last: at its level, or one lower if it used up its
      quantum; unless a boost brought everybody to the top. */
  lemma RanStandsLast(s: State)
    requires Inv(s) && s.policy == Mlfq && s.scheduling && s.running != 0 && s.total < DECAY
    ensures s.Created(s.running)
    ensures var r := Ready(s); var th := s.At(s.running);
      var l := if th.fully && th.prio < QUEUE_LEVELS - 1 then th.prio + 1 else th.prio;
      && l < |r.levels| && r.levels[l] != [] && r.levels[l][|r.levels[l]| - 1] == s.running
      && r.Created(s.running) && r.At(s.running).prio == l && !r.At(s.running).fully
      && r.At(s.running).Total() == (if th.fully then th.quantums * TIME_QUANTUM else th.Total())
  {
    hide PartitionOf, Clocks, Waiting, Mutexes, Reversed, InsertByUsage;
    Places(s);
    RunnerLevel(s);
  }

  // ---- No lost wakeup

  /** An unlock frees exactly the threads that seek the mutex, all of them. */
  lemma UnlockWakes(s: State, m: nat, t: nat)
    requires Inv(s) && Enabled(s, Unlock(m)) && s.Created(t)
    ensures var s' := Apply(s, Unlock(m));
      && s'.Created(t)
      && (s.At(t).seeking == m ==> !s'.At(t).Blocked())
      && (s.At(t).seeking != m ==> s'.At(t) == s.At(t))
  {
    hide PartitionOf, LevelsOf, Clocks;
    assert Waits(s.threads[t - 1], t, s.holders) && Listed(s.threads[t - 1], t, s.tcbs, s.running);
  }

  /** A termination frees exactly the threads that wait for it, all of them. */
  lemma ExitWakes(s: State, t: nat)
    requires Inv(s) && Enabled(s, Exit) && s.Created(t)
    ensures var s' := Apply(s, Exit);
      && s'.Created(t)
      && (s.At(t).join == s.running ==> !s'.At(t).Blocked())
      && (s.At(t).join != s.running ==> s'.At(t) == s.At(t))
  {
    hide PartitionOf, LevelsOf, Clocks, Without;
    assert Waits(s.threads[t - 1], t, s.holders) && Listed(s.threads[t - 1], t, s.tcbs, s.running);
    OthersStay(s.tcbs, s.running);
  }

  /** Whoever waits for a mutex gets the processor in bounded time once it is released: after 64 more quantums and
      then as many passes as there are threads. */
  lemma ReleaseReachesWaiter(s: State, m: nat, es1: seq<Event>, es2: seq<Event>, l: nat, t: nat)
    requires Inv(s) && s.policy == Mlfq && Enabled(s, Unlock(m))
    requires l < QUEUE_LEVELS && t in s.levels[l] && s.Created(t) && s.At(t).seeking == m
    requires var s' := Apply(s, Unlock(m));
      && CanRun(s', es1) && es1 != [] && es1[|es1| - 1] == Pass && s'.total + Quantums(s', es1) >= DECAY
      && CanRun(After(s', es1), es2) && Passes(es2) >= |After(s', es1).tcbs|
    ensures var s' := Apply(s, Unlock(m)); CanRun(s', es1 + es2) && Dispatched(s', es1 + es2, t)
  {
    hide PartitionOf, LevelsOf, Clocks, Waiting, Mutexes, Enabled, CanRun, After, Dispatched, Passes, Quantums,
      Broadcast;
    StepKeeps(s, Unlock(m));
    UnlockWakes(s, m, t);
    NoStarvation(Apply(s, Unlock(m)), es1, es2, l, t);
  }

  /** The same for whoever waits for a thread to end. */
  lemma EndReachesWaiter(s: State, es1: seq<Event>, es2: seq<Event>, l: nat, t: nat)
    requires Inv(s) && s.policy == Mlfq && Enabled(s, Exit)
    requires l < QUEUE_LEVELS && t in s.levels[l] && s.Created(t) && s.At(t).join == s.running
    requires var s' := Apply(s, Exit);
      && CanRun(s', es1) && es1 != [] && es1[|es1| - 1] == Pass && s'.total + Quantums(s', es1) >= DECAY
      && CanRun(After(s', es1), es2) && Passes(es2) >= |After(s', es1).tcbs|
    ensures var s' := Apply(s, Exit); CanRun(s', es1 + es2) && Dispatched(s', es1 + es2, t)
  {
    hide PartitionOf, LevelsOf, Clocks, Waiting, Mutexes, Enabled, CanRun, After, Dispatched, Passes, Quantums, Alert,
      Without;
    StepKeeps(s, Exit);
    ExitWakes(s, t);
    NoStarvation(Apply(s, Exit), es1, es2, l, t);
  }

  // ---- Progress

  /** What a civil program does not do: wait for a thread that was never created, or end while holding a mutex. */
  ghost predicate Civil(s: State, e: Event) {
    && (e.Join? ==> s.Created(e.target))
    && (e == Exit ==> forall m :: m in s.holders ==> s.holders[m] != s.running)
  }

  ghost predicate CivilRun(s: State, es: seq<Event>)
    requires CanRun(s, es)
    decreases |es|
  {
    es == [] || (Civil(s, es[0]) && CivilRun(Apply(s, es[0]), es[1..]))
  }

  /** Everybody waited for is alive. */
  ghost predicate WaitedForLive(s: State) {
    && (forall i :: 0 <= i < |s.threads| && s.threads[i].join != 0 ==> s.Live(s.threads[i].join))
    && (forall m :: m in s.holders && s.holders[m] != 0 ==> s.Live(s.holders[m]))
    && (forall i :: 0 <= i < |s.threads| && s.threads[i].joining != Nobody ==> s.Created(s.threads[i].joining.thread))
  }

  lemma CivilKeeps(s: State, e: Event)
    requires Inv(s) && Enabled(s, e) && Civil(s, e) && TimelyWait(s, e) && WaitedForLive(s)
    ensures WaitedForLive(Apply(s, e))
  {
    hide PartitionOf, LevelsOf, Clocks, Waiting, Mutexes, MlfqPass, PsjfPass, ExitStep, Broadcast;
    match e {
      case Pass =>
        if s.policy == Mlfq {
          MlfqPassKeeps(s);
        } else {
          PsjfPassKeeps(s);
        }
        WaitsSame(s, Apply(s, Pass));
      case Exit => CivilExit(s);
      case Unlock(m) => BroadcastLeavesJoins(s.threads, s.tcbs, m);
      case Destroy(m) => BroadcastLeavesJoins(s.threads, s.tcbs, m);
      case _ => CivilCall(s, e);
    }
  }

  lemma CivilCall(s: State, e: Event)
    requires Inv(s) && Enabled(s, e) && Civil(s, e) && TimelyWait(s, e) && WaitedForLive(s)
    requires e.Create? || e.Yield? || e.Timer? || e.InitMutex? || e.Lock? || e.Join? || e.Wait? || e.Remove?
    ensures WaitedForLive(Apply(s, e))
  {
    hide PartitionOf, LevelsOf, Clocks, Waiting, Mutexes, Apply;
    RunnerLive(s);
    MutexesAfter(s, e);
    JoinsAfter(s, e);
    assert e.Wait? ==> s.threads[s.running - 1].joining == Of(e.target);
    assert forall t :: s.Live(t) ==> Apply(s, e).Live(t);
  }

  lemma RunnerLive(s: State)
    requires Inv(s) && !s.scheduling
    ensures s.Live(s.running)
  {
    hide LevelsOf, Clocks, Mutexes;
    Places(s);
  }

  lemma WaitsSame(s: State, s': State)
    requires SameWaits(s, s') && WaitedForLive(s)
    ensures WaitedForLive(s')
  {
  }

  lemma CivilExit(s: State)
    requires Inv(s) && Enabled(s, Exit) && Civil(s, Exit) && WaitedForLive(s)
    ensures WaitedForLive(ExitStep(s))
  {
    hide PartitionOf, LevelsOf, Clocks, Waiting, Mutexes, Without;
    ExitKeeps(s);
    var s' := ExitStep(s);
    forall i | 0 <= i < |s'.threads| && s'.threads[i].join != 0 ensures s'.Live(s'.threads[i].join) {
      assert s'.threads[i].join == s.threads[i].join;
    }
  }

  lemma {:induction false} CivilKeepsRun(s: State, es: seq<Event>)
    requires Inv(s) && CanRun(s, es) && CivilRun(s, es) && TimelyWaits(s, es) && WaitedForLive(s)
    ensures WaitedForLive(After(s, es))
    decreases |es|
  {
    hide Inv, Apply, Enabled, WaitedForLive, Civil;
    if es != [] {
      StepKeeps(s, es[0]);
      CivilKeeps(s, es[0]);
      CivilKeepsRun(Apply(s, es[0]), es[1..]);
    }
  }

  /** Whom a thread waits for: the thread it joins, or the holder of the mutex it seeks; 0 if nobody. */
  function WaitsFor(s: State, t: nat): nat {
    if !s.Created(t) then 0
    else if s.At(t).join != 0 then s.At(t).join
    else if s.At(t).seeking in s.holders then s.holders[s.At(t).seeking]
    else 0
  }

  /** Whom `k` steps along the waits lead to. */
  function Chase(s: State, t: nat, k: nat): nat {
    if k == 0 then t else WaitsFor(s, Chase(s, t, k - 1))
  }

  /** Do some threads wait for one another in a circle? */
  ghost predicate Deadlock(s: State) {
    exists t, k :: k > 0 && s.Live(t) && Chase(s, t, k) == t
  }

  lemma {:induction false} ChaseJoin(s: State, t: nat, i: nat, j: nat)
    ensures Chase(s, Chase(s, t, i), j) == Chase(s, t, i + j)
  {
    if j > 0 {
      ChaseJoin(s, t, i, j - 1);
    }
  }

  /** If every live thread is blocked, following the waits never leaves the live threads. */
  lemma {:induction false} ChaseLive(s: State, t: nat, k: nat)
    requires Inv(s) && SeekersHeld(s) && WaitedForLive(s) && s.Live(t)
    requires forall t' :: s.Live(t') ==> s.At(t').Blocked()
    ensures s.Live(Chase(s, t, k))
  {
    hide PartitionOf, LevelsOf, Clocks, Mutexes;
    if k > 0 {
      ChaseLive(s, t, k - 1);
      var t' := Chase(s, t, k - 1);
      assert Waits(s.threads[t' - 1], t', s.holders) && SeeksHeld(s.threads[t' - 1], s.holders);
    }
  }

  /** More places than values: two places have the same value. */
  lemma Pigeonhole(q: seq<nat>, n: nat) returns (i: nat, j: nat)
    requires Known(n, q) && |q| > n
    ensures i < j < |q| && q[i] == q[j]
  {
    if forall i, j :: 0 <= i < j < |q| ==> q[i] != q[j] {
      DistinctFit(q, n);
    }
    i, j :| 0 <= i < j < |q| && q[i] == q[j];
  }

  lemma FirstKnown(n: nat, q: seq<nat>)
    requires Known(n, q)
    ensures q != [] ==> 1 <= q[0] <= n
  {
  }

  lemma {:induction false} DistinctFit(q: seq<nat>, n: nat)
    requires Known(n, q) && forall i, j :: 0 <= i < j < |q| ==> q[i] != q[j]
    ensures |q| <= n
  {
    FirstKnown(n, q);
    if n == 0 {
      return;
    }
    if n in q {
      var k :| 0 <= k < |q| && q[k] == n;
      var q' := q[..k] + q[k + 1..];
      forall i, j | 0 <= i < j < |q'| ensures q'[i] != q'[j] {
        assert q'[i] == q[if i < k then i else i + 1] && q'[j] == q[if j < k then j else j + 1];
      }
      assert forall i :: 0 <= i < |q'| ==> q'[i] == q[if i < k then i else i + 1];
      DistinctFit(q', n - 1);
    } else {
      DistinctFit(q, n - 1);
    }
  }

  /** With everybody blocked there is a circle. */
  lemma AllBlockedDeadlock(s: State)
    requires Inv(s) && SeekersHeld(s) && WaitedForLive(s) && forall t :: s.Live(t) ==> s.At(t).Blocked()
    ensures Deadlock(s)
  {
    hide PartitionOf, LevelsOf, Clocks, Mutexes, Waiting, WaitedForLive, SeekersHeld, Chase, Thread.Blocked;
    assert s.Live(MAIN);
    var n := |s.threads|;
    var path := seq(n + 1, k requires 0 <= k <= n => Chase(s, MAIN, k));
    forall k | 0 <= k < |path| ensures s.Live(path[k]) {
      ChaseLive(s, MAIN, k);
    }
    var i, j := Pigeonhole(path, n);
    ChaseJoin(s, MAIN, i, j - i);
    assert Chase(s, path[i], j - i) == path[i];
  }

  lemma NobodyWaitsAtStart(policy: Policy)
    ensures WaitedForLive(Start(policy))
  {
  }

  /** In every run of a civil program whose mutexes are free when they are taken off the list, whenever the scheduler
      has control it finds a thread to dispatch, unless some threads wait for one another in a circle. */
  lemma Progress(policy: Policy, es: seq<Event>)
    requires CanRun(Start(policy), es) && CivilRun(Start(policy), es)
    requires FreeRemovals(Start(policy), es) && TimelyWaits(Start(policy), es)
    ensures var s := After(Start(policy), es); s.scheduling && !Deadlock(s) ==> Enabled(s, Pass)
  {
    hide Inv, CanRun, After, CivilRun, FreeRemovals, SeekersHeld;
    Reachable(policy, es);
    StaysSafe(policy, es);
    StartInv(policy);
    NobodyWaitsAtStart(policy);
    CivilKeepsRun(Start(policy), es);
    var s := After(Start(policy), es);
    if forall t :: s.Live(t) ==> s.At(t).Blocked() {
      AllBlockedDeadlock(s);
    }
  }
}
