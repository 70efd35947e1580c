/** What the thread library guarantees: bounded waiting, no lost wakeups, mutual exclusion, progress, and
    shortest-job-first dispatch. */
module SchedTheorems {
  import opened SchedState
  import opened SchedInv
  import opened SchedRuns

  // ---- Bounded waiting

  /** One pass dispatches an unblocked thread of the top level or brings it nearer the front. */
  lemma PassAdvances(s: State, k: nat) returns (j: nat)
    requires Inv(s) && s.policy == Mlfq && Enabled(s, Pass) && k < |s.levels[0]|
    requires s.Created(s.levels[0][k]) && !s.At(s.levels[0][k]).Blocked()
    ensures var s' := MlfqPass(s);
      && |s'.levels| == QUEUE_LEVELS
      && (s'.running == s.levels[0][k] || (j < k && j < |s'.levels[0]| && s'.levels[0][j] == s.levels[0][k]))
  {
    hide Partition, Levels, Clocks, Waiting, Mutexes, Ready, Choose;
    var r, t := Ready(s), s.levels[0][k];
    ReadyKeeps(s);
    ReadyAppends(s, 0, k);
    LiveOrBlocked(s, r, t);
    ChooseAdvances(r, 0, k);
    ChooseWaits(r);
    j := 0;
    if Choose(r).running != t {
      j :| 0 <= j < k && j < |Choose(r).levels[0]| && Choose(r).levels[0][j] == t;
    }
  }

  lemma LiveOrBlocked(s: State, r: State, t: nat)
    requires SameWaits(s, r) && s.Created(t) && !s.At(t).Blocked()
    ensures r.Created(t) && !r.At(t).Blocked()
  {
  }

  /** An unblocked thread with `k` others before it at the top level gets the processor within k + 1 passes,
      whatever happens between them. */
  lemma {:induction false} BoundedWaiting(s: State, es: seq<Event>, k: nat)
    requires Inv(s) && s.policy == Mlfq && CanRun(s, es) && k < |s.levels[0]|
    requires s.Created(s.levels[0][k]) && !s.At(s.levels[0][k]).Blocked()
    requires Passes(es) >= k + 1
    ensures Dispatched(s, es, s.levels[0][k])
    decreases |es|
  {
    hide Inv, Apply, Enabled, State.Created, Thread.Blocked;
    var e, t := es[0], s.levels[0][k];
    var s' := Apply(s, e);
    StepKeeps(s, e);
    TopStep(s, e, k);
    if e == Pass {
      var j := TopPass(s, k);
      if s'.running != t {
        BoundedWaiting(s', es[1..], j);
      }
    } else {
      BoundedWaiting(s', es[1..], k);
    }
  }

  /** Between passes a queued thread keeps its place and stays unblocked. */
  lemma TopStep(s: State, e: Event, k: nat)
    requires Inv(s) && s.policy == Mlfq && Enabled(s, e) && k < |s.levels[0]|
    requires s.Created(s.levels[0][k]) && !s.At(s.levels[0][k]).Blocked()
    ensures var s' := Apply(s, e); var t := s.levels[0][k];
      && s'.policy == Mlfq && s'.Created(t) && !s'.At(t).Blocked()
      && (e != Pass ==> s'.levels == s.levels)
  {
    hide PartitionOf, Levels, Clocks, Waiting, Mutexes, MlfqPass;
    QueuedPlaces(s, 0, s.levels[0][k]);
    OnlyRunnerBlocks(s, e, s.levels[0][k]);
    if e == Pass {
      MlfqPassKeeps(s);
    } else {
      CallLeavesQueues(s, e);
    }
  }

  lemma TopPass(s: State, k: nat) returns (j: nat)
    requires Inv(s) && s.policy == Mlfq && Enabled(s, Pass) && k < |s.levels[0]|
    requires s.Created(s.levels[0][k]) && !s.At(s.levels[0][k]).Blocked()
    ensures var s' := Apply(s, Pass);
      && |s'.levels| == QUEUE_LEVELS
      && (s'.running == s.levels[0][k] || (j < k && j < |s'.levels[0]| && s'.levels[0][j] == s.levels[0][k]))
  {
    hide Partition, Levels, Clocks, Waiting, Mutexes, MlfqPass;
    j := PassAdvances(s, k);
  }

  // ---- Boosting

  /** What a step makes of a queued thread: it is dispatched, or stays at its level, or a boost takes it to the top. */
  lemma QueuedStep(s: State, e: Event, l: nat, t: nat)
    requires Inv(s) && s.policy == Mlfq && Enabled(s, e) && l < QUEUE_LEVELS && t in s.levels[l]
    ensures var s' := Apply(s, e);
      && |s'.levels| == QUEUE_LEVELS && s'.policy == Mlfq
      && ((e == Pass && s'.running == t) || t in s'.levels[if e == Pass && s.total >= DECAY then 0 else l])
      && (e != Pass || s.total < DECAY ==> s'.total == s.total + TicksOf(s, e))
  {
    hide Partition, Levels, Clocks, Waiting, Mutexes, MlfqPass, YieldStep, TimerStep, LockStep, UnlockStep, DestroyStep,
      ExitStep;
    if e == Pass {
      QueuedPass(s, l, t);
    } else {
      CallLeavesQueues(s, e);
    }
  }

  lemma QueuedPass(s: State, l: nat, t: nat)
    requires Inv(s) && s.policy == Mlfq && Enabled(s, Pass) && l < QUEUE_LEVELS && t in s.levels[l]
    ensures var s' := MlfqPass(s);
      && |s'.levels| == QUEUE_LEVELS && s'.policy == Mlfq
      && (s'.running == t || t in s'.levels[if s.total >= DECAY then 0 else l])
      && (s.total < DECAY ==> s'.total == s.total)
  {
    hide Partition, Levels, Clocks, Waiting, Mutexes, Ready, Choose;
    var k :| 0 <= k < |s.levels[l]| && s.levels[l][k] == t;
    var r := Ready(s);
    ReadyKeeps(s);
    ReadyAppends(s, l, k);
    var l' := if s.total >= DECAY then 0 else l;
    var k' :| 0 <= k' < |r.levels[l']| && r.levels[l'][k'] == t;
    ChooseAdvances(r, l', k');
    ChooseWaits(r);
  }

  /** A thread at the top level stays there until it is dispatched. */
  lemma {:induction false} StaysAtTop(s: State, es: seq<Event>, t: nat)
    requires Inv(s) && s.policy == Mlfq && CanRun(s, es) && t in s.levels[0]
    ensures Dispatched(s, es, t) || (|After(s, es).levels| == QUEUE_LEVELS && t in After(s, es).levels[0])
    decreases |es|
  {
    hide Partition, Levels, Clocks, Waiting, Mutexes, Apply, Enabled;
    if es != [] {
      StepKeeps(s, es[0]);
      QueuedStep(s, es[0], 0, t);
      if es[0] != Pass || Apply(s, es[0]).running != t {
        StaysAtTop(Apply(s, es[0]), es[1..], t);
      }
    }
  }

  /** A queued thread is dispatched or boosted to the top by the first pass at which 64 quantums have elapsed
      since the last boost. */
  lemma {:induction false} BoostInTime(s: State, es: seq<Event>, l: nat, t: nat)
    requires Inv(s) && s.policy == Mlfq && CanRun(s, es) && l < QUEUE_LEVELS && t in s.levels[l]
    requires es != [] && es[|es| - 1] == Pass && s.total + Quantums(s, es) >= DECAY
    ensures Dispatched(s, es, t) || (|After(s, es).levels| == QUEUE_LEVELS && t in After(s, es).levels[0])
    decreases |es|
  {
    hide Partition, Levels, Clocks, Waiting, Mutexes, Apply, Enabled;
    var e := es[0];
    var s' := Apply(s, e);
    StepKeeps(s, e);
    QueuedStep(s, e, l, t);
    if e == Pass && s'.running == t {
      return;
    }
    if e == Pass && s.total >= DECAY {
      StaysAtTop(s', es[1..], t);
    } else {
      NotYet(s, es);
      BoostInTime(s', es[1..], l, t);
    }
  }

  /** Short of 64 quantums the run is not over. */
  lemma NotYet(s: State, es: seq<Event>)
    requires CanRun(s, es) && es != [] && es[|es| - 1] == Pass && s.total + Quantums(s, es) >= DECAY
    requires es[0] != Pass || s.total < DECAY
    ensures |es| > 1 && es[1..][|es[1..]| - 1] == Pass
    ensures Quantums(s, es) == TicksOf(s, es[0]) + Quantums(Apply(s, es[0]), es[1..])
  {
    hide Apply;
    assert Quantums(s, es) == TicksOf(s, es[0]) + Quantums(Apply(s, es[0]), es[1..]);
  }

  /** An unblocked thread stays so until it is dispatched. */
  lemma {:induction false} StaysUnblocked(s: State, es: seq<Event>, t: nat)
    requires Inv(s) && CanRun(s, es) && s.Created(t) && t != s.running && !s.At(t).Blocked()
    ensures Dispatched(s, es, t) || (After(s, es).Created(t) && !After(s, es).At(t).Blocked())
    decreases |es|
  {
    hide Partition, Levels, Clocks, Waiting, Mutexes, Apply, Enabled;
    if es != [] {
      StepKeeps(s, es[0]);
      OnlyRunnerBlocks(s, es[0], t);
      if es[0] != Pass {
        OnlyPassDispatches(s, es[0]);
      }
      if es[0] != Pass || Apply(s, es[0]).running != t {
        StaysUnblocked(Apply(s, es[0]), es[1..], t);
      }
    }
  }

  lemma OnlyPassDispatches(s: State, e: Event)
    requires Shaped(s) && Enabled(s, e) && e != Pass
    ensures Apply(s, e).running == s.running || Apply(s, e).running == 0
  {
  }

  lemma PolicyStays(s: State, e: Event)
    requires Inv(s) && Enabled(s, e)
    ensures Apply(s, e).policy == s.policy
  {
    hide Partition, Levels, Clocks, Waiting, Mutexes, MlfqPass, PsjfPass;
    if e == Pass {
      if s.policy == Mlfq {
        MlfqPassKeeps(s);
      } else {
        PsjfPassKeeps(s);
      }
    }
  }

  lemma {:induction false} PolicyStaysThroughout(s: State, es: seq<Event>)
    requires Inv(s) && CanRun(s, es)
    ensures After(s, es).policy == s.policy
    decreases |es|
  {
    hide Inv, Apply, Enabled;
    if es != [] {
      StepKeeps(s, es[0]);
      PolicyStays(s, es[0]);
      PolicyStaysThroughout(Apply(s, es[0]), es[1..]);
    }
  }

  /** No starvation: an unblocked queued thread, however low its level, gets the processor once 64 quantums and then
      as many passes as there are threads have gone by. */
  lemma NoStarvation(s: State, es1: seq<Event>, es2: seq<Event>, l: nat, t: nat)
    requires Inv(s) && s.policy == Mlfq && l < QUEUE_LEVELS && t in s.levels[l] && s.Created(t) && !s.At(t).Blocked()
    requires CanRun(s, es1) && es1 != [] && es1[|es1| - 1] == Pass && s.total + Quantums(s, es1) >= DECAY
    requires CanRun(After(s, es1), es2) && Passes(es2) >= |After(s, es1).tcbs|
    ensures CanRun(s, es1 + es2) && Dispatched(s, es1 + es2, t)
  {
    hide PartitionOf, Levels, Clocks, Waiting, Mutexes, Apply, Enabled, Dispatched, CanRun, After;
    DispatchedJoin(s, es1, es2, t);
    if !Dispatched(s, es1, t) {
      var m := After(s, es1);
      BoostInTime(s, es1, l, t);
      QueuedPlaces(s, l, t);
      StaysUnblocked(s, es1, t);
      RunKeeps(s, es1);
      PolicyStaysThroughout(s, es1);
      var k :| 0 <= k < |m.levels[0]| && m.levels[0][k] == t;
      QueuedPlaces(m, 0, t);
      TopAtMost(m);
      BoundedWaiting(m, es2, k);
    }
  }

  lemma TopAtMost(s: State)
    requires Shaped(s) && Partition(s) && s.policy == Mlfq && s.started
    ensures |s.levels[0]| <= |s.tcbs|
  {
    assert |multiset(s.tcbs)| == |s.tcbs|;
    assert |multiset(s.tcbs)| == |InLevels(s.levels)| + |Self(s.running)|;
    assert |InLevels(s.levels)| >= |multiset(s.levels[0])|;
  }
}
