/** Joining a thread: the join call looks whether its target has ended with the timer masked, and lifts the mask before
    it waits. A joiner is stranded exactly if its target ends in between. */
module SchedJoin {
  import opened Collections
  import opened SchedState
  import opened SchedInv
  import opened SchedRuns
  import opened SchedTheorems
  import opened SchedMutex

  // ---- When joining is sound

  /** Has nobody ended that a thread waits for? */
  ghost predicate JoinsLive(s: State) {
    forall i :: 0 <= i < |s.threads| && s.threads[i].join != 0 ==> s.threads[i].join !in s.ended
  }

  /** A wait that a join call goes on to finds its target still not ended. */
  ghost predicate TimelyWait(s: State, e: Event) {
    e.Wait? ==> e.target !in s.ended
  }

  ghost predicate TimelyWaits(s: State, es: seq<Event>)
    requires CanRun(s, es)
    decreases |es|
  {
    es == [] || (TimelyWait(s, es[0]) && TimelyWaits(Apply(s, es[0]), es[1..]))
  }

  /** An event other than a termination ends nobody, and only a join call changes for whom its caller waits. */
  lemma JoinsAfter(s: State, e: Event)
    requires Inv(s) && Enabled(s, e) && e != Exit
    ensures JoinsStay(s, e, Apply(s, e))
  {
    hide Inv, Apply, JoinsStay, Enabled;
    match e {
      case Pass => PassJoins(s);
      case Unlock(m) => ReleaseJoins(s, e);
      case Destroy(m) => ReleaseJoins(s, e);
      case _ => CallJoins(s, e);
    }
  }

  lemma PassJoins(s: State)
    requires Inv(s) && Enabled(s, Pass)
    ensures JoinsStay(s, Pass, Apply(s, Pass))
  {
    hide PartitionOf, LevelsOf, Clocks, Mutexes, Waiting, Apply;
    PassLeavesMutexes(s);
  }

  lemma ReleaseJoins(s: State, e: Event)
    requires Inv(s) && Enabled(s, e) && (e.Unlock? || e.Destroy?)
    ensures JoinsStay(s, e, Apply(s, e))
  {
    hide PartitionOf, LevelsOf, Clocks, Mutexes, Waiting, Broadcast;
    BroadcastLeavesJoins(s.threads, s.tcbs, e.mutex);
  }

  lemma CallJoins(s: State, e: Event)
    requires Inv(s) && Enabled(s, e) && e != Exit && e != Pass && !e.Unlock? && !e.Destroy?
    ensures JoinsStay(s, e, Apply(s, e))
  {
    hide PartitionOf, LevelsOf, Clocks, Mutexes, Waiting;
  }

  ghost predicate JoinsStay(s: State, e: Event, s': State) {
    && |s'.threads| >= |s.threads| && s'.ended == s.ended
    && forall i :: 0 <= i < |s'.threads| ==> JoinStays(s, e, i, s'.threads[i])
  }

  /** Does thread `i + 1`, afterwards `th`, join as before but for its own join call? */
  ghost predicate JoinStays(s: State, e: Event, i: nat, th: Thread) {
    && (!(e.Wait? && i + 1 == s.running) ==> th.join == if i < |s.threads| then s.threads[i].join else 0)
    && (th.joining != Nobody ==>
          (i < |s.threads| && th.joining == s.threads[i].joining) || (e.Join? && th.joining == Of(e.target)))
    && (e.Wait? && i + 1 == s.running ==> th.join == e.target)
  }

  lemma BroadcastLeavesJoins(threads: seq<Thread>, ts: seq<nat>, m: nat)
    ensures var r := Broadcast(threads, ts, m);
      && |r| == |threads|
      && forall i :: 0 <= i < |r| ==> r[i].join == threads[i].join && r[i].joining == threads[i].joining
  {
  }

  lemma ExitJoins(s: State)
    requires Inv(s) && Enabled(s, Exit)
    ensures var s' := ExitStep(s);
      && s'.ended == [s.running] + s.ended && |s'.threads| == |s.threads|
      && forall i :: 0 <= i < |s.threads| && s.threads[i].join != s.running ==> s'.threads[i] == s.threads[i]
  {
    hide PartitionOf, LevelsOf, Clocks, Mutexes, Waiting, Without;
  }

  lemma JoinsStep(s: State, e: Event)
    requires Inv(s) && Enabled(s, e) && JoinsLive(s)
    ensures JoinsLive(Apply(s, e)) <==> TimelyWait(s, e)
  {
    hide PartitionOf, LevelsOf, Clocks, Mutexes, Waiting, Apply, ExitStep;
    if e == Exit {
      JoinsAtExit(s);
    } else {
      JoinsAfter(s, e);
      if e.Wait? {
        WaitJoins(s, e.target, e.elapsed);
      }
    }
  }

  lemma WaitJoins(s: State, t: nat, elapsed: nat)
    requires Inv(s) && Enabled(s, Wait(t, elapsed))
    ensures var s' := Apply(s, Wait(t, elapsed));
      s'.Created(s.running) && s'.At(s.running).join == t && s'.ended == s.ended && (t in s.ended ==> t != 0)
  {
    hide LevelsOf, Clocks, Mutexes, Waiting;
    Places(s);
  }

  lemma JoinsAtExit(s: State)
    requires Inv(s) && Enabled(s, Exit) && JoinsLive(s)
    ensures JoinsLive(Apply(s, Exit))
  {
    hide PartitionOf, LevelsOf, Clocks, Mutexes, Waiting, ExitStep;
    ExitKeeps(s);
    ExitJoins(s);
    var s' := ExitStep(s);
    forall i | 0 <= i < |s'.threads| && s'.threads[i].join != 0 ensures s'.threads[i].join !in s'.ended {
      assert s'.threads[i].join != s.running;
      assert s'.threads[i] == s.threads[i] || s.threads[i].join == s.running;
      AlertedJoin(s, i);
    }
  }

  lemma AlertedJoin(s: State, i: nat)
    requires Inv(s) && Enabled(s, Exit) && i < |s.threads|
    ensures |ExitStep(s).threads| == |s.threads|
    ensures ExitStep(s).threads[i].join == s.threads[i].join || ExitStep(s).threads[i].join == 0
  {
    hide PartitionOf, LevelsOf, Clocks, Mutexes, Waiting, Without;
  }

  /** At every point of a run everybody that a thread waits for has not ended, if and only if every wait finds its
      target not ended. */
  lemma {:induction false} SoundIffTimely(s: State, es: seq<Event>)
    requires Inv(s) && CanRun(s, es) && JoinsLive(s)
    ensures JoinsLiveThroughout(s, es) <==> TimelyWaits(s, es)
    decreases |es|
  {
    hide Inv, Apply, Enabled, JoinsLive, TimelyWait;
    ThroughoutCons(s, es);
    if es != [] {
      StepKeeps(s, es[0]);
      JoinsStep(s, es[0]);
      if TimelyWait(s, es[0]) {
        SoundIffTimely(Apply(s, es[0]), es[1..]);
      } else {
        ThroughoutStart(Apply(s, es[0]), es[1..]);
      }
    }
  }

  ghost predicate JoinsLiveThroughout(s: State, es: seq<Event>) {
    forall k :: 0 <= k <= |es| ==> CanRun(s, es[..k]) && JoinsLive(After(s, es[..k]))
  }

  lemma ThroughoutStart(s: State, es: seq<Event>)
    ensures JoinsLiveThroughout(s, es) ==> JoinsLive(s)
  {
    assert es[..0] == [];
  }

  lemma ThroughoutCons(s: State, es: seq<Event>)
    requires CanRun(s, es)
    ensures JoinsLiveThroughout(s, es) <==>
      JoinsLive(s) && (es != [] ==> JoinsLiveThroughout(Apply(s, es[0]), es[1..]))
  {
    hide Apply, Enabled, JoinsLive;
    assert es[..0] == [];
    if es != [] {
      var s' := Apply(s, es[0]);
      forall k | 0 <= k <= |es[1..]|
        ensures CanRun(s, es[..k + 1]) <==> CanRun(s', es[1..][..k])
        ensures CanRun(s, es[..k + 1]) ==> After(s, es[..k + 1]) == After(s', es[1..][..k])
      {
        assert es[..k + 1][0] == es[0] && es[..k + 1][1..] == es[1..][..k];
      }
      if JoinsLiveThroughout(s', es[1..]) && JoinsLive(s) {
        forall k | 0 <= k <= |es| ensures CanRun(s, es[..k]) && JoinsLive(After(s, es[..k])) {
          if k > 0 {
            assert CanRun(s', es[1..][..k - 1]);
          }
        }
      }
      if JoinsLiveThroughout(s, es) {
        forall k | 0 <= k <= |es[1..]| ensures CanRun(s', es[1..][..k]) && JoinsLive(After(s', es[1..][..k])) {
          assert CanRun(s, es[..k + 1]);
        }
      }
    }
  }

  lemma JoinsFromStart(policy: Policy, es: seq<Event>)
    requires CanRun(Start(policy), es)
    ensures JoinsLiveThroughout(Start(policy), es) <==> TimelyWaits(Start(policy), es)
  {
    StartInv(policy);
    SoundIffTimely(Start(policy), es);
  }

  // ---- Stranded joiners

  /** Does thread `t` wait for a thread that has ended? */
  ghost predicate Abandoned(s: State, t: nat, target: nat) {
    1 <= t <= |s.threads| && s.threads[t - 1].join == target != 0 && target in s.ended
  }

  /** The wait of a join call strands the caller exactly if the target has ended since the test. */
  lemma WaitStrands(s: State, target: nat, elapsed: nat)
    requires Inv(s) && Enabled(s, Wait(target, elapsed))
    ensures Abandoned(Apply(s, Wait(target, elapsed)), s.running, target) <==> target in s.ended
  {
    hide PartitionOf, LevelsOf, Clocks, Mutexes, Waiting, Apply;
    WaitJoins(s, target, elapsed);
  }

  lemma AbandonedStep(s: State, e: Event, t: nat, target: nat)
    requires Inv(s) && Enabled(s, e) && Abandoned(s, t, target)
    ensures Abandoned(Apply(s, e), t, target)
  {
    hide PartitionOf, LevelsOf, Clocks, Mutexes, Apply, ExitStep;
    if e == Exit {
      AbandonedAtExit(s, t, target);
    } else {
      JoinsAfter(s, e);
      assert e.Wait? ==> t != s.running;
    }
  }

  lemma AbandonedAtExit(s: State, t: nat, target: nat)
    requires Inv(s) && Enabled(s, Exit) && Abandoned(s, t, target)
    ensures Abandoned(Apply(s, Exit), t, target)
  {
    hide PartitionOf, LevelsOf, Clocks, Mutexes, Waiting, ExitStep;
    RunnerNotEnded(s);
    ExitJoins(s);
  }

  lemma RunnerNotEnded(s: State)
    requires Inv(s) && Enabled(s, Exit)
    ensures s.running !in s.ended
  {
    hide LevelsOf, Clocks, Mutexes, Waiting;
    Places(s);
  }

  /** A stranded joiner waits for ever, whatever the others do. */
  lemma {:induction false} AbandonedForever(s: State, es: seq<Event>, t: nat, target: nat)
    requires Inv(s) && CanRun(s, es) && Abandoned(s, t, target)
    ensures Abandoned(After(s, es), t, target)
    decreases |es|
  {
    hide Inv, Apply, Enabled, Abandoned;
    if es != [] {
      StepKeeps(s, es[0]);
      AbandonedStep(s, es[0], t, target);
      AbandonedForever(Apply(s, es[0]), es[1..], t, target);
    }
  }

  // ---- Prompt waits

  /** Does every wait of a join call follow its test at once, as when no signal comes in between? */
  ghost predicate Prompt(es: seq<Event>) {
    forall i :: 0 <= i < |es| && es[i].Wait? ==> i > 0 && es[i - 1] == Join(es[i].target)
  }

  lemma {:induction false} PromptRun(s: State, es: seq<Event>)
    requires Inv(s) && CanRun(s, es)
    requires forall i :: 1 <= i < |es| && es[i].Wait? ==> es[i - 1] == Join(es[i].target)
    requires es != [] ==> TimelyWait(s, es[0])
    ensures TimelyWaits(s, es)
    decreases |es|
  {
    hide Inv, Apply;
    if |es| > 1 {
      var s' := Apply(s, es[0]);
      StepKeeps(s, es[0]);
      assert CanRun(s', es[1..]) && es[1..][0] == es[1];
      if es[1].Wait? {
        assert es[0] == Join(es[1].target);
        TestThenWait(s, es[1].target, es[1].elapsed);
      }
      assert forall i :: 1 <= i < |es[1..]| ==> es[1..][i] == es[i + 1] && es[1..][i - 1] == es[i];
      PromptRun(s', es[1..]);
    } else if es != [] {
      assert es[1..] == [];
    }
  }

  lemma TestThenWait(s: State, t: nat, elapsed: nat)
    requires Inv(s) && Enabled(s, Join(t)) && Enabled(Apply(s, Join(t)), Wait(t, elapsed))
    ensures t !in Apply(s, Join(t)).ended
  {
    hide PartitionOf, LevelsOf, Clocks, Mutexes, Waiting;
  }

  /** In such a run nobody is stranded. */
  lemma PromptSuffices(policy: Policy, es: seq<Event>)
    requires CanRun(Start(policy), es) && Prompt(es)
    ensures TimelyWaits(Start(policy), es) && JoinsLiveThroughout(Start(policy), es)
  {
    hide Inv, Apply, Enabled, TimelyWaits, CanRun;
    StartInv(policy);
    PromptRun(Start(policy), es);
    JoinsFromStart(policy, es);
  }

  // ---- A join that comes too late

  /** The main thread makes another and joins it; a signal comes after the test; the other ends; the main thread
      waits. */
  const LATE: seq<Event> := [Create, Join(2), Timer, Pass, Exit, Pass, Wait(2, 0)]

  function Maker(join: nat, quantums: nat, fully: bool, scheduled: bool, joining: Target): Thread {
    Thread(join, 0, quantums, 0, fully, 0, scheduled, 0, 0, joining)
  }

  function Both(main: Thread, other: Thread, arrival: seq<nat>, tcbs: seq<nat>, ended: seq<nat>, running: nat,
                total: nat, scheduling: bool, timer: nat): State
  {
    State(Psjf, [main, other], arrival, [[], [], [], []], tcbs, ended, running, total, 0, map[], false, scheduling,
      timer)
  }

  /** The state after `i` events of that run. */
  function Moment(i: nat): State {
    match i
    case 0 => Start(Psjf)
    case 1 => Both(NEWBORN, NEWBORN, [2], [], [], 1, 0, false, 0)
    case 2 => Both(Maker(0, 0, false, false, Of(2)), NEWBORN, [2], [], [], 1, 0, false, 0)
    case 3 => Both(Maker(0, 1, true, false, Of(2)), NEWBORN, [2], [], [], 1, 1, true, 0)
    case 4 =>
      Both(Maker(0, 1, true, false, Of(2)), Maker(0, 0, false, true, Nobody),
           [], [1], [], 2, 1, false, TIME_QUANTUM)
    case 5 =>
      Both(Maker(0, 1, true, false, Of(2)), Maker(0, 0, false, true, Nobody),
           [], [1], [2], 0, 1, true, TIME_QUANTUM)
    case 6 => Both(Maker(0, 1, true, true, Of(2)), Maker(0, 0, false, true, Nobody), [], [], [2], 1, 1, false, 0)
    case _ => Both(Maker(2, 1, true, true, Nobody), Maker(0, 0, false, true, Nobody), [], [], [2], 1, 1, true, 0)
  }

  lemma Moments(i: nat)
    requires i < |LATE|
    ensures Shaped(Moment(i)) && Enabled(Moment(i), LATE[i]) && Apply(Moment(i), LATE[i]) == Moment(i + 1)
  {
    match i {
      case 3 => FirstPass();
      case 4 => OtherEnds();
      case 5 => SecondPass();
      case 6 => LateWait();
      case 2 => LateTimer();
      case _ => CallsBefore(i);
    }
  }

  lemma CallsBefore(i: nat)
    requires i in {0, 1}
    ensures Shaped(Moment(i)) && Enabled(Moment(i), LATE[i]) && Apply(Moment(i), LATE[i]) == Moment(i + 1)
  {
    assert Apply(Moment(i), LATE[i]).threads == Moment(i + 1).threads;
  }

  lemma LateTimer()
    ensures Shaped(Moment(2)) && Enabled(Moment(2), Timer) && Apply(Moment(2), Timer) == Moment(3)
  {
    assert Apply(Moment(2), Timer).threads == Moment(3).threads;
  }

  lemma FirstGathered()
    ensures Shaped(Moment(3)) && Gathered(Moment(3)) == Moment(3).(arrival := [], tcbs := [2, 1], running := 0)
  {
    var s := Moment(3);
    assert InsertAll(s.threads, [], [2]) == [2];
    assert InsertByUsage(s.threads, [2], 1) == [2, 1];
  }

  lemma FirstPass()
    ensures Shaped(Moment(3)) && Enabled(Moment(3), Pass) && Apply(Moment(3), Pass) == Moment(4)
  {
    hide InsertAll, InsertByUsage, Gathered;
    FirstGathered();
    var s := Moment(3);
    assert s.Live(1) && !s.At(1).Blocked();
    assert Without([2, 1], 2) == [1];
    assert Take(Gathered(s)) == s.(arrival := [], tcbs := [1], running := 2);
    assert Apply(s, Pass).threads == Moment(4).threads;
    assert [1][0] == 1;
  }

  lemma OtherEnds()
    ensures Shaped(Moment(4)) && Enabled(Moment(4), Exit) && Apply(Moment(4), Exit) == Moment(5)
  {
    assert Alert(Moment(4).threads, [1], 2) == Moment(4).threads;
    assert Without([1], 2) == [1];
  }

  lemma SecondPass()
    ensures Shaped(Moment(5)) && Enabled(Moment(5), Pass) && Apply(Moment(5), Pass) == Moment(6)
  {
    var s := Moment(5);
    assert s.Live(1) && !s.At(1).Blocked();
    assert Take(Gathered(s)) == s.(tcbs := [], running := 1);
    assert Apply(s, Pass).threads == Moment(6).threads;
  }

  lemma LateWait()
    ensures Shaped(Moment(6)) && Enabled(Moment(6), Wait(2, 0)) && Apply(Moment(6), Wait(2, 0)) == Moment(7)
  {
    assert Apply(Moment(6), Wait(2, 0)).threads == Moment(7).threads;
  }

  lemma {:induction false} AlongLate(i: nat)
    requires i <= |LATE|
    ensures CanRun(Moment(i), LATE[i..]) && After(Moment(i), LATE[i..]) == Moment(|LATE|)
    decreases |LATE| - i
  {
    hide Apply, Enabled, Moment;
    if i < |LATE| {
      Moments(i);
      AlongLate(i + 1);
      assert LATE[i..][0] == LATE[i] && LATE[i..][1..] == LATE[i + 1..];
    }
  }

  /** After the run thread `t` waits for one that has ended, and the scheduler can dispatch nobody. */
  ghost predicate Halted(policy: Policy, es: seq<Event>, t: nat, target: nat) {
    && CanRun(Start(policy), es)
    && var s := After(Start(policy), es);
      Abandoned(s, t, target) && s.scheduling && !Enabled(s, Pass)
  }

  lemma LateJoin()
    ensures Halted(Psjf, LATE, 1, 2)
  {
    hide Apply, CanRun, After;
    AlongLate(0);
    assert LATE[0..] == LATE;
    assert forall t :: Moment(|LATE|).Live(t) ==> t == 1;
  }
}
