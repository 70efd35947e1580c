/** Destroying a mutex that is held: how the critical section breaks if others are at the lock, and how a program
    keeps it whole. The release inside the destroy call wakes the seekers and lets the timer in before the mutex is off
    the list. */
module SchedDestroy {
  import opened SchedState
  import opened SchedInv
  import opened SchedRuns
  import opened SchedTheorems
  import opened SchedMutex

  // ---- Care

  /** Has thread `i + 1` entered a lock call for mutex `m` and not left it? */
  ghost predicate AtLock(s: State, i: nat, m: nat) {
    i < |s.threads| && s.threads[i].locking == m
  }

  /** Has thread `i + 1` released mutex `m` in a destroy call and not taken it off the list? */
  ghost predicate Destroying(s: State, i: nat, m: nat) {
    i < |s.threads| && s.threads[i].destroying == m
  }

  /** A careful program destroys a mutex it holds only while no thread is in a lock call for it, and enters no such
      call while the mutex is being destroyed. */
  ghost predicate Careful(s: State, e: Event) {
    && (e.Destroy? && s.Holds(s.running, e.mutex) ==> forall i :: !AtLock(s, i, e.mutex))
    && (e.Lock? && s.Created(s.running) && s.At(s.running).locking == 0 ==> forall i :: !Destroying(s, i, e.mutex))
  }

  ghost predicate CarefulRun(s: State, es: seq<Event>)
    requires CanRun(s, es)
    decreases |es|
  {
    es == [] || (Careful(s, es[0]) && CarefulRun(Apply(s, es[0]), es[1..]))
  }

  /** Whatever is being destroyed is free, and nobody is in a lock call for it. */
  ghost predicate Undisturbed(s: State) {
    forall i, m {:trigger Destroying(s, i, m)} :: m != 0 && Destroying(s, i, m) ==>
      (m in s.holders ==> s.holders[m] == 0) && forall j :: !AtLock(s, j, m)
  }

  lemma CarefulStep(s: State, e: Event)
    requires Inv(s) && Enabled(s, e) && Careful(s, e) && Undisturbed(s)
    ensures Undisturbed(Apply(s, e)) && FreeRemoval(s, e)
  {
    hide PartitionOf, LevelsOf, Clocks, Waiting, Mutexes, Undisturbed, Careful, MlfqPass, PsjfPass, LockStep,
      DestroyStep;
    match e {
      case Destroy(m) => CarefulDestroy(s, m);
      case Lock(m, elapsed) => CarefulLock(s, m, elapsed);
      case Remove(m) =>
        FreeToRemove(s, m);
        CarefulOther(s, e);
      case _ => CarefulOther(s, e);
    }
  }

  lemma FreeToRemove(s: State, m: nat)
    requires Enabled(s, Remove(m)) && Undisturbed(s)
    ensures m in s.holders ==> s.holders[m] == 0
  {
    assert Destroying(s, s.running - 1, m);
  }

  /** Where nobody comes to a lock or destroys anything new, and no mutex gets a holder, all stays as it was. */
  lemma NothingNew(s: State, s': State)
    requires Undisturbed(s)
    requires forall i, m :: m != 0 && Destroying(s', i, m) ==> Destroying(s, i, m)
    requires forall i, m :: m != 0 && AtLock(s', i, m) ==> AtLock(s, i, m)
    requires forall m :: m in s'.holders && s'.holders[m] != 0 ==> m in s.holders && s.holders[m] != 0
    ensures Undisturbed(s')
  {
  }

  lemma CarefulOther(s: State, e: Event)
    requires Inv(s) && Enabled(s, e) && !e.Destroy? && !e.Lock? && Undisturbed(s)
    ensures Undisturbed(Apply(s, e))
  {
    hide PartitionOf, LevelsOf, Clocks, Waiting, Mutexes, MlfqPass, PsjfPass, Undisturbed;
    if e.Pass? {
      PassLeavesMutexes(s);
    }
    NothingNew(s, Apply(s, e));
  }

  lemma CarefulDestroy(s: State, m: nat)
    requires Inv(s) && Enabled(s, Destroy(m)) && Careful(s, Destroy(m)) && Undisturbed(s)
    ensures Undisturbed(DestroyStep(s, m))
  {
    hide PartitionOf, LevelsOf, Clocks, Waiting, Mutexes;
    var s' := DestroyStep(s, m);
    assert s.Holds(0, m) ==> forall i, m' :: Destroying(s', i, m') ==> Destroying(s, i, m');
    assert forall i, m' :: m' != 0 && m' != m && Destroying(s', i, m') ==> Destroying(s, i, m');
    assert forall i, m' :: AtLock(s', i, m') ==> AtLock(s, i, m');
  }

  lemma CarefulLock(s: State, m: nat, elapsed: nat)
    requires s.Created(s.running) && m in s.holders && Enabled(s, Lock(m, elapsed))
    requires Inv(s) && Careful(s, Lock(m, elapsed)) && Undisturbed(s)
    ensures Undisturbed(LockStep(s, m, elapsed))
  {
    hide PartitionOf, LevelsOf, Clocks, Waiting;
    var s' := LockStep(s, m, elapsed);
    assert AtLock(s, s.running - 1, s.At(s.running).locking);
    assert forall i, m' :: Destroying(s', i, m') ==> Destroying(s, i, m');
    assert forall i, m' :: m' != 0 && m' != m && AtLock(s', i, m') ==> AtLock(s, i, m');
    assert forall i :: !Destroying(s, i, m);
  }

  lemma {:induction false} CarefulRuns(s: State, es: seq<Event>)
    requires Inv(s) && CanRun(s, es) && CarefulRun(s, es) && Undisturbed(s)
    ensures FreeRemovals(s, es)
    decreases |es|
  {
    hide Inv, Apply, Enabled, Undisturbed, Careful, FreeRemoval;
    if es != [] {
      StepKeeps(s, es[0]);
      CarefulStep(s, es[0]);
      CarefulRuns(Apply(s, es[0]), es[1..]);
    }
  }

  /** A program that destroys with care is sound at every point of every run. */
  lemma CareSuffices(policy: Policy, es: seq<Event>)
    requires CanRun(Start(policy), es) && CarefulRun(Start(policy), es)
    ensures FreeRemovals(Start(policy), es) && SoundThroughout(Start(policy), es)
  {
    hide Inv, Apply, Enabled, CanRun, FreeRemovals, CarefulRun;
    StartInv(policy);
    assert Undisturbed(Start(policy));
    CarefulRuns(Start(policy), es);
    SoundFromStart(policy, es);
  }

  // ---- Seekers of a mutex that is no more

  /** Does thread `t` seek a mutex that has been taken off the list? */
  ghost predicate Stranded(s: State, t: nat, m: nat) {
    1 <= t <= |s.threads| && s.threads[t - 1].seeking == m != 0 && m !in s.holders && m <= s.mutexes
  }

  lemma StrandedStep(s: State, e: Event, t: nat, m: nat)
    requires Inv(s) && Enabled(s, e) && Stranded(s, t, m)
    ensures Stranded(Apply(s, e), t, m)
  {
    hide PartitionOf, LevelsOf, Clocks, Mutexes, MlfqPass, PsjfPass;
    MutexesAfter(s, e);
    if e.Pass? {
      PassLeavesMutexes(s);
    }
  }

  /** It seeks it for ever, whatever the others do. */
  lemma {:induction false} StrandedForever(s: State, es: seq<Event>, t: nat, m: nat)
    requires Inv(s) && CanRun(s, es) && Stranded(s, t, m)
    ensures Stranded(After(s, es), t, m)
    decreases |es|
  {
    hide Inv, Apply, Enabled, Stranded;
    if es != [] {
      StepKeeps(s, es[0]);
      StrandedStep(s, es[0], t, m);
      StrandedForever(Apply(s, es[0]), es[1..], t, m);
    }
  }

  // ---- Without care

  function One(quantums: nat, fully: bool, prio: nat, scheduled: bool, destroying: nat): Thread {
    Thread(0, 0, quantums, 0, fully, prio, scheduled, 0, destroying, Nobody)
  }

  function Other(seeking: nat, quantums: nat, fully: bool, prio: nat, locking: nat): Thread {
    Thread(0, seeking, quantums, 0, fully, prio, true, locking, 0, Nobody)
  }

  function Early(threads: seq<Thread>, arrival: seq<nat>, total: nat, mutexes: nat, holders: map<nat, nat>,
                 scheduling: bool): State
  {
    State(Mlfq, threads, arrival, [[], [], [], []], [], [], MAIN, total, mutexes, holders, false, scheduling, 0)
  }

  function Trio(a: Thread, b: Thread, c: Thread, levels: seq<seq<nat>>, running: nat, total: nat,
                holders: map<nat, nat>, scheduling: bool): State
  {
    State(Mlfq, [a, b, c], [], levels, [3, 2, 1], [], running, total, 1, holders, true, scheduling, TIME_QUANTUM)
  }

  /** Thread 1 takes the mutex; 2 and 3 come to seek it; 1 begins to destroy it and is interrupted; 2 enters, and 3
      seeks again; 1 takes the mutex off the list. */
  const RUN: seq<Event> := [
    InitMutex, Create, Create, Lock(1, 0), Yield(0), Pass, Lock(1, 0), Pass, Lock(1, 0), Pass, Destroy(1), Timer, Pass,
    Lock(1, 0), Yield(0), Pass, Lock(1, 0), Pass, Timer, Pass, Remove(1), Timer, Pass]

  /** The state after `i` events of that run. */
  function Point(i: nat): State {
    match i
    case 0 => Early([NEWBORN], [], 0, 0, map[], false)
    case 1 => Early([NEWBORN], [], 0, 1, map[1 := 0], false)
    case 2 => Early([NEWBORN, NEWBORN], [2], 0, 1, map[1 := 0], false)
    case 3 => Early([NEWBORN, NEWBORN, NEWBORN], [2, 3], 0, 1, map[1 := 0], false)
    case 4 => Early([NEWBORN, NEWBORN, NEWBORN], [2, 3], 0, 1, map[1 := 1], false)
    case 5 => Early([NEWBORN, NEWBORN, NEWBORN], [2, 3], 0, 1, map[1 := 1], true)
    case 6 =>
      Trio(NEWBORN, Other(0, 0, false, 0, 0), NEWBORN,
           [[3, 1], [], [], []], 2, 0, map[1 := 1], false)
    case 7 =>
      Trio(NEWBORN, Other(1, 0, false, 0, 1), NEWBORN,
           [[3, 1], [], [], []], 2, 0, map[1 := 1], true)
    case 8 =>
      Trio(NEWBORN, Other(1, 0, false, 0, 1), Other(0, 0, false, 0, 0),
           [[1, 2], [], [], []], 3, 0, map[1 := 1], false)
    case 9 =>
      Trio(NEWBORN, Other(1, 0, false, 0, 1), Other(1, 0, false, 0, 1),
           [[1, 2], [], [], []], 3, 0, map[1 := 1], true)
    case 10 =>
      Trio(One(0, false, 0, true, 0), Other(1, 0, false, 0, 1), Other(1, 0, false, 0, 1),
           [[2, 3], [], [], []], 1, 0, map[1 := 1], false)
    case 11 =>
      Trio(One(0, false, 0, true, 1), Other(0, 0, false, 0, 1), Other(0, 0, false, 0, 1),
           [[2, 3], [], [], []], 1, 0, map[1 := 0], false)
    case 12 =>
      Trio(One(1, true, 0, true, 1), Other(0, 0, false, 0, 1), Other(0, 0, false, 0, 1),
           [[2, 3], [], [], []], 1, 1, map[1 := 0], true)
    case 13 =>
      Trio(One(1, false, 1, true, 1), Other(0, 0, false, 0, 1), Other(0, 0, false, 0, 1),
           [[3], [1], [], []], 2, 1, map[1 := 0], false)
    case 14 =>
      Trio(One(1, false, 1, true, 1), Other(0, 0, false, 0, 0), Other(0, 0, false, 0, 1),
           [[3], [1], [], []], 2, 1, map[1 := 2], false)
    case 15 =>
      Trio(One(1, false, 1, true, 1), Other(0, 0, false, 0, 0), Other(0, 0, false, 0, 1),
           [[3], [1], [], []], 2, 1, map[1 := 2], true)
    case 16 =>
      Trio(One(1, false, 1, true, 1), Other(0, 0, false, 0, 0), Other(0, 0, false, 0, 1),
           [[2], [1], [], []], 3, 1, map[1 := 2], false)
    case 17 =>
      Trio(One(1, false, 1, true, 1), Other(0, 0, false, 0, 0), Other(1, 0, false, 0, 1),
           [[2], [1], [], []], 3, 1, map[1 := 2], true)
    case 18 =>
      Trio(One(1, false, 1, true, 1), Other(0, 0, false, 0, 0), Other(1, 0, false, 0, 1),
           [[3], [1], [], []], 2, 1, map[1 := 2], false)
    case 19 =>
      Trio(One(1, false, 1, true, 1), Other(0, 1, true, 0, 0), Other(1, 0, false, 0, 1),
           [[3], [1], [], []], 2, 2, map[1 := 2], true)
    case 20 =>
      Trio(One(1, false, 1, true, 1), Other(0, 1, false, 1, 0), Other(1, 0, false, 0, 1),
           [[3], [2], [], []], 1, 2, map[1 := 2], false)
    case 21 =>
      Trio(One(1, false, 1, true, 0), Other(0, 1, false, 1, 0), Other(1, 0, false, 0, 1),
           [[3], [2], [], []], 1, 2, map[], false)
    case 22 =>
      Trio(One(2, true, 1, true, 0), Other(0, 1, false, 1, 0), Other(1, 0, false, 0, 1),
           [[3], [2], [], []], 1, 3, map[], true)
    case _ =>
      Trio(One(2, false, 2, true, 0), Other(0, 1, false, 1, 0), Other(1, 0, false, 0, 1),
           [[3], [], [1], []], 2, 3, map[], false)
  }

  /** Does the event lead from `s` to `s'`? */
  ghost predicate Goes(s: State, e: Event, s': State) {
    Shaped(s) && Enabled(s, e) && Apply(s, e) == s'
  }

  lemma Regroup(levels: seq<seq<nat>>, l: nat, q: seq<nat>, q0: seq<nat>, q1: seq<nat>, q2: seq<nat>, q3: seq<nat>)
    requires |levels| == QUEUE_LEVELS && l < QUEUE_LEVELS
    requires var r := levels[l := q]; r[0] == q0 && r[1] == q1 && r[2] == q2 && r[3] == q3
    ensures levels[l := q] == [q0, q1, q2, q3]
  {
  }

  /** Is `s'` the state with the first thread of level `l` of `r` dispatched, its whole quantum before it? */
  ghost predicate Dispatches(r: State, l: nat, s': State) {
    && l < |r.levels| && r.levels[l] != []
    && var t := r.levels[l][0];
      && r.Created(t) && r.At(t).used == 0 && !r.At(t).Blocked()
      && s' == r.With(t, r.At(t).(scheduled := true)).(running := t, levels := r.levels[l := r.levels[l][1..]],
                                                      timer := TIME_QUANTUM, scheduling := false)
  }

  lemma Chosen(r: State, l: nat, s': State)
    requires NoneBelow(r, l) && Dispatches(r, l, s')
    requires |r.threads| == 3 && r.tcbs == [3, 2, 1] && forall i :: 0 <= i < 3 ==> r.threads[i].join == 0
    ensures Dispatch(Choose(r)) == s'
  {
    hide NoneBelow, PickLevel;
    var q := r.levels[l];
    FirstAt(r.threads, q, 0);
    LevelChoice(r, l);
    assert q[1..] + q[..0] == q[1..];
    NotAlone(r, q[0]);
  }

  /** Do the levels become `levels'` when `running` is put behind level `p` and `t` taken from the front of `l`? */
  ghost predicate Moved(levels: seq<seq<nat>>, p: nat, running: nat, l: nat, t: nat, levels': seq<seq<nat>>) {
    && |levels| == |levels'| == QUEUE_LEVELS && p < QUEUE_LEVELS && l < QUEUE_LEVELS
    && forall i :: 0 <= i < QUEUE_LEVELS ==>
         levels[i] + (if i == p then [running] else []) == (if i == l then [t] else []) + levels'[i]
  }

  /** Are all the threads in `q` blocked? */
  predicate NoneCanRun(threads: seq<Thread>, q: seq<nat>) {
    forall i :: 0 <= i < |q| ==> 1 <= q[i] <= |threads| && threads[q[i] - 1].Blocked()
  }

  lemma MovedLevels(levels: seq<seq<nat>>, p: nat, running: nat, l: nat, t: nat, levels': seq<seq<nat>>)
    requires Moved(levels, p, running, l, t, levels')
    ensures var r := levels[p := levels[p] + [running]];
      && |levels'| == QUEUE_LEVELS && l < QUEUE_LEVELS && r[l] == [t] + levels'[l] && levels' == r[l := r[l][1..]]
      && forall i :: 0 <= i < l ==> r[i] == levels'[i]
  {
    var r := levels[p := levels[p] + [running]];
    assert forall i :: 0 <= i < QUEUE_LEVELS ==> levels[i] + [] == levels[i] && [] + levels'[i] == levels'[i];
    assert forall i :: 0 <= i < QUEUE_LEVELS ==> r[i] == (if i == l then [t] else []) + levels'[i];
  }

  /** A pass that takes nobody in and boosts nobody dispatches the first thread of a level, if nobody above can run. */
  lemma QuietPass(s: State, l: nat, s': State)
    requires Shaped(s) && s.policy == Mlfq && s.started && s.arrival == [] && s.total < DECAY && s.scheduling
    requires s.ended == [] && |s.threads| == 3 && s.tcbs == [3, 2, 1]
    requires forall i :: 0 <= i < 3 ==> s.threads[i].join == 0
    requires s.Created(s.running) && s.At(s.running).prio < QUEUE_LEVELS && s.Created(s'.running)
    requires var th := Demoted(s.At(s.running)); var threads := s.threads[s.running - 1 := th];
      && Moved(s.levels, th.prio, s.running, l, s'.running, s'.levels)
      && (forall i :: 0 <= i < l ==> NoneCanRun(threads, s'.levels[i]))
      && !threads[s'.running - 1].Blocked() && threads[s'.running - 1].used == 0
      && s' == s.(threads := threads[s'.running - 1 := threads[s'.running - 1].(scheduled := true)],
                  running := s'.running, levels := s'.levels, timer := TIME_QUANTUM, scheduling := false)
    ensures Goes(s, Pass, s')
  {
    hide PickLevel, Admit, Dispatch, Choose, FirstUnblocked, Moved;
    AdmitNone(s);
    var r := Requeue(s);
    MovedLevels(s.levels, Demoted(s.At(s.running)).prio, s.running, l, s'.running, s'.levels);
    forall i | 0 <= i < l ensures FirstUnblocked(r.threads, r.levels[i]) == |r.levels[i]| {
      assert r.levels[i] == s'.levels[i] && NoneCanRun(r.threads, r.levels[i]);
      FirstAt(r.threads, r.levels[i], |r.levels[i]|);
    }
    Chosen(r, l, s');
    assert s.Live(s'.running) && !s.At(s'.running).Blocked();
  }

  /** Of three threads that join nobody, the timer is armed for any. */
  lemma NotAlone(s: State, t: nat)
    requires |s.threads| == 3 && s.tcbs == [3, 2, 1] && forall i :: 0 <= i < 3 ==> s.threads[i].join == 0
    ensures !OthersJoining(s.threads, s.tcbs, t)
  {
    assert s.tcbs[0] == 3 && s.tcbs[1] == 2;
  }

  lemma FirstReady()
    ensures Ready(Point(5)) == Point(5).(arrival := [], levels := [[2, 3, 1], [], [], []], tcbs := [3, 2, 1],
                                         running := 0, started := true)
  {
    hide Dispatch, Choose;
    var e := Enroll(Point(5));
    assert e.tcbs == [1];
    assert Reversed([2, 3]) == [3, 2];
    Regroup(e.levels, 0, e.levels[0] + e.arrival, [2, 3], [], [], []);
    Regroup(Admit(e).levels, 0, Admit(e).levels[0] + [1], [2, 3, 1], [], [], []);
  }

  lemma FirstPass()
    ensures Goes(Point(5), Pass, Point(6))
  {
    hide Ready, Dispatch, Choose;
    FirstReady();
    var r := Ready(Point(5));
    Regroup(r.levels, 0, r.levels[0][1..], [3, 1], [], [], []);
    Chosen(r, 0, Point(6));
    assert Point(5).Live(1) && !Point(5).At(1).Blocked();
  }

  lemma FirstPasses(i: nat)
    requires i in {7, 9, 12}
    ensures Goes(Point(i), Pass, Point(i + 1))
  {
    QuietPass(Point(i), 0, Point(i + 1));
  }

  lemma NextPasses(i: nat)
    requires i in {15, 17}
    ensures Goes(Point(i), Pass, Point(i + 1))
  {
    QuietPass(Point(i), 0, Point(i + 1));
  }

  lemma LastPasses(i: nat)
    requires i in {19, 22}
    ensures Goes(Point(i), Pass, Point(i + 1))
  {
    QuietPass(Point(i), 1, Point(i + 1));
  }

  lemma BothWoken()
    ensures var s := Point(10);
      Broadcast(s.threads, s.tcbs, 1) == [s.threads[0], Other(0, 0, false, 0, 1), Other(0, 0, false, 0, 1)]
  {
    var s := Point(10);
    assert s.tcbs[0] == 3 && s.tcbs[1] == 2;
  }

  lemma FirstCalls(i: nat)
    requires i in {0, 1, 2}
    ensures Goes(Point(i), RUN[i], Point(i + 1))
  {
  }

  lemma NextCalls(i: nat)
    requires i in {3, 4}
    ensures Goes(Point(i), RUN[i], Point(i + 1))
  {
    hide Yielded, Ticks;
    IdleYield(NEWBORN);
    var s, s' := Point(i), Point(i + 1);
    assert s.threads[0 := s.threads[0]] == s'.threads;
  }

  lemma WaitingLocks(i: nat)
    requires i in {6, 8, 16}
    ensures Goes(Point(i), Lock(1, 0), Point(i + 1))
  {
    var s, s' := Point(i), Point(i + 1);
    assert Apply(s, Lock(1, 0)).threads == s'.threads && Apply(s, Lock(1, 0)).holders == s'.holders;
  }

  lemma Timers(i: nat)
    requires i in {11, 18, 21}
    ensures Goes(Point(i), Timer, Point(i + 1))
  {
    var s, s' := Point(i), Point(i + 1);
    assert Apply(s, Timer).threads == s'.threads && Apply(s, Timer).holders == s'.holders;
  }

  lemma Released()
    ensures UnlockStep(Point(10), 1) ==
      Trio(One(0, false, 0, true, 0), Other(0, 0, false, 0, 1), Other(0, 0, false, 0, 1),
           [[2, 3], [], [], []], 1, 0, map[1 := 0], false)
  {
    hide Broadcast;
    BothWoken();
    assert map[1 := 1][1 := 0] == map[1 := 0];
  }

  lemma DestroyCall()
    ensures Goes(Point(10), Destroy(1), Point(11))
  {
    hide UnlockStep;
    var s, s' := Point(10), Point(11);
    Released();
    assert DestroyStep(s, 1).threads == s'.threads;
  }

  lemma EnteringLock()
    ensures Goes(Point(13), Lock(1, 0), Point(14))
  {
    var s, s' := Point(13), Point(14);
    assert Apply(s, Lock(1, 0)).threads == s'.threads && Apply(s, Lock(1, 0)).holders == s'.holders;
  }

  /** A thread that has not run yields without a trace. */
  lemma IdleYield(th: Thread)
    requires th.used == 0
    ensures Yielded(th, 0) == th && Ticks(th, 0) == 0
  {
  }

  lemma YieldCall()
    ensures Goes(Point(14), Yield(0), Point(15))
  {
    hide Yielded, Ticks;
    var s, s' := Point(14), Point(15);
    IdleYield(s.At(2));
    assert s.threads[1 := s.threads[1]] == s'.threads;
  }

  lemma RemoveCall()
    ensures Goes(Point(20), Remove(1), Point(21))
  {
    var s, s' := Point(20), Point(21);
    assert 1 in s.holders;
    assert Apply(s, Remove(1)).threads == s'.threads && Apply(s, Remove(1)).holders == s'.holders;
  }

  lemma Calls(i: nat)
    requires i < |RUN| && RUN[i] != Pass
    ensures Goes(Point(i), RUN[i], Point(i + 1))
  {
    hide Goes;
    match i {
      case 10 => DestroyCall();
      case 13 => EnteringLock();
      case 14 => YieldCall();
      case 20 => RemoveCall();
      case _ =>
        if i < 3 {
          FirstCalls(i);
        } else if i < 5 {
          NextCalls(i);
        } else if i in {6, 8, 16} {
          WaitingLocks(i);
        } else {
          Timers(i);
        }
    }
  }

  lemma Passes(i: nat)
    requires i < |RUN| && RUN[i] == Pass
    ensures Goes(Point(i), RUN[i], Point(i + 1))
  {
    hide Goes;
    match i {
      case 5 => FirstPass();
      case 15 => NextPasses(i);
      case 17 => NextPasses(i);
      case 19 => LastPasses(i);
      case 22 => LastPasses(i);
      case _ => FirstPasses(i);
    }
  }

  lemma {:induction false} Along(i: nat)
    requires i <= |RUN|
    ensures CanRun(Point(i), RUN[i..]) && After(Point(i), RUN[i..]) == Point(|RUN|)
    decreases |RUN| - i
  {
    hide Apply, Enabled, Point;
    if i < |RUN| {
      if RUN[i] == Pass {
        Passes(i);
      } else {
        Calls(i);
      }
      Along(i + 1);
      assert RUN[i..][0] == RUN[i] && RUN[i..][1..] == RUN[i + 1..];
    }
  }

  /** Thread 2 enters with the event at 13, and is inside from then on. */
  lemma {:induction false} InsideAlong(i: nat)
    requires i <= |RUN|
    ensures CanRun(Point(i), RUN[i..]) && Inside(Point(i), RUN[i..], 2, 1, i > 13)
    decreases |RUN| - i
  {
    hide Apply, Enabled, Point, InsideStep, Inv;
    Along(i);
    if i < |RUN| {
      if RUN[i] == Pass {
        Passes(i);
      } else {
        Calls(i);
      }
      InsideNext(i);
      InsideAlong(i + 1);
      assert RUN[i..][0] == RUN[i] && RUN[i..][1..] == RUN[i + 1..];
    }
  }

  lemma InsideNext(i: nat)
    requires i < |RUN| && Goes(Point(i), RUN[i], Point(i + 1))
    ensures InsideStep(Point(i), RUN[i], 2, 1, i > 13) <==> i + 1 > 13
  {
    hide Apply, Enabled;
  }

  /** After the run thread `t` is inside a critical section and runs but cannot leave, as the unlock asserts that it is
      the holder; and thread `t'` seeks the mutex, which is no more. */
  ghost predicate Broken(policy: Policy, es: seq<Event>, t: nat, t': nat, m: nat) {
    && CanRun(Start(policy), es) && Inside(Start(policy), es, t, m, false)
    && var s := After(Start(policy), es);
      && s.InUserCode() && s.running == t && !Enabled(s, Unlock(m)) && Stranded(s, t', m)
  }

  ghost predicate CarelessRun(policy: Policy, es: seq<Event>) {
    CanRun(Start(policy), es) && !FreeRemovals(Start(policy), es) && !CarefulRun(Start(policy), es)
  }

  lemma BrokenSection()
    ensures Broken(Mlfq, RUN, 2, 3, 1) && CarelessRun(Mlfq, RUN)
  {
    hide Apply, CanRun, After, Inside, FreeRemovals, CarefulRun, Inv;
    Along(0);
    InsideAlong(0);
    assert RUN[0..] == RUN && Point(0) == Start(Mlfq);
    if FreeRemovals(Start(Mlfq), RUN) {
      HolderIsInside(Mlfq, RUN, 2, 1);
    }
    if CarefulRun(Start(Mlfq), RUN) {
      CareSuffices(Mlfq, RUN);
    }
  }
}
