/** The thread library carrying out whole runs. */
module SchedClient {
  import opened SchedState
  import opened SchedInv
  import opened SchedRuns
  import opened ThreadLists
  import opened Schedulers

  /** The control blocks there were before, and new ones. */
  twostate predicate Grown(s: Scheduler)
    reads s
  {
    old(s.table) <= s.table && forall i :: |old(s.table)| <= i < |s.table| ==> fresh(s.table[i])
  }

  method Perform(s: Scheduler, e: Event)
    requires s.Valid() && Enabled(s.View(), e)
    modifies s, s.table
    ensures s.Valid() && Shaped(old(s.View())) && s.View() == Apply(old(s.View()), e)
    ensures Grown(s)
  {
    hide PartitionOf, LevelsOf, Clocks, Waiting, Mutexes, Apply, Scheduler.Built, Enabled;
    match e {
      case Create => var tid := s.CreateWorker();
      case Yield(elapsed) => s.WorkerYield(elapsed);
      case Timer => s.TimerSignal();
      case Join(t) => var done := s.WorkerJoin(t);
      case Wait(t, elapsed) => s.WorkerWait(t, elapsed);
      case InitMutex => var m := s.MutexInit();
      case Lock(m, elapsed) => var acquired := s.MutexLockRound(m, elapsed);
      case Unlock(m) => s.MutexUnlock(m);
      case Destroy(m) => s.MutexDestroy(m);
      case Remove(m) => s.MutexRemove(m);
      case Exit => s.CleanExited();
      case Pass => PerformPass(s);
    }
  }

  method PerformPass(s: Scheduler)
    requires s.Valid() && Enabled(s.View(), Pass)
    modifies s, s.table
    ensures s.Valid() && s.table == old(s.table) && Shaped(old(s.View())) && s.View() == Apply(old(s.View()), Pass)
  {
    hide PartitionOf, LevelsOf, Clocks, Waiting, Mutexes, Apply, Scheduler.Built, Enabled;
    if s.policy == Psjf {
      s.SchedPsjf();
    } else if s.started {
      s.SchedMlfq();
    } else {
      s.Schedule();
    }
  }

  /** Any run, carried out by the program, does to the state what the run says; so all that holds of runs holds of the
      program. */
  method Execute(s: Scheduler, es: seq<Event>)
    requires s.Valid() && CanRun(s.View(), es)
    modifies s, s.table
    ensures s.Valid() && s.View() == After(old(s.View()), es)
  {
    hide PartitionOf, LevelsOf, Clocks, Waiting, Mutexes, Apply, Scheduler.Built, Enabled, Scheduler.View;
    ghost var v := s.View();
    assert es[0..] == es;
    for i := 0 to |es|
      invariant s.Valid() && CanRun(s.View(), es[i..]) && After(s.View(), es[i..]) == After(v, es)
      invariant Grown(s)
    {
      assert es[i..][0] == es[i] && es[i..][1..] == es[i + 1..];
      Perform(s, es[i]);
    }
    assert es[|es|..] == [];
  }
}
