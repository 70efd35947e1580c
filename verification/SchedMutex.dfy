/** Critical sections and the threads that wait for them: never two inside at once, in every run; and seekers that find
    the mutex held, in every run that destroys mutexes with care. */
module SchedMutex {
  import opened SchedState
  import opened SchedInv
  import opened SchedRuns
  import opened SchedTheorems

  /** In every run of the library, from its start. */
  lemma Reachable(policy: Policy, es: seq<Event>)
    requires CanRun(Start(policy), es)
    ensures Inv(After(Start(policy), es)) && After(Start(policy), es).policy == policy
  {
    StartInv(policy);
    RunKeeps(Start(policy), es);
    PolicyStaysThroughout(Start(policy), es);
  }

  // ---- Being inside a critical section

  /** Is thread `t` inside the critical section of mutex `m` after the step, if `before` tells whether it was before?
      It enters when its lock call returns, and leaves by unlocking or destroying the mutex. */
  ghost predicate InsideStep(s: State, e: Event, t: nat, m: nat, before: bool)
    requires Shaped(s) && Enabled(s, e)
  {
    if s.running != t then before
    else if e.Lock? && e.mutex == m then before || Apply(s, e).At(t).locking == 0
    else if (e.Unlock? || e.Destroy?) && e.mutex == m then false
    else before
  }

  ghost predicate Inside(s: State, es: seq<Event>, t: nat, m: nat, before: bool)
    requires CanRun(s, es)
    decreases |es|
  {
    if es == [] then before else Inside(Apply(s, es[0]), es[1..], t, m, InsideStep(s, es[0], t, m, before))
  }

  /** Of two threads at most one is inside, by name while the mutex is on the list; nobody before it was made. */
  ghost predicate OneAtMost(s: State, m: nat, t: nat, t': nat, inside: bool, inside': bool) {
    if m in s.holders then (inside <==> s.holders[m] == t) && (inside' <==> s.holders[m] == t')
    else !(inside && inside') && (m > s.mutexes ==> !inside && !inside')
  }

  /** What a step does to the list of mutexes. */
  ghost function HoldersAfter(s: State, e: Event): map<nat, nat>
    requires Enabled(s, e)
  {
    match e
    case Lock(m, _) => if s.holders[m] == 0 then s.holders[m := s.running] else s.holders
    case Unlock(m) => s.holders[m := 0]
    case InitMutex => s.holders[s.mutexes + 1 := 0]
    case Destroy(m) => if s.holders[m] == 0 then s.holders - {m} else s.holders[m := 0]
    case Remove(m) => s.holders - {m}
    case _ => s.holders
  }

  lemma MutexesAfter(s: State, e: Event)
    requires Inv(s) && Enabled(s, e)
    ensures Apply(s, e).holders == HoldersAfter(s, e)
    ensures Apply(s, e).mutexes == s.mutexes + if e == InitMutex then 1 else 0
    ensures e.Lock? ==> s.Created(s.running) && Apply(s, e).Created(s.running)
    ensures e.Lock? ==> (Apply(s, e).At(s.running).locking == 0 <==> s.holders[e.mutex] == 0)
  {
    hide PartitionOf, LevelsOf, Clocks, MlfqPass, PsjfPass, Broadcast, Alert;
    if e == Pass {
      PassLeavesMutexes(s);
    }
  }

  lemma OneAtMostStep(s: State, e: Event, m: nat, t: nat, t': nat, inside: bool, inside': bool)
    requires Inv(s) && Enabled(s, e) && t != 0 && t' != 0 && t != t' && OneAtMost(s, m, t, t', inside, inside')
    ensures OneAtMost(Apply(s, e), m, t, t', InsideStep(s, e, t, m, inside), InsideStep(s, e, t', m, inside'))
  {
    hide PartitionOf, LevelsOf, Clocks, Waiting, Apply;
    MutexesAfter(s, e);
  }

  lemma PassLeavesMutexes(s: State)
    requires Inv(s) && Enabled(s, Pass)
    ensures SameWaits(s, Apply(s, Pass))
  {
    hide PartitionOf, LevelsOf, Clocks, Waiting, Mutexes, MlfqPass, PsjfPass, SameWaits;
    if s.policy == Mlfq {
      MlfqPassKeeps(s);
    } else {
      PsjfPassKeeps(s);
    }
  }

  lemma {:induction false} OneAtMostRun(s: State, es: seq<Event>, m: nat, t: nat, t': nat, inside: bool, inside': bool)
    requires Inv(s) && CanRun(s, es) && t != 0 && t' != 0 && t != t' && OneAtMost(s, m, t, t', inside, inside')
    ensures !(Inside(s, es, t, m, inside) && Inside(s, es, t', m, inside'))
    decreases |es|
  {
    hide Inv, Apply, Enabled, InsideStep;
    if es != [] {
      StepKeeps(s, es[0]);
      OneAtMostStep(s, es[0], m, t, t', inside, inside');
      OneAtMostRun(Apply(s, es[0]), es[1..], m, t, t', InsideStep(s, es[0], t, m, inside),
        InsideStep(s, es[0], t', m, inside'));
    }
  }

  /** In every run, whatever is destroyed when, no two threads are inside a critical section at once. */
  lemma MutualExclusion(policy: Policy, es: seq<Event>, m: nat, t: nat, t': nat)
    requires CanRun(Start(policy), es) && t != 0 && t' != 0 && t != t'
    ensures !(Inside(Start(policy), es, t, m, false) && Inside(Start(policy), es, t', m, false))
  {
    hide Inv, Inside, CanRun;
    StartInv(policy);
    OneAtMostRun(Start(policy), es, m, t, t', false, false);
  }

  // ---- When waiting is sound

  /** Does a thread that seeks a mutex find it initialised and held? */
  ghost predicate SeeksHeld(th: Thread, holders: map<nat, nat>) {
    th.seeking != 0 ==> th.seeking in holders && holders[th.seeking] != 0
  }

  ghost predicate SeekersHeld(s: State) {
    forall i :: 0 <= i < |s.threads| ==> SeeksHeld(s.threads[i], s.holders)
  }

  /** After the run, seekers find their mutex held, and exactly the holders named are inside their critical sections. */
  ghost predicate Sound(s: State, es: seq<Event>) {
    && CanRun(s, es) && SeekersHeld(After(s, es))
    && forall t, m {:trigger After(s, es).Holds(t, m)} :: t != 0 ==>
         (Inside(s, es, t, m, s.Holds(t, m)) <==> After(s, es).Holds(t, m))
  }

  /** A mutex is free when a destroy call comes to take it off the list. */
  ghost predicate FreeRemoval(s: State, e: Event) {
    e.Remove? && e.mutex in s.holders ==> s.holders[e.mutex] == 0
  }

  ghost predicate FreeRemovals(s: State, es: seq<Event>)
    requires CanRun(s, es)
    decreases |es|
  {
    es == [] || (FreeRemoval(s, es[0]) && FreeRemovals(Apply(s, es[0]), es[1..]))
  }

  lemma SoundStep(s: State, e: Event)
    requires Inv(s) && Enabled(s, e) && SeekersHeld(s) && FreeRemoval(s, e)
    ensures SeekersHeld(Apply(s, e))
  {
    hide PartitionOf, LevelsOf, Clocks, Waiting, MlfqPass, PsjfPass, UnlockStep, LockStep;
    match e {
      case Pass => PassLeavesMutexes(s);
      case Unlock(m) => ReleaseSound(s, m);
      case Destroy(m) =>
        if !s.Holds(0, m) {
          ReleaseSound(s, m);
        }
      case Lock(m, elapsed) => LockSound(s, m, elapsed);
      case _ =>
    }
  }

  lemma LockSound(s: State, m: nat, elapsed: nat)
    requires s.Created(s.running) && m in s.holders && Enabled(s, Lock(m, elapsed)) && Inv(s) && SeekersHeld(s)
    ensures SeekersHeld(LockStep(s, m, elapsed))
  {
    hide PartitionOf, LevelsOf, Clocks, Waiting;
  }

  /** A release leaves no seeker of the mutex. */
  lemma ReleaseSound(s: State, m: nat)
    requires Inv(s) && s.InUserCode() && s.Holds(s.running, m) && SeekersHeld(s)
    ensures SeekersHeld(UnlockStep(s, m)) && UnlockStep(s, m).Created(s.running)
  {
    hide PartitionOf, LevelsOf, Clocks, Sorted;
    UnlockKeeps(s, m);
  }

  lemma NamedStep(s: State, e: Event, t: nat, m: nat)
    requires Inv(s) && Enabled(s, e) && FreeRemoval(s, e) && t != 0
    ensures InsideStep(s, e, t, m, s.Holds(t, m)) <==> Apply(s, e).Holds(t, m)
  {
    hide PartitionOf, LevelsOf, Clocks, Waiting, Apply;
    MutexesAfter(s, e);
  }

  /** If the mutex is held, its holder goes on inside and is named no more. */
  lemma HeldRemoval(s: State, e: Event)
    requires Inv(s) && Enabled(s, e) && !FreeRemoval(s, e)
    ensures var t := s.holders[e.mutex];
      t != 0 && s.Holds(t, e.mutex) && InsideStep(s, e, t, e.mutex, true) && !Apply(s, e).Holds(t, e.mutex)
  {
    hide PartitionOf, LevelsOf, Clocks;
    assert Waits(s.threads[s.running - 1], s.running, s.holders);
  }

  lemma {:induction false} CanRunPrefix(s: State, es: seq<Event>, k: nat)
    requires CanRun(s, es) && k <= |es|
    ensures CanRun(s, es[..k])
    decreases |es|
  {
    hide Apply;
    if k > 0 {
      CanRunPrefix(Apply(s, es[0]), es[1..], k - 1);
      assert es[..k][0] == es[0] && es[..k][1..] == es[1..][..k - 1];
    }
  }

  /** Is the run sound at every point? */
  ghost predicate SoundThroughout(s: State, es: seq<Event>) {
    forall k :: 0 <= k <= |es| ==> Sound(s, es[..k])
  }

  /** A run whose first step is sound is sound at every point exactly if the rest is. */
  lemma SoundTail(s: State, es: seq<Event>)
    requires CanRun(s, es) && es != [] && Inv(s) && SeekersHeld(s) && FreeRemoval(s, es[0])
    ensures SoundThroughout(s, es) <==> SoundThroughout(Apply(s, es[0]), es[1..])
  {
    hide Inv, Apply, Enabled, Sound, FreeRemoval;
    SoundNow(s);
    assert es[..0] == [];
    forall k | 0 <= k <= |es[1..]| ensures Sound(Apply(s, es[0]), es[1..][..k]) <==> Sound(s, es[..k + 1]) {
      assert es[..k + 1] == [es[0]] + es[1..][..k];
      CanRunPrefix(Apply(s, es[0]), es[1..], k);
      SoundCons(s, es[0], es[1..][..k]);
    }
    if SoundThroughout(Apply(s, es[0]), es[1..]) {
      forall k | 0 <= k <= |es| ensures Sound(s, es[..k]) {
        if k > 0 {
          assert Sound(Apply(s, es[0]), es[1..][..k - 1]);
        }
      }
    }
    if SoundThroughout(s, es) {
      forall k | 0 <= k <= |es[1..]| ensures Sound(Apply(s, es[0]), es[1..][..k]) {
        assert Sound(s, es[..k + 1]);
      }
    }
  }

  lemma SoundNow(s: State)
    requires SeekersHeld(s)
    ensures Sound(s, [])
  {
  }

  lemma SoundCons(s: State, e: Event, es: seq<Event>)
    requires Inv(s) && Enabled(s, e) && FreeRemoval(s, e) && CanRun(Apply(s, e), es)
    ensures Sound(Apply(s, e), es) <==> Sound(s, [e] + es)
  {
    hide PartitionOf, LevelsOf, Clocks, Waiting, Mutexes, Apply, Enabled, InsideStep, SeekersHeld, State.Holds;
    var s' := Apply(s, e);
    assert ([e] + es)[0] == e && ([e] + es)[1..] == es;
    forall t, m | t != 0 ensures Inside(s, [e] + es, t, m, s.Holds(t, m)) <==> Inside(s', es, t, m, s'.Holds(t, m)) {
      NamedStep(s, e, t, m);
    }
  }

  /** A run is sound at every point exactly if every mutex is free when a destroy call comes to take it off the list. */
  lemma {:induction false} SoundIffFreeRemovals(s: State, es: seq<Event>)
    requires Inv(s) && CanRun(s, es) && SeekersHeld(s)
    ensures SoundThroughout(s, es) <==> FreeRemovals(s, es)
    decreases |es|
  {
    hide Inv, Apply, Enabled, Sound, SeekersHeld, FreeRemoval;
    if es == [] {
      SoundNow(s);
    } else if FreeRemoval(s, es[0]) {
      StepKeeps(s, es[0]);
      SoundStep(s, es[0]);
      SoundTail(s, es);
      SoundIffFreeRemovals(Apply(s, es[0]), es[1..]);
    } else {
      UnsoundNext(s, es);
    }
  }

  lemma UnsoundNext(s: State, es: seq<Event>)
    requires Inv(s) && CanRun(s, es) && es != [] && !FreeRemoval(s, es[0])
    ensures !Sound(s, es[..1])
  {
    hide PartitionOf, LevelsOf, Clocks, Waiting, Mutexes, Apply, Enabled, InsideStep, SeekersHeld;
    HeldRemoval(s, es[0]);
    assert es[..1][0] == es[0] && es[..1][1..] == [];
    var t, m := s.holders[es[0].mutex], es[0].mutex;
    CanRunPrefix(s, es, 1);
    assert Inside(s, es[..1], t, m, s.Holds(t, m)) && !After(s, es[..1]).Holds(t, m);
  }

  lemma NobodySeeksAtStart(policy: Policy)
    ensures SeekersHeld(Start(policy)) && forall t, m :: !Start(policy).Holds(t, m)
  {
  }

  /** From the start of the library. */
  lemma SoundFromStart(policy: Policy, es: seq<Event>)
    requires CanRun(Start(policy), es)
    ensures SoundThroughout(Start(policy), es) <==> FreeRemovals(Start(policy), es)
  {
    StartInv(policy);
    NobodySeeksAtStart(policy);
    SoundIffFreeRemovals(Start(policy), es);
  }

  lemma StaysSafe(policy: Policy, es: seq<Event>)
    requires CanRun(Start(policy), es) && FreeRemovals(Start(policy), es)
    ensures Sound(Start(policy), es) && SeekersHeld(After(Start(policy), es))
  {
    hide Inv, FreeRemovals;
    SoundFromStart(policy, es);
    assert es[..|es|] == es;
  }

  /** In such a run a thread is inside exactly when the mutex names it as holder. */
  lemma HolderIsInside(policy: Policy, es: seq<Event>, t: nat, m: nat)
    requires CanRun(Start(policy), es) && FreeRemovals(Start(policy), es) && t != 0
    ensures Inside(Start(policy), es, t, m, false) <==> After(Start(policy), es).Holds(t, m)
  {
    hide Inv, FreeRemovals, Inside;
    StaysSafe(policy, es);
    NobodySeeksAtStart(policy);
  }

  /** In such a run a thread that seeks a mutex is in the lock call for it, joins nobody, and somebody holds it; in
      every run only listed threads wait, or the one that has just given up the processor. */
  lemma SeekersFindHolder(policy: Policy, es: seq<Event>, t: nat)
    requires CanRun(Start(policy), es) && After(Start(policy), es).Created(t)
    ensures var s := After(Start(policy), es); var th := s.At(t);
      && (th.seeking != 0 ==> th.join == 0 && th.locking == th.seeking)
      && (th.seeking != 0 && FreeRemovals(Start(policy), es) ==>
            th.seeking in s.holders && 1 <= s.holders[th.seeking] <= |s.threads|)
      && (th.Blocked() ==> t in s.tcbs || (s.scheduling && t == s.running))
  {
    hide PartitionOf, LevelsOf, Clocks, CanRun, After, FreeRemovals, Sound;
    Reachable(policy, es);
    var s := After(Start(policy), es);
    assert Waits(s.threads[t - 1], t, s.holders) && Listed(s.threads[t - 1], t, s.tcbs, s.running);
    if FreeRemovals(Start(policy), es) {
      StaysSafe(policy, es);
      assert SeeksHeld(s.threads[t - 1], s.holders);
    }
  }
}
