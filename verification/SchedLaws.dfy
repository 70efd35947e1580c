/** What each event leaves of the time, the waits and the queues of every thread. */
module SchedLaws {
  import opened Collections
  import opened SchedState
  import opened SchedInv
  import opened SchedMutex

  // ---- What stays

  /** All threads but `t` are as before. */
  ghost predicate OthersSame(s: State, s': State, t: nat) {
    |s'.threads| == |s.threads| && forall i :: 0 <= i < |s.threads| && i + 1 != t ==> s'.threads[i] == s.threads[i]
  }

  ghost predicate QueuesSame(s: State, s': State) {
    && s'.policy == s.policy && s'.arrival == s.arrival && s'.levels == s.levels && s'.tcbs == s.tcbs
    && s'.ended == s.ended && s'.started == s.started
  }

  ghost predicate MutexesSame(s: State, s': State) {
    s'.mutexes == s.mutexes && s'.holders == s.holders
  }

  /** The thread has used the same time and stands at the same level. */
  ghost predicate UsageSame(th: Thread, th': Thread) {
    && th'.quantums == th.quantums && th'.used == th.used && th'.fully == th.fully && th'.prio == th.prio
    && th'.scheduled == th.scheduled
  }

  /** The thread waits for the same, and is in the same call. */
  ghost predicate WaitsAlike(th: Thread, th': Thread) {
    && th'.join == th.join && th'.seeking == th.seeking && th'.locking == th.locking
    && th'.destroying == th.destroying && th'.joining == th.joining
  }

  /** The same thread runs on, and no time is charged. */
  ghost predicate RunsOn(s: State, s': State) {
    s'.running == s.running && s'.total == s.total && s'.scheduling == s.scheduling && s'.timer == s.timer
  }

  // ---- Charging time

  /** The time goes up by `elapsed`, or to the next whole quantum once that is reached; then, and only then, the quantum
      counts as used up. */
  ghost predicate ChargedFor(th: Thread, th': Thread, elapsed: nat) {
    && th'.used < TIME_QUANTUM
    && th'.Total() == (if th.used + elapsed < TIME_QUANTUM then th.Total() + elapsed
         else (th.Total() / TIME_QUANTUM + 1) * TIME_QUANTUM)
    && (th'.fully <==> th.fully || th.used + elapsed >= TIME_QUANTUM)
    && th'.prio == th.prio && th'.scheduled == th.scheduled
  }

  /** The runner has been charged and the scheduler has control; quantums are counted overall as well. */
  ghost predicate GaveUp(s: State, s': State, elapsed: nat) {
    && s.Created(s.running) && s'.running == s.running && s'.scheduling && s'.timer == s.timer
    && OthersSame(s, s', s.running) && QueuesSame(s, s') && MutexesSame(s, s')
    && ChargedFor(s.At(s.running), s'.threads[s.running - 1], elapsed)
    && s'.total == s.total + if s.At(s.running).used + elapsed >= TIME_QUANTUM then 1 else 0
  }

  lemma YieldLaw(s: State, elapsed: nat)
    requires Inv(s) && Enabled(s, Yield(elapsed))
    ensures var s' := Apply(s, Yield(elapsed));
      GaveUp(s, s', elapsed) && WaitsAlike(s.At(s.running), s'.threads[s.running - 1])
  {
    hide PartitionOf, LevelsOf, Waiting, Mutexes;
    WholeQuantums(s.At(s.running));
  }

  lemma WholeQuantums(th: Thread)
    requires th.used < TIME_QUANTUM
    ensures th.Total() / TIME_QUANTUM == th.quantums
  {
  }

  /** A timer signal charges the rest of the quantum: none of the next one is used. */
  lemma TimerLaw(s: State)
    requires Inv(s) && Enabled(s, Timer)
    ensures var s' := Apply(s, Timer);
      && s'.running == s.running && s'.scheduling && s'.timer == s.timer && s'.total == s.total + 1
      && OthersSame(s, s', s.running) && QueuesSame(s, s') && MutexesSame(s, s')
      && var th, th' := s.At(s.running), s'.threads[s.running - 1];
        && th'.used == 0 && th'.fully && th'.Total() == (th.Total() / TIME_QUANTUM + 1) * TIME_QUANTUM
        && th'.prio == th.prio && th'.scheduled == th.scheduled && WaitsAlike(th, th')
  {
    hide PartitionOf, LevelsOf, Waiting, Mutexes;
    WholeQuantums(s.At(s.running));
  }

  lemma WaitLaw(s: State, t: nat, elapsed: nat)
    requires Inv(s) && Enabled(s, Wait(t, elapsed))
    ensures var s' := Apply(s, Wait(t, elapsed));
      && GaveUp(s, s', elapsed)
      && var th, th' := s.At(s.running), s'.threads[s.running - 1];
        && th'.join == t && th'.joining == Nobody && th'.seeking == th.seeking && th'.locking == th.locking
        && th'.destroying == th.destroying
  {
    hide PartitionOf, LevelsOf, Waiting, Mutexes;
    WholeQuantums(s.At(s.running));
  }

  /** Found held, the mutex is sought, and the runner charged and switched away from. */
  ghost predicate WaitsForMutex(s: State, s': State, m: nat, elapsed: nat) {
    && GaveUp(s, s', elapsed)
    && var th, th' := s.At(s.running), s'.threads[s.running - 1];
      && th'.seeking == th'.locking == m
      && th'.join == th.join && th'.destroying == th.destroying && th'.joining == th.joining
  }

  /** Found free, the mutex is the runner's, which runs on. */
  ghost predicate TakesMutex(s: State, s': State, m: nat) {
    && s.Created(s.running) && OthersSame(s, s', s.running)
    && RunsOn(s, s') && QueuesSame(s, s') && s'.mutexes == s.mutexes && s'.holders == s.holders[m := s.running]
    && var th, th' := s.At(s.running), s'.threads[s.running - 1];
      && UsageSame(th, th') && th'.locking == 0 && th'.seeking == th.seeking
      && th'.join == th.join && th'.destroying == th.destroying && th'.joining == th.joining
  }

  /** A lock call that finds the mutex held is charged like a yield; one that finds it free is not charged. */
  lemma LockLaw(s: State, m: nat, elapsed: nat)
    requires m in s.holders && Inv(s) && Enabled(s, Lock(m, elapsed))
    ensures var s' := Apply(s, Lock(m, elapsed));
      if s.holders[m] != 0 then WaitsForMutex(s, s', m, elapsed) else TakesMutex(s, s', m)
  {
    hide PartitionOf, LevelsOf, Waiting, Mutexes;
    WholeQuantums(s.At(s.running));
  }

  // ---- Calls that charge nothing

  /** A new thread has used nothing, waits for nothing, stands at the top level, and comes last among the arrivals. */
  lemma CreateLaw(s: State)
    requires Inv(s) && Enabled(s, Create)
    ensures var s' := Apply(s, Create); var n := |s.threads|;
      && RunsOn(s, s') && MutexesSame(s, s') && |s'.threads| == n + 1 && s'.threads[..n] == s.threads
      && s'.arrival == s.arrival + [n + 1] && s'.levels == s.levels && s'.tcbs == s.tcbs && s'.ended == s.ended
      && s'.policy == s.policy && s'.started == s.started
      && var th := s'.threads[n];
        && th.Total() == 0 && !th.Blocked() && !th.fully && !th.scheduled && th.prio == 0
        && th.locking == th.destroying == 0 && th.joining == Nobody
  {
    hide PartitionOf, LevelsOf, Waiting, Mutexes, Clocks;
  }

  /** The test of a join call records its target unless it has ended, and does nothing else. */
  lemma JoinLaw(s: State, t: nat)
    requires Inv(s) && Enabled(s, Join(t))
    ensures var s' := Apply(s, Join(t));
      && s.Created(s.running) && RunsOn(s, s') && QueuesSame(s, s') && MutexesSame(s, s')
           && OthersSame(s, s', s.running)
      && var th, th' := s.At(s.running), s'.threads[s.running - 1];
        && UsageSame(th, th') && th'.joining == (if t in s.ended then Nobody else Of(t))
        && th'.join == th.join && th'.seeking == th.seeking && th'.locking == th.locking
        && th'.destroying == th.destroying
  {
    hide PartitionOf, LevelsOf, Waiting, Mutexes, Clocks;
  }

  lemma InitMutexLaw(s: State)
    requires Inv(s) && Enabled(s, InitMutex)
    ensures var s' := Apply(s, InitMutex);
      && RunsOn(s, s') && QueuesSame(s, s') && s'.threads == s.threads
      && s'.mutexes !in s.holders && s'.mutexes > s.mutexes && s'.holders == s.holders[s'.mutexes := 0]
  {
    hide PartitionOf, LevelsOf, Waiting, Clocks;
  }

  /** After a release the threads that sought the mutex seek it no more, and nothing else about any thread changes. */
  ghost predicate Released(s: State, s': State, m: nat) {
    && RunsOn(s, s') && QueuesSame(s, s') && s'.mutexes == s.mutexes && s'.holders == s.holders[m := 0]
    && |s'.threads| == |s.threads|
    && forall i :: 0 <= i < |s.threads| ==>
         var th, th' := s.threads[i], s'.threads[i];
         && UsageSame(th, th') && th'.seeking == (if th.seeking == m then 0 else th.seeking)
         && th'.join == th.join && th'.locking == th.locking && th'.joining == th.joining
  }

  lemma UnlockLaw(s: State, m: nat)
    requires Inv(s) && Enabled(s, Unlock(m))
    ensures var s' := Apply(s, Unlock(m));
      Released(s, s', m) && forall i :: 0 <= i < |s.threads| ==> s'.threads[i].destroying == s.threads[i].destroying
  {
    hide PartitionOf, LevelsOf, Clocks, Sorted;
    SeekersListed(s, m);
  }

  /** A release looks through the list of threads, and whoever seeks a mutex while another runs is on it. */
  lemma SeekersListed(s: State, m: nat)
    requires Inv(s) && s.InUserCode() && s.Holds(s.running, m)
    ensures m != 0 && forall i :: 0 <= i < |s.threads| && s.threads[i].seeking == m ==> i + 1 in s.tcbs
  {
    hide PartitionOf, LevelsOf, Clocks, Sorted;
    forall i | 0 <= i < |s.threads| && s.threads[i].seeking == m ensures i + 1 in s.tcbs {
      assert Listed(s.threads[i], i + 1, s.tcbs, s.running);
    }
  }

  /** The runner, and no other, has released mutex `m` in a destroy call. */
  ghost predicate NotedBy(s: State, s': State, m: nat) {
    && |s'.threads| == |s.threads|
    && forall i :: 0 <= i < |s.threads| ==>
         s'.threads[i].destroying == if i + 1 == s.running then m else s.threads[i].destroying
  }

  lemma DestroyLaw(s: State, m: nat)
    requires m in s.holders && Inv(s) && Enabled(s, Destroy(m))
    ensures var s' := Apply(s, Destroy(m));
      if s.holders[m] == 0 then
        && RunsOn(s, s') && QueuesSame(s, s') && s'.threads == s.threads
        && s'.mutexes == s.mutexes && s'.holders == s.holders - {m}
      else Released(s, s', m) && NotedBy(s, s', m)
  {
    hide PartitionOf, LevelsOf, Clocks, Sorted;
    if s.holders[m] != 0 {
      SeekersListed(s, m);
    }
  }

  lemma RemoveLaw(s: State, m: nat)
    requires Inv(s) && Enabled(s, Remove(m))
    ensures var s' := Apply(s, Remove(m));
      && RunsOn(s, s') && QueuesSame(s, s') && OthersSame(s, s', s.running)
      && s'.mutexes == s.mutexes && s'.holders == s.holders - {m}
      && var th, th' := s.At(s.running), s'.threads[s.running - 1];
        && UsageSame(th, th') && th'.destroying == 0 && th'.join == th.join && th'.seeking == th.seeking
        && th'.locking == th.locking && th'.joining == th.joining
  {
    hide PartitionOf, LevelsOf, Waiting, Mutexes, Clocks;
  }

  /** The thread comes first among the ended ones and off the list; the others on it keep their order. Who waited for it
      waits no more, and nothing else about any thread changes. */
  lemma ExitLaw(s: State)
    requires Inv(s) && Enabled(s, Exit)
    ensures var s' := Apply(s, Exit);
      && s'.running == 0 && s'.scheduling && s'.total == s.total && s'.timer == s.timer && MutexesSame(s, s')
      && s'.policy == s.policy && s'.arrival == s.arrival && s'.levels == s.levels && s'.started == s.started
      && s'.ended == [s.running] + s.ended && s.running !in s'.tcbs && LessOne(s.tcbs, s.running, s'.tcbs)
      && |s'.threads| == |s.threads|
      && forall i :: 0 <= i < |s.threads| ==>
           var th, th' := s.threads[i], s'.threads[i];
           && UsageSame(th, th') && th'.join == (if th.join == s.running then 0 else th.join)
           && th'.seeking == th.seeking && th'.locking == th.locking && th'.destroying == th.destroying
           && th'.joining == th.joining
  {
    hide PartitionOf, LevelsOf, Clocks, Sorted, Without;
    JoinersListed(s);
    RunnerOff(s);
  }

  /** Is `q'` the list `q` without one occurrence of `t`, or `q` if it has none? */
  ghost predicate LessOne(q: seq<nat>, t: nat, q': seq<nat>) {
    if t in q then exists k :: 0 <= k < |q| && q[k] == t && q' == q[..k] + q[k + 1..] else q' == q
  }

  lemma JoinersListed(s: State)
    requires Inv(s) && Enabled(s, Exit)
    ensures forall i :: 0 <= i < |s.threads| && s.threads[i].join == s.running ==> i + 1 in Without(s.tcbs, s.running)
  {
    hide PartitionOf, LevelsOf, Clocks, Sorted, Without;
    forall i | 0 <= i < |s.threads| && s.threads[i].join == s.running ensures i + 1 in Without(s.tcbs, s.running) {
      assert Listed(s.threads[i], i + 1, s.tcbs, s.running);
      OthersStay(s.tcbs, s.running);
    }
  }

  lemma RunnerOff(s: State)
    requires Inv(s) && Enabled(s, Exit)
    ensures s.running !in Without(s.tcbs, s.running) && LessOne(s.tcbs, s.running, Without(s.tcbs, s.running))
  {
    hide LevelsOf, Clocks, Waiting, Mutexes, Without;
    ExitKeeps(s);
    Places(ExitStep(s));
    assert s.running in ExitStep(s).ended;
    WithoutFirst(s.tcbs, s.running);
  }

  lemma WithoutFirst(q: seq<nat>, t: nat)
    ensures LessOne(q, t, Without(q, t))
  {
    hide Without;
    if t in q {
      var k := FirstOf(q, t);
      WithoutAt(q, k);
    }
  }

  lemma {:induction false} FirstOf(q: seq<nat>, t: nat) returns (k: nat)
    requires t in q
    ensures k < |q| && q[k] == t && forall i :: 0 <= i < k ==> q[i] != t
  {
    if q[0] == t {
      k := 0;
    } else {
      k := FirstOf(q[1..], t);
      assert forall i :: 1 <= i < k + 1 ==> q[i] == q[1..][i - 1];
      k := k + 1;
    }
  }

  lemma {:induction false} ReversedLaw(q: seq<nat>)
    ensures |Reversed(q)| == |q| && forall i :: 0 <= i < |q| ==> Reversed(q)[i] == q[|q| - 1 - i]
  {
    if q != [] {
      ReversedLaw(q[1..]);
    }
  }

  // ---- A pass of the feedback scheduler

  /** The level at which the thread that ran is queued: one lower if it used up its quantum. */
  function NewLevel(th: Thread): nat {
    if th.fully && th.prio < QUEUE_LEVELS - 1 then th.prio + 1 else th.prio
  }

  /** What level `l` has before any boost: its threads, then the arrivals at the top, then the thread that ran. */
  ghost function Refilled(s: State, l: nat): seq<nat>
    requires l < |s.levels|
  {
    s.levels[l] + (if l == 0 then s.arrival else [])
      + (if s.Created(s.running) && NewLevel(s.At(s.running)) == l then [s.running] else [])
  }

  /** Does thread `t` stand below the top level when the boost comes? */
  ghost predicate StandsBelow(s: State, t: nat)
    requires |s.levels| == QUEUE_LEVELS
  {
    t in Refilled(s, 1) || t in Refilled(s, 2) || t in Refilled(s, 3)
  }

  /** The queues that the scheduler chooses from: after 64 quantums everybody is at the top, level after level. */
  ghost predicate QueuesReady(s: State, q: seq<seq<nat>>)
    requires |s.levels| == QUEUE_LEVELS
  {
    && |q| == QUEUE_LEVELS
    && if s.total < DECAY then forall l :: 0 <= l < QUEUE_LEVELS ==> q[l] == Refilled(s, l)
       else
         && q[0] == Refilled(s, 0) + Refilled(s, 1) + Refilled(s, 2) + Refilled(s, 3)
         && q[1] == q[2] == q[3] == []
  }

  /** What the thread has left of its quantum, and where it stands. A boost gives a thread from below a whole quantum
      at the top; else the thread that ran has one if it used up its last. Nothing else changes. */
  ghost predicate UsageReady(s: State, t: nat, th: Thread, th': Thread)
    requires |s.levels| == QUEUE_LEVELS
  {
    && th'.quantums == th.quantums && th'.scheduled == th.scheduled && WaitsAlike(th, th')
    && if s.total >= DECAY && StandsBelow(s, t) then th'.used == 0 && !th'.fully && th'.prio == 0
       else if t == s.running then
         !th'.fully && th'.prio == NewLevel(th) && th'.used == if th.fully then 0 else th.used
       else UsageSame(th, th')
  }

  lemma ReadyLaw(s: State)
    requires Inv(s) && s.policy == Mlfq && s.scheduling
    ensures var r := Ready(s);
      && QueuesReady(s, r.levels) && r.arrival == [] && r.running == 0 && |r.threads| == |s.threads|
      && (forall i :: 0 <= i < |s.threads| ==> UsageReady(s, i + 1, s.threads[i], r.threads[i]))
      && r.total == (if s.total < DECAY then s.total else s.total - DECAY)
      && r.ended == s.ended && MutexesSame(s, r) && r.policy == s.policy && r.scheduling && r.timer == s.timer
      && r.tcbs == Reversed(s.arrival) + (if s.started then s.tcbs else [MAIN])
  {
    hide PartitionOf, Waiting, Mutexes, Reversed, LevelsOf, InsertByUsage;
    EnrollIs(s);
    Places(s);
    RunnerInRange(s);
    var e := Enroll(s);
    var q := Requeue(Admit(e));
    RequeuedIs(s);
    if s.total >= DECAY {
      Below(s, q);
    }
  }

  lemma EnrollIs(s: State)
    requires Inv(s) && s.policy == Mlfq && s.scheduling
    ensures Enroll(s) == s.(tcbs := if s.started then s.tcbs else [MAIN], started := true)
  {
    hide LevelsOf, Waiting, Mutexes;
    EnrollKeeps(s);
  }

  lemma RunnerInRange(s: State)
    requires Inv(s)
    ensures s.Created(s.running) ==> s.At(s.running).prio < QUEUE_LEVELS && s.At(s.running).used < TIME_QUANTUM
    ensures s.running != 0 ==> s.Created(s.running)
    ensures s.policy == Mlfq ==> s.total <= DECAY
  {
    hide Waiting, Mutexes;
    Places(s);
  }

  lemma RequeuedIs(s: State)
    requires Inv(s) && s.policy == Mlfq && s.scheduling
    ensures var r := Requeue(Admit(s.(tcbs := if s.started then s.tcbs else [MAIN], started := true)));
      && |r.levels| == QUEUE_LEVELS && (forall l :: 0 <= l < QUEUE_LEVELS ==> r.levels[l] == Refilled(s, l))
      && r == s.(threads := r.threads, levels := r.levels, arrival := [], running := 0, started := true,
                 tcbs := Reversed(s.arrival) + (if s.started then s.tcbs else [MAIN]))
      && |r.threads| == |s.threads|
      && forall i :: 0 <= i < |s.threads| ==>
           var th, th' := s.threads[i], r.threads[i];
           if i + 1 == s.running then
             && th'.quantums == th.quantums && th'.scheduled == th.scheduled && WaitsAlike(th, th')
             && !th'.fully && th'.prio == NewLevel(th) && th'.used == (if th.fully then 0 else th.used)
           else th' == th
  {
    hide PartitionOf, Waiting, Mutexes, Reversed, LevelsOf, Clocks;
    RunnerInRange(s);
  }

  /** Those that a boost finds below the top are those queued there. */
  lemma Below(s: State, q: State)
    requires |s.levels| == |q.levels| == QUEUE_LEVELS
    requires forall l :: 0 <= l < QUEUE_LEVELS ==> q.levels[l] == Refilled(s, l)
    ensures forall t :: t in q.levels[1] + q.levels[2] + q.levels[3] <==> StandsBelow(s, t)
    ensures q.levels[0] + (q.levels[1] + q.levels[2] + q.levels[3]) ==
      Refilled(s, 0) + Refilled(s, 1) + Refilled(s, 2) + Refilled(s, 3)
  {
    hide Refilled;
  }

  /** Are all the threads in `q` blocked? */
  ghost predicate NobodyAble(threads: seq<Thread>, q: seq<nat>) {
    forall i :: 0 <= i < |q| ==> 1 <= q[i] <= |threads| && threads[q[i] - 1].Blocked()
  }

  /** Is `t` the first thread of `q` that is not blocked, and `q'` the rest with those before it put behind? */
  ghost predicate PickedFrom(threads: seq<Thread>, q: seq<nat>, t: nat, q': seq<nat>) {
    exists k :: 0 <= k < |q| && q[k] == t && 1 <= t <= |threads| && !threads[t - 1].Blocked()
      && NobodyAble(threads, q[..k]) && q' == q[k + 1..] + q[..k]
  }

  /** The highest level with a thread that is not blocked gives the first of those; no other level changes. */
  ghost predicate ChosenFrom(threads: seq<Thread>, levels: seq<seq<nat>>, l: nat, t: nat, levels': seq<seq<nat>>) {
    && l < |levels| == |levels'| && PickedFrom(threads, levels[l], t, levels'[l])
    && (forall i :: 0 <= i < l ==> NobodyAble(threads, levels[i]))
    && (forall i :: 0 <= i < |levels| && i != l ==> levels'[i] == levels[i])
  }

  lemma ChooseLaw(s: State) returns (l: nat)
    requires Inv(s) && s.policy == Mlfq && s.running == 0 && s.started && s.arrival == [] && s.scheduling
    requires exists t :: s.Live(t) && !s.At(t).Blocked()
    ensures var s' := Choose(s);
      s' == s.(running := s'.running, levels := s'.levels) && ChosenFrom(s.threads, s.levels, l, s'.running, s'.levels)
  {
    hide PartitionOf, LevelsOf, Waiting, Mutexes, Clocks, FirstUnblocked;
    ChooseFinds(s);
    LevelsKnown(s);
    l := PickLevel(s.threads, s.levels, 0);
    PickedLevel(s.threads, s.levels, 0);
    FirstIs(s.threads, s.levels[l]);
  }

  lemma {:induction false} PickedLevel(threads: seq<Thread>, levels: seq<seq<nat>>, from: nat)
    requires from <= |levels| && forall l :: 0 <= l < |levels| ==> Known(|threads|, levels[l])
    ensures forall i :: from <= i < PickLevel(threads, levels, from) ==> NobodyAble(threads, levels[i])
    decreases |levels| - from
  {
    hide FirstUnblocked;
    if from < |levels| {
      FirstIs(threads, levels[from]);
      if FirstUnblocked(threads, levels[from]) == |levels[from]| {
        PickedLevel(threads, levels, from + 1);
      }
    }
  }

  // ---- Dispatching

  /** Is there a listed thread other than `t` that does not wait for another to end? */
  ghost predicate AnotherMayRun(threads: seq<Thread>, tcbs: seq<nat>, t: nat) {
    exists i :: 0 <= i < |tcbs| && tcbs[i] != t && 1 <= tcbs[i] <= |threads| && threads[tcbs[i] - 1].join == 0
  }

  /** The dispatched thread is marked as scheduled, and the timer armed with what is left of its quantum if another
      listed thread may run; nothing else changes. */
  ghost predicate DispatchedTo(c: State, s': State) {
    && c.Created(c.running) && s'.running == c.running && !s'.scheduling
    && OthersSame(c, s', c.running) && QueuesSame(c, s') && MutexesSame(c, s') && s'.total == c.total
    && var th, th' := c.At(c.running), s'.threads[c.running - 1];
      && th' == th.(scheduled := th'.scheduled) && th'.scheduled
      && s'.timer == if AnotherMayRun(s'.threads, s'.tcbs, s'.running) then TIME_QUANTUM - th.used else 0
  }

  lemma DispatchLaw(c: State)
    requires c.Created(c.running) && c.At(c.running).used < TIME_QUANTUM
    ensures DispatchedTo(c, Dispatch(c))
  {
    var s' := Dispatch(c);
    assert forall i :: 0 <= i < |c.threads| ==> s'.threads[i].join == c.threads[i].join;
  }

  /** A pass of the feedback scheduler, from what there was before: the queues are refilled, a thread is chosen, and it
      is dispatched. */
  lemma FeedbackPass(s: State) returns (r: State, c: State, l: nat)
    requires Inv(s) && s.policy == Mlfq && Enabled(s, Pass)
    ensures |s.levels| == QUEUE_LEVELS && QueuesReady(s, r.levels)
    ensures |r.threads| == |s.threads|
    ensures forall i :: 0 <= i < |s.threads| ==> UsageReady(s, i + 1, s.threads[i], r.threads[i])
    ensures r.total == (if s.total < DECAY then s.total else s.total - DECAY)
    ensures r.tcbs == Reversed(s.arrival) + (if s.started then s.tcbs else [MAIN])
    ensures r.arrival == [] && r.ended == s.ended && MutexesSame(s, r) && r.policy == s.policy && r.started
    ensures ChosenFrom(r.threads, r.levels, l, c.running, c.levels) && c == r.(running := c.running, levels := c.levels)
    ensures DispatchedTo(c, Apply(s, Pass))
  {
    hide PartitionOf, LevelsOf, Waiting, Mutexes, Clocks, Ready, Choose, Dispatch, SameWaits, QueuesReady, UsageReady,
      ChosenFrom, DispatchedTo, MutexesSame;
    ReadyLaw(s);
    ReadyKeeps(s);
    r := Ready(s);
    var t :| s.Live(t) && !s.At(t).Blocked();
    LiveSame(s, r, t);
    ChooseKeeps(r);
    l := ChooseLaw(r);
    c := Choose(r);
    RunnerInRange(c);
    DispatchLaw(c);
  }

  // ---- A pass of the shortest-job scheduler

  /** Does `a` stand before `b` in `q`? */
  ghost predicate Before(q: seq<nat>, a: nat, b: nat) {
    exists i, j :: 0 <= i < j < |q| && q[i] == a && q[j] == b
  }

  /** Whoever comes in stands before every thread that has used at least as much, and behind every thread that has used
      less; the others keep their order. */
  ghost predicate CameIn(threads: seq<Thread>, q: seq<nat>, t: nat, q': seq<nat>) {
    exists k :: 0 <= k <= |q| && q' == q[..k] + [t] + q[k..]
      && (forall i :: k <= i < |q| ==> NoMore(threads, t, q[i]))
      && (forall i :: 0 <= i < k ==> 1 <= q[i] <= |threads| && 1 <= t <= |threads|
                                     && threads[q[i] - 1].Total() < threads[t - 1].Total())
  }

  lemma InsertLaw(threads: seq<Thread>, q: seq<nat>, t: nat)
    requires Sorted(threads, q) && 1 <= t <= |threads| && forall i :: 0 <= i < |threads| ==>
      threads[i].used < TIME_QUANTUM
    ensures CameIn(threads, q, t, InsertByUsage(threads, q, t))
  {
    hide Position, Thread.AtMost, Thread.Total;
    var k := Position(threads, q, threads[t - 1]);
    InsertPlace(threads, q, t);
    forall i | k <= i < |q| ensures NoMore(threads, t, q[i]) {
      assert i > k ==> NoMore(threads, q[k], q[i]);
      Transitive(threads, t, q[k], q[i]);
    }
  }

  lemma {:induction false} InsertPlace(threads: seq<Thread>, q: seq<nat>, t: nat)
    requires Known(|threads|, q) && 1 <= t <= |threads|
    requires forall i :: 0 <= i < |threads| ==> threads[i].used < TIME_QUANTUM
    ensures var k := Position(threads, q, threads[t - 1]);
      && (k < |q| ==> NoMore(threads, t, q[k]))
      && forall i :: 0 <= i < k ==> 1 <= q[i] <= |threads| && threads[q[i] - 1].Total() < threads[t - 1].Total()
  {
    if q != [] && !threads[t - 1].AtMost(threads[q[0] - 1]) {
      assert Known(|threads|, q[1..]);
      InsertPlace(threads, q[1..], t);
    }
  }

  /** They come in one after another. */
  ghost predicate AllCameIn(threads: seq<Thread>, q: seq<nat>, ts: seq<nat>, q': seq<nat>)
    decreases |ts|
  {
    if ts == [] then q' == q
    else exists q1 :: CameIn(threads, q, ts[0], q1) && AllCameIn(threads, q1, ts[1..], q')
  }

  lemma {:induction false} InsertAllLaw(threads: seq<Thread>, q: seq<nat>, ts: seq<nat>)
    requires Sorted(threads, q) && Known(|threads|, ts) && forall i :: 0 <= i < |threads| ==>
      threads[i].used < TIME_QUANTUM
    ensures AllCameIn(threads, q, ts, InsertAll(threads, q, ts)) && Sorted(threads, InsertAll(threads, q, ts))
    decreases |ts|
  {
    hide Sorted, CameIn, InsertByUsage;
    if ts != [] {
      var q1 := InsertByUsage(threads, q, ts[0]);
      InsertKeepsSorted(threads, q, ts[0]);
      InsertLaw(threads, q, ts[0]);
      InsertAllLaw(threads, q1, ts[1..]);
      assert CameIn(threads, q, ts[0], q1) && AllCameIn(threads, q1, ts[1..], InsertAll(threads, q1, ts[1..]));
    }
  }

  /** The list that the shortest-job scheduler chooses from: the arrivals come in first, and the thread that ran after
      them. */
  ghost predicate ListReady(s: State, q1: seq<nat>, q: seq<nat>) {
    && AllCameIn(s.threads, s.tcbs, s.arrival, q1)
    && if s.running == 0 then q == q1 else CameIn(s.threads, q1, s.running, q)
  }

  lemma GatheredLaw(s: State) returns (q1: seq<nat>)
    requires Inv(s) && s.policy == Psjf && s.scheduling
    ensures Shaped(s)
    ensures var g := Gathered(s);
      g == s.(arrival := [], tcbs := g.tcbs, running := 0) && ListReady(s, q1, g.tcbs)
  {
    hide PartitionOf, LevelsOf, Waiting, Mutexes, Sorted, AllCameIn, CameIn, InsertByUsage, InsertAll;
    RunnerInRange(s);
    AllWithin(s);
    InsertAllLaw(s.threads, s.tcbs, s.arrival);
    q1 := InsertAll(s.threads, s.tcbs, s.arrival);
    if s.running != 0 {
      InsertLaw(s.threads, q1, s.running);
    }
  }

  lemma AllWithin(s: State)
    requires Inv(s)
    ensures forall i :: 0 <= i < |s.threads| ==> s.threads[i].used < TIME_QUANTUM
  {
  }

  /** So the thread that ran stands before every arrival that has not used less. */
  lemma RunnerBeforeArrivals(s: State, t: nat)
    requires Inv(s) && s.policy == Psjf && s.scheduling && s.running != 0 && t in s.arrival
    requires s.Created(s.running) && s.Created(t) && s.At(s.running).Total() <= s.At(t).Total()
    ensures Before(Gathered(s).tcbs, s.running, t)
  {
    hide Inv, AllCameIn, Gathered, Thread.Total, CameIn, Before;
    var q1 := GatheredLaw(s);
    AllListed(s.threads, s.tcbs, s.arrival, q1);
    StandsBefore(s.threads, q1, s.running, Gathered(s).tcbs, t);
  }

  /** Whoever comes in stands before those that have not used less. */
  lemma StandsBefore(threads: seq<Thread>, q: seq<nat>, t: nat, q': seq<nat>, u: nat)
    requires CameIn(threads, q, t, q') && u in q && 1 <= t <= |threads| && 1 <= u <= |threads|
    requires threads[t - 1].Total() <= threads[u - 1].Total()
    ensures Before(q', t, u)
  {
    hide Thread.Total, NoMore;
    var k :| 0 <= k <= |q| && q' == q[..k] + [t] + q[k..]
      && forall i :: 0 <= i < k ==> 1 <= q[i] <= |threads| && 1 <= t <= |threads|
                                    && threads[q[i] - 1].Total() < threads[t - 1].Total();
    var j :| 0 <= j < |q| && q[j] == u;
    assert j >= k;
    assert q'[k] == t && q'[j + 1] == u;
  }

  lemma {:induction false} AllListed(threads: seq<Thread>, q: seq<nat>, ts: seq<nat>, q': seq<nat>)
    requires AllCameIn(threads, q, ts, q')
    ensures forall t :: t in q || t in ts ==> t in q'
    decreases |ts|
  {
    if ts != [] {
      var q1 :| CameIn(threads, q, ts[0], q1) && AllCameIn(threads, q1, ts[1..], q');
      AllListed(threads, q1, ts[1..], q');
      forall t | t in q || t in ts ensures t in q' {
        assert t in q ==> t in q1;
        assert t in ts ==> t == ts[0] || t in ts[1..];
      }
    }
  }

  /** A pass of the shortest-job scheduler, from what there was before: the list is refilled, its first thread that is
      not blocked taken off, and dispatched. */
  lemma ShortestPass(s: State) returns (q1: seq<nat>, q: seq<nat>, c: State)
    requires Inv(s) && s.policy == Psjf && Enabled(s, Pass)
    ensures ListReady(s, q1, q)
    ensures c == s.(arrival := [], tcbs := c.tcbs, running := c.running)
    ensures exists k :: 0 <= k < |q| && q[k] == c.running && s.Created(q[k]) && !s.At(q[k]).Blocked()
              && NobodyAble(s.threads, q[..k])
    ensures c.running in q && c.running !in c.tcbs && LessOne(q, c.running, c.tcbs)
    ensures DispatchedTo(c, Apply(s, Pass))
  {
    hide PartitionOf, LevelsOf, Waiting, Mutexes, Clocks, Gathered, Dispatch, SameWaits, ListReady, DispatchedTo,
      Sorted, FirstUnblocked, Without;
    q1 := GatheredLaw(s);
    GatheredKeeps(s);
    var g := Gathered(s);
    q := g.tcbs;
    var t :| s.Live(t) && !s.At(t).Blocked();
    LiveSame(s, g, t);
    TakenOff(g);
    c := Take(g);
    DispatchLaw(c);
  }

  lemma TakenOff(g: State)
    requires Inv(g) && g.policy == Psjf && g.scheduling && g.running == 0 && g.arrival == []
    requires exists t :: g.Live(t) && !g.At(t).Blocked()
    ensures var c := Take(g);
      && c == g.(tcbs := c.tcbs, running := c.running)
      && c.Created(c.running) && c.At(c.running).used < TIME_QUANTUM
      && (exists k :: 0 <= k < |g.tcbs| && g.tcbs[k] == c.running && g.Created(g.tcbs[k])
                      && !g.At(g.tcbs[k]).Blocked() && NobodyAble(g.threads, g.tcbs[..k]))
      && c.running in g.tcbs && c.running !in c.tcbs && LessOne(g.tcbs, c.running, c.tcbs)
  {
    hide PartitionOf, LevelsOf, Waiting, Mutexes, Without, FirstUnblocked, Sorted;
    TakeIsLeast(g);
    TakeKeeps(g);
    Places(g);
    ListedKnown(g);
    FirstIs(g.threads, g.tcbs);
    WithoutFirst(g.tcbs, Take(g).running);
    Places(Take(g));
    AllWithin(g);
    var k := FirstUnblocked(g.threads, g.tcbs);
    assert NobodyAble(g.threads, g.tcbs[..k]);
  }

  lemma ListedKnown(g: State)
    requires Inv(g) && g.policy == Psjf
    ensures Known(|g.threads|, g.tcbs)
  {
    hide PartitionOf, LevelsOf, Waiting, Mutexes, Clocks;
  }
}
