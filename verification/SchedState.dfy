/** The user-level thread library as a state machine: what the scheduler knows, and what each library
    call, each timer signal, each termination and each scheduler pass makes of it. */
module SchedState {
  import opened Collections

  const MAIN := 1
  const QUEUE_LEVELS := 4
  const TIME_QUANTUM := 10000
  /** After this many quantums every thread is boosted. */
  const DECAY := 64

  datatype Policy = Psjf | Mlfq

  /** Whom a join call has found not to have ended, and does not wait for yet. */
  datatype Target = Nobody | Of(thread: nat)

  /** A thread control block. `join` and `seeking` are 0 unless the thread waits for that thread or mutex. `locking` is
      the mutex whose lock call the thread has entered and not left, or 0. `destroying` is the mutex that the thread
      has released in a destroy call and not yet taken off the list, or 0. `joining` is the thread that a join call has
      tested, if it has come no further. */
  datatype Thread = Thread(join: nat, seeking: nat, quantums: nat, used: nat, fully: bool, prio: nat, scheduled: bool,
                           locking: nat, destroying: nat, joining: Target)
  {
    predicate Blocked() { join != 0 || seeking != 0 }

    /** Has it used no more than `other`, whole quantums first? */
    predicate AtMost(other: Thread) {
      quantums < other.quantums || (quantums == other.quantums && used <= other.used)
    }

    /** All the time it has used. */
    function Total(): nat { quantums * TIME_QUANTUM + used }
  }

  const NEWBORN := Thread(0, 0, 0, 0, false, 0, false, 0, 0, Nobody)

  /** Thread `t` is `threads[t - 1]`; ids are given out in order, and 0 is nobody. The lists hold ids.
      `holders` has every initialised mutex, with 0 where nobody holds it. `scheduling` tells whether the scheduler
      has control; `started` whether it has ever run. `timer` is the time the armed timer leaves, 0 if none is. */
  datatype State = State(policy: Policy, threads: seq<Thread>, arrival: seq<nat>, levels: seq<seq<nat>>, tcbs: seq<nat>,
                         ended: seq<nat>, running: nat, total: nat, mutexes: nat, holders: map<nat, nat>,
                         started: bool, scheduling: bool, timer: nat)
  {
    predicate Created(t: nat) { 1 <= t <= |threads| }

    function At(t: nat): Thread
      requires Created(t)
    {
      threads[t - 1]
    }

    predicate Live(t: nat) { Created(t) && t !in ended }

    function With(t: nat, th: Thread): State
      requires Created(t)
    {
      this.(threads := threads[t - 1 := th])
    }

    predicate Holds(t: nat, m: nat) { m in holders && holders[m] == t }

    /** Does the running thread execute its own code, outside of every library call? */
    predicate InUserCode() {
      !scheduling && Created(running) && At(running).locking == 0 && At(running).destroying == 0
      && At(running).joining == Nobody
    }
  }

  function Start(policy: Policy): State {
    State(policy, [NEWBORN], [], [[], [], [], []], [], [], MAIN, 0, 0, map[], false, false, 0)
  }

  // ---- What a thread does

  datatype Event =
    | Create
    | Yield(elapsed: nat)
    | Timer
    | Join(target: nat)
    | Wait(target: nat, elapsed: nat)
    | InitMutex
    | Lock(mutex: nat, elapsed: nat)
    | Unlock(mutex: nat)
    | Destroy(mutex: nat)
    | Remove(mutex: nat)
    | Exit
    | Pass

  /** The thread after giving up the processor, having run for `elapsed` microseconds. */
  function Yielded(th: Thread, elapsed: nat): Thread {
    if th.used + elapsed >= TIME_QUANTUM then th.(fully := true, used := 0, quantums := th.quantums + 1)
    else th.(used := th.used + elapsed)
  }

  function Ticks(th: Thread, elapsed: nat): nat {
    if th.used + elapsed >= TIME_QUANTUM then 1 else 0
  }

  function YieldStep(s: State, elapsed: nat): State
    requires s.Created(s.running)
  {
    var th := s.At(s.running);
    s.With(s.running, Yielded(th, elapsed)).(total := s.total + Ticks(th, elapsed), scheduling := true)
  }

  function TimerStep(s: State): State
    requires s.Created(s.running)
  {
    var th := s.At(s.running);
    s.With(s.running, th.(fully := true, quantums := th.quantums + 1, used := 0))
      .(total := s.total + 1, scheduling := true)
  }

  /** The threads among `ts` that seek mutex `m` seek it no more. */
  function Broadcast(threads: seq<Thread>, ts: seq<nat>, m: nat): (r: seq<Thread>)
    ensures |r| == |threads|
  {
    seq(|threads|, i requires 0 <= i < |threads| =>
      if i + 1 in ts && threads[i].seeking == m then threads[i].(seeking := 0) else threads[i])
  }

  /** The threads among `ts` that wait for `t` to end wait no more. */
  function Alert(threads: seq<Thread>, ts: seq<nat>, t: nat): (r: seq<Thread>)
    ensures |r| == |threads|
  {
    seq(|threads|, i requires 0 <= i < |threads| =>
      if i + 1 in ts && threads[i].join == t then threads[i].(join := 0) else threads[i])
  }

  /** A join call looks for an ended thread with the timer masked, and lifts the mask before it waits. */
  function TestStep(s: State, t: nat): State
    requires s.Created(s.running)
  {
    if t in s.ended then s else s.With(s.running, s.At(s.running).(joining := Of(t)))
  }

  /** The wait that the join call then does, whatever has happened in between. */
  function WaitStep(s: State, t: nat, elapsed: nat): State
    requires s.Created(s.running)
  {
    YieldStep(s.With(s.running, s.At(s.running).(join := t, joining := Nobody)), elapsed)
  }

  /** One round of the lock call's loop. */
  function LockStep(s: State, m: nat, elapsed: nat): State
    requires s.Created(s.running) && m in s.holders
  {
    var th := s.At(s.running);
    if s.holders[m] == 0 then s.With(s.running, th.(locking := 0)).(holders := s.holders[m := s.running])
    else YieldStep(s.With(s.running, th.(seeking := m, locking := m)), elapsed)
  }

  function UnlockStep(s: State, m: nat): State {
    s.(holders := s.holders[m := 0], threads := Broadcast(s.threads, s.tcbs, m))
  }

  function RemoveMutex(s: State, m: nat): State {
    s.(holders := s.holders - {m})
  }

  /** A free mutex is taken off the list at once. A held one is released first, and that lifts the mask of the timer:
      the removal is a step of its own. */
  function DestroyStep(s: State, m: nat): State
    requires s.Created(s.running)
  {
    if s.Holds(0, m) then RemoveMutex(s, m)
    else
      var s' := UnlockStep(s, m);
      s'.With(s.running, s'.At(s.running).(destroying := m))
  }

  /** The removal that a destroy call left to do. */
  function RemoveStep(s: State, m: nat): State
    requires s.Created(s.running)
  {
    RemoveMutex(s.With(s.running, s.At(s.running).(destroying := 0)), m)
  }

  function ExitStep(s: State): State {
    var tcbs := Without(s.tcbs, s.running);
    s.(tcbs := tcbs, ended := [s.running] + s.ended, threads := Alert(s.threads, tcbs, s.running), running := 0,
      scheduling := true)
  }

  // ---- What the scheduler does

  /** The first position in `q` of a thread that is not blocked, or its length. */
  function FirstUnblocked(threads: seq<Thread>, q: seq<nat>): (k: nat)
    ensures k <= |q|
  {
    if q == [] || (1 <= q[0] <= |threads| && !threads[q[0] - 1].Blocked()) then 0
    else 1 + FirstUnblocked(threads, q[1..])
  }

  /** Where a thread with usage `th` goes in `q`: before the first that has used at least as much. */
  function Position(threads: seq<Thread>, q: seq<nat>, th: Thread): (k: nat)
    ensures k <= |q|
  {
    if q == [] || (1 <= q[0] <= |threads| && th.AtMost(threads[q[0] - 1])) then 0 else 1 + Position(threads, q[1..], th)
  }

  function InsertByUsage(threads: seq<Thread>, q: seq<nat>, t: nat): seq<nat>
    requires 1 <= t <= |threads|
  {
    var k := Position(threads, q, threads[t - 1]);
    q[..k] + [t] + q[k..]
  }

  function Reversed(q: seq<nat>): seq<nat> {
    if q == [] then [] else Reversed(q[1..]) + [q[0]]
  }

  function Admit(s: State): (r: State)
    requires |s.levels| == QUEUE_LEVELS
    ensures |r.levels| == QUEUE_LEVELS
  {
    s.(levels := s.levels[0 := s.levels[0] + s.arrival], tcbs := Reversed(s.arrival) + s.tcbs, arrival := [])
  }

  /** One level down if the quantum was used up. */
  function Demoted(th: Thread): Thread {
    if th.fully then
      th.(fully := false, used := 0, prio := if th.prio == QUEUE_LEVELS - 1 then th.prio else th.prio + 1)
    else th
  }

  function Requeue(s: State): (r: State)
    requires |s.levels| == QUEUE_LEVELS
    ensures |r.levels| == QUEUE_LEVELS
  {
    if !s.Created(s.running) then s else
      var th := Demoted(s.At(s.running));
      if th.prio >= QUEUE_LEVELS then s else
        s.With(s.running, th).(levels := s.levels[th.prio := s.levels[th.prio] + [s.running]], running := 0)
  }

  function Boosted(threads: seq<Thread>, ts: seq<nat>): (r: seq<Thread>)
    ensures |r| == |threads|
  {
    seq(|threads|, i requires 0 <= i < |threads| =>
      if i + 1 in ts then threads[i].(used := 0, fully := false, prio := 0) else threads[i])
  }

  function BoostAll(s: State): (r: State)
    requires |s.levels| == QUEUE_LEVELS
    ensures |r.levels| == QUEUE_LEVELS
  {
    var below := s.levels[1] + s.levels[2] + s.levels[3];
    s.(threads := Boosted(s.threads, below), levels := [s.levels[0] + below, [], [], []])
  }

  function Boost(s: State): (r: State)
    requires |s.levels| == QUEUE_LEVELS
    ensures |r.levels| == QUEUE_LEVELS
  {
    if s.total >= DECAY then BoostAll(s.(total := s.total % DECAY)) else s
  }

  /** The highest level from `from` on with a thread that is not blocked, or the number of levels. */
  function PickLevel(threads: seq<Thread>, levels: seq<seq<nat>>, from: nat): (l: nat)
    requires from <= |levels|
    ensures from <= l <= |levels|
    ensures l < |levels| ==> FirstUnblocked(threads, levels[l]) < |levels[l]|
    decreases |levels| - from
  {
    if from == |levels| || FirstUnblocked(threads, levels[from]) < |levels[from]| then from
    else PickLevel(threads, levels, from + 1)
  }

  /** The threads passed over go behind the others. */
  function Choose(s: State): State {
    var l := PickLevel(s.threads, s.levels, 0);
    if l == |s.levels| then s else
      var q := s.levels[l];
      var k := FirstUnblocked(s.threads, q);
      s.(running := q[k], levels := s.levels[l := q[k + 1..] + q[..k]])
  }

  /** Do all the listed threads but `t` wait for another to end? */
  predicate OthersJoining(threads: seq<Thread>, ts: seq<nat>, t: nat) {
    forall i :: 0 <= i < |ts| && ts[i] != t && 1 <= ts[i] <= |threads| ==> threads[ts[i] - 1].join != 0
  }

  function Dispatch(s: State): State {
    if !s.Created(s.running) then s else
      var th := s.At(s.running);
      var armed := !OthersJoining(s.threads, s.tcbs, s.running) && th.used <= TIME_QUANTUM;
      var timer := if armed then TIME_QUANTUM - th.used else 0;
      s.With(s.running, th.(scheduled := true)).(timer := timer, scheduling := false)
  }

  /** On its very first run the scheduler takes the main thread into the list of threads. */
  function Enroll(s: State): State {
    if s.started || !s.Created(s.running) then s
    else s.(tcbs := InsertByUsage(s.threads, s.tcbs, s.running), started := true)
  }

  /** What the scheduler has in its queues when it comes to choose. */
  function Ready(s: State): (r: State)
    requires |s.levels| == QUEUE_LEVELS
    ensures |r.levels| == QUEUE_LEVELS
  {
    Boost(Requeue(Admit(Enroll(s))))
  }

  function MlfqPass(s: State): State
    requires |s.levels| == QUEUE_LEVELS
  {
    Dispatch(Choose(Ready(s)))
  }

  /** Are all the listed ids among the first `n`? */
  predicate Known(n: nat, ts: seq<nat>) {
    forall i :: 0 <= i < |ts| ==> 1 <= ts[i] <= n
  }

  function InsertAll(threads: seq<Thread>, q: seq<nat>, ts: seq<nat>): seq<nat>
    requires Known(|threads|, ts)
    decreases |ts|
  {
    if ts == [] then q else InsertAll(threads, InsertByUsage(threads, q, ts[0]), ts[1..])
  }

  /** The sorted list with the new arrivals and the thread that ran. */
  function Gathered(s: State): State
    requires Known(|s.threads|, s.arrival)
  {
    var q := InsertAll(s.threads, s.tcbs, s.arrival);
    s.(arrival := [], tcbs := if s.Created(s.running) then InsertByUsage(s.threads, q, s.running) else q, running := 0)
  }

  function Take(s: State): State {
    var k := FirstUnblocked(s.threads, s.tcbs);
    if k == |s.tcbs| then s else s.(running := s.tcbs[k], tcbs := Without(s.tcbs, s.tcbs[k]))
  }

  function PsjfPass(s: State): State
    requires Known(|s.threads|, s.arrival)
  {
    Dispatch(Take(Gathered(s)))
  }

  // ---- Steps and runs

  /** Who may act, and what the program asserts: locks and mutexes must be initialised, an unlock must come from the
      holder, the list of mutexes is not empty when one is taken off, the main thread does not end, and the scheduler
      must find a thread. The timer interrupts a thread anywhere but in a lock call. */
  ghost predicate Enabled(s: State, e: Event) {
    match e
    case Pass => s.scheduling && exists t :: s.Live(t) && !s.At(t).Blocked()
    case Lock(m, _) =>
      !s.scheduling && s.Created(s.running) && s.At(s.running).locking in {0, m} && s.At(s.running).destroying == 0
      && s.At(s.running).joining == Nobody && m in s.holders
    case Timer => !s.scheduling && s.Created(s.running) && s.At(s.running).locking == 0
    case Remove(m) =>
      !s.scheduling && s.Created(s.running) && s.At(s.running).destroying == m != 0 && s.holders != map[]
    case Wait(t, _) => !s.scheduling && s.Created(s.running) && s.At(s.running).joining == Of(t)
    case Unlock(m) => s.InUserCode() && s.Holds(s.running, m)
    case Destroy(m) => s.InUserCode() && (s.Holds(0, m) || s.Holds(s.running, m))
    case Exit => s.InUserCode() && s.running != MAIN
    case _ => s.InUserCode()
  }

  predicate Shaped(s: State) {
    |s.levels| == QUEUE_LEVELS && Known(|s.threads|, s.arrival)
  }

  function Apply(s: State, e: Event): State
    requires Shaped(s) && Enabled(s, e)
  {
    match e
    case Create => s.(threads := s.threads + [NEWBORN], arrival := s.arrival + [|s.threads| + 1])
    case Yield(elapsed) => YieldStep(s, elapsed)
    case Timer => TimerStep(s)
    case Join(t) => TestStep(s, t)
    case Wait(t, elapsed) => WaitStep(s, t, elapsed)
    case InitMutex => s.(mutexes := s.mutexes + 1, holders := s.holders[s.mutexes + 1 := 0])
    case Lock(m, elapsed) => LockStep(s, m, elapsed)
    case Unlock(m) => UnlockStep(s, m)
    case Destroy(m) => DestroyStep(s, m)
    case Remove(m) => RemoveStep(s, m)
    case Exit => ExitStep(s)
    case Pass => if s.policy == Mlfq then MlfqPass(s) else PsjfPass(s)
  }
}
