/** Runs of the thread library: who gets the processor, and when. */
module SchedRuns {
  import opened SchedState
  import opened SchedInv

  /** Can the events happen one after another? */
  ghost predicate CanRun(s: State, es: seq<Event>)
    decreases |es|
  {
    es == [] || (Shaped(s) && Enabled(s, es[0]) && CanRun(Apply(s, es[0]), es[1..]))
  }

  ghost function After(s: State, es: seq<Event>): State
    requires CanRun(s, es)
    decreases |es|
  {
    if es == [] then s else After(Apply(s, es[0]), es[1..])
  }

  lemma {:induction false} RunKeeps(s: State, es: seq<Event>)
    requires Inv(s) && CanRun(s, es)
    ensures Inv(After(s, es))
    decreases |es|
  {
    hide Inv, Apply;
    if es != [] {
      StepKeeps(s, es[0]);
      RunKeeps(Apply(s, es[0]), es[1..]);
    }
  }

  lemma {:induction false} RunJoin(s: State, es1: seq<Event>, es2: seq<Event>)
    requires CanRun(s, es1) && CanRun(After(s, es1), es2)
    ensures CanRun(s, es1 + es2) && After(s, es1 + es2) == After(After(s, es1), es2)
    decreases |es1|
  {
    hide Apply;
    if es1 == [] {
      assert es1 + es2 == es2;
    } else {
      assert (es1 + es2)[0] == es1[0] && (es1 + es2)[1..] == es1[1..] + es2;
      RunJoin(Apply(s, es1[0]), es1[1..], es2);
    }
  }

  /** Does thread `t` get the processor? */
  ghost predicate Dispatched(s: State, es: seq<Event>, t: nat)
    requires CanRun(s, es)
    decreases |es|
  {
    es != [] && ((es[0] == Pass && Apply(s, es[0]).running == t) || Dispatched(Apply(s, es[0]), es[1..], t))
  }

  lemma {:induction false} DispatchedJoin(s: State, es1: seq<Event>, es2: seq<Event>, t: nat)
    requires CanRun(s, es1) && CanRun(After(s, es1), es2)
    ensures CanRun(s, es1 + es2)
    ensures Dispatched(s, es1, t) || Dispatched(After(s, es1), es2, t) ==> Dispatched(s, es1 + es2, t)
    decreases |es1|
  {
    hide Apply;
    RunJoin(s, es1, es2);
    if es1 == [] {
      assert es1 + es2 == es2;
    } else {
      assert (es1 + es2)[0] == es1[0] && (es1 + es2)[1..] == es1[1..] + es2;
      DispatchedJoin(Apply(s, es1[0]), es1[1..], es2, t);
    }
  }

  function Passes(es: seq<Event>): nat {
    if es == [] then 0 else (if es[0] == Pass then 1 else 0) + Passes(es[1..])
  }

  /** Quantums used up by one step. */
  function TicksOf(s: State, e: Event): nat
    requires Shaped(s) && Enabled(s, e)
  {
    match e
    case Timer => 1
    case Yield(elapsed) => Ticks(s.At(s.running), elapsed)
    case Wait(t, elapsed) => Ticks(s.At(s.running), elapsed)
    case Lock(m, elapsed) => if s.holders[m] == 0 then 0 else Ticks(s.At(s.running), elapsed)
    case _ => 0
  }

  ghost function Quantums(s: State, es: seq<Event>): nat
    requires CanRun(s, es)
    decreases |es|
  {
    if es == [] then 0 else TicksOf(s, es[0]) + Quantums(Apply(s, es[0]), es[1..])
  }

  // ---- One step

  /** A call or signal leaves the queues alone and counts its quantums. */
  lemma CallLeavesQueues(s: State, e: Event)
    requires Inv(s) && Enabled(s, e) && e != Pass
    ensures var s' := Apply(s, e);
      s'.levels == s.levels && s'.total == s.total + TicksOf(s, e) && s'.policy == s.policy
        && |s'.threads| >= |s.threads|
  {
    hide Inv, Broadcast, Alert;
  }

  /** Only by a call of its own does a thread become blocked. */
  lemma OnlyRunnerBlocks(s: State, e: Event, t: nat)
    requires Inv(s) && Enabled(s, e) && s.Created(t) && t != s.running && !s.At(t).Blocked()
    ensures Apply(s, e).Created(t) && !Apply(s, e).At(t).Blocked()
  {
    hide Partition, Levels, Clocks, Waiting, Mutexes, MlfqPass, PsjfPass;
    if e == Pass {
      if s.policy == Mlfq {
        MlfqPassKeeps(s);
      } else {
        PsjfPassKeeps(s);
      }
    }
  }

  /** A pass first appends to the top level; without a boost it only appends to every level. */
  lemma ReadyAppends(s: State, l: nat, k: nat)
    requires Inv(s) && s.policy == Mlfq && s.scheduling && l < QUEUE_LEVELS && k < |s.levels[l]|
    ensures var q := Ready(s).levels;
      && (s.total < DECAY || l == 0 ==> k < |q[l]| && q[l][k] == s.levels[l][k])
      && (s.total >= DECAY ==> s.levels[l][k] in q[0])
    ensures s.total < DECAY ==> Ready(s).total == s.total
  {
    hide Partition, Levels, Clocks, Waiting, Mutexes, Reversed, InsertByUsage, Boosted, Demoted;
    var q1 := Admit(Enroll(s));
    assert k < |q1.levels[l]| && q1.levels[l][k] == s.levels[l][k];
    var q2 := Requeue(q1);
    assert k < |q2.levels[l]| && q2.levels[l][k] == s.levels[l][k];
    assert q2.total == s.total;
    if s.total >= DECAY && l > 0 {
      assert s.levels[l][k] in q2.levels[l];
    }
  }

  /** Choosing dispatches a thread or brings the others of its level nearer the front. */
  lemma ChooseAdvances(s: State, l: nat, k: nat)
    requires Inv(s) && s.policy == Mlfq && l < QUEUE_LEVELS && k < |s.levels[l]|
    ensures var t := s.levels[l][k]; var s' := Choose(s);
      (s' != s && s'.running == t) || t in s'.levels[l]
    ensures var t := s.levels[l][k]; var s' := Choose(s);
      l == 0 && s.Created(t) && !s.At(t).Blocked() ==>
        s'.running == t || exists j :: 0 <= j < k && j < |s'.levels[0]| && s'.levels[0][j] == t
  {
    hide Partition, Levels, Clocks, Waiting, Mutexes, PickLevel, FirstUnblocked;
    assert Levels(s);
    LevelsKnown(s);
    var p := PickLevel(s.threads, s.levels, 0);
    var t := s.levels[l][k];
    if p < QUEUE_LEVELS {
      var q, i := s.levels[p], FirstUnblocked(s.threads, s.levels[p]);
      if p == l {
        assert k > i ==> (q[i + 1..] + q[..i])[k - i - 1] == t;
        assert k < i ==> (q[i + 1..] + q[..i])[|q| - i - 1 + k] == t;
      }
    }
    if l == 0 && s.Created(t) && !s.At(t).Blocked() {
      TopUnblocked(s, k);
      assert p == 0;
    }
  }

  /** With an unblocked thread at the top level that level is chosen, and nobody behind the thread. */
  lemma TopUnblocked(s: State, k: nat)
    requires Shaped(s) && Levels(s) && k < |s.levels[0]|
    requires s.Created(s.levels[0][k]) && !s.At(s.levels[0][k]).Blocked()
    ensures FirstUnblocked(s.threads, s.levels[0]) <= k && PickLevel(s.threads, s.levels, 0) == 0
  {
    hide LevelsOf;
    LevelsKnown(s);
    var q := s.levels[0];
    FirstIs(s.threads, q);
  }
}
