/** The least-recently-used replacement policy of the translation cache, as a
    function on lists of page numbers (most recently used first), and its theory. */
module Lru {
  import opened Collections

  /** What happens to the cache: a page is looked up, or dropped when it is being freed. */
  datatype Op = Use(page: nat) | Drop(page: nat)

  /** Room for one more: a full cache loses its last element. */
  function Evicted(l: seq<nat>, cap: nat): seq<nat>
    requires cap >= 1
  {
    if |l| == cap then l[..cap - 1] else l
  }

  function Step(l: seq<nat>, cap: nat, op: Op): seq<nat>
    requires cap >= 1
  {
    match op
    case Use(p) => [p] + (if p in l then Without(l, p) else Evicted(l, cap))
    case Drop(p) => Without(l, p)
  }

  function Run(cap: nat, ops: seq<Op>): seq<nat>
    requires cap >= 1
  {
    if ops == [] then [] else
      var i := |ops| - 1;
      Step(Run(cap, ops[..i]), cap, ops[i])
  }

  /** How many lookups of the trace found their page absent. */
  function Misses(cap: nat, ops: seq<Op>): nat
    requires cap >= 1
  {
    if ops == [] then 0 else
      var i := |ops| - 1;
      Misses(cap, ops[..i]) + (if ops[i].Use? && ops[i].page !in Run(cap, ops[..i]) then 1 else 0)
  }

  function Uses(ops: seq<Op>): nat {
    if ops == [] then 0 else Uses(ops[..|ops| - 1]) + (if ops[|ops| - 1].Use? then 1 else 0)
  }

  lemma RunSnoc(cap: nat, ops: seq<Op>, op: Op)
    requires cap >= 1
    ensures Run(cap, ops + [op]) == Step(Run(cap, ops), cap, op)
    ensures Misses(cap, ops + [op]) == Misses(cap, ops) + if op.Use? && op.page !in Run(cap, ops) then 1 else 0
    ensures Uses(ops + [op]) == Uses(ops) + if op.Use? then 1 else 0
  {
    assert (ops + [op])[..|ops|] == ops;
  }

  ghost predicate Distinct(l: seq<nat>) {
    forall i, j :: 0 <= i < j < |l| ==> l[i] != l[j]
  }

  lemma {:induction false} WithoutElements(l: seq<nat>, p: nat)
    requires Distinct(l)
    ensures Distinct(Without(l, p)) && p !in Without(l, p)
    ensures forall q :: q != p ==> (q in Without(l, p) <==> q in l)
  {
    if l != [] {
      assert forall q :: q in l <==> q == l[0] || q in l[1..];
      WithoutElements(l[1..], p);
      assert l[0] !in l[1..];
    }
  }

  /** The cache never holds a page twice and never exceeds its capacity. */
  lemma {:induction false} RunWellFormed(cap: nat, ops: seq<Op>)
    requires cap >= 1
    ensures Distinct(Run(cap, ops)) && |Run(cap, ops)| <= cap
  {
    if ops != [] {
      var i := |ops| - 1;
      RunWellFormed(cap, ops[..i]);
      WithoutElements(Run(cap, ops[..i]), ops[i].page);
    }
  }

  /** Removing from a list and from a prefix of it. */
  lemma {:induction false} WithoutPrefix(l: seq<nat>, m: seq<nat>, p: nat)
    requires l <= m && Distinct(m)
    ensures Without(l, p) <= Without(m, p)
    ensures p !in l ==> l <= Without(m, p)
  {
    if l != [] && m[0] != p {
      WithoutPrefix(l[1..], m[1..], p);
    }
  }

  /** LRU inclusion: on every trace a smaller cache is a prefix of a larger one,
      so a larger cache never misses more often. */
  lemma {:induction false} Inclusion(c: nat, d: nat, ops: seq<Op>)
    requires 1 <= c <= d
    ensures Run(c, ops) <= Run(d, ops)
    ensures Misses(d, ops) <= Misses(c, ops)
  {
    if ops != [] {
      hide Step, Without, Distinct;
      var i := |ops| - 1;
      Inclusion(c, d, ops[..i]);
      RunWellFormed(c, ops[..i]);
      RunWellFormed(d, ops[..i]);
      StepInclusion(Run(c, ops[..i]), c, Run(d, ops[..i]), d, ops[i]);
    }
  }

  lemma StepInclusion(l: seq<nat>, c: nat, m: seq<nat>, d: nat, op: Op)
    requires 1 <= c <= d && l <= m && Distinct(m) && |l| <= c && |m| <= d
    ensures Step(l, c, op) <= Step(m, d, op) && (op.page in l ==> op.page in m)
  {
    hide Without;
    WithoutPrefix(l, m, op.page);
    assert forall p :: p in l ==> p in m;
  }

  /** For every page looked up in the trace, the time of its latest lookup. */
  function LastUses(ops: seq<Op>): (m: map<nat, nat>)
    ensures forall p :: p in m ==> m[p] < |ops| && ops[m[p]] == Use(p)
    ensures forall i :: 0 <= i < |ops| && ops[i].Use? ==> ops[i].page in m && i <= m[ops[i].page]
  {
    if ops == [] then map[] else
      var i := |ops| - 1;
      if ops[i].Use? then LastUses(ops[..i])[ops[i].page := i] else LastUses(ops[..i])
  }

  /** A trace in which a page that is dropped is looked up again at once. */
  ghost predicate Reinserting(ops: seq<Op>) {
    forall i :: 0 <= i < |ops| && ops[i].Drop? ==> i + 1 < |ops| && ops[i + 1] == Use(ops[i].page)
  }

  lemma ReinsertingUse(ops: seq<Op>, p: nat)
    requires Reinserting(ops)
    ensures Reinserting(ops + [Use(p)]) && Reinserting(ops + [Drop(p)] + [Use(p)])
  {
    var longer := ops + [Drop(p)] + [Use(p)];
    forall i | 0 <= i < |longer| && longer[i].Drop?
      ensures i + 1 < |longer| && longer[i + 1] == Use(longer[i].page)
    {
      assert i < |ops| ==> longer[i] == ops[i] && i + 1 < |ops| && longer[i + 1] == ops[i + 1];
    }
  }

  /** `l` lists pages by decreasing time of use, and misses a used page only when
      it is full of pages used later. */
  ghost predicate MostRecent(l: seq<nat>, cap: nat, used: map<nat, nat>) {
    && |l| <= cap
    && (forall i :: 0 <= i < |l| ==> l[i] in used)
    && (forall i, j :: 0 <= i < j < |l| ==> used[l[i]] > used[l[j]])
    && (forall p :: p in used && p !in l ==> |l| == cap && forall i :: 0 <= i < |l| ==> used[l[i]] > used[p])
  }

  /** Dropping a page and looking it up again is, for the cache, one lookup. */
  lemma DropThenUse(l: seq<nat>, cap: nat, p: nat)
    requires cap >= 1 && Distinct(l) && |l| <= cap
    ensures Step(Step(l, cap, Drop(p)), cap, Use(p)) == Step(l, cap, Use(p))
  {
    WithoutElements(l, p);
  }

  lemma HitKeepsMostRecent(l: seq<nat>, cap: nat, used: map<nat, nat>, k: nat, now: nat)
    requires MostRecent(l, cap, used) && k < |l| && forall q :: q in used ==> used[q] < now
    ensures MostRecent([l[k]] + (l[..k] + l[k + 1..]), cap, used[l[k] := now])
  {
    var l' := [l[k]] + (l[..k] + l[k + 1..]);
    forall i | 0 < i < |l'| ensures l'[i] == l[if i <= k then i - 1 else i] { }
    forall i | 0 <= i < |l| ensures l[i] in l' {
      assert l[i] == l'[if i < k then i + 1 else if i == k then 0 else i];
    }
    ReorderedMostRecent(l, l', cap, used, k, now);
  }

  lemma ReorderedMostRecent(l: seq<nat>, l': seq<nat>, cap: nat, used: map<nat, nat>, k: nat, now: nat)
    requires MostRecent(l, cap, used) && k < |l| && forall q :: q in used ==> used[q] < now
    requires |l'| == |l| && l'[0] == l[k]
    requires forall i :: 0 < i < |l'| ==> l'[i] == l[if i <= k then i - 1 else i]
    requires forall i :: 0 <= i < |l| ==> l[i] in l'
    ensures MostRecent(l', cap, used[l[k] := now])
  {
    OthersKept(l, l', used, k, now);
    OthersOlder(l, l', cap, used, k, now);
  }

  /** The pages but the first keep their order and their times. */
  lemma OthersKept(l: seq<nat>, l': seq<nat>, used: map<nat, nat>, k: nat, now: nat)
    requires forall i :: 0 <= i < |l| ==> l[i] in used && used[l[i]] < now
    requires forall i, j :: 0 <= i < j < |l| ==> used[l[i]] > used[l[j]]
    requires k < |l| == |l'| && l'[0] == l[k] && forall i :: 0 < i < |l'| ==> l'[i] == l[if i <= k then i - 1 else i]
    ensures var used' := used[l[k] := now];
      && (forall i :: 0 <= i < |l'| ==> l'[i] in used')
      && (forall i, j :: 0 <= i < j < |l'| ==> used'[l'[i]] > used'[l'[j]])
  {
    var used' := used[l[k] := now];
    forall i | 0 < i < |l'| ensures l'[i] in used && l'[i] != l[k] && used'[l'[i]] == used[l'[i]] < now {
      var a := if i <= k then i - 1 else i;
      assert l'[i] == l[a] && used[l[a]] != used[l[k]];
    }
    forall i, j | 0 < i < j < |l'| ensures used[l'[i]] > used[l'[j]] {
      var a, b := if i <= k then i - 1 else i, if j <= k then j - 1 else j;
      assert used[l[a]] > used[l[b]];
    }
  }

  /** Pages not in the list were used before all in it. */
  lemma OthersOlder(l: seq<nat>, l': seq<nat>, cap: nat, used: map<nat, nat>, k: nat, now: nat)
    requires MostRecent(l, cap, used) && k < |l| && |l'| == |l| && l'[0] == l[k]
    requires forall q :: q in used ==> used[q] < now
    requires forall i :: 0 < i < |l'| ==> l'[i] == l[if i <= k then i - 1 else i]
    requires forall i :: 0 <= i < |l| ==> l[i] in l'
    ensures var used' := used[l[k] := now];
      forall p :: p in used' && p !in l' ==> |l'| == cap && forall i :: 0 <= i < |l'| ==> used'[l'[i]] > used'[p]
  {
    var used' := used[l[k] := now];
    forall p | p in used' && p !in l' ensures p in used && p !in l && p != l[k] {
    }
  }

  lemma MissKeepsMostRecent(l: seq<nat>, cap: nat, used: map<nat, nat>, p: nat, now: nat)
    requires cap >= 1 && MostRecent(l, cap, used) && p !in l && forall q :: q in used ==> used[q] < now
    ensures MostRecent([p] + Evicted(l, cap), cap, used[p := now])
  {
    var e := Evicted(l, cap);
    assert forall i :: 0 <= i < |e| ==> e[i] == l[i] && l[i] in e;
    forall q | q in l && q !in e ensures |l| == cap && q == l[cap - 1] {
      var i :| 0 <= i < |l| && l[i] == q;
    }
  }

  lemma UseKeepsMostRecent(l: seq<nat>, cap: nat, used: map<nat, nat>, p: nat, now: nat)
    requires cap >= 1 && MostRecent(l, cap, used) && forall q :: q in used ==> used[q] < now
    ensures MostRecent(Step(l, cap, Use(p)), cap, used[p := now])
  {
    if p in l {
      var k :| 0 <= k < |l| && l[k] == p;
      WithoutAt(l, k);
      HitKeepsMostRecent(l, cap, used, k, now);
    } else {
      MissKeepsMostRecent(l, cap, used, p, now);
    }
  }

  /** The cache is exactly the `cap` most recently used distinct pages, in order of recency. */
  lemma {:induction false} RunIsMostRecent(cap: nat, ops: seq<Op>)
    requires cap >= 1 && Reinserting(ops)
    ensures MostRecent(Run(cap, ops), cap, LastUses(ops))
  {
    hide Step, Without, Distinct, MostRecent;
    if ops == [] {
      NothingRecent(cap);
    } else {
      var i := |ops| - 1;
      assert ops[i].Use?;
      var p := ops[i].page;
      if i > 0 && ops[i - 1].Drop? {
        var before := ops[..i - 1];
        assert ops[..i][..i - 1] == before;
        assert ops[i - 1] == Drop(p);
        RunIsMostRecent(cap, before);
        RunWellFormed(cap, before);
        DropThenUse(Run(cap, before), cap, p);
        UseKeepsMostRecent(Run(cap, before), cap, LastUses(before), p, i);
      } else {
        RunIsMostRecent(cap, ops[..i]);
        UseKeepsMostRecent(Run(cap, ops[..i]), cap, LastUses(ops[..i]), p, i);
      }
    }
  }

  lemma NothingRecent(cap: nat)
    requires cap >= 1
    ensures MostRecent([], cap, map[])
  {
  }
}
