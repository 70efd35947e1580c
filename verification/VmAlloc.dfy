/** How a multi-page allocation comes about: pages and frames by first fit, then the links. */
module VmAlloc {
  import opened Arithmetic
  import opened Words
  import opened VmScheme
  import opened VmState
  import opened VmSteps
  import opened VmStream
  import Bitmap

  /** Each of `b` is the lowest position free at its turn. */
  ghost predicate FirstFit(used: set<nat>, limit: nat, b: seq<nat>) {
    forall i {:trigger b[i]} :: 0 <= i < |b| ==> Bitmap.IsFirstFree(used + SetOf(b[..i]), limit, b[i])
  }

  lemma FirstFitNext(used: set<nat>, limit: nat, b: seq<nat>, p: nat)
    requires FirstFit(used, limit, b) && Bitmap.IsFirstFree(used + SetOf(b), limit, p)
    ensures FirstFit(used, limit, b + [p]) && used + SetOf(b + [p]) == used + SetOf(b) + {p}
    ensures p !in used + SetOf(b)
  {
    var b' := b + [p];
    forall i | 0 <= i < |b'| ensures Bitmap.IsFirstFree(used + SetOf(b'[..i]), limit, b'[i]) {
      assert b'[..i] == b[..i];
      assert i == |b| ==> b[..i] == b;
    }
  }

  /** First fit leaves no choice. */
  lemma {:induction false} FirstFitUnique(used: set<nat>, limit: nat, a: seq<nat>, b: seq<nat>)
    requires FirstFit(used, limit, a) && FirstFit(used, limit, b) && |a| == |b|
    ensures a == b
  {
    if a != [] {
      var n := |a| - 1;
      var a0, b0 := a[..n], b[..n];
      forall i | 0 <= i < n
        ensures Bitmap.IsFirstFree(used + SetOf(a0[..i]), limit, a0[i])
          && Bitmap.IsFirstFree(used + SetOf(b0[..i]), limit, b0[i])
      {
        assert a0[..i] == a[..i] && b0[..i] == b[..i];
        assert a0[i] == a[i] && b0[i] == b[i];
      }
      FirstFitUnique(used, limit, a0, b0);
      SameFirstFree(used + SetOf(a0), limit, a[n], b[n]);
      assert a == a0 + [a[n]] && b == b0 + [b[n]];
    }
  }

  lemma SameFirstFree(used: set<nat>, limit: nat, p: nat, q: nat)
    requires Bitmap.IsFirstFree(used, limit, p) && Bitmap.IsFirstFree(used, limit, q)
    ensures p == q
  {
  }

  /** With fewer than `bound` positions taken, the first free one is below `bound`. */
  lemma FirstFreeBelow(used: set<nat>, bound: nat, limit: nat, p: int)
    requires Bitmap.IsFirstFree(used, limit, p) && |used| < bound <= limit && forall q :: q in used ==> q < bound
    ensures 0 <= p < bound
  {
    assert Bitmap.Below(used, bound) == used;
    if p < 0 || p >= bound {
      Bitmap.FullBelow(used, bound);
    }
  }

  ghost function Zip(b: seq<nat>, fs: seq<nat>): map<nat, nat>
    requires |b| == |fs|
  {
    if b == [] then map[] else
      var n := |b| - 1;
      Zip(b[..n], fs[..n])[b[n] := fs[n]]
  }

  ghost function Singles(b: seq<nat>): map<nat, seq<nat>> {
    map p | p in b :: [p]
  }

  ghost function ZeroPages(b: seq<nat>, n: nat): map<nat, seq<byte>> {
    map p | p in b :: Zeros(n)
  }

  /** Pages `b` are mapped to frames `fs`, each an allocation of its own. */
  ghost predicate MappedSingles(l0: Layout, b: seq<nat>, fs: seq<nat>, l: Layout) {
    && |b| == |fs| && l.frameOf == l0.frameOf + Zip(b, fs) && l.blocks == l0.blocks + Singles(b)
    && l.cleared == l0.cleared
  }

  lemma MappedOneMore(l0: Layout, b: seq<nat>, fs: seq<nat>, l: Layout, p: nat, f: nat)
    requires MappedSingles(l0, b, fs, l)
    ensures MappedSingles(l0, b + [p], fs + [f], MapLayout(l, p, f))
  {
    hide Zip, Singles;
    ZipSnoc(b, fs, p, f);
    SinglesSnoc(b, p);
    PlusPair(l0.frameOf, Zip(b, fs), p, f);
    PlusPair(l0.blocks, Singles(b), p, [p]);
  }

  lemma PlusPair<T>(m: map<nat, T>, n: map<nat, T>, p: nat, x: T)
    ensures (m + n)[p := x] == m + n[p := x]
  {
  }

  lemma SinglesSnoc(b: seq<nat>, p: nat)
    ensures Singles(b + [p]) == Singles(b)[p := [p]]
  {
  }

  lemma ZipSnoc(b: seq<nat>, fs: seq<nat>, p: nat, f: nat)
    requires |b| == |fs|
    ensures Zip(b + [p], fs + [f]) == Zip(b, fs)[p := f]
  {
    assert (b + [p])[..|b|] == b && (fs + [f])[..|b|] == fs;
  }

  lemma ZeroOneMore(c: map<nat, seq<byte>>, b: seq<nat>, n: nat, p: nat)
    ensures (c + ZeroPages(b, n))[p := Zeros(n)] == c + ZeroPages(b + [p], n)
  {
  }

  lemma WithoutPair<T>(m: map<nat, T>, rest: map<nat, T>, q: nat, x: T, h: nat, y: T)
    requires q !in m && q !in rest && q != h
    ensures (m + rest[q := x])[h := y] - {q} == (m + rest)[h := y]
    ensures q in (m + rest[q := x])[h := y] && (m + rest[q := x])[h := y][q] == x
  {
  }

  lemma SinglesCons(q: nat, rest: seq<nat>, n: nat)
    ensures Singles([q] + rest) == Singles(rest)[q := [q]]
    ensures ZeroPages([q] + rest, n) == ZeroPages(rest, n)[q := Zeros(n)]
  {
  }

  /** Of the pages `b` the first `j + 1` are linked, the others still on their own. */
  ghost predicate LinkedUpTo(l0: Layout, b: seq<nat>, j: nat, l: Layout) {
    && j < |b| && l.blocks == (l0.blocks + Singles(b[j + 1..]))[b[0] := b[..j + 1]]
    && l.cleared == l0.cleared
  }

  lemma LinkedNone(l0: Layout, b: seq<nat>, l: Layout)
    requires b != [] && l.blocks == l0.blocks + Singles(b) && l.cleared == l0.cleared
    ensures LinkedUpTo(l0, b, 0, l)
  {
    hide Singles;
    assert b[..1] == [b[0]] && b == [b[0]] + b[1..];
    SinglesCons(b[0], b[1..], 0);
    PlusPair(l0.blocks, Singles(b[1..]), b[0], [b[0]]);
  }

  /** Distinct pages, none of them an allocation yet. */
  ghost predicate NewPages(l0: Layout, b: seq<nat>) {
    && (forall i, k :: 0 <= i < k < |b| ==> b[i] != b[k])
    && (forall i :: 0 <= i < |b| ==> b[i] !in l0.blocks)
  }

  lemma NextPages(l0: Layout, b: seq<nat>, j: nat)
    requires NewPages(l0, b) && j + 1 < |b|
    ensures b[j + 1..] == [b[j + 1]] + b[j + 2..] && b[..j + 2] == b[..j + 1] + [b[j + 1]]
    ensures b[j + 1] !in b[j + 2..] && b[j + 1] != b[0] && b[j + 1] !in l0.blocks
  {
  }

  lemma LinkedOneMore(l0: Layout, b: seq<nat>, j: nat, l: Layout)
    requires LinkedUpTo(l0, b, j, l) && j + 1 < |b| && NewPages(l0, b)
    ensures CanJoin(l, b[0], b[j + 1]) && Last(l, b[0]) == b[j]
    ensures LinkedUpTo(l0, b, j + 1, JoinLayout(l, b[0], b[j + 1]))
  {
    hide NewPages, Singles;
    var q, rest := b[j + 1], b[j + 2..];
    NextPages(l0, b, j);
    SinglesCons(q, rest, 0);
    SinglesKeys(rest);
    WithoutPair(l0.blocks, Singles(rest), q, [q], b[0], b[..j + 1]);
  }

  lemma SinglesKeys(b: seq<nat>)
    ensures forall p :: p in Singles(b) <==> p in b
  {
  }

  /** The bytes that belong to `LinkedUpTo`. */
  ghost predicate LinkedBytes(s: Scheme, c0: map<nat, seq<byte>>, b: seq<nat>, j: nat, c: map<nat, seq<byte>>)
    requires s.Ok()
  {
    j < |b| && c == (c0 + ZeroPages(b[j + 1..], s.Payload()))[b[0] := Zeros(StreamIndex(s, j + 1, 0))]
  }

  lemma LinkedBytesNone(s: Scheme, c0: map<nat, seq<byte>>, b: seq<nat>)
    requires s.Ok() && b != []
    ensures LinkedBytes(s, c0, b, 0, c0 + ZeroPages(b, s.Payload()))
  {
    hide Scheme.Ok, Scheme.Payload, Zeros, ZeroPages;
    assert StreamIndex(s, 1, 0) == s.Payload();
    assert b == [b[0]] + b[1..];
    SinglesCons(b[0], b[1..], s.Payload());
  }

  lemma ZerosSum(m: nat, n: nat)
    ensures Zeros(m) + Zeros(n) == Zeros(m + n)
  {
  }

  lemma LinkedBytesOneMore(s: Scheme, c0: map<nat, seq<byte>>, l0: Layout, b: seq<nat>, j: nat, c: map<nat, seq<byte>>)
    requires s.Ok() && LinkedBytes(s, c0, b, j, c) && j + 1 < |b| && NewPages(l0, b) && c0.Keys == l0.blocks.Keys
    ensures b[0] in c && b[j + 1] in c
    ensures LinkedBytes(s, c0, b, j + 1, (c - {b[j + 1]})[b[0] := c[b[0]] + c[b[j + 1]]])
  {
    hide Scheme.Ok, Scheme.Payload, ZeroPages, Zeros, StreamIndex, NewPages;
    var q, rest, n := b[j + 1], b[j + 2..], s.Payload();
    NextPages(l0, b, j);
    SinglesCons(q, rest, n);
    ZeroKeys(rest, n);
    NextIndex(s, j + 1, n);
    IndexSum(s, j + 1, 0, n);
    ZerosSum(StreamIndex(s, j + 1, 0), n);
    WithoutPair(c0, ZeroPages(rest, n), q, Zeros(n), b[0], Zeros(StreamIndex(s, j + 1, 0)));
  }

  lemma ZeroKeys(b: seq<nat>, n: nat)
    ensures forall p :: p in ZeroPages(b, n) <==> p in b
  {
  }

  /** Pages `b` on frames `fs` have become one allocation. */
  ghost predicate Allocated(l0: Layout, b: seq<nat>, fs: seq<nat>, l: Layout) {
    && |b| == |fs| && b != []
    && l.frameOf == l0.frameOf + Zip(b, fs)
    && l.blocks == l0.blocks[b[0] := b]
    && l.cleared == l0.cleared
  }

  lemma LinkedAll(s: Scheme, l0: Layout, b: seq<nat>, fs: seq<nat>, l: Layout, c0: map<nat, seq<byte>>,
                  c: map<nat, seq<byte>>)
    requires s.Ok() && b != [] && |b| == |fs| && l.frameOf == l0.frameOf + Zip(b, fs)
    requires LinkedUpTo(l0, b, |b| - 1, l) && LinkedBytes(s, c0, b, |b| - 1, c)
    ensures Allocated(l0, b, fs, l) && c == c0[b[0] := Zeros(StreamIndex(s, |b|, 0))]
  {
    hide Zip, Zeros, StreamIndex, Scheme.Ok, Scheme.Payload;
    assert b[|b|..] == [] && b[..|b|] == b;
    NoPairs(l0.blocks, Singles([]));
    NoPairs(c0, ZeroPages([], s.Payload()));
  }

  lemma NoPairs<T>(m: map<nat, T>, n: map<nat, T>)
    requires n.Keys == {}
    ensures m + n == m
  {
  }

  /** A free frame is zero already. */
  lemma FreshFrame(s: Scheme, mem: Memory, l: Layout, f: nat)
    requires Inv(s, mem, l) && s.DirEntries() < f < s.Pages() && f !in l.frameOf.Values
    ensures Zeroed(s, mem, f) == mem
  {
  }

  /** The layout of newly mapped pages, as far as the links are concerned. */
  lemma NewPagesOf(s: Scheme, mem: Memory, l0: Layout, b: seq<nat>)
    requires Inv(s, mem, l0) && FirstFit({0} + l0.frameOf.Keys, s.Pages(), b)
    ensures NewPages(l0, b)
  {
    hide Mapped, Directory, Cells, FreeFramesZero, Linked, Shape, Placed;
    var used := {0} + l0.frameOf.Keys;
    forall i, k | 0 <= i < k < |b| ensures b[i] != b[k] {
      assert b[i] in b[..k] by { assert b[..k][i] == b[i]; }
      assert Bitmap.IsFirstFree(used + SetOf(b[..k]), s.Pages(), b[k]);
    }
    HeadsMapped(l0);
    forall i | 0 <= i < |b| ensures b[i] !in l0.blocks {
      assert Bitmap.IsFirstFree(used + SetOf(b[..i]), s.Pages(), b[i]);
    }
  }

  lemma {:induction false} ZipAt(b: seq<nat>, fs: seq<nat>, i: nat)
    requires |b| == |fs| && i < |b| && forall j, k :: 0 <= j < k < |b| ==> b[j] != b[k]
    ensures b[i] in Zip(b, fs) && Zip(b, fs)[b[i]] == fs[i]
  {
    var n := |b| - 1;
    if i < n {
      ZipAt(b[..n], fs[..n], i);
    }
  }

  lemma ZipFrame(l0: Layout, b: seq<nat>, fs: seq<nat>, l: Layout, i: nat)
    requires |b| == |fs| && i < |b| && NewPages(l0, b) && l.frameOf == l0.frameOf + Zip(b, fs)
    ensures b[i] in l.frameOf && l.frameOf[b[i]] == fs[i]
  {
    hide Zip;
    ZipAt(b, fs, i);
  }

  lemma JoinKeepsFrames(l: Layout, h: nat, q: nat)
    requires CanJoin(l, h, q)
    ensures JoinLayout(l, h, q).frameOf == l.frameOf
  {
  }
}
