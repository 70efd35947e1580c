/** The pages the program translates, as functions of the bookkeeping: what each call adds to the history of the
    translation cache. */
module VmTrace {
  import opened Arithmetic
  import opened Words
  import opened VmScheme
  import opened VmState
  import opened VmSteps
  import opened VmStream
  import Lru

  /** What the link word of a page says; as written, page 0 is linked to the address of the directory. */
  ghost function NextAddress(s: Scheme, l: Layout, p: nat): nat {
    if p in l.place && l.place[p].0 in l.blocks && l.place[p].1 < |l.blocks[l.place[p].0]|
    then LinkAfter(s, l.blocks[l.place[p].0], l.place[p].1)
    else if s.asWritten && p == 0 then s.Pointer(0, 0) else 0
  }

  /** The lookups of the chain check. */
  ghost function CheckOps(s: Scheme, l: Layout, va: nat, count: nat): seq<Lru.Op>
    decreases count
  {
    if count == 0 || va == 0 || !s.ValidAddress(va) || s.PageOf(va) !in {0} + l.frameOf.Keys then []
    else [Lru.Use(s.PageOf(va))] + CheckOps(s, l, NextAddress(s, l, s.PageOf(va)), count - 1)
  }

  /** The lookups of copying `n` bytes to or from offset `o` of page `p` on. */
  ghost function AccessOps(s: Scheme, l: Layout, p: nat, o: nat, n: nat): seq<Lru.Op>
    requires s.Ok()
    decreases o + n
  {
    if n == 0 then []
    else
      var q := s.PageOf(NextAddress(s, l, p));
      [Lru.Use(p)] +
        if o > s.Payload() then AccessOps(s, l, q, o - s.Payload(), n)
        else if n <= s.Payload() - o then []
        else AccessOps(s, l, q, 0, n - (s.Payload() - o))
  }

  /** Looking up pages for the first time. */
  function UseAll(pages: seq<nat>): (r: seq<Lru.Op>)
    ensures |r| == |pages| && forall i :: 0 <= i < |r| ==> r[i] == Lru.Use(pages[i])
  {
    seq(|pages|, i requires 0 <= i < |pages| => Lru.Use(pages[i]))
  }

  /** Dropping pages one after another, each being looked up again at once. */
  function DropAndUseAll(pages: seq<nat>): seq<Lru.Op> {
    if pages == [] then [] else [Lru.Drop(pages[0]), Lru.Use(pages[0])] + DropAndUseAll(pages[1..])
  }

  /** The link word of a page in use is what the bookkeeping says. */
  lemma NextIsLink(s: Scheme, mem: Memory, l: Layout, p: nat)
    requires Inv(s, mem, l) && (p in l.frameOf || (s.asWritten && p == 0))
    ensures FrameAt(l, p) < s.Pages() && LinkWord(s, mem, FrameAt(l, p)) == NextAddress(s, l, p)
    ensures !InPageZero(s, NextAddress(s, l, p))
  {
    hide Directory, Cells, FreeFramesZero, Linked, Shape, LinkWord, Scheme.Ok, Scheme.PageOf, Scheme.Pointer;
    NullPage(s, mem, l);
    if p in l.frameOf {
      var h, i := MappedPage(s, mem, l, p);
      if i + 1 < |l.blocks[h]| {
        SplitAddress(s, l.blocks[h][i + 1], 0);
      }
    } else {
      DirectoryLink(s, mem, l);
    }
  }

  lemma CheckStep(s: Scheme, l: Layout, va: nat, count: nat)
    requires count > 0 && va != 0 && s.ValidAddress(va) && s.PageOf(va) in {0} + l.frameOf.Keys
    ensures CheckOps(s, l, va, count) ==
      [Lru.Use(s.PageOf(va))] + CheckOps(s, l, NextAddress(s, l, s.PageOf(va)), count - 1)
  {
  }

  lemma NoMoreChecks(s: Scheme, l: Layout, va: nat, count: nat)
    requires va == 0 || count == 0 || !s.ValidAddress(va) || s.PageOf(va) !in {0} + l.frameOf.Keys
    ensures CheckOps(s, l, va, count) == []
  {
  }

  /** The cell of a page in use names a frame; that of page 0, as intended, is null. */
  lemma CellOfPage(s: Scheme, mem: Memory, l: Layout, page: nat)
    requires Inv(s, mem, l) && page in {0} + l.frameOf.Keys
    ensures page < s.Usable() && (page !in l.frameOf ==> page == 0)
    ensures CellWord(s, mem, page) ==
      if page in l.frameOf || s.asWritten then s.Pointer(FrameAt(l, page), 0) else 0
    ensures page in l.frameOf || s.asWritten ==> CellWord(s, mem, page) != 0
  {
    hide Placed, Directory, FreeFramesZero, Linked, Shape, Scheme.Ok, CellWord, LinkWord, Scheme.PageOf;
    NonNullCell(s, mem, l, page);
    NullPage(s, mem, l);
    if s.asWritten {
      DirectoryLink(s, mem, l);
    }
  }

  /** Does the chain check let a copy start in page 0 and go on in the page of the directory's own address? */
  ghost predicate GoesOn(s: Scheme, l: Layout, va: nat, n: nat)
    requires s.Ok()
  {
    && InPageZero(s, va) && s.OffsetOf(va) + n > s.Payload() && PagesFor(s, n + s.OffsetOf(va)) > 1
    && LinkedFrom(l, s.PageOf(s.Pointer(0, 0)), PagesFor(s, n + s.OffsetOf(va)) - 1)
  }

  /** The check is right about allocations; as written, it lets through what stays within page 0, and what goes on from
      it in an allocation. */
  lemma AcceptedIsRoom(s: Scheme, mem: Memory, l: Layout, va: nat, n: nat)
    requires Inv(s, mem, l)
    ensures Accepted(s, l, va, PagesFor(s, n + s.OffsetOf(va))) <==>
      || s.OffsetOf(va) + n == 0
      || (if InPageZero(s, va) then s.OffsetOf(va) + n <= s.Payload() else RoomAt(s, l, va, n))
      || GoesOn(s, l, va, n)
  {
    hide Mapped, Directory, Cells, Linked, FreeFramesZero, Shape, Quotient, Remainder, Placed, Scheme.Ok;
    var size := n + s.OffsetOf(va);
    if size > 0 {
      LinkedIsRoom(s, mem, l, s.PageOf(va), s.OffsetOf(va), n);
      PagesForIsCeiling(size, s.Payload(), 0, 0);
      PagesForIsCeiling(size, s.Payload(), 0, 1);
      ZeroOffset(s, va);
    } else {
      NoPages(s, mem, l, s.PageOf(va));
      PagesForIsCeiling(0, s.Payload(), 0, 0);
      ZeroOffset(s, va);
    }
  }

  /** Clearing the cell of page 0, as written, clears the link word of the directory. */
  lemma NullLink(s: Scheme, mem: Memory)
    requires s.Ok() && Shape(s, mem) && s.asWritten && 0 < s.Usable() && 0 < s.Pages()
    requires s.CellFrame(0) == 0 && s.CellOffset(0) == 0
    ensures LinkWord(s, WithCell(s, mem, 0, 0), 0) == 0
  {
    CellStored(s, mem, 0, 0, 0);
    CellInTables(s, 0);
  }

  lemma ZeroOffset(s: Scheme, va: nat)
    requires s.Ok()
    ensures s.PageOf(va) == 0 ==> s.OffsetOf(va) == va
  {
  }

  lemma AccessStep(s: Scheme, l: Layout, p: nat, o: nat, n: nat)
    requires s.Ok()
    ensures
      var q := s.PageOf(NextAddress(s, l, p));
      AccessOps(s, l, p, o, n) ==
        if n == 0 then [] else if o > s.Payload() then [Lru.Use(p)] + AccessOps(s, l, q, o - s.Payload(), n)
        else if n <= s.Payload() - o then [Lru.Use(p)]
        else [Lru.Use(p)] + AccessOps(s, l, q, 0, n - (s.Payload() - o))
  {
  }

  /** When the chain check ends at once. */
  lemma AcceptedFacts(s: Scheme, mem: Memory, l: Layout, va: nat, count: nat)
    requires Inv(s, mem, l)
    ensures count == 0 ==> Accepted(s, l, va, count)
    ensures count > 0 && (va == 0 || s.PageOf(va) !in {0} + l.frameOf.Keys) ==> !Accepted(s, l, va, count)
    ensures count > 0 && s.PageOf(va) !in l.frameOf && !s.asWritten ==> !Accepted(s, l, va, count)
    ensures s.PageOf(va) in {0} + l.frameOf.Keys ==> s.ValidAddress(va)
    ensures s.PageOf(va) !in l.frameOf && !s.asWritten ==> NextAddress(s, l, s.PageOf(va)) == 0
  {
    hide Directory, Cells, Linked, FreeFramesZero, Shape, Scheme.PageOf, Scheme.ValidAddress;
    FrameCount(s);
    NullPage(s, mem, l);
    LinkedPages(s, mem, l, va, count);
    if s.PageOf(va) == 0 {
      InvalidPage(s, va);
    }
  }

  /** One step of the chain check. */
  lemma AcceptedStep(s: Scheme, mem: Memory, l: Layout, va: nat, count: nat, next: nat)
    requires Inv(s, mem, l) && count > 0 && va != 0 && next == NextAddress(s, l, s.PageOf(va))
    requires s.PageOf(va) in l.frameOf || (s.asWritten && s.PageOf(va) == 0)
    ensures Accepted(s, l, va, count) <==> Accepted(s, l, next, count - 1)
  {
    hide Mapped, Directory, Cells, Linked, FreeFramesZero, Shape, LinkWord, Scheme.Ok, Scheme.PageOf, Scheme.Pointer;
    NextIsLink(s, mem, l, s.PageOf(va));
    NullPage(s, mem, l);
    if s.PageOf(va) in l.frameOf {
      LinkStep(s, mem, l, s.PageOf(va), count, next);
    }
  }

  lemma UseOneMore(pages: seq<nat>, p: nat)
    ensures UseAll(pages + [p]) == UseAll(pages) + [Lru.Use(p)]
  {
  }

  lemma DropOneMore(pages: seq<nat>, k: nat)
    requires 1 <= k <= |pages|
    ensures DropAndUseAll(pages[..k]) ==
      [Lru.Drop(pages[0])] + [Lru.Use(pages[0])] + DropAndUseAll(pages[1..][..k - 1])
  {
    assert pages[..k][1..] == pages[1..][..k - 1];
  }

  // ---- How many lookups

  /** The chain check looks up each page it comes to once, in order, until it has enough or the allocation ends. */
  lemma {:induction false} CheckLooksUp(s: Scheme, mem: Memory, l: Layout, h: nat, i: nat, va: nat, count: nat)
    requires Inv(s, mem, l) && h in l.blocks && i < |l.blocks[h]| && s.PageOf(va) == l.blocks[h][i] && va != 0
    ensures var b := l.blocks[h];
      CheckOps(s, l, va, count) == UseAll(b[i..if i + count < |b| then i + count else |b|])
    decreases count
  {
    hide Directory, Cells, FreeFramesZero, Linked, Shape, Mapped, Scheme.PageOf, Scheme.ValidAddress, Scheme.AddressOf,
      NextAddress, CheckOps;
    var b := l.blocks[h];
    InUse(s, mem, l, h, i, va);
    if count == 0 {
      NoMoreChecks(s, l, va, count);
    } else {
      CheckStep(s, l, va, count);
      var next := NextAddress(s, l, b[i]);
      if i + 1 < |b| {
        CheckLooksUp(s, mem, l, h, i + 1, next, count - 1);
        assert b[i..if i + count < |b| then i + count else |b|]
            == [b[i]] + b[i + 1..if i + count < |b| then i + count else |b|];
      } else {
        NoMoreChecks(s, l, next, count - 1);
        assert b[i..|b|] == [b[i]];
      }
    }
  }

  /** A page of an allocation is in use, and its link leads to the next one, or nowhere from the last. */
  lemma InUse(s: Scheme, mem: Memory, l: Layout, h: nat, i: nat, va: nat)
    requires Inv(s, mem, l) && h in l.blocks && i < |l.blocks[h]| && s.PageOf(va) == l.blocks[h][i]
    ensures s.ValidAddress(va) && l.blocks[h][i] in l.frameOf && l.blocks[h][i] != 0
    ensures
      var next := NextAddress(s, l, l.blocks[h][i]);
      if i + 1 < |l.blocks[h]| then next != 0 && s.PageOf(next) == l.blocks[h][i + 1] else next == 0
  {
    hide Directory, Cells, FreeFramesZero, Linked, Shape, Scheme.PageOf, Scheme.ValidAddress, Scheme.AddressOf;
    var b := l.blocks[h];
    assert l.place[b[i]] == (h, i);
    NullPage(s, mem, l);
    LinkedPages(s, mem, l, va, 1);
    if i + 1 < |b| {
      assert l.place[b[i + 1]] == (h, i + 1);
      SplitAddress(s, b[i + 1], 0);
      SplitAddress(s, 0, 0);
    }
  }

  /** A copy looks up once each page from the one it starts in to the one it ends in. */
  lemma {:induction false} AccessLooksUp(s: Scheme, mem: Memory, l: Layout, h: nat, i: nat, o: nat, n: nat)
    requires Inv(s, mem, l) && h in l.blocks && i < |l.blocks[h]| && n > 0 && Room(s, l, l.blocks[h][i], o, n)
    ensures var b := l.blocks[h];
      i + PagesFor(s, o + n) <= |b| && AccessOps(s, l, b[i], o, n) == UseAll(b[i..i + PagesFor(s, o + n)])
    decreases o + n
  {
    hide Directory, Cells, FreeFramesZero, Linked, Shape, Mapped, Scheme.Ok, Scheme.PageOf, Scheme.AddressOf,
      NextAddress, PagesFor, StreamIndex, Scheme.Payload, Scheme.ValidAddress, AccessOps, Room, Placed;
    var b, m := l.blocks[h], s.Payload();
    PagesInRoom(s, l, h, i, o, n);
    AccessStep(s, l, b[i], o, n);
    InUse(s, mem, l, h, i, s.AddressOf(b[i], 0)) by {
      SplitAddress(s, b[i], 0);
    }
    if o + n > m {
      assert i + 1 < |b| by {
        TwoPages(s, o + n);
      }
      OnePageOn(s, l, h, i, o, n);
      OneLessPage(s, o + n);
      if o > m {
        AccessLooksUp(s, mem, l, h, i + 1, o - m, n);
      } else {
        AccessLooksUp(s, mem, l, h, i + 1, 0, n - (m - o));
      }
      assert b[i..i + PagesFor(s, o + n)] == [b[i]] + b[i + 1..i + 1 + PagesFor(s, o + n - m)];
    } else {
      OnePage(s, o + n);
      assert b[i..i + 1] == [b[i]];
    }
  }

  lemma AtPlace(l: Layout, h: nat, i: nat)
    requires Placed(l) && h in l.blocks && i < |l.blocks[h]|
    ensures l.blocks[h][i] in l.place && l.place[l.blocks[h][i]] == (h, i)
  {
  }

  lemma PagesInRoom(s: Scheme, l: Layout, h: nat, i: nat, o: nat, n: nat)
    requires s.Ok() && Placed(l) && h in l.blocks && i < |l.blocks[h]| && Room(s, l, l.blocks[h][i], o, n)
    ensures i + PagesFor(s, o + n) <= |l.blocks[h]|
  {
    hide Quotient, Remainder;
    AtPlace(l, h, i);
    PagesForIsCeiling(o + n, s.Payload(), i, |l.blocks[h]|);
  }

  lemma TwoPages(s: Scheme, x: nat)
    requires s.Ok() && x > s.Payload()
    ensures PagesFor(s, x) > 1
  {
    hide Quotient, Remainder;
    PagesForIsCeiling(x, s.Payload(), 0, 1);
  }

  lemma OnePage(s: Scheme, x: nat)
    requires s.Ok() && 0 < x <= s.Payload()
    ensures PagesFor(s, x) == 1
  {
    hide Quotient, Remainder;
    PagesForIsCeiling(x, s.Payload(), 0, 0);
    PagesForIsCeiling(x, s.Payload(), 0, 1);
  }

  lemma OneLessPage(s: Scheme, x: nat)
    requires s.Ok() && x > s.Payload()
    ensures PagesFor(s, x) == 1 + PagesFor(s, x - s.Payload())
  {
    hide Quotient, Remainder;
    var m, k := s.Payload(), PagesFor(s, x - s.Payload());
    PagesForIsCeiling(x - m, m, 0, k);
    PagesForIsCeiling(x, m, 0, k + 1);
    if k > 0 {
      PagesForIsCeiling(x - m, m, 0, k - 1);
      PagesForIsCeiling(x, m, 0, k);
      OneMoreOf(k, m);
    }
    OneMoreOf(k + 1, m);
  }

  lemma OneMoreOf(k: nat, m: nat)
    requires k > 0
    ensures k * m == (k - 1) * m + m
  {
  }

  lemma OnePageOn(s: Scheme, l: Layout, h: nat, i: nat, o: nat, n: nat)
    requires s.Ok() && Placed(l) && h in l.blocks && i + 1 < |l.blocks[h]| && o + n > s.Payload()
    requires Room(s, l, l.blocks[h][i], o, n)
    ensures o > s.Payload() ==> Room(s, l, l.blocks[h][i + 1], o - s.Payload(), n)
    ensures o <= s.Payload() ==> Room(s, l, l.blocks[h][i + 1], 0, n - (s.Payload() - o))
  {
    AtPlace(l, h, i);
    AtPlace(l, h, i + 1);
    OneMoreOf(i + 1, s.Payload());
  }

  /** Freeing pages drops their translations, so that each is looked up in vain once. */
  lemma {:induction false} EachDropMisses(cap: nat, ops: seq<Lru.Op>, pages: seq<nat>)
    requires cap >= 1
    ensures Lru.Misses(cap, ops + DropAndUseAll(pages)) == Lru.Misses(cap, ops) + |pages|
    ensures Lru.Uses(ops + DropAndUseAll(pages)) == Lru.Uses(ops) + |pages|
    decreases |pages|
  {
    hide Lru.Misses, Lru.Uses, Lru.Run;
    if pages == [] {
      assert ops + [] == ops;
    } else {
      var p := pages[0];
      var ops1 := ops + [Lru.Drop(p)];
      Lru.RunSnoc(cap, ops, Lru.Drop(p));
      Lru.RunSnoc(cap, ops1, Lru.Use(p));
      Lru.RunWellFormed(cap, ops);
      Lru.WithoutElements(Lru.Run(cap, ops), p);
      EachDropMisses(cap, ops1 + [Lru.Use(p)], pages[1..]);
      assert ops + DropAndUseAll(pages) == ops1 + [Lru.Use(p)] + DropAndUseAll(pages[1..]);
    }
  }
}
