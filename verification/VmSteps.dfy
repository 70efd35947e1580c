/** The four ways the allocator changes memory, each with the allocations it leads to. */
module VmSteps {
  import opened Arithmetic
  import opened Words
  import opened VmScheme
  import opened VmState

  ghost function Zeroed(s: Scheme, mem: Memory, f: nat): (r: Memory)
    requires Shape(s, mem) && f < s.Pages()
    ensures Shape(s, r)
  {
    mem[f := Zeros(s.PageSize())]
  }

  ghost function Overwritten(s: Scheme, mem: Memory, f: nat, at: nat, d: seq<byte>): (r: Memory)
    requires Shape(s, mem) && f < s.Pages() && at + |d| <= s.PageSize()
    ensures Shape(s, r)
  {
    mem[f := Splice(mem[f], at, d)]
  }

  /** Changing a frame that holds no table leaves directory and cells alone. */
  lemma TablesUntouched(s: Scheme, mem: Memory, mem': Memory)
    requires s.Ok() && Shape(s, mem) && Shape(s, mem')
    requires forall f :: 0 <= f <= s.DirEntries() && f < s.Pages() ==> mem'[f] == mem[f]
    ensures Directory(s, mem) ==> Directory(s, mem')
    ensures forall p: nat :: p < s.Usable() ==> CellWord(s, mem', p) == CellWord(s, mem, p)
  {
    forall d: nat | d < s.TableEntries() ensures EntryWord(s, mem', d) == EntryWord(s, mem, d) {
    }
    forall p: nat | p < s.Usable() ensures CellWord(s, mem', p) == CellWord(s, mem, p) {
      CellInTables(s, p);
    }
  }

  // ---- Mapping a fresh page to a free frame

  ghost function MapMemory(s: Scheme, mem: Memory, p: nat, f: nat): (r: Memory)
    requires s.Ok() && Shape(s, mem) && p < s.Usable() && f < s.Pages()
    ensures Shape(s, r)
  {
    WithCell(s, Zeroed(s, mem, f), p, s.Pointer(f, 0))
  }

  ghost function MapLayout(l: Layout, p: nat, f: nat): Layout {
    Layout(l.frameOf[p := f], l.blocks[p := [p]], l.place[p := (p, 0)], l.cleared)
  }

  ghost predicate CanMap(s: Scheme, l: Layout, p: nat, f: nat) {
    p !in l.frameOf && 1 <= p < s.Usable() && s.DirEntries() < f < s.Pages() && f !in l.frameOf.Values
  }

  lemma MapKeepsTables(s: Scheme, mem: Memory, l: Layout, p: nat, f: nat)
    requires s.Ok() && Shape(s, mem) && Directory(s, mem) && Cells(s, mem, l) && CanMap(s, l, p, f)
    ensures Directory(s, MapMemory(s, mem, p, f)) && Cells(s, MapMemory(s, mem, p, f), MapLayout(l, p, f))
  {
    var zeroed := Zeroed(s, mem, f);
    TablesUntouched(s, mem, zeroed);
    DirectoryKept(s, zeroed, p, s.Pointer(f, 0));
    PointerFits(s, f);
    forall q: nat | q < s.Usable()
      ensures CellWord(s, MapMemory(s, mem, p, f), q) == if q == p then s.Pointer(f, 0) else CellWord(s, mem, q)
    {
      CellStored(s, zeroed, p, s.Pointer(f, 0), q);
    }
  }

  lemma MapKeepsMapped(s: Scheme, l: Layout, p: nat, f: nat)
    requires Mapped(s, l) && CanMap(s, l, p, f)
    ensures Mapped(s, MapLayout(l, p, f))
  {
  }

  lemma MapKeepsPlaced(l: Layout, p: nat, f: nat)
    requires Placed(l) && p !in l.frameOf
    ensures Placed(MapLayout(l, p, f))
  {
  }

  /** The range of a map after one more pair. */
  lemma ValuesAfter(m: map<nat, nat>, p: nat, f: nat)
    requires p !in m
    ensures m[p := f].Values == m.Values + {f}
  {
    assert p in m[p := f];
    forall q | q in m ensures m[q] in m[p := f].Values {
      assert q in m[p := f] && m[p := f][q] == m[q];
    }
  }

  lemma MapKeepsZeros(s: Scheme, mem: Memory, l: Layout, p: nat, f: nat)
    requires s.Ok() && Shape(s, mem) && FreeFramesZero(s, mem, l) && CanMap(s, l, p, f)
    ensures FreeFramesZero(s, MapMemory(s, mem, p, f), MapLayout(l, p, f))
  {
    ValuesAfter(l.frameOf, p, f);
  }

  lemma MapKeepsLinks(s: Scheme, mem: Memory, l: Layout, p: nat, f: nat)
    requires s.Ok() && Shape(s, mem) && Linked(s, mem, l) && Mapped(s, l) && CanMap(s, l, p, f)
    ensures Linked(s, MapMemory(s, mem, p, f), MapLayout(l, p, f))
  {
    FrameCount(s);
    var l', mem' := MapLayout(l, p, f), MapMemory(s, mem, p, f);
    forall h, i | h in l'.blocks && 0 <= i < |l'.blocks[h]| ensures LinkedAt(s, mem', l', h, i) {
      if h == p {
        WordOfZeros(s.PageSize(), 0, s.Word());
      } else {
        assert LinkedAt(s, mem, l, h, i);
        assert l.frameOf[l.blocks[h][i]] in l.frameOf.Values;
      }
    }
  }

  lemma MapKeepsInv(s: Scheme, mem: Memory, l: Layout, p: nat, f: nat)
    requires Inv(s, mem, l) && CanMap(s, l, p, f)
    ensures Inv(s, MapMemory(s, mem, p, f), MapLayout(l, p, f))
  {
    MapKeepsTables(s, mem, l, p, f);
    MapKeepsMapped(s, l, p, f);
    MapKeepsPlaced(l, p, f);
    MapKeepsZeros(s, mem, l, p, f);
    MapKeepsLinks(s, mem, l, p, f);
  }

  /** Nothing that is mapped already shares the new page's frame. */
  lemma MapOthers(s: Scheme, mem: Memory, l: Layout, p: nat, f: nat, h: nat)
    requires s.Ok() && Shape(s, mem) && Linked(s, mem, l) && Mapped(s, l) && CanMap(s, l, p, f) && h in l.blocks
    requires Linked(s, MapMemory(s, mem, p, f), MapLayout(l, p, f)) && h != p
    ensures BlockData(s, MapMemory(s, mem, p, f), MapLayout(l, p, f), h) == BlockData(s, mem, l, h)
  {
    BlockKnown(s, mem, l, h);
    var b := l.blocks[h];
    forall i | 0 <= i < |b|
      ensures b[i] in l.frameOf && l.frameOf[b[i]] != f && s.DirEntries() < l.frameOf[b[i]] && b[i] != p
    {
      assert l.frameOf[b[i]] in l.frameOf.Values;
    }
    StreamUnchanged(s, mem, MapMemory(s, mem, p, f), l.frameOf, MapLayout(l, p, f).frameOf, b);
  }

  lemma MapFresh(s: Scheme, mem: Memory, l: Layout, p: nat, f: nat)
    requires s.Ok() && Shape(s, mem) && CanMap(s, l, p, f)
    requires Linked(s, MapMemory(s, mem, p, f), MapLayout(l, p, f))
    ensures BlockData(s, MapMemory(s, mem, p, f), MapLayout(l, p, f), p) == Zeros(s.Payload())
  {
    hide Linked, LinkedAt;
    var l', mem' := MapLayout(l, p, f), MapMemory(s, mem, p, f);
    BlockKnown(s, mem', l', p);
    assert l'.blocks[p] == [p] && [p][1..] == [];
    assert Stream(s, mem', l'.frameOf, []) == [];
  }

  /** A fresh page is an allocation of its own, full of zeros. */
  lemma MapKeeps(s: Scheme, mem: Memory, l: Layout, p: nat, f: nat)
    requires Inv(s, mem, l) && CanMap(s, l, p, f)
    ensures Inv(s, MapMemory(s, mem, p, f), MapLayout(l, p, f))
    ensures Contents(s, MapMemory(s, mem, p, f), MapLayout(l, p, f)) == Contents(s, mem, l)[p := Zeros(s.Payload())]
  {
    hide Mapped, Placed, Directory, Cells, FreeFramesZero, Linked, MapMemory, Shape, BlockData, Zeros;
    MapKeepsInv(s, mem, l, p, f);
    MapFresh(s, mem, l, p, f);
    forall h | h in l.blocks && h != p
      ensures BlockData(s, MapMemory(s, mem, p, f), MapLayout(l, p, f), h) == BlockData(s, mem, l, h)
    {
      MapOthers(s, mem, l, p, f, h);
    }
  }

  // ---- Linking one allocation to the single page that continues it

  ghost function Last(l: Layout, h: nat): nat
    requires h in l.blocks && |l.blocks[h]| > 0
  {
    l.blocks[h][|l.blocks[h]| - 1]
  }

  ghost predicate CanJoin(l: Layout, h: nat, q: nat) {
    h in l.blocks && q in l.blocks && h != q && |l.blocks[h]| > 0 && l.blocks[q] == [q]
  }

  ghost function JoinLayout(l: Layout, h: nat, q: nat): Layout
    requires CanJoin(l, h, q)
  {
    Layout(l.frameOf, (l.blocks - {q})[h := l.blocks[h] + [q]], l.place[q := (h, |l.blocks[h]|)],
           l.cleared)
  }

  ghost function JoinMemory(s: Scheme, mem: Memory, l: Layout, h: nat, q: nat): (r: Memory)
    requires s.Ok() && Shape(s, mem) && CanJoin(l, h, q) && Last(l, h) in l.frameOf && l.frameOf[Last(l, h)] < s.Pages()
    ensures Shape(s, r)
  {
    FrameCount(s);
    Overwritten(s, mem, l.frameOf[Last(l, h)], 0, EncodeLE(s.AddressOf(q, 0), s.Word()))
  }

  lemma JoinPlaces(l: Layout, h: nat, q: nat, g: nat, i: nat)
    requires Placed(l) && CanJoin(l, h, q) && g in JoinLayout(l, h, q).blocks && i < |JoinLayout(l, h, q).blocks[g]|
    ensures
      var l' := JoinLayout(l, h, q);
      l'.blocks[g][0] == g && l'.blocks[g][i] in l'.place && l'.place[l'.blocks[g][i]] == (g, i)
  {
    assert l.place[l.blocks[q][0]] == (q, 0);
    if g != h || i < |l.blocks[h]| {
      assert JoinLayout(l, h, q).blocks[g][i] == l.blocks[g][i];
    }
  }

  lemma JoinPlacesPage(l: Layout, h: nat, q: nat, p: nat)
    requires Placed(l) && CanJoin(l, h, q) && p in JoinLayout(l, h, q).place
    ensures
      var l' := JoinLayout(l, h, q);
      var (g, i) := l'.place[p];
      g in l'.blocks && i < |l'.blocks[g]| && l'.blocks[g][i] == p
  {
    if p != q {
      assert l.place[p].0 != q;
    }
  }

  lemma JoinKeepsPlaced(l: Layout, h: nat, q: nat)
    requires Placed(l) && CanJoin(l, h, q)
    ensures Placed(JoinLayout(l, h, q)) && Last(l, h) in l.frameOf
  {
    var l' := JoinLayout(l, h, q);
    assert Last(l, h) in l.place;
    assert l.place[l.blocks[q][0]] == (q, 0);
    assert l'.place.Keys == l.place.Keys && l'.frameOf == l.frameOf;
    assert forall g :: g in l'.blocks ==> |l'.blocks[g]| > 0;
    hide JoinLayout;
    forall g, i | g in l'.blocks && 0 <= i < |l'.blocks[g]|
      ensures l'.blocks[g][0] == g && l'.blocks[g][i] in l'.place && l'.place[l'.blocks[g][i]] == (g, i)
    {
      JoinPlaces(l, h, q, g, i);
    }
    forall p | p in l'.place
      ensures
        var (g, i) := l'.place[p];
        g in l'.blocks && i < |l'.blocks[g]| && l'.blocks[g][i] == p
    {
      JoinPlacesPage(l, h, q, p);
    }
  }

  lemma JoinKeepsLink(s: Scheme, mem: Memory, l: Layout, h: nat, q: nat, g: nat, i: nat)
    requires s.Ok() && Shape(s, mem) && Linked(s, mem, l) && CanJoin(l, h, q)
    requires Last(l, h) in l.frameOf && l.frameOf[Last(l, h)] < s.Pages() && q < s.Pages()
    requires g in JoinLayout(l, h, q).blocks && i < |JoinLayout(l, h, q).blocks[g]|
    requires
      var p := JoinLayout(l, h, q).blocks[g][i];
      p in l.frameOf && (l.frameOf[p] == l.frameOf[Last(l, h)] ==> g == h && i == |l.blocks[h]| - 1)
    ensures LinkedAt(s, JoinMemory(s, mem, l, h, q), JoinLayout(l, h, q), g, i)
  {
    FrameCount(s);
    var last := |l.blocks[h]| - 1;
    if g == h && i == last {
      PointerFits(s, q);
      WordStored(mem[l.frameOf[Last(l, h)]], 0, s.AddressOf(q, 0), s.Word());
    } else if g == h && i == last + 1 {
      assert l.blocks[q][0] == q && LinkedAt(s, mem, l, q, 0);
    } else {
      assert l.blocks[g][i] == JoinLayout(l, h, q).blocks[g][i] && LinkedAt(s, mem, l, g, i);
    }
  }

  /** Pages of the joined layout have different frames. */
  lemma JoinApart(s: Scheme, l: Layout, h: nat, q: nat, g: nat, i: nat)
    requires Mapped(s, l) && CanJoin(l, h, q) && Placed(JoinLayout(l, h, q)) && Last(l, h) in l.frameOf
    requires g in JoinLayout(l, h, q).blocks && i < |JoinLayout(l, h, q).blocks[g]|
    ensures
      var p := JoinLayout(l, h, q).blocks[g][i];
      p in l.frameOf && (l.frameOf[p] == l.frameOf[Last(l, h)] ==> g == h && i == |l.blocks[h]| - 1)
  {
    var l' := JoinLayout(l, h, q);
    assert l'.blocks[h][|l.blocks[h]| - 1] == Last(l, h);
    assert l'.place[l'.blocks[g][i]] == (g, i);
  }

  lemma JoinKeepsLinks(s: Scheme, mem: Memory, l: Layout, h: nat, q: nat)
    requires s.Ok() && Shape(s, mem) && Linked(s, mem, l) && CanJoin(l, h, q) && Mapped(s, l)
    requires Placed(JoinLayout(l, h, q)) && Last(l, h) in l.frameOf && q < s.Pages()
    ensures Linked(s, JoinMemory(s, mem, l, h, q), JoinLayout(l, h, q))
  {
    var l', mem' := JoinLayout(l, h, q), JoinMemory(s, mem, l, h, q);
    forall g, i | g in l'.blocks && 0 <= i < |l'.blocks[g]| ensures LinkedAt(s, mem', l', g, i) {
      JoinApart(s, l, h, q, g, i);
      JoinKeepsLink(s, mem, l, h, q, g, i);
    }
  }

  lemma JoinKeepsTables(s: Scheme, mem: Memory, l: Layout, h: nat, q: nat)
    requires s.Ok() && Shape(s, mem) && Mapped(s, l) && CanJoin(l, h, q) && Last(l, h) in l.frameOf
    requires Directory(s, mem) && Cells(s, mem, l) && FreeFramesZero(s, mem, l)
    ensures Mapped(s, JoinLayout(l, h, q)) && Directory(s, JoinMemory(s, mem, l, h, q))
    ensures Cells(s, JoinMemory(s, mem, l, h, q), JoinLayout(l, h, q))
    ensures FreeFramesZero(s, JoinMemory(s, mem, l, h, q), JoinLayout(l, h, q))
  {
    TablesUntouched(s, mem, JoinMemory(s, mem, l, h, q));
    assert l.frameOf[Last(l, h)] in l.frameOf.Values;
  }

  lemma JoinKeepsInv(s: Scheme, mem: Memory, l: Layout, h: nat, q: nat)
    requires Inv(s, mem, l) && CanJoin(l, h, q)
    ensures Last(l, h) in l.frameOf && s.DirEntries() < l.frameOf[Last(l, h)] < s.Pages()
    ensures Inv(s, JoinMemory(s, mem, l, h, q), JoinLayout(l, h, q))
  {
    hide Placed, Directory, Cells, FreeFramesZero, Linked, Shape, JoinMemory, Mapped;
    JoinKeepsPlaced(l, h, q);
    HeadInRange(s, mem, l, q);
    JoinKeepsTables(s, mem, l, h, q);
    JoinKeepsLinks(s, mem, l, h, q);
  }

  lemma HeadInRange(s: Scheme, mem: Memory, l: Layout, q: nat)
    requires Inv(s, mem, l) && q in l.blocks
    ensures q < s.Pages()
  {
    hide Directory, Cells, FreeFramesZero, Linked, Shape;
    assert l.blocks[q][0] == q;
    FrameCount(s);
  }

  lemma LinkOnlyKeepsData(s: Scheme, mem: Memory, l: Layout, h: nat, q: nat, g: nat)
    requires s.Ok() && Shape(s, mem) && Linked(s, mem, l) && CanJoin(l, h, q) && g in l.blocks
    requires Last(l, h) in l.frameOf && l.frameOf[Last(l, h)] < s.Pages()
    ensures Known(s, l.frameOf, l.blocks[g])
    ensures Stream(s, JoinMemory(s, mem, l, h, q), l.frameOf, l.blocks[g]) == BlockData(s, mem, l, g)
  {
    BlockKnown(s, mem, l, g);
    FrameCount(s);
    hide Linked;
    var mem' := JoinMemory(s, mem, l, h, q);
    forall f | 0 <= f < s.Pages() ensures Data(s, mem', f) == Data(s, mem, f) { }
    StreamUnchanged(s, mem, mem', l.frameOf, l.frameOf, l.blocks[g]);
  }

  /** The bytes of `q` come after those of `h`; all others stay. */
  ghost predicate Appended(c: map<nat, seq<byte>>, h: nat, q: nat, c': map<nat, seq<byte>>) {
    h in c && q in c && c' == (c - {q})[h := c[h] + c[q]]
  }

  /** Linking appends the page's data to the allocation's. */
  lemma JoinKeeps(s: Scheme, mem: Memory, l: Layout, h: nat, q: nat)
    requires Inv(s, mem, l) && CanJoin(l, h, q)
    ensures Last(l, h) in l.frameOf && s.DirEntries() < l.frameOf[Last(l, h)] < s.Pages()
    ensures Inv(s, JoinMemory(s, mem, l, h, q), JoinLayout(l, h, q))
    ensures Appended(Contents(s, mem, l), h, q, Contents(s, JoinMemory(s, mem, l, h, q), JoinLayout(l, h, q)))
  {
    hide Mapped, Placed, Directory, Cells, FreeFramesZero, Linked, JoinMemory, Shape, Stream;
    JoinKeepsInv(s, mem, l, h, q);
    var mem' := JoinMemory(s, mem, l, h, q);
    forall g | g in l.blocks
      ensures Known(s, l.frameOf, l.blocks[g]) && Stream(s, mem', l.frameOf, l.blocks[g]) == BlockData(s, mem, l, g)
    {
      LinkOnlyKeepsData(s, mem, l, h, q, g);
    }
    StreamConcat(s, mem', l.frameOf, l.blocks[h], l.blocks[q]);
  }

  // ---- Freeing the first page of an allocation

  ghost function DropLayout(l: Layout, h: nat): Layout
    requires h in l.blocks && |l.blocks[h]| > 0
  {
    var rest := l.blocks[h][1..];
    Layout(l.frameOf - {h},
           if rest == [] then l.blocks - {h} else (l.blocks - {h})[rest[0] := rest],
           map p | p in l.place && p != h :: MovedUp(l.place[p], h, rest),
           l.cleared + {h})
  }

  /** A page's place once the first page of allocation `h` is gone. */
  ghost function MovedUp(place: (nat, nat), h: nat, rest: seq<nat>): (nat, nat) {
    if place.0 == h && place.1 > 0 && rest != [] then (rest[0], place.1 - 1) else place
  }

  ghost predicate CanDrop(s: Scheme, l: Layout, h: nat) {
    h in l.blocks && |l.blocks[h]| > 0 && h < s.Usable() && h in l.frameOf && l.frameOf[h] < s.Pages()
  }

  ghost function DropMemory(s: Scheme, mem: Memory, l: Layout, h: nat): (r: Memory)
    requires s.Ok() && Shape(s, mem) && h < s.Usable() && h in l.frameOf && l.frameOf[h] < s.Pages()
    ensures Shape(s, r)
  {
    Zeroed(s, WithCell(s, mem, h, 0), l.frameOf[h])
  }

  /** A page of the remaining allocations, seen from before the drop. */
  lemma DropBlocks(l: Layout, h: nat, g: nat)
    requires Placed(l) && h in l.blocks && g in DropLayout(l, h).blocks
    ensures
      var b, rest := l.blocks[h], l.blocks[h][1..];
      if rest != [] && g == rest[0] then DropLayout(l, h).blocks[g] == rest
      else g != h && g in l.blocks && DropLayout(l, h).blocks[g] == l.blocks[g] && (rest != [] ==> rest[0] !in l.blocks)
  {
    var rest := l.blocks[h][1..];
    if rest != [] {
      assert l.place[l.blocks[h][1]] == (h, 1);
    }
  }

  lemma DropPlacesBlocks(l: Layout, h: nat, g: nat, i: nat)
    requires Placed(l) && h in l.blocks && g in DropLayout(l, h).blocks && i < |DropLayout(l, h).blocks[g]|
    ensures
      var l' := DropLayout(l, h);
      l'.blocks[g][0] == g && l'.blocks[g][i] in l'.place && l'.place[l'.blocks[g][i]] == (g, i)
  {
    var b := l.blocks[h];
    assert l.place[b[0]] == (h, 0);
    DropBlocks(l, h, g);
    if b[1..] != [] && g == b[1..][0] {
      assert b[1..][i] == b[i + 1] && l.place[b[i + 1]] == (h, i + 1);
    } else {
      assert l.place[l.blocks[g][i]] == (g, i);
    }
  }

  lemma DropPlacesPage(l: Layout, h: nat, p: nat)
    requires Placed(l) && h in l.blocks && p in l.place && p != h
    ensures
      var l' := DropLayout(l, h);
      var (g, i) := l'.place[p];
      g in l'.blocks && i < |l'.blocks[g]| && l'.blocks[g][i] == p
  {
    var b := l.blocks[h];
    var (g, i) := l.place[p];
    if g == h {
      assert b[i] == p && i > 0 && b[1..][i - 1] == p;
    } else if |b| > 1 {
      assert l.place[b[1]] == (h, 1);
      assert l.place[l.blocks[g][0]] == (g, 0);
    }
  }

  lemma DropKeepsPlaced(l: Layout, h: nat)
    requires Placed(l) && h in l.blocks
    ensures Placed(DropLayout(l, h)) && h in l.frameOf
  {
    var l' := DropLayout(l, h);
    assert l.place[l.blocks[h][0]] == (h, 0);
    DropPages(l, h);
    forall g | g in l'.blocks ensures |l'.blocks[g]| > 0 {
      DropBlocks(l, h, g);
    }
    hide DropLayout;
    forall p | p in l'.place
      ensures
        var (g, i) := l'.place[p];
        g in l'.blocks && i < |l'.blocks[g]| && l'.blocks[g][i] == p
    {
      DropPlacesPage(l, h, p);
    }
    forall g, i | g in l'.blocks && 0 <= i < |l'.blocks[g]|
      ensures l'.blocks[g][0] == g && l'.blocks[g][i] in l'.place && l'.place[l'.blocks[g][i]] == (g, i)
    {
      DropPlacesBlocks(l, h, g, i);
    }
  }

  lemma DropPages(l: Layout, h: nat)
    requires h in l.blocks && |l.blocks[h]| > 0 && l.place.Keys == l.frameOf.Keys
    ensures DropLayout(l, h).place.Keys == DropLayout(l, h).frameOf.Keys == l.frameOf.Keys - {h}
  {
  }

  lemma DropKeepsTables(s: Scheme, mem: Memory, l: Layout, h: nat)
    requires s.Ok() && Shape(s, mem) && Mapped(s, l) && h in l.frameOf
    requires Directory(s, mem) && Cells(s, mem, l)
    ensures Directory(s, DropMemory(s, mem, l, h))
    ensures h in l.blocks && |l.blocks[h]| > 0 ==>
      Mapped(s, DropLayout(l, h)) && Cells(s, DropMemory(s, mem, l, h), DropLayout(l, h))
  {
    var cleared := WithCell(s, mem, h, 0);
    DirectoryKept(s, mem, h, 0);
    TablesUntouched(s, cleared, DropMemory(s, mem, l, h));
    forall q: nat | q < s.Usable()
      ensures CellWord(s, DropMemory(s, mem, l, h), q) == if q == h then 0 else CellWord(s, mem, q)
    {
      CellStored(s, mem, h, 0, q);
    }
  }

  lemma DropKeepsZeros(s: Scheme, mem: Memory, l: Layout, h: nat)
    requires s.Ok() && Shape(s, mem) && Mapped(s, l) && FreeFramesZero(s, mem, l)
    requires h in l.frameOf && h in l.blocks && |l.blocks[h]| > 0
    ensures FreeFramesZero(s, DropMemory(s, mem, l, h), DropLayout(l, h))
  {
    var frameOf' := l.frameOf - {h};
    forall p | p in frameOf' ensures l.frameOf[p] in frameOf'.Values {
      assert frameOf'[p] == l.frameOf[p];
    }
  }

  /** Where a remaining page stood before the drop. */
  lemma DropOrigin(l: Layout, h: nat, g: nat, i: nat) returns (g0: nat, i0: nat)
    requires Placed(l) && h in l.blocks && g in DropLayout(l, h).blocks && i < |DropLayout(l, h).blocks[g]|
    ensures g0 in l.blocks && i <= i0 < |l.blocks[g0]| && l.blocks[g0][i0] != h
    ensures DropLayout(l, h).blocks[g] == l.blocks[g0][i0 - i..]
  {
    var b := l.blocks[h];
    DropBlocks(l, h, g);
    assert l.place[b[0]] == (h, 0);
    if b[1..] != [] && g == b[1..][0] {
      g0, i0 := h, i + 1;
    } else {
      g0, i0 := g, i;
      assert l.blocks[g][0..] == l.blocks[g];
    }
    assert l.place[l.blocks[g0][i0]] == (g0, i0);
  }

  lemma DropKeepsLinks(s: Scheme, mem: Memory, l: Layout, h: nat)
    requires s.Ok() && Shape(s, mem) && Linked(s, mem, l) && Mapped(s, l) && Placed(l) && h in l.blocks
      && h in l.frameOf
    ensures |l.blocks[h]| > 0 && Linked(s, DropMemory(s, mem, l, h), DropLayout(l, h))
  {
    assert 1 <= h < s.Usable() && l.frameOf[h] < s.Pages() && |l.blocks[h]| > 0;
    hide Mapped, Placed, DropMemory, LinkedAt, Shape, DropLayout;
    var l', mem' := DropLayout(l, h), DropMemory(s, mem, l, h);
    forall g, i | g in l'.blocks && 0 <= i < |l'.blocks[g]| ensures LinkedAt(s, mem', l', g, i) {
      var g0, i0 := DropOrigin(l, h, g, i);
      DropKeepsLink(s, mem, l, h, g, i, g0, i0);
    }
  }

  /** The link of the `i`-th page of `g` is that of the `i0`-th page of `g0` before the drop. */
  lemma DropKeepsLink(s: Scheme, mem: Memory, l: Layout, h: nat, g: nat, i: nat, g0: nat, i0: nat)
    requires s.Ok() && Shape(s, mem) && Linked(s, mem, l) && Mapped(s, l) && h in l.blocks && h in l.frameOf
    requires |l.blocks[h]| > 0 && g in DropLayout(l, h).blocks && i < |DropLayout(l, h).blocks[g]|
    requires g0 in l.blocks && i0 < |l.blocks[g0]| && i <= i0
    requires l.blocks[g0][i0] != h && DropLayout(l, h).blocks[g] == l.blocks[g0][i0 - i..]
    ensures LinkedAt(s, DropMemory(s, mem, l, h), DropLayout(l, h), g, i)
  {
    assert LinkedAt(s, mem, l, g0, i0);
  }

  lemma DropKeepsInv(s: Scheme, mem: Memory, l: Layout, h: nat)
    requires Inv(s, mem, l) && h in l.blocks
    ensures |l.blocks[h]| > 0 && 1 <= h < s.Usable() && h in l.frameOf && s.DirEntries() < l.frameOf[h] < s.Pages()
    ensures Inv(s, DropMemory(s, mem, l, h), DropLayout(l, h))
  {
    DropKeepsPlaced(l, h);
    hide Placed, Directory, Cells, FreeFramesZero, Linked, Shape;
    DropKeepsTables(s, mem, l, h);
    DropKeepsZeros(s, mem, l, h);
    DropKeepsLinks(s, mem, l, h);
  }

  lemma DropKeepsData(s: Scheme, mem: Memory, l: Layout, h: nat, pages: seq<nat>)
    requires s.Ok() && Shape(s, mem) && Mapped(s, l) && h in l.frameOf
    requires forall i :: 0 <= i < |pages| ==> pages[i] in l.frameOf && pages[i] != h
    ensures Known(s, l.frameOf, pages) && Known(s, l.frameOf - {h}, pages)
    ensures Stream(s, DropMemory(s, mem, l, h), l.frameOf - {h}, pages) == Stream(s, mem, l.frameOf, pages)
  {
    StreamUnchanged(s, mem, DropMemory(s, mem, l, h), l.frameOf, l.frameOf - {h}, pages);
  }

  lemma DropKeepsBlock(s: Scheme, mem: Memory, l: Layout, h: nat, g: nat)
    requires s.Ok() && Shape(s, mem) && Linked(s, mem, l) && Mapped(s, l) && h in l.frameOf && h in l.blocks
      && |l.blocks[h]| > 0
    requires Placed(DropLayout(l, h)) && g in DropLayout(l, h).blocks
    requires Linked(s, DropMemory(s, mem, l, h), DropLayout(l, h))
    ensures Known(s, l.frameOf, DropLayout(l, h).blocks[g])
    ensures BlockData(s, DropMemory(s, mem, l, h), DropLayout(l, h), g)
         == Stream(s, mem, l.frameOf, DropLayout(l, h).blocks[g])
  {
    var pages := DropLayout(l, h).blocks[g];
    forall i | 0 <= i < |pages| ensures pages[i] in l.frameOf && pages[i] != h {
      assert pages[i] in DropLayout(l, h).place;
    }
    hide Placed;
    DropKeepsData(s, mem, l, h, pages);
  }

  /** Allocation `b[0]` lost its first page, that is its first `n` bytes; no other changed. */
  ghost predicate Shrunk(c: map<nat, seq<byte>>, b: seq<nat>, n: nat, c': map<nat, seq<byte>>) {
    && b != [] && b[0] in c && |c[b[0]]| >= n
    && c' == if |b| == 1 then c - {b[0]} else (c - {b[0]})[b[1] := c[b[0]][n..]]
  }

  /** What is left of the allocation keeps its data, and everything else too. */
  lemma DropKeeps(s: Scheme, mem: Memory, l: Layout, h: nat) returns (mem': Memory)
    requires Inv(s, mem, l) && h in l.blocks
    ensures |l.blocks[h]| > 0 && l.blocks[h][0] == h
    ensures 1 <= h < s.Usable() && h in l.frameOf && s.DirEntries() < l.frameOf[h] < s.Pages()
    ensures mem' == DropMemory(s, mem, l, h) && Inv(s, mem', DropLayout(l, h))
    ensures Shrunk(Contents(s, mem, l), l.blocks[h], s.Payload(), Contents(s, mem', DropLayout(l, h)))
  {
    hide Mapped, Placed, Directory, Cells, FreeFramesZero, Linked, Shape, DropLayout, BlockData, Shrunk;
    DropKeepsInv(s, mem, l, h);
    mem' := DropMemory(s, mem, l, h);
    hide DropMemory;
    var l', b := DropLayout(l, h), l.blocks[h];
    DropBlocksAll(l, h);
    HeadData(s, mem, l, h);
    DropData(s, mem, l, h, mem');
    ShrunkBlocks(Contents(s, mem, l), Contents(s, mem', l'), l, l', h, s.Payload());
  }

  lemma ShrunkBlocks(c: map<nat, seq<byte>>, c': map<nat, seq<byte>>, l: Layout, l': Layout, h: nat, n: nat)
    requires c.Keys == l.blocks.Keys && c'.Keys == l'.blocks.Keys && h in l.blocks && |c[h]| >= n
    requires |l.blocks[h]| > 0 && l.blocks[h][0] == h
    requires l'.blocks.Keys ==
      if |l.blocks[h]| == 1 then l.blocks.Keys - {h} else l.blocks.Keys - {h} + {l.blocks[h][1]}
    requires |l.blocks[h]| > 1 ==> l.blocks[h][1] in l'.blocks && c'[l.blocks[h][1]] == c[h][n..]
    requires forall g :: g in l.blocks && g != h && (|l.blocks[h]| == 1 || g != l.blocks[h][1]) ==>
      g in l'.blocks && c'[g] == c[g]
    ensures Shrunk(c, l.blocks[h], n, c')
  {
  }

  lemma DropData(s: Scheme, mem: Memory, l: Layout, h: nat, mem': Memory)
    requires Inv(s, mem, l) && h in l.blocks && h in l.frameOf && |l.blocks[h]| > 0 && h < s.Usable()
    requires l.frameOf[h] < s.Pages() && mem' == DropMemory(s, mem, l, h) && Inv(s, mem', DropLayout(l, h))
    ensures forall g :: g in DropLayout(l, h).blocks ==>
      && Known(s, l.frameOf, DropLayout(l, h).blocks[g])
      && BlockData(s, mem', DropLayout(l, h), g) == Stream(s, mem, l.frameOf, DropLayout(l, h).blocks[g])
    ensures forall g :: g in l.blocks ==>
      Known(s, l.frameOf, l.blocks[g]) && BlockData(s, mem, l, g) == Stream(s, mem, l.frameOf, l.blocks[g])
  {
    hide Mapped, Placed, Directory, Cells, FreeFramesZero, Linked, DropMemory, DropLayout, Shape, Stream;
    forall g | g in DropLayout(l, h).blocks
      ensures Known(s, l.frameOf, DropLayout(l, h).blocks[g])
      ensures BlockData(s, mem', DropLayout(l, h), g) == Stream(s, mem, l.frameOf, DropLayout(l, h).blocks[g])
    {
      DropKeepsBlock(s, mem, l, h, g);
    }
    forall g | g in l.blocks ensures Known(s, l.frameOf, l.blocks[g]) {
      BlockKnown(s, mem, l, g);
    }
  }

  lemma DropBlocksAll(l: Layout, h: nat)
    requires Placed(l) && h in l.blocks
    ensures
      var b, l' := l.blocks[h], DropLayout(l, h);
      && l'.blocks.Keys == (if |b| == 1 then l.blocks.Keys - {h} else l.blocks.Keys - {h} + {b[1]})
      && |b| > 0 && b[0] == h && l'.frameOf == l.frameOf - {h} && l'.cleared == l.cleared + {h}
      && (|b| > 1 ==> b[1] != h && b[1] !in l.blocks && l'.blocks[b[1]] == b[1..])
      && forall g :: g in l.blocks && g != h ==> g in l'.blocks && l'.blocks[g] == l.blocks[g]
  {
    var b := l.blocks[h];
    assert l.place[b[0]] == (h, 0);
    if |b| > 1 {
      assert b[1..][0] == b[1] && l.place[b[1]] == (h, 1);
      DropBlocks(l, h, b[1]);
    }
    forall g | g in l.blocks && g != h
      ensures g in DropLayout(l, h).blocks && DropLayout(l, h).blocks[g] == l.blocks[g] {
      DropBlocks(l, h, g);
    }
  }

  lemma HeadData(s: Scheme, mem: Memory, l: Layout, h: nat)
    requires s.Ok() && Shape(s, mem) && Linked(s, mem, l) && h in l.blocks && |l.blocks[h]| > 0
    ensures Known(s, l.frameOf, l.blocks[h][1..]) && |BlockData(s, mem, l, h)| >= s.Payload()
    ensures BlockData(s, mem, l, h)[s.Payload()..] == Stream(s, mem, l.frameOf, l.blocks[h][1..])
  {
    BlockKnown(s, mem, l, h);
  }

  // ---- Storing data in one page of an allocation

  ghost function WriteMemory(s: Scheme, mem: Memory, f: nat, at: nat, d: seq<byte>): (r: Memory)
    requires s.Ok() && Shape(s, mem) && f < s.Pages() && at + |d| <= s.Payload()
    ensures Shape(s, r)
  {
    Overwritten(s, mem, f, s.Word() + at, d)
  }

  lemma WriteData(s: Scheme, mem: Memory, f: nat, at: nat, d: seq<byte>, g: nat)
    requires s.Ok() && Shape(s, mem) && f < s.Pages() && at + |d| <= s.Payload() && g < s.Pages()
    ensures Data(s, WriteMemory(s, mem, f, at, d), g) ==
      if g == f then Splice(Data(s, mem, f), at, d) else Data(s, mem, g)
    ensures LinkWord(s, WriteMemory(s, mem, f, at, d), g) == LinkWord(s, mem, g)
  {
    hide Scheme.Ok, Splice, WordIn, Scheme.Payload;
    WordAndPayload(s);
    if g == f {
      WordElsewhere(mem[f], s.Word() + at, d, 0, s.Word());
      SpliceBehind(mem[f], s.Word(), at, d);
    }
  }

  lemma WordAndPayload(s: Scheme)
    requires s.Ok()
    ensures s.Word() + s.Payload() == s.PageSize() && s.Word() < s.PageSize()
  {
    FrameCount(s);
  }

  /** Replacing bytes behind the first `n` replaces them in what is behind. */
  lemma SpliceBehind(frame: seq<byte>, n: nat, at: nat, d: seq<byte>)
    requires n + at + |d| <= |frame|
    ensures Splice(frame, n + at, d)[n..] == Splice(frame[n..], at, d)
  {
  }

  /** `r` is `s` with the bytes from `at` on replaced by `d`. */
  ghost predicate Overwrote(s: seq<byte>, at: nat, d: seq<byte>, r: seq<byte>) {
    at + |d| <= |s| && r == Splice(s, at, d)
  }

  /** Where offset `at` of the `k`-th page is in the stream of its allocation. */
  ghost function StreamIndex(s: Scheme, k: nat, at: nat): nat
    requires s.Ok()
  {
    k * s.Payload() + at
  }

  lemma NextIndex(s: Scheme, i: nat, o: nat)
    requires s.Ok() && o >= s.Payload()
    ensures StreamIndex(s, i, o) == StreamIndex(s, i + 1, o - s.Payload())
  {
    OneMore(i + 1, s.Payload());
  }

  lemma IndexMonotone(s: Scheme, i: nat, j: nat)
    requires s.Ok() && i <= j
    ensures StreamIndex(s, i, 0) <= StreamIndex(s, j, 0)
  {
    ScaleMonotone(i, j, s.Payload());
  }

  lemma IndexSum(s: Scheme, i: nat, o: nat, n: nat)
    requires s.Ok()
    ensures StreamIndex(s, i, o + n) == StreamIndex(s, i, o) + n
  {
  }

  lemma IndexStart(s: Scheme, o: nat)
    requires s.Ok()
    ensures StreamIndex(s, 0, o) == o
  {
  }

  lemma {:induction false} StreamWritten(s: Scheme, mem: Memory, frameOf: map<nat, nat>, pages: seq<nat>,
                                         k: nat, at: nat, d: seq<byte>)
    requires s.Ok() && Shape(s, mem) && Known(s, frameOf, pages) && k < |pages| && at + |d| <= s.Payload()
    requires forall i, j :: 0 <= i < j < |pages| ==> frameOf[pages[i]] != frameOf[pages[j]]
    ensures Overwrote(Stream(s, mem, frameOf, pages), StreamIndex(s, k, at), d,
                      Stream(s, WriteMemory(s, mem, frameOf[pages[k]], at, d), frameOf, pages))
  {
    hide Scheme.Ok, Scheme.Payload, Shape, Data, StreamIndex, WriteMemory;
    var mem' := WriteMemory(s, mem, frameOf[pages[k]], at, d);
    var head, rest := Data(s, mem, frameOf[pages[0]]), pages[1..];
    WriteData(s, mem, frameOf[pages[k]], at, d, frameOf[pages[0]]);
    if k == 0 {
      IndexStart(s, at);
      forall i | 0 <= i < |rest| ensures Data(s, mem', frameOf[rest[i]]) == Data(s, mem, frameOf[rest[i]]) {
        assert rest[i] == pages[i + 1];
        WriteData(s, mem, frameOf[pages[0]], at, d, frameOf[rest[i]]);
      }
      StreamUnchanged(s, mem, mem', frameOf, frameOf, rest);
      SpliceLeft(head, Stream(s, mem, frameOf, rest), at, d);
    } else {
      StreamWritten(s, mem, frameOf, rest, k - 1, at, d);
      IndexSum(s, k - 1, at, s.Payload());
      NextIndex(s, k - 1, at + s.Payload());
      SpliceRight(head, Stream(s, mem, frameOf, rest), StreamIndex(s, k, at), d);
    }
  }

  lemma WriteKeepsLinks(s: Scheme, mem: Memory, l: Layout, f: nat, at: nat, d: seq<byte>)
    requires s.Ok() && Shape(s, mem) && Linked(s, mem, l) && f < s.Pages() && at + |d| <= s.Payload()
    ensures Linked(s, WriteMemory(s, mem, f, at, d), l)
  {
    forall g, i | g in l.blocks && 0 <= i < |l.blocks[g]| ensures LinkedAt(s, WriteMemory(s, mem, f, at, d), l, g, i) {
      assert LinkedAt(s, mem, l, g, i);
      WriteData(s, mem, f, at, d, l.frameOf[l.blocks[g][i]]);
    }
  }

  lemma WriteKeepsTables(s: Scheme, mem: Memory, l: Layout, f: nat, at: nat, d: seq<byte>)
    requires s.Ok() && Shape(s, mem) && s.DirEntries() < f < s.Pages() && f in l.frameOf.Values
      && at + |d| <= s.Payload()
    requires Directory(s, mem) && Cells(s, mem, l) && FreeFramesZero(s, mem, l)
    ensures
      var mem' := WriteMemory(s, mem, f, at, d);
      Directory(s, mem') && Cells(s, mem', l) && FreeFramesZero(s, mem', l)
  {
    TablesUntouched(s, mem, WriteMemory(s, mem, f, at, d));
  }

  lemma WriteKeepsInv(s: Scheme, mem: Memory, l: Layout, p: nat, at: nat, d: seq<byte>)
    requires Inv(s, mem, l) && p in l.frameOf && at + |d| <= s.Payload()
    ensures l.frameOf[p] < s.Pages() && Inv(s, WriteMemory(s, mem, l.frameOf[p], at, d), l)
  {
    var f := l.frameOf[p];
    assert f in l.frameOf.Values && s.DirEntries() < f < s.Pages();
    hide Placed, Linked, Directory, Cells, FreeFramesZero, WriteMemory;
    WriteKeepsTables(s, mem, l, f, at, d);
    WriteKeepsLinks(s, mem, l, f, at, d);
  }

  lemma WriteKeepsOther(s: Scheme, mem: Memory, l: Layout, p: nat, at: nat, d: seq<byte>, g: nat)
    requires s.Ok() && Shape(s, mem) && Mapped(s, l) && Placed(l) && Linked(s, mem, l)
    requires p in l.frameOf && at + |d| <= s.Payload() && g in l.blocks && l.place[p].0 != g
    requires Linked(s, WriteMemory(s, mem, l.frameOf[p], at, d), l)
    ensures BlockData(s, WriteMemory(s, mem, l.frameOf[p], at, d), l, g) == BlockData(s, mem, l, g)
  {
    BlockKnown(s, mem, l, g);
    var pages, f := l.blocks[g], l.frameOf[p];
    forall i | 0 <= i < |pages|
      ensures Data(s, WriteMemory(s, mem, f, at, d), l.frameOf[pages[i]]) == Data(s, mem, l.frameOf[pages[i]])
    {
      assert l.place[pages[i]] == (g, i);
      WriteData(s, mem, f, at, d, l.frameOf[pages[i]]);
    }
    StreamUnchanged(s, mem, WriteMemory(s, mem, f, at, d), l.frameOf, l.frameOf, pages);
  }

  lemma FramesApart(s: Scheme, l: Layout, h: nat)
    requires Mapped(s, l) && Placed(l) && h in l.blocks
    ensures forall i :: 0 <= i < |l.blocks[h]| ==> l.blocks[h][i] in l.frameOf
    ensures forall i, j :: 0 <= i < j < |l.blocks[h]| ==> l.frameOf[l.blocks[h][i]] != l.frameOf[l.blocks[h][j]]
  {
    var b := l.blocks[h];
    forall i, j | 0 <= i < j < |b| ensures b[i] != b[j] {
      assert l.place[b[i]] == (h, i) && l.place[b[j]] == (h, j);
    }
  }

  lemma WriteKeepsOwn(s: Scheme, mem: Memory, l: Layout, h: nat, k: nat, at: nat, d: seq<byte>)
    requires s.Ok() && Shape(s, mem) && h in l.blocks && Known(s, l.frameOf, l.blocks[h])
    requires forall i, j :: 0 <= i < j < |l.blocks[h]| ==> l.frameOf[l.blocks[h][i]] != l.frameOf[l.blocks[h][j]]
    requires k < |l.blocks[h]| && at + |d| <= s.Payload()
    ensures Overwrote(Stream(s, mem, l.frameOf, l.blocks[h]), StreamIndex(s, k, at), d,
                      Stream(s, WriteMemory(s, mem, l.frameOf[l.blocks[h][k]], at, d), l.frameOf, l.blocks[h]))
  {
    StreamWritten(s, mem, l.frameOf, l.blocks[h], k, at, d);
  }

  /** Of all allocations only `h` changes, by an overwrite. */
  ghost predicate Stored(c: map<nat, seq<byte>>, h: nat, at: nat, d: seq<byte>, c': map<nat, seq<byte>>) {
    h in c && h in c' && Overwrote(c[h], at, d, c'[h]) && c' == c[h := c'[h]]
  }

  /** Frame `f` backs the `k`-th page of allocation `h`. */
  ghost predicate Backs(l: Layout, h: nat, k: nat, f: nat) {
    h in l.blocks && k < |l.blocks[h]| && l.blocks[h][k] in l.frameOf && l.frameOf[l.blocks[h][k]] == f
  }

  /** A store within the data bytes of a page is a store into its allocation's stream. */
  lemma WriteKeeps(s: Scheme, mem: Memory, l: Layout, h: nat, k: nat, f: nat, at: nat, d: seq<byte>, mem': Memory)
    requires Inv(s, mem, l) && Backs(l, h, k, f) && f < s.Pages() && at + |d| <= s.Payload()
    requires mem' == WriteMemory(s, mem, f, at, d)
    ensures Inv(s, mem', l)
    ensures Stored(Contents(s, mem, l), h, StreamIndex(s, k, at), d, Contents(s, mem', l))
  {
    hide Mapped, Placed, Directory, Cells, FreeFramesZero, Linked, Shape, Stream, Overwrote, StreamIndex, WriteMemory;
    var p := l.blocks[h][k];
    WriteKeepsInv(s, mem, l, p, at, d);
    BlockFrames(s, mem, l, h, k);
    WriteKeepsOwn(s, mem, l, h, k, at, d);
    forall g | g in l.blocks && g != h ensures BlockData(s, mem', l, g) == BlockData(s, mem, l, g) {
      WriteKeepsOther(s, mem, l, p, at, d, g);
    }
  }

  lemma BlockFrames(s: Scheme, mem: Memory, l: Layout, h: nat, k: nat)
    requires s.Ok() && Shape(s, mem) && Linked(s, mem, l) && Mapped(s, l) && Placed(l) && h in l.blocks
      && k < |l.blocks[h]|
    ensures Known(s, l.frameOf, l.blocks[h]) && l.blocks[h][k] in l.place && l.place[l.blocks[h][k]] == (h, k)
    ensures forall i, j :: 0 <= i < j < |l.blocks[h]| ==> l.frameOf[l.blocks[h][i]] != l.frameOf[l.blocks[h][j]]
  {
    FramesApart(s, l, h);
    BlockKnown(s, mem, l, h);
  }
}
