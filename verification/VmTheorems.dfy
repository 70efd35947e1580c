/** What the virtual memory promises its callers, over whole sequences of calls. */
module VmTheorems {
  import opened Arithmetic
  import opened Collections
  import opened Words
  import opened VmScheme
  import opened VmState
  import opened VmSteps
  import opened VmStream
  import opened VmAlloc
  import opened VmTrace
  import opened Vm
  import Bitmap
  import Lru

  // ---- Reading back

  /** What was put is read back, and what was put elsewhere is still there. */
  lemma PutThenGet(c: map<nat, seq<byte>>, h: nat, at: nat, d: seq<byte>, c': map<nat, seq<byte>>)
    requires Stored(c, h, at, d, c')
    ensures Loaded(c', h, at, d)
    ensures forall g: nat, x: nat, e {:trigger Loaded(c', g, x, e)} ::
      Loaded(c, g, x, e) && (g != h || x + |e| <= at || at + |d| <= x) ==> Loaded(c', g, x, e)
  {
    forall g: nat, x: nat, e | Loaded(c, g, x, e) && (g != h || x + |e| <= at || at + |d| <= x)
      ensures Loaded(c', g, x, e) {
      if g == h {
        assert c'[h] == Splice(c[h], at, d);
        assert c'[h][x..x + |e|] == c[h][x..x + |e|];
      }
    }
    assert c'[h][at..at + |d|] == d;
  }

  /** After the first `k` pages of an allocation are freed, with their `n` bytes, the bytes behind them are found from
      the start of the next page on, those before are gone, and those of other allocations are where they were. */
  lemma FreeThenGet(c: map<nat, seq<byte>>, b: seq<nat>, k: nat, n: nat, c': map<nat, seq<byte>>, g: nat, x: nat,
                    e: seq<byte>)
    requires FreedBytes(c, b, k, n, c') && 0 < k && forall i :: 0 < i < |b| ==> b[i] != b[0]
    ensures b[0] !in c'
    ensures g !in b ==> (Loaded(c', g, x, e) <==> Loaded(c, g, x, e))
    ensures k < |b| ==> (Loaded(c', b[k], x, e) <==> Loaded(c, b[0], n + x, e))
  {
    if k < |b| && x + |e| <= |c[b[0]]| - n {
      assert c[b[0]][n..][x..x + |e|] == c[b[0]][n + x..n + x + |e|];
    }
  }

  // ---- Memory is determined by what is allocated and stored

  /** Pages that are not mapped have the same in their cells, going by what was freed before. */
  ghost predicate SameFree(s: Scheme, l: Layout, l': Layout) {
    forall p: nat {:trigger FreeCell(s, l.cleared, p)} :: p < s.Usable() && p !in l.frameOf ==>
      FreeCell(s, l'.cleared, p) == FreeCell(s, l.cleared, p)
  }

  lemma SameWord(a: seq<byte>, b: seq<byte>, at: nat, word: nat)
    requires at + word <= |a| && at + word <= |b| && WordIn(a, at, word) == WordIn(b, at, word)
    ensures a[at..at + word] == b[at..at + word]
  {
    EncodeDecode(a[at..at + word]);
    EncodeDecode(b[at..at + word]);
  }

  /** Two table frames with the same words are the same. */
  lemma SameTable(s: Scheme, a: seq<byte>, b: seq<byte>)
    requires s.Ok() && |a| == |b| == s.PageSize()
    requires forall i: nat :: i < s.TableEntries() ==>
      s.EntryOffset(i) + s.Word() <= s.PageSize()
        && WordIn(a, s.EntryOffset(i), s.Word()) == WordIn(b, s.EntryOffset(i), s.Word())
    ensures a == b
  {
    forall k: nat | k < s.PageSize() ensures a[k] == b[k] {
      var i, o := Quotient(k, s.Word()), Remainder(k, s.Word());
      Sizes(s);
      QuotientBound(k, s.TableEntries(), s.Word());
      var at := s.EntryOffset(i);
      SameWord(a, b, at, s.Word());
      assert a[at..at + s.Word()][o] == b[at..at + s.Word()][o];
    }
  }

  lemma SameDataFrame(s: Scheme, mem: Memory, mem': Memory, f: nat)
    requires s.Ok() && Shape(s, mem) && Shape(s, mem') && f < s.Pages()
    requires LinkWord(s, mem, f) == LinkWord(s, mem', f) && Data(s, mem, f) == Data(s, mem', f)
    ensures mem[f] == mem'[f]
  {
    FrameCount(s);
    var w := s.Word();
    SameWord(mem[f], mem'[f], 0, w);
    assert mem[f] == mem[f][0..w] + mem[f][w..];
    assert mem'[f] == mem'[f][0..w] + mem'[f][w..];
  }

  /** The frame behind a mapped page is determined by links and data. */
  lemma MappedFrameSame(s: Scheme, mem: Memory, l: Layout, mem': Memory, l': Layout, p: nat)
    requires Inv(s, mem, l) && Inv(s, mem', l') && l'.frameOf == l.frameOf && l'.blocks == l.blocks
    requires Contents(s, mem', l') == Contents(s, mem, l) && p in l.frameOf
    ensures l.frameOf[p] < s.Pages() && mem'[l.frameOf[p]] == mem[l.frameOf[p]]
  {
    hide Mapped, Directory, Cells, FreeFramesZero, Linked, Shape, Scheme.Ok, Stream, Data, LinkWord, StreamIndex,
      Placed;
    var h, i := MappedPage(s, mem, l, p);
    var h', i' := MappedPage(s, mem', l', p);
    SamePlace(l, l', p);
    var f := l.frameOf[p];
    BlockKnown(s, mem, l, h);
    BlockKnown(s, mem', l', h);
    StreamSlice(s, mem, l.frameOf, l.blocks[h], i, 0, s.Payload());
    StreamSlice(s, mem', l.frameOf, l.blocks[h], i, 0, s.Payload());
    assert Contents(s, mem', l')[h] == Contents(s, mem, l)[h];
    assert Data(s, mem, f)[0..s.Payload()] == Data(s, mem, f) && Data(s, mem', f)[0..s.Payload()] == Data(s, mem', f);
    SameDataFrame(s, mem, mem', f);
  }

  lemma SamePlace(l: Layout, l': Layout, p: nat)
    requires Placed(l) && Placed(l') && l'.blocks == l.blocks && p in l.place && p in l'.place
    ensures l'.place[p] == l.place[p]
  {
    var (h, i) := l.place[p];
    assert l'.blocks[h][i] == p;
  }

  lemma DirectorySame(s: Scheme, mem: Memory, mem': Memory)
    requires s.Ok() && Shape(s, mem) && Shape(s, mem') && Directory(s, mem) && Directory(s, mem') && !s.asWritten
    ensures mem'[0] == mem[0]
  {
    forall i: nat | i < s.TableEntries()
      ensures s.EntryOffset(i) + s.Word() <= s.PageSize()
      ensures WordIn(mem[0], s.EntryOffset(i), s.Word()) == WordIn(mem'[0], s.EntryOffset(i), s.Word())
    {
      EntryInFrame(s, i);
      assert EntryWord(s, mem, i) == EntryWord(s, mem', i);
    }
    SameTable(s, mem[0], mem'[0]);
  }

  function Row(k: nat, n: nat, i: nat): nat {
    k * n + i
  }

  /** Entry `i` of the table in frame `f` is the cell of this page. */
  lemma TableOf(s: Scheme, f: nat, i: nat) returns (p: nat)
    requires s.Ok() && i < s.TableEntries() && s.HoldsTable(f) && (!s.asWritten ==> f > 0)
    ensures p < s.Usable() && s.CellFrame(p) == f && s.CellOffset(p) == s.EntryOffset(i)
  {
    hide Scheme.Ok, Pow2;
    FrameCount(s);
    if s.asWritten {
      p := i;
      Split(0, s.TableEntries(), i);
    } else {
      p := Row(f - 1, s.TableEntries(), i);
      Split(f - 1, s.TableEntries(), i);
      Sizes(s);
      MixedRadixBound(f - 1, s.DirEntries(), i, s.TableEntries());
    }
  }

  lemma TableSame(s: Scheme, mem: Memory, mem': Memory, f: nat)
    requires s.Ok() && Shape(s, mem) && Shape(s, mem') && s.HoldsTable(f) && (!s.asWritten ==> f > 0)
    requires forall p: nat :: p < s.Usable() ==> CellWord(s, mem', p) == CellWord(s, mem, p)
    ensures f < s.Pages() && mem'[f] == mem[f]
  {
    FrameCount(s);
    forall i: nat | i < s.TableEntries()
      ensures s.EntryOffset(i) + s.Word() <= s.PageSize()
      ensures WordIn(mem[f], s.EntryOffset(i), s.Word()) == WordIn(mem'[f], s.EntryOffset(i), s.Word())
    {
      EntryInFrame(s, i);
      var p := TableOf(s, f, i);
      assert CellWord(s, mem', p) == CellWord(s, mem, p);
    }
    SameTable(s, mem[f], mem'[f]);
  }

  /** Physical memory is a function of what is mapped, linked and stored, and, as the program is written, of which pages
      with a cell in the directory have been freed before. */
  lemma Canonical(s: Scheme, mem: Memory, l: Layout, mem': Memory, l': Layout)
    requires Inv(s, mem, l) && Inv(s, mem', l') && l'.frameOf == l.frameOf && l'.blocks == l.blocks
    requires Contents(s, mem', l') == Contents(s, mem, l)
    ensures mem' == mem <==> SameFree(s, l, l')
    ensures !s.asWritten ==> mem' == mem
  {
    hide Mapped, Placed, Directory, Cells, FreeFramesZero, Linked, Shape, Scheme.Ok, CellWord, Contents, Scheme.Pages,
      Scheme.Usable, SameFree;
    CellsSame(s, mem, l, mem', l');
    SameLength(s, mem, mem');
    if SameFree(s, l, l') {
      forall f: nat | f < s.Pages() ensures mem'[f] == mem[f] {
        FrameSame(s, mem, l, mem', l', f);
      }
      assert mem' == mem;
    }
  }

  lemma SameLength(s: Scheme, mem: Memory, mem': Memory)
    requires Shape(s, mem) && Shape(s, mem')
    ensures |mem| == |mem'| == s.Pages()
  {
  }

  lemma CellsSame(s: Scheme, mem: Memory, l: Layout, mem': Memory, l': Layout)
    requires s.Ok() && Shape(s, mem) && Shape(s, mem') && Cells(s, mem, l) && Cells(s, mem', l')
      && l'.frameOf == l.frameOf
    ensures !s.asWritten ==> SameFree(s, l, l')
    ensures SameFree(s, l, l') ==> forall p: nat :: p < s.Usable() ==> CellWord(s, mem', p) == CellWord(s, mem, p)
    ensures mem' == mem ==> SameFree(s, l, l')
  {
    hide CellWord;
    forall p: nat | p < s.Usable() && p !in l.frameOf
      ensures CellWord(s, mem, p) == FreeCell(s, l.cleared, p) && CellWord(s, mem', p) == FreeCell(s, l'.cleared, p)
    {
    }
  }

  lemma FrameSame(s: Scheme, mem: Memory, l: Layout, mem': Memory, l': Layout, f: nat)
    requires Inv(s, mem, l) && Inv(s, mem', l') && l'.frameOf == l.frameOf && l'.blocks == l.blocks
    requires Contents(s, mem', l') == Contents(s, mem, l) && SameFree(s, l, l') && f < s.Pages()
    ensures mem'[f] == mem[f]
  {
    hide Mapped, Placed, Directory, Cells, Linked, Contents, SameFree, CellWord;
    if f in l.frameOf.Values {
      var p :| p in l.frameOf && l.frameOf[p] == f;
      MappedFrameSame(s, mem, l, mem', l', p);
    } else if s.HoldsTable(f) {
      if f == 0 && !s.asWritten {
        DirectorySame(s, mem, mem');
      } else {
        CellsSame(s, mem, l, mem', l');
        TableSame(s, mem, mem', f);
      }
    }
  }

  // ---- Freeing what was allocated

  lemma {:induction false} ZipKeys(b: seq<nat>, fs: seq<nat>)
    requires |b| == |fs|
    ensures Zip(b, fs).Keys == SetOf(b)
  {
    if b != [] {
      var n := |b| - 1;
      ZipKeys(b[..n], fs[..n]);
      assert b == b[..n] + [b[n]];
    }
  }

  /** Freeing all pages of an allocation undoes the allocation, whatever was stored in it: mappings, allocations and
      bytes are as before. All of physical memory is, exactly if the cells of the pages were null before the
      allocation; in the intended program they always are. */
  lemma FreeUndoesMalloc(s: Scheme, mem0: Memory, l0: Layout, b: seq<nat>, fs: seq<nat>, l1: Layout,
                         c1: map<nat, seq<byte>>, mem2: Memory, l2: Layout)
    requires Inv(s, mem0, l0) && FirstFit({0} + l0.frameOf.Keys, s.Pages(), b) && Allocated(l0, b, fs, l1)
    requires b[0] in c1 && c1 - {b[0]} == Contents(s, mem0, l0) - {b[0]}
    requires forall i :: 0 <= i < |b| ==> b[i] < s.Usable()
    requires Inv(s, mem2, l2) && FreedPages(l1, b[0], |b|, l2)
    requires FreedBytes(c1, b, |b|, StreamIndex(s, |b|, 0), Contents(s, mem2, l2))
    ensures l2.frameOf == l0.frameOf && l2.blocks == l0.blocks && Contents(s, mem2, l2) == Contents(s, mem0, l0)
    ensures mem2 == mem0 <==> CellsNull(s, mem0, b)
    ensures !s.asWritten ==> mem2 == mem0
  {
    hide Directory, Cells, Linked, FreeFramesZero, Shape, Mapped, Scheme.Ok, StreamIndex, Zip, SameFree, FirstFit,
      BlockData, Placed, CellsNull;
    NewPagesOf(s, mem0, l0, b);
    ZipKeys(b, fs);
    assert b[..|b|] == b;
    NewKeys(s, mem0, l0, b);
    PlusThenMinus(l0.frameOf, Zip(b, fs), SetOf(b));
    assert l2.blocks == l0.blocks;
    assert Contents(s, mem2, l2) == c1 - {b[0]};
    Canonical(s, mem0, l0, mem2, l2);
    NullIsSame(s, mem0, l0, b, l2);
  }

  /** Do the cells of all these pages hold null? */
  ghost predicate CellsNull(s: Scheme, mem: Memory, b: seq<nat>)
    requires s.Ok() && Shape(s, mem)
  {
    forall i :: 0 <= i < |b| ==> b[i] < s.Usable() && CellWord(s, mem, b[i]) == 0
  }

  lemma NullIsSame(s: Scheme, mem: Memory, l: Layout, b: seq<nat>, l': Layout)
    requires s.Ok() && Shape(s, mem) && Cells(s, mem, l) && l'.cleared == l.cleared + SetOf(b)
    requires SetOf(b) !! l.frameOf.Keys && forall i :: 0 <= i < |b| ==> b[i] < s.Usable()
    ensures CellsNull(s, mem, b) <==> SameFree(s, l, l')
  {
    hide CellWord;
    BelowBase(s);
    forall i | 0 <= i < |b|
      ensures CellWord(s, mem, b[i]) == FreeCell(s, l.cleared, b[i]) && FreeCell(s, l'.cleared, b[i]) == 0 {
      assert b[i] in SetOf(b);
    }
    if CellsNull(s, mem, b) {
      forall p: nat | p < s.Usable() && p !in l.frameOf
        ensures FreeCell(s, l'.cleared, p) == FreeCell(s, l.cleared, p) {
        if p in SetOf(b) {
          var i :| 0 <= i < |b| && b[i] == p;
        }
      }
    }
  }

  /** In a new memory, as the program is written, the cell of a low page holds the address of the directory: it is not
      null. */
  lemma FreshCell(s: Scheme, mem: Memory, p: nat)
    requires Inv(s, mem, NoLayout()) && s.asWritten && p < s.DirEntries() && p < s.Usable()
    ensures CellWord(s, mem, p) == s.Pointer(0, 0) != 0
  {
    hide Placed, Directory, Linked, FreeFramesZero, Shape, CellWord;
    BelowBase(s);
  }

  lemma NewKeys(s: Scheme, mem: Memory, l: Layout, b: seq<nat>)
    requires Inv(s, mem, l) && FirstFit({0} + l.frameOf.Keys, s.Pages(), b)
    ensures SetOf(b) !! l.frameOf.Keys
  {
    hide Inv;
    var used := {0} + l.frameOf.Keys;
    forall i | 0 <= i < |b| ensures b[i] !in l.frameOf {
      assert Bitmap.IsFirstFree(used + SetOf(b[..i]), s.Pages(), b[i]);
    }
  }

  lemma PlusThenMinus(m: map<nat, nat>, n: map<nat, nat>, keys: set<nat>)
    requires n.Keys == keys && keys !! m.Keys
    ensures (m + n) - keys == m
  {
  }

  // ---- Counting

  /** The bitmaps mark page 0 and the mapped pages, and the reserved frames and the frames of mapped pages; no two pages
      share a frame and none has a reserved one. */
  lemma MarksExact(vm: VirtualMemory)
    requires vm.Valid()
    ensures vm.VirtualPages() == {0} + vm.layout.frameOf.Keys && 0 !in vm.layout.frameOf
    ensures vm.Frames() == UpTo(vm.scheme.DirEntries()) + vm.layout.frameOf.Values
    ensures forall p, q :: p in vm.layout.frameOf && q in vm.layout.frameOf && p != q ==>
      vm.layout.frameOf[p] != vm.layout.frameOf[q]
    ensures forall p :: p in vm.layout.frameOf ==> vm.layout.frameOf[p] !in UpTo(vm.scheme.DirEntries())
  {
    hide Placed, Directory, Cells, Linked, FreeFramesZero, Shape, VirtualMemory.CacheOk, Bitmap.Members, Scheme.Ok,
      UpTo, Pow2;
  }

  /** Frames in use and pages in use differ by the table frames, always. */
  lemma Conservation(vm: VirtualMemory)
    requires vm.Valid()
    ensures |vm.Frames()| == vm.scheme.DirEntries() + |vm.VirtualPages()|
  {
    hide Placed, Directory, Cells, Linked, FreeFramesZero, Shape, Mapped, VirtualMemory.CacheOk, Bitmap.Members,
      Scheme.Ok, Scheme.DirEntries, Reserved;
    MapConserves(vm.scheme, vm.layout);
  }

  lemma MapConserves(s: Scheme, l: Layout)
    requires Mapped(s, l)
    ensures |Reserved(s) + l.frameOf.Values| == s.DirEntries() + |{0} + l.frameOf.Keys|
  {
    hide Pow2, Scheme.Pages, Scheme.Usable;
    ValuesSize(l.frameOf);
    UnionSize(Reserved(s), l.frameOf.Values);
    UnionSize({0}, l.frameOf.Keys);
  }

  lemma UnionSize(a: set<nat>, b: set<nat>)
    requires a !! b
    ensures |a + b| == |a| + |b|
  {
  }

  /** So an allocation fits as soon as enough frames are left: free pages are never short. */
  lemma FramesDecide(vm: VirtualMemory, n: nat)
    requires vm.Valid()
    ensures vm.Fits(n) <==> |vm.Frames()| + n <= vm.scheme.Pages()
  {
    hide VirtualMemory.Valid, VirtualMemory.Frames, VirtualMemory.VirtualPages;
    Conservation(vm);
  }

  // ---- The translation cache

  /** The cache holds the most recently translated pages, latest first. */
  lemma CacheIsMostRecent(vm: VirtualMemory)
    requires vm.Valid()
    ensures Lru.MostRecent(EntryPages(vm.scheme, vm.tlb.Contents()), vm.tlbEntries, Lru.LastUses(vm.trace))
  {
    hide Inv, VirtualMemory.BitmapsOk, Lru.MostRecent, Lru.LastUses, Lru.Reinserting, Lru.Run;
    CacheSize(vm);
    Lru.RunIsMostRecent(vm.tlbEntries, vm.trace);
  }

  lemma CacheSize(vm: VirtualMemory)
    requires vm.Valid()
    ensures vm.tlbEntries >= 1
  {
  }

  /** After the same history a larger cache holds all that a smaller one does, and missed no more often. */
  lemma LargerCacheMissesNoMore(vm: VirtualMemory, larger: VirtualMemory)
    requires vm.Valid() && larger.Valid() && larger.trace == vm.trace
      && vm.tlbEntries <= larger.tlbEntries
    ensures larger.misses <= vm.misses && larger.lookups == vm.lookups
    ensures EntryPages(vm.scheme, vm.tlb.Contents()) <= EntryPages(larger.scheme, larger.tlb.Contents())
  {
    hide Inv, VirtualMemory.BitmapsOk, Lru.Reinserting, Lru.Run, Lru.Misses, Lru.Uses;
    CacheSize(vm);
    Lru.Inclusion(vm.tlbEntries, larger.tlbEntries, vm.trace);
  }

  // ---- The directory as it is written

  /** As the program is written the directory is also the table of the first pages: its entry `d`
      is the cell of page `d`. */
  lemma DirectoryIsTable(s: Scheme, mem: Memory, d: nat)
    requires s.Ok() && Shape(s, mem) && s.asWritten && d < s.TableEntries()
    ensures EntryWord(s, mem, d) == CellWord(s, mem, d)
  {
    CellInTables(s, d);
  }

  /** The address the walk computes for the cell of a page. */
  ghost function Walk(s: Scheme, mem: Memory, page: nat): nat
    requires s.Ok() && Shape(s, mem) && page < s.Pages()
  {
    IndexBounds(s, page);
    EntryWord(s, mem, Quotient(page, s.TableEntries())) + s.EntryOffset(Remainder(page, s.TableEntries()))
  }

  /** The walk ends at an entry of a table, and at one that no lower page shares. */
  ghost predicate OwnCell(s: Scheme, mem: Memory, page: nat)
    requires s.Ok() && Shape(s, mem) && page < s.Pages()
  {
    && s.base <= Walk(s, mem, page) && s.HoldsTable(s.FrameOfPointer(Walk(s, mem, page)))
    && forall q: nat {:trigger Walk(s, mem, q)} :: q < page ==> Walk(s, mem, q) != Walk(s, mem, page)
  }

  /** Behind the first table the walk goes through the cell of a lower page: into the data of that
      page, nowhere, or to a cell of the first table. */
  lemma WalkBeyond(s: Scheme, mem: Memory, l: Layout, page: nat)
    requires Inv(s, mem, l) && s.asWritten && s.TableEntries() <= page < s.Pages()
    ensures
      var d, r := Quotient(page, s.TableEntries()), Remainder(page, s.TableEntries());
      if d in l.frameOf then Walk(s, mem, page) == s.Pointer(l.frameOf[d], s.EntryOffset(r))
      else Walk(s, mem, page) == s.EntryOffset(r) || (r < s.Pages() && Walk(s, mem, page) == Walk(s, mem, r))
  {
    hide Mapped, Placed, Linked, FreeFramesZero, Shape, Scheme.Ok, Scheme.Pointer, EntryWord, CellWord,
      Scheme.EntryOffset;
    var d, r := Quotient(page, s.TableEntries()), Remainder(page, s.TableEntries());
    FrameCount(s);
    IndexBounds(s, page);
    IndexBounds(s, r);
    DirectoryIsTable(s, mem, d);
    DirectoryEntry(s, mem, 0);
    if d in l.frameOf {
      PointerSum(s, l.frameOf[d], s.EntryOffset(r));
    }
  }

  lemma WalkWithin(s: Scheme, mem: Memory, l: Layout, page: nat)
    requires Inv(s, mem, l) && page < s.Usable() && page < s.Pages()
    ensures Walk(s, mem, page) == s.CellPointer(page)
  {
    hide Mapped, Placed, Linked, FreeFramesZero, Shape, Scheme.Ok, Cells, EntryWord, Scheme.EntryOffset,
      Scheme.CellPointer, Scheme.Pages;
    WalkReachesCell(s, mem, page, Quotient(page, s.TableEntries()));
  }

  lemma CellPointersApart(s: Scheme, p: nat, q: nat)
    requires s.Ok() && p < s.Usable() && q < s.Usable() && p != q
    ensures s.CellPointer(p) != s.CellPointer(q)
    ensures s.HoldsTable(s.FrameOfPointer(s.CellPointer(p)))
  {
    CellInTables(s, p);
    CellInTables(s, q);
    CellsApart(s, p, q);
    SplitPointer(s, s.CellFrame(p), s.CellOffset(p));
    SplitPointer(s, s.CellFrame(q), s.CellOffset(q));
  }

  /** A page's walk ends at a cell of its own exactly if the page is usable: as written, if the first
      directory entry serves it; as intended, always. */
  lemma OwnCellIffUsable(s: Scheme, mem: Memory, l: Layout, page: nat)
    requires Inv(s, mem, l) && page < s.Pages()
    ensures OwnCell(s, mem, page) <==> page < s.Usable()
  {
    hide Mapped, Placed, Linked, FreeFramesZero, Shape, Scheme.Ok, Cells, Directory, Walk, Scheme.CellPointer,
      Scheme.Pages, Scheme.Pointer, Scheme.EntryOffset, Quotient, Remainder;
    FrameCount(s);
    if page < s.Usable() {
      WalkWithin(s, mem, l, page);
      forall q: nat | q < page ensures Walk(s, mem, q) != Walk(s, mem, page) {
        WalkWithin(s, mem, l, q);
        CellPointersApart(s, q, page);
      }
      OwnFrame(s, page);
    } else {
      BeyondIsForeign(s, mem, l, page);
    }
  }

  lemma OwnFrame(s: Scheme, p: nat)
    requires s.Ok() && p < s.Usable()
    ensures s.base <= s.CellPointer(p) && s.HoldsTable(s.FrameOfPointer(s.CellPointer(p)))
  {
    CellInTables(s, p);
    SplitPointer(s, s.CellFrame(p), s.CellOffset(p));
  }

  lemma BeyondIsForeign(s: Scheme, mem: Memory, l: Layout, page: nat)
    requires Inv(s, mem, l) && s.Usable() <= page < s.Pages()
    ensures !OwnCell(s, mem, page)
  {
    hide Placed, Linked, FreeFramesZero, Shape, Scheme.Ok, Cells, Directory, Walk, Scheme.Pages, Scheme.Pointer,
      Scheme.EntryOffset;
    var d, r := Quotient(page, s.TableEntries()), Remainder(page, s.TableEntries());
    WalkBeyond(s, mem, l, page);
    EntryInFrame(s, r);
    FrameCount(s);
    BelowBase(s);
    if d in l.frameOf {
      SplitPointer(s, l.frameOf[d], s.EntryOffset(r));
    }
  }

  lemma BelowBase(s: Scheme)
    requires s.Ok()
    ensures s.PageSize() <= s.base && s.Word() > 0
  {
  }

  /** As written, the cell of page 0 holds the address of the directory, so addresses in page 0
      pass for addresses of an allocation; as intended it is null. */
  lemma PageZeroCell(s: Scheme, mem: Memory, l: Layout)
    requires Inv(s, mem, l) && 0 < s.Usable()
    ensures CellWord(s, mem, 0) == if s.asWritten then s.Pointer(0, 0) else 0
  {
    hide Placed, Linked, FreeFramesZero, Shape, Scheme.Ok, Scheme.Pointer, EntryWord, CellWord;
    FrameCount(s);
    if s.asWritten {
      DirectoryIsTable(s, mem, 0);
      DirectoryEntry(s, mem, 0);
    }
  }

  /** The chain check is right about an address exactly if it asks for nothing, or the address is null or not in page 0,
      or, as written, it asks for more pages than go on from the directory's own address. */
  lemma CheckIsRight(s: Scheme, mem: Memory, l: Layout, va: nat, count: nat)
    requires Inv(s, mem, l)
    ensures (Accepted(s, l, va, count) <==> LinkedFrom(l, s.PageOf(va), count)) <==>
      count == 0 || !InPageZero(s, va) || (count > 1 && !LinkedFrom(l, s.PageOf(s.Pointer(0, 0)), count - 1))
  {
    hide Directory, Cells, FreeFramesZero, Linked, Shape, Scheme.Ok, Scheme.Pointer, Scheme.PageOf;
    NullPage(s, mem, l);
  }

  /** So the check for one page is right, as written, exactly for null and for addresses outside page 0. */
  lemma OnePageCheck(s: Scheme, mem: Memory, l: Layout, va: nat)
    requires Inv(s, mem, l) && s.asWritten
    ensures (Accepted(s, l, va, 1) <==> LinkedFrom(l, s.PageOf(va), 1)) <==> va == 0 || s.PageOf(va) != 0
  {
    CheckIsRight(s, mem, l, va, 1);
  }

  /** A memory that lies above the simulated addresses never lets a copy from page 0 go on. */
  lemma NeverGoesOn(s: Scheme, mem: Memory, l: Layout, va: nat, n: nat)
    requires Inv(s, mem, l) && Pow2(s.MaxBits()) <= s.base
    ensures !GoesOn(s, l, va, n)
  {
    hide Directory, Cells, FreeFramesZero, Linked, Shape, PagesFor, Quotient;
    FrameCount(s);
    Sizes(s);
    assert s.Pointer(0, 0) == s.base;
    QuotientBelow(s.base, s.Pages(), s.PageSize());
  }

  lemma QuotientBelow(x: nat, k: nat, m: nat)
    requires m > 0 && k * m <= x
    ensures Quotient(x, m) >= k
  {
    if Quotient(x, m) < k {
      ScaleMonotone(Quotient(x, m) + 1, k, m);
    }
  }

  /** Bytes stored in the directory keep the bookkeeping right exactly if they were there before. Cells outside the
      stretch keep their words. */
  lemma StoreInDirectory(s: Scheme, mem: Memory, l: Layout, o: nat, d: seq<byte>)
    requires Inv(s, mem, l) && s.asWritten && 0 < s.Pages() && o + |d| <= s.Payload()
    ensures
      var mem' := WriteMemory(s, mem, 0, o, d);
      && (Inv(s, mem', l) <==> mem' == mem)
      && forall p: nat :: p < s.Usable() && CellOutside(s, p, o, |d|) ==> CellWord(s, mem', p) == CellWord(s, mem, p)
  {
    hide Mapped, Placed, Directory, Cells, FreeFramesZero, Linked, Scheme.Ok, CellWord, Contents, WriteMemory,
      CellOutside;
    var mem' := WriteMemory(s, mem, 0, o, d);
    if Inv(s, mem', l) {
      SameBytes(s, mem, l, o, d);
      Canonical(s, mem, l, mem', l);
    }
    forall p: nat | p < s.Usable() && CellOutside(s, p, o, |d|) ensures CellWord(s, mem', p) == CellWord(s, mem, p) {
      CellSpared(s, mem, o, d, p);
    }
  }

  /** Does the cell of page `p` lie outside the `n` bytes at offset `o` behind the first word? */
  predicate CellOutside(s: Scheme, p: nat, o: nat, n: nat) {
    s.CellOffset(p) + s.Word() <= s.Word() + o || s.Word() + o + n <= s.CellOffset(p)
  }

  lemma CellSpared(s: Scheme, mem: Memory, o: nat, d: seq<byte>, p: nat)
    requires s.Ok() && Shape(s, mem) && 0 < s.Pages() && o + |d| <= s.Payload() && p < s.Usable()
    requires CellOutside(s, p, o, |d|)
    ensures CellWord(s, WriteMemory(s, mem, 0, o, d), p) == CellWord(s, mem, p)
  {
    hide Scheme.CellOffset, Scheme.CellFrame, Splice;
    CellInTables(s, p);
    if s.CellFrame(p) == 0 {
      WordElsewhere(mem[0], s.Word() + o, d, s.CellOffset(p), s.Word());
    }
  }

  /** No allocation has its bytes in the directory. */
  lemma SameBytes(s: Scheme, mem: Memory, l: Layout, o: nat, d: seq<byte>)
    requires Inv(s, mem, l) && 0 < s.Pages() && o + |d| <= s.Payload() && Inv(s, WriteMemory(s, mem, 0, o, d), l)
    ensures Contents(s, WriteMemory(s, mem, 0, o, d), l) == Contents(s, mem, l)
  {
    hide Directory, Cells, FreeFramesZero, Linked, Scheme.Ok, Stream, Shape, WriteMemory, Data;
    var mem' := WriteMemory(s, mem, 0, o, d);
    forall h | h in l.blocks ensures BlockData(s, mem', l, h) == BlockData(s, mem, l, h) {
      BlockKnown(s, mem, l, h);
      forall i | 0 <= i < |l.blocks[h]|
        ensures Data(s, mem', l.frameOf[l.blocks[h][i]]) == Data(s, mem, l.frameOf[l.blocks[h][i]])
      {
        WriteData(s, mem, 0, o, d, l.frameOf[l.blocks[h][i]]);
      }
      StreamUnchanged(s, mem, mem', l.frameOf, l.frameOf, l.blocks[h]);
    }
  }

  /** With the directory cleared there is no bookkeeping that fits, and every walk leads to an offset from null. */
  lemma DirectoryCleared(s: Scheme, mem: Memory)
    requires s.Ok() && Shape(s, mem) && s.asWritten && 0 < s.Pages()
    ensures forall l :: !Inv(s, Zeroed(s, mem, 0), l)
    ensures forall page: nat :: page < s.Pages() ==>
      Walk(s, Zeroed(s, mem, 0), page) == s.EntryOffset(Remainder(page, s.TableEntries()))
  {
    hide Scheme.Ok, Scheme.EntryOffset, Zeros;
    var mem' := Zeroed(s, mem, 0);
    BelowBase(s);
    FrameCount(s);
    forall d: nat | d < s.TableEntries() ensures EntryWord(s, mem', d) == 0 {
      EntryInFrame(s, d);
      WordOfZeros(s.PageSize(), s.EntryOffset(d), s.Word());
    }
    forall page: nat | page < s.Pages()
      ensures Walk(s, mem', page) == s.EntryOffset(Remainder(page, s.TableEntries()))
    {
      IndexBounds(s, page);
    }
    assert DirectoryWord(s, 0) == s.Pointer(0, 0) > 0;
  }

  /** Are these mapped pages, whose cells and frames can be cleared? */
  ghost predicate Droppable(s: Scheme, l: Layout, q: seq<nat>) {
    s.Ok() && Mapped(s, l) && forall i :: 0 <= i < |q| ==> q[i] in l.frameOf
  }

  /** The pages freed one after another. */
  ghost function DropAll(s: Scheme, mem: Memory, l: Layout, q: seq<nat>): (r: Memory)
    requires Shape(s, mem) && Droppable(s, l, q)
    ensures Shape(s, r)
    decreases |q|
  {
    if q == [] then mem else DropAll(s, DropMemory(s, mem, l, q[0]), l, q[1..])
  }

  /** Freeing any number of pages from one on that is not the first of its allocation leaves a link to a page that is
      not in use any more: no bookkeeping without those pages describes the memory. */
  lemma FreeFromTheMiddle(s: Scheme, mem: Memory, l: Layout, h: nat, k: nat, n: nat, l': Layout)
    requires Inv(s, mem, l) && h in l.blocks && 1 <= k < n <= |l.blocks[h]|
    requires l'.frameOf == l.frameOf - SetOf(l.blocks[h][k..n])
    ensures Droppable(s, l, l.blocks[h][k..n]) && !Inv(s, DropAll(s, mem, l, l.blocks[h][k..n]), l')
  {
    hide Mapped, Placed, Directory, Cells, FreeFramesZero, Shape, Scheme.Ok, Linked, LinkWord, DropAll,
      Scheme.AddressOf;
    var b := l.blocks[h];
    var p, q := b[k - 1], b[k..n];
    LinkedNeighbours(s, mem, l, h, k);
    PagesOfBlock(s, mem, l, h, k, n);
    LinkKept(s, mem, l, q, p);
    assert q[0] == b[k] && b[k] !in l'.frameOf;
    if Inv(s, DropAll(s, mem, l, q), l') {
      var g', i' := MappedPage(s, DropAll(s, mem, l, q), l', p);
      LinkNames(s, l'.blocks[g'], i', b[k]);
    }
  }

  lemma PagesOfBlock(s: Scheme, mem: Memory, l: Layout, h: nat, k: nat, n: nat)
    requires Inv(s, mem, l) && h in l.blocks && 1 <= k < n <= |l.blocks[h]|
    ensures Droppable(s, l, l.blocks[h][k..n]) && l.blocks[h][k - 1] !in l.blocks[h][k..n]
  {
    hide Directory, Cells, FreeFramesZero, Shape, Scheme.Ok, Linked, Mapped;
    var b := l.blocks[h];
    forall i | k <= i < n ensures b[i] in l.frameOf && b[i] != b[k - 1] {
      assert l.place[b[i]] == (h, i) && l.place[b[k - 1]] == (h, k - 1);
    }
  }

  /** Freeing other pages leaves the link of a page alone. */
  lemma {:induction false} LinkKept(s: Scheme, mem: Memory, l: Layout, q: seq<nat>, p: nat)
    requires Shape(s, mem) && Droppable(s, l, q) && p in l.frameOf && p !in q
    ensures l.frameOf[p] < s.Pages()
    ensures LinkWord(s, DropAll(s, mem, l, q), l.frameOf[p]) == LinkWord(s, mem, l.frameOf[p])
    decreases |q|
  {
    hide LinkWord, Shape, Scheme.Ok, DropMemory;
    if q != [] {
      OtherFrame(s, mem, l, q[0], p);
      LinkKept(s, DropMemory(s, mem, l, q[0]), l, q[1..], p);
    }
  }

  lemma LinkedNeighbours(s: Scheme, mem: Memory, l: Layout, h: nat, k: nat)
    requires Inv(s, mem, l) && h in l.blocks && 1 <= k < |l.blocks[h]|
    ensures
      var p, q := l.blocks[h][k - 1], l.blocks[h][k];
      && p in l.frameOf && q in l.frameOf && p != q && q > 0 && l.frameOf[p] < s.Pages()
      && LinkWord(s, mem, l.frameOf[p]) == s.AddressOf(q, 0)
  {
    hide Directory, Cells, FreeFramesZero, Shape, Scheme.Ok, Linked, LinkWord, Scheme.AddressOf;
    var p, q := l.blocks[h][k - 1], l.blocks[h][k];
    assert l.place[p] == (h, k - 1) && l.place[q] == (h, k);
    var g, i := MappedPage(s, mem, l, p);
  }

  lemma OtherFrame(s: Scheme, mem: Memory, l: Layout, q: nat, p: nat)
    requires Shape(s, mem) && Droppable(s, l, [q]) && q in l.frameOf && p in l.frameOf && p != q
    ensures q < s.Usable() && l.frameOf[q] < s.Pages() && l.frameOf[p] < s.Pages()
    ensures LinkWord(s, DropMemory(s, mem, l, q), l.frameOf[p]) == LinkWord(s, mem, l.frameOf[p])
  {
    hide Scheme.Ok;
    FrameCount(s);
    assert l.frameOf[p] != l.frameOf[q];
    assert DropMemory(s, mem, l, q)[l.frameOf[p]] == mem[l.frameOf[p]];
  }

  lemma LinkNames(s: Scheme, block: seq<nat>, i: nat, q: nat)
    requires i < |block| && q > 0 && LinkAfter(s, block, i) == s.AddressOf(q, 0)
    ensures i + 1 < |block| && block[i + 1] == q
  {
    ScaleMonotone(1, q, s.PageSize());
    if i + 1 < |block| {
      Split(q, s.PageSize(), 0);
      Split(block[i + 1], s.PageSize(), 0);
    }
  }
}
