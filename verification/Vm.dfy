/** The user-level virtual memory: page tables, bitmaps and data in one block of simulated
    physical memory, with a translation cache in front of the page walk. */
module Vm {
  import opened Arithmetic
  import opened Words
  import opened Collections
  import opened VmScheme
  import opened VmState
  import opened VmSteps
  import opened VmStream
  import opened VmAlloc
  import opened VmTrace
  import Bitmap
  import Lru
  import Tlb

  /** Cached translations agree with the page tables. */
  ghost predicate Transparent(s: Scheme, entries: seq<Tlb.Entry>) {
    forall i :: 0 <= i < |entries| ==>
      s.PageOf(entries[i].va) < s.Usable() && entries[i].cell == s.CellPointer(s.PageOf(entries[i].va))
  }

  ghost function EntryPages(s: Scheme, entries: seq<Tlb.Entry>): (r: seq<nat>)
    ensures |r| == |entries|
  {
    seq(|entries|, i requires 0 <= i < |entries| => s.PageOf(entries[i].va))
  }

  /** The cached entries are what the history of lookups and removals makes them, they agree with
      the tables, and the counters count lookups and misses of that history. */
  ghost predicate CacheState(s: Scheme, cap: nat, entries: seq<Tlb.Entry>, trace: seq<Lru.Op>, misses: nat,
                             lookups: nat)
    requires cap >= 1
  {
    && Transparent(s, entries)
    && EntryPages(s, entries) == Lru.Run(cap, trace)
    && misses == Lru.Misses(cap, trace) && lookups == Lru.Uses(trace)
  }

  ghost predicate FirstOf(s: Scheme, entries: seq<Tlb.Entry>, k: nat, p: nat) {
    && k <= |entries|
    && (forall i :: 0 <= i < k ==> s.PageOf(entries[i].va) != p)
    && (k < |entries| ==> s.PageOf(entries[k].va) == p)
  }

  lemma UnlinkedPages(s: Scheme, entries: seq<Tlb.Entry>, k: nat, p: nat)
    requires Lru.Distinct(EntryPages(s, entries)) && FirstOf(s, entries, k, p)
    ensures p in EntryPages(s, entries) <==> k < |entries|
    ensures k < |entries| ==> EntryPages(s, entries[..k] + entries[k + 1..]) == Without(EntryPages(s, entries), p)
  {
    var pages := EntryPages(s, entries);
    assert forall i :: 0 <= i < |entries| ==> pages[i] == s.PageOf(entries[i].va);
    hide Scheme.PageOf;
    if k < |entries| {
      assert pages[k] == p;
      WithoutAt(pages, k);
      assert EntryPages(s, entries[..k] + entries[k + 1..]) == pages[..k] + pages[k + 1..];
    }
  }

  /** A hit moves its entry to the front. */
  lemma HitKeeps(s: Scheme, cap: nat, entries: seq<Tlb.Entry>, trace: seq<Lru.Op>, misses: nat, lookups: nat, k: nat,
                 p: nat, hit: Tlb.Entry, rest: seq<Tlb.Entry>)
    requires cap >= 1 && CacheState(s, cap, entries, trace, misses, lookups) && FirstOf(s, entries, k, p)
    requires k < |entries| && hit == entries[k] && rest == entries[..k] + entries[k + 1..]
    ensures CacheState(s, cap, [hit] + rest, trace + [Lru.Use(p)], misses, lookups + 1)
    ensures |rest| < cap && hit.cell == s.CellPointer(p)
  {
    hide Scheme.PageOf, Scheme.CellPointer, Lru.Run, Lru.Misses, Lru.Uses, Without;
    Lru.RunWellFormed(cap, trace);
    Lru.RunSnoc(cap, trace, Lru.Use(p));
    UnlinkedPages(s, entries, k, p);
    assert EntryPages(s, [hit] + rest) == [p] + EntryPages(s, rest);
  }

  /** A miss puts the new entry in front, after making room for it. */
  lemma MissKeeps(s: Scheme, cap: nat, entries: seq<Tlb.Entry>, trace: seq<Lru.Op>, misses: nat, lookups: nat, va: nat)
    requires cap >= 1 && CacheState(s, cap, entries, trace, misses, lookups) && s.PageOf(va) < s.Usable()
    requires FirstOf(s, entries, |entries|, s.PageOf(va))
    ensures |entries| <= cap
    ensures CacheState(s, cap, [Tlb.Entry(va, s.CellPointer(s.PageOf(va)))]
                          + (if |entries| == cap then entries[..cap - 1] else entries),
                       trace + [Lru.Use(s.PageOf(va))], misses + 1, lookups + 1)
  {
    hide Scheme.PageOf, Scheme.CellPointer, Lru.Run, Lru.Misses, Lru.Uses;
    var p := s.PageOf(va);
    Lru.RunWellFormed(cap, trace);
    Lru.RunSnoc(cap, trace, Lru.Use(p));
    UnlinkedPages(s, entries, |entries|, p);
    var rest := if |entries| == cap then entries[..cap - 1] else entries;
    assert EntryPages(s, rest) == Lru.Evicted(EntryPages(s, entries), cap);
    assert EntryPages(s, [Tlb.Entry(va, s.CellPointer(p))] + rest) == [p] + EntryPages(s, rest);
  }

  /** Removing the entry of a page that is being freed. */
  lemma RemovalKeeps(s: Scheme, cap: nat, entries: seq<Tlb.Entry>, trace: seq<Lru.Op>, misses: nat, lookups: nat,
                     k: nat, p: nat)
    requires cap >= 1 && CacheState(s, cap, entries, trace, misses, lookups) && FirstOf(s, entries, k, p)
    ensures |entries| <= cap
    ensures
      var rest := if k < |entries| then entries[..k] + entries[k + 1..] else entries;
      CacheState(s, cap, rest, trace + [Lru.Drop(p)], misses, lookups)
  {
    hide Scheme.PageOf, Scheme.CellPointer, Lru.Run, Lru.Misses, Lru.Uses;
    Lru.RunWellFormed(cap, trace);
    Lru.RunSnoc(cap, trace, Lru.Drop(p));
    UnlinkedPages(s, entries, k, p);
  }

  /** The numbers 0 to `n`. */
  ghost function UpTo(n: nat): (r: set<nat>)
    ensures forall f: nat :: f in r <==> f <= n
    ensures |r| == n + 1
  {
    if n == 0 then {0} else UpTo(n - 1) + {n}
  }

  /** The frames taken at start: the directory and one frame for each of its entries. */
  ghost function Reserved(s: Scheme): set<nat> {
    UpTo(s.DirEntries())
  }

  /** What the bitmaps have to say after a drop. */
  lemma DroppedSets(s: Scheme, l: Layout, h: nat)
    requires Mapped(s, l) && s.Usable() <= s.Pages() && h in l.blocks && |l.blocks[h]| > 0 && h in l.frameOf
    ensures h < s.Pages() && l.frameOf[h] < s.Pages()
    ensures {0} + DropLayout(l, h).frameOf.Keys == {0} + l.frameOf.Keys - {h}
    ensures Reserved(s) + DropLayout(l, h).frameOf.Values == Reserved(s) + l.frameOf.Values - {l.frameOf[h]}
  {
    ValuesWithout(l.frameOf, h);
  }

  lemma UsablePages(s: Scheme, l: Layout)
    requires s.Ok() && Mapped(s, l)
    ensures forall p :: p in {0} + l.frameOf.Keys ==> p < s.Usable()
  {
    FrameCount(s);
  }

  /** All frames in use are frames of the memory. */
  lemma FramesBelow(s: Scheme, mem: Memory, l: Layout)
    requires Inv(s, mem, l)
    ensures forall f :: f in Reserved(s) + l.frameOf.Values ==> f < s.Pages()
  {
    FrameCount(s);
  }

  lemma FreeFrame(s: Scheme, l: Layout, f: nat)
    requires f !in Reserved(s) + l.frameOf.Values
    ensures s.DirEntries() < f && f !in l.frameOf.Values
  {
  }

  ghost predicate AddressesOf(s: Scheme, b: seq<nat>, links: seq<nat>) {
    |links| == |b| && forall i :: 0 <= i < |b| ==> links[i] == s.AddressOf(b[i], 0)
  }

  ghost predicate PointersTo(s: Scheme, fs: seq<nat>, pointers: seq<nat>) {
    |pointers| == |fs| && forall i :: 0 <= i < |fs| ==> pointers[i] == s.Pointer(fs[i], 0)
  }

  /** What the mapping loop has done: pages `b` by first fit from `v0`, frames `fs` by first fit from `f0`,
      every page an allocation of its own so far. */
  ghost predicate Mapping(s: Scheme, l0: Layout, v0: set<nat>, f0: set<nat>, c0: map<nat, seq<byte>>, b: seq<nat>,
                          fs: seq<nat>, l: Layout, v: set<nat>, f: set<nat>, c: map<nat, seq<byte>>)
    requires s.Ok()
  {
    && FirstFit(v0, s.Pages(), b) && FirstFit(f0, s.Pages(), fs) && MappedSingles(l0, b, fs, l)
    && v == v0 + SetOf(b) && f == f0 + SetOf(fs) && c == c0 + ZeroPages(b, s.Payload())
  }

  lemma MappingFacts(s: Scheme, l0: Layout, v0: set<nat>, f0: set<nat>, c0: map<nat, seq<byte>>, b: seq<nat>,
                     fs: seq<nat>, l: Layout, v: set<nat>, f: set<nat>, c: map<nat, seq<byte>>)
    requires s.Ok() && Mapping(s, l0, v0, f0, c0, b, fs, l, v, f, c)
    ensures FirstFit(v0, s.Pages(), b) && FirstFit(f0, s.Pages(), fs) && MappedSingles(l0, b, fs, l)
    ensures c == c0 + ZeroPages(b, s.Payload())
  {
  }

  lemma MappingOneMore(s: Scheme, l0: Layout, v0: set<nat>, f0: set<nat>, c0: map<nat, seq<byte>>, b: seq<nat>,
                       fs: seq<nat>, l: Layout, v: set<nat>, f: set<nat>, c: map<nat, seq<byte>>, page: nat, frame: nat)
    requires s.Ok() && Mapping(s, l0, v0, f0, c0, b, fs, l, v, f, c)
    requires Bitmap.IsFirstFree(v, s.Pages(), page) && Bitmap.IsFirstFree(f, s.Pages(), frame)
    ensures Mapping(s, l0, v0, f0, c0, b + [page], fs + [frame], MapLayout(l, page, frame), v + {page}, f + {frame},
                    c[page := Zeros(s.Payload())])
    ensures |v + {page}| == |v| + 1 && |f + {frame}| == |f| + 1
  {
    hide FirstFit, SetOf, MapLayout, Zeros, ZeroPages, MappedSingles, Bitmap.IsFirstFree, Scheme.Ok, Scheme.Pages;
    FirstFitNext(v0, s.Pages(), b, page);
    FirstFitNext(f0, s.Pages(), fs, frame);
    MappedOneMore(l0, b, fs, l, page, frame);
    ZeroOneMore(c0, b, s.Payload(), page);
  }

  lemma NothingYet(s: Scheme, l: Layout, v: set<nat>, f: set<nat>, c: map<nat, seq<byte>>)
    requires s.Ok()
    ensures Mapping(s, l, v, f, c, [], [], l, v, f, c)
  {
    NoPairs(l.frameOf, Zip([], []));
    NoPairs(l.blocks, Singles([]));
    NoPairs(c, ZeroPages([], s.Payload()));
    assert SetOf([]) == {};
  }

  lemma NewPagesLater(s: Scheme, mem: Memory, l: Layout)
    requires Inv(s, mem, l)
    ensures forall b {:trigger NewPages(l, b)} :: FirstFit({0} + l.frameOf.Keys, s.Pages(), b) ==> NewPages(l, b)
  {
    forall b | FirstFit({0} + l.frameOf.Keys, s.Pages(), b) ensures NewPages(l, b) {
      NewPagesOf(s, mem, l, b);
    }
  }

  /** Page 0 is never handed out. */
  lemma FirstIsNotNull(s: Scheme, l: Layout, b: seq<nat>)
    requires b != [] && FirstFit({0} + l.frameOf.Keys, s.Pages(), b)
    ensures s.AddressOf(b[0], 0) != 0
  {
    assert Bitmap.IsFirstFree({0} + l.frameOf.Keys + SetOf(b[..0]), s.Pages(), b[0]);
    ScaleMonotone(1, b[0], s.PageSize());
  }

  lemma ChecksHold(s: Scheme)
    requires s.Ok()
    ensures 0 < Spare(s) && 1 + s.DirEntries() + Spare(s) <= s.Pages()
  {
    hide Pow2, Scheme.Ok;
    TableWidth(s);
    SpareIffEnough(s.tableBits, s.dirBits);
    Pow2Monotone(s.tableBits + s.dirBits - 3, s.tableBits + s.dirBits);
  }

  lemma TableWidth(s: Scheme)
    requires s.Ok()
    ensures 3 <= s.tableBits && EnoughFrames(s.tableBits, s.dirBits) && s.dirBits <= s.tableBits
  {
  }

  /** How many further frames the start-up check asks for. */
  function Spare(s: Scheme): int {
    (if 3 <= s.tableBits + s.dirBits then Pow2(s.tableBits + s.dirBits - 3) else 0) - 1 - s.DirEntries()
  }

  /** The count of spare frames asserted at the start is positive exactly for the schemes that are allowed. */
  lemma SpareIffEnough(tableBits: nat, dirBits: nat)
    requires 3 <= tableBits + dirBits && dirBits <= tableBits
    ensures 1 + Pow2(dirBits) < Pow2(tableBits + dirBits - 3) <==> EnoughFrames(tableBits, dirBits)
  {
    if dirBits > 0 {
      Pow2Monotone(0, dirBits);
    }
    if 5 <= tableBits {
      Pow2Monotone(dirBits + 1, tableBits + dirBits - 3);
    } else if tableBits == 4 {
      assert Pow2(dirBits + 1) == 2 * Pow2(dirBits);
    } else if tableBits < 3 {
      Pow2Monotone(tableBits + dirBits - 3, dirBits);
    }
  }

  lemma ReservedAlone(s: Scheme, frameOf: map<nat, nat>)
    requires s.Ok() && frameOf == map[]
    ensures |Reserved(s) + frameOf.Values| == 1 + s.DirEntries() && |{0} + frameOf.Keys| == 1
  {
    hide Scheme.Ok;
    assert Reserved(s) + frameOf.Values == Reserved(s);
    assert {0} + frameOf.Keys == {0};
  }

  lemma FirstReserved(limit: nat, p: int)
    requires 0 < limit && Bitmap.IsFirstFree({}, limit, p)
    ensures p == 0 && {p} == UpTo(0)
  {
    var none: set<nat> := {};
    assert 0 !in none;
  }

  lemma NextReserved(limit: nat, k: nat, p: int)
    requires k + 1 < limit && Bitmap.IsFirstFree(UpTo(k), limit, p)
    ensures p == k + 1 && UpTo(k) + {p} == UpTo(k + 1)
  {
    assert k + 1 !in UpTo(k);
  }

  lemma EmptyBitmap(s: seq<bv8>)
    requires forall i :: 0 <= i < |s| ==> s[i] == 0
    ensures Bitmap.Members(Bitmap.MsbFirst, s) == {}
  {
    forall p: nat | p < 8 * |s| ensures !Bitmap.Bit(Bitmap.MsbFirst, s, p) {
      assert s[p / 8] == 0;
    }
  }

  /** The directory filled up to entry `pt`, and nothing else stored yet. */
  ghost predicate Filled(s: Scheme, mem: Memory, pt: nat)
    requires s.Ok()
  {
    && Shape(s, mem)
    && (forall f :: 1 <= f < s.Pages() ==> mem[f] == Zeros(s.PageSize()))
    && (forall d: nat :: d < s.TableEntries() ==> EntryWord(s, mem, d) == if d < pt then DirectoryWord(s, d) else 0)
  }

  lemma FilledAtStart(s: Scheme, mem: Memory)
    requires s.Ok() && |mem| == s.Pages() && forall f :: 0 <= f < |mem| ==> mem[f] == Zeros(s.PageSize())
    ensures Shape(s, mem) && Filled(s, mem, 0)
  {
    forall d: nat | d < s.TableEntries() ensures EntryWord(s, mem, d) == 0 {
      EntryInFrame(s, d);
      WordOfZeros(s.PageSize(), s.EntryOffset(d), s.Word());
    }
  }

  lemma FilledNext(s: Scheme, mem: Memory, pt: nat)
    requires s.Ok() && Filled(s, mem, pt) && pt < s.DirEntries()
    ensures Shape(s, mem) && s.EntryOffset(pt) + s.Word() <= s.PageSize() && 0 < s.Pages()
    ensures Filled(s, Overwritten(s, mem, 0, s.EntryOffset(pt), EncodeLE(DirectoryWord(s, pt), s.Word())), pt + 1)
  {
    FrameCount(s);
    EntryInFrame(s, pt);
    PointerFits(s, s.TableFrame(pt));
    var at, w := s.EntryOffset(pt), DirectoryWord(s, pt);
    var mem' := Overwritten(s, mem, 0, at, EncodeLE(w, s.Word()));
    forall d: nat | d < s.TableEntries() ensures EntryWord(s, mem', d) == if d == pt then w else EntryWord(s, mem, d) {
      EntryInFrame(s, d);
      if d == pt {
        WordStored(mem[0], at, w, s.Word());
      } else {
        WordsApart(d, pt, s.Word());
        WordElsewhere(mem[0], at, EncodeLE(w, s.Word()), s.EntryOffset(d), s.Word());
      }
    }
  }

  /** With the tables just initialised there is no allocation yet. */
  lemma EmptyLayoutInv(s: Scheme, mem: Memory)
    requires s.Ok() && Filled(s, mem, s.DirEntries())
    ensures Inv(s, mem, NoLayout())
  {
    FrameCount(s);
    assert forall d: nat :: d < s.TableEntries() ==> EntryWord(s, mem, d) == DirectoryWord(s, d);
    forall p: nat | p < s.Usable()
      ensures CellWord(s, mem, p) == FreeCell(s, {}, p)
    {
      CellInTables(s, p);
      if s.asWritten {
        assert CellWord(s, mem, p) == EntryWord(s, mem, p);
      } else {
        WordOfZeros(s.PageSize(), s.CellOffset(p), s.Word());
      }
    }
  }

  class VirtualMemory {
    const scheme: Scheme
    const virtualBitmap: array<bv8>
    const frameBitmap: array<bv8>
    const mem: array<seq<byte>>
    /** The capacity of the translation cache. */
    const tlbEntries: nat
    const tlb: Tlb.Cache
    var misses: nat
    var lookups: nat

    /** What the tables and links amount to. */
    ghost var layout: Layout
    /** The lookups and removals the translation cache has seen. */
    ghost var trace: seq<Lru.Op>

    /** The three arrays are three objects. */
    ghost predicate Separate() {
      virtualBitmap != frameBitmap && mem as object != virtualBitmap && mem as object != frameBitmap
    }

    ghost function VirtualPages(): set<nat>
      reads virtualBitmap
    {
      Bitmap.Members(Bitmap.MsbFirst, virtualBitmap[..])
    }

    ghost function Frames(): set<nat>
      reads frameBitmap
    {
      Bitmap.Members(Bitmap.MsbFirst, frameBitmap[..])
    }

    ghost predicate CacheOk()
      reads this`trace, this`misses, this`lookups, tlb, tlb.spine
    {
      && tlbEntries >= 1 && tlb.Valid() && tlb.pageSize == scheme.PageSize() && tlb.capacity == tlbEntries
      && tlb.size <= tlb.capacity
      && CacheState(scheme, tlbEntries, tlb.Contents(), trace, misses, lookups)
    }

    /** What a page walk relies on. */
    ghost predicate TablesOk()
      reads virtualBitmap, mem
    {
      && scheme.Ok() && Shape(scheme, mem[..]) && Directory(scheme, mem[..])
      && 8 * virtualBitmap.Length == 8 * frameBitmap.Length == scheme.Pages()
      && Separate()
      && (forall p :: p in VirtualPages() ==> p < scheme.Usable())
    }

    /** Both bitmaps mark what is mapped, besides page 0 and the reserved frames. */
    ghost predicate BitmapsOk()
      reads this`layout, virtualBitmap, frameBitmap
    {
      && 8 * virtualBitmap.Length == 8 * frameBitmap.Length == scheme.Pages() && Separate()
      && VirtualPages() == {0} + layout.frameOf.Keys
      && Frames() == Reserved(scheme) + layout.frameOf.Values
    }

    ghost predicate Valid()
      reads this, virtualBitmap, frameBitmap, mem, tlb, tlb.spine
    {
      Inv(scheme, mem[..], layout) && BitmapsOk() && CacheOk() && Lru.Reinserting(trace)
    }

    lemma ValidFacts()
      requires Inv(scheme, mem[..], layout) && BitmapsOk()
      ensures TablesOk() && scheme.Ok() && VirtualPages() == {0} + layout.frameOf.Keys
    {
      hide Placed, Cells, FreeFramesZero, Linked, Bitmap.Members, Shape, Scheme.Ok, Reserved, Pow2;
      FrameCount(scheme);
    }

    /** Memory, bitmaps and cache, all empty, then the page tables. */
    constructor (scheme: Scheme, tlbEntries: nat)
      requires scheme.Ok() && tlbEntries >= 1
      ensures Valid() && this.scheme == scheme && this.tlbEntries == tlbEntries && layout == NoLayout() && trace == []
      ensures fresh(virtualBitmap) && fresh(frameBitmap) && fresh(mem) && fresh(tlb) && tlb.repr == {}
    {
      this.scheme, this.tlbEntries := scheme, tlbEntries;
      FrameCount(scheme);
      var bytes := Pow2(scheme.tableBits + scheme.dirBits - 3);
      virtualBitmap := new bv8[bytes](_ => 0);
      frameBitmap := new bv8[bytes](_ => 0);
      mem := new seq<byte>[scheme.Pages()](_ => Zeros(scheme.PageSize()));
      tlb := new Tlb.Cache(scheme.PageSize(), tlbEntries);
      misses, lookups := 0, 0;
      layout, trace := NoLayout(), [];
      new;
      hide Valid, Scheme.Ok, Bitmap.Members, Pow2, Zeros;
      EmptyBitmap(virtualBitmap[..]);
      EmptyBitmap(frameBitmap[..]);
      InitPageTables();
    }

    /** Reserves and fills the directory frame, and reserves the table frames. */
    method InitPageTables()
      requires scheme.Ok() && |mem[..]| == scheme.Pages()
      requires forall f :: 0 <= f < |mem[..]| ==> mem[..][f] == Zeros(scheme.PageSize())
      requires 8 * virtualBitmap.Length == scheme.Pages() && 8 * frameBitmap.Length == scheme.Pages()
      requires Separate() && VirtualPages() == {} && Frames() == {}
      requires CacheOk() && layout == NoLayout() && trace == []
      modifies virtualBitmap, frameBitmap, mem
      ensures Valid()
    {
      hide CacheOk, BitmapsOk, Filled, Inv, Bitmap.Members, Scheme.Ok, Scheme.Pages, Shape, Zeros, Bitmap.IsFirstFree,
        UpTo, Pow2;
      FrameCount(scheme);
      FilledAtStart(scheme, mem[..]);
      var pgdirFrame := Bitmap.FirstAvailable(Bitmap.MsbFirst, frameBitmap);
      FirstReserved(scheme.Pages(), pgdirFrame);
      Bitmap.SetAt(Bitmap.MsbFirst, frameBitmap, pgdirFrame);
      FillDirectory(pgdirFrame);
      Bitmap.SetAt(Bitmap.MsbFirst, virtualBitmap, 0);
      EmptyLayoutInv(scheme, mem[..]);
      NothingMapped();
      var set0, available, set1 := CheckCounts();
      assert set0 == 1 + scheme.DirEntries() && available && set1 == 1;
    }

    /** The counts the program asserts once the tables are in place. */
    method CheckCounts() returns (set0: nat, available: bool, set1: nat)
      requires scheme.Ok() && BitmapsOk() && layout.frameOf == map[]
      ensures set0 == 1 + scheme.DirEntries() && available && set1 == 1
    {
      hide Bitmap.Members, Reserved, BitmapsOk, Scheme.Ok, Scheme.DirEntries, Scheme.Pages, Pow2, VirtualPages, Frames;
      CountsAtStart();
      set0 := Bitmap.NumBitsSet(Bitmap.MsbFirst, frameBitmap);
      assert set0 == 1 + scheme.DirEntries();
      available := Bitmap.NBitsAvailable(Bitmap.MsbFirst, frameBitmap, Spare(scheme));
      assert available;
      set1 := Bitmap.NumBitsSet(Bitmap.MsbFirst, virtualBitmap);
      assert set1 == 1;
    }

    lemma CountsAtStart()
      requires scheme.Ok() && BitmapsOk() && layout.frameOf == map[]
      ensures |Bitmap.Members(Bitmap.MsbFirst, frameBitmap[..])| == 1 + scheme.DirEntries()
      ensures |Bitmap.Members(Bitmap.MsbFirst, virtualBitmap[..])| == 1
      ensures 0 < Spare(scheme) && 1 + scheme.DirEntries() + Spare(scheme) <= 8 * frameBitmap.Length
    {
      hide Bitmap.Members, Reserved, UpTo, Scheme.Ok, Pow2;
      ReservedAlone(scheme, layout.frameOf);
      ChecksHold(scheme);
    }

    lemma NothingMapped()
      requires 8 * virtualBitmap.Length == 8 * frameBitmap.Length == scheme.Pages() && Separate()
      requires VirtualPages() == {0} && Frames() == Reserved(scheme) && layout == NoLayout()
      ensures BitmapsOk()
    {
      hide Bitmap.Members, Reserved;
    }

    /** Reserves a frame for every directory entry, and stores the entries. */
    method FillDirectory(pgdirFrame: nat)
      requires scheme.Ok() && Shape(scheme, mem[..]) && Filled(scheme, mem[..], 0) && pgdirFrame == 0
      requires Separate() && 8 * frameBitmap.Length == scheme.Pages() && Frames() == UpTo(0)
      modifies frameBitmap, mem
      ensures Shape(scheme, mem[..]) && Filled(scheme, mem[..], scheme.DirEntries()) && Frames() == Reserved(scheme)
    {
      hide Filled, Bitmap.Members, Scheme.Ok, Shape, UpTo, Pow2;
      var pt := 0;
      while pt < scheme.DirEntries()
        invariant 0 <= pt <= scheme.DirEntries() && Frames() == UpTo(pt)
        invariant Shape(scheme, mem[..]) && Filled(scheme, mem[..], pt)
      {
        var ptableFrame := ReserveTable(pt);
        StoreEntry(pt, if scheme.asWritten then pgdirFrame else ptableFrame);
        pt := pt + 1;
      }
    }

    method ReserveTable(ghost pt: nat) returns (ptableFrame: nat)
      requires scheme.Ok() && Separate() && 8 * frameBitmap.Length == scheme.Pages()
      requires Frames() == UpTo(pt) && pt < scheme.DirEntries()
      modifies frameBitmap
      ensures ptableFrame == pt + 1 && Frames() == UpTo(pt + 1)
      ensures mem[..] == old(mem[..])
    {
      FrameCount(scheme);
      var f := Bitmap.FirstAvailable(Bitmap.MsbFirst, frameBitmap);
      NextReserved(scheme.Pages(), pt, f);
      Bitmap.SetAt(Bitmap.MsbFirst, frameBitmap, f);
      ptableFrame := f;
    }

    method StoreEntry(pt: nat, frame: nat)
      requires scheme.Ok() && Shape(scheme, mem[..]) && Filled(scheme, mem[..], pt) && Separate()
      requires pt < scheme.DirEntries() && frame == scheme.TableFrame(pt)
      modifies mem
      ensures Shape(scheme, mem[..]) && Filled(scheme, mem[..], pt + 1)
    {
      FilledNext(scheme, mem[..], pt);
      PointerSum(scheme, 0, scheme.EntryOffset(pt));
      hide Filled, Scheme.Ok, Shape, EncodeLE, Overwritten, Pow2, Scheme.EntryOffset, Scheme.Pointer;
      var ptbr := scheme.Pointer(0, 0);
      StoreWord(ptbr + scheme.EntryOffset(pt), scheme.Pointer(frame, 0), 0, scheme.EntryOffset(pt));
    }

    /** The word that `pa` points to. */
    method LoadWord(pa: nat, ghost frame: nat, ghost offset: nat) returns (w: nat)
      requires scheme.Ok() && Shape(scheme, mem[..])
      requires frame < scheme.Pages() && offset + scheme.Word() <= scheme.PageSize()
        && pa == scheme.Pointer(frame, offset)
      ensures w == WordIn(mem[..][frame], offset, scheme.Word())
    {
      SplitPointer(scheme, frame, offset);
      var f, o := scheme.FrameOfPointer(pa), scheme.OffsetOfPointer(pa);
      assert mem[f] == mem[..][f];
      w := DecodeLE(mem[f][o..o + scheme.Word()]);
    }

    /** Stores a word where `pa` points to. */
    method StoreWord(pa: nat, w: nat, ghost frame: nat, ghost offset: nat)
      requires scheme.Ok() && Shape(scheme, mem[..])
      requires frame < scheme.Pages() && offset + scheme.Word() <= scheme.PageSize()
        && pa == scheme.Pointer(frame, offset)
      modifies mem
      ensures mem[..] == Overwritten(scheme, old(mem[..]), frame, offset, EncodeLE(w, scheme.Word()))
    {
      SplitPointer(scheme, frame, offset);
      var f, o := scheme.FrameOfPointer(pa), scheme.OffsetOfPointer(pa);
      assert mem[f] == mem[..][f];
      mem[f] := Splice(mem[f], o, EncodeLE(w, scheme.Word()));
    }

    /** Is the virtual page of this address in use? */
    method InUse(va: nat) returns (r: bool)
      requires TablesOk()
      ensures r <==> scheme.ValidAddress(va) && scheme.PageOf(va) in VirtualPages()
    {
      if !scheme.ValidAddress(va) {
        return false;
      }
      ExtractReconvert(scheme, va);
      var p := scheme.PageOf(va);
      return Bitmap.BitOf(Bitmap.MsbFirst, virtualBitmap[p / 8], p % 8);
    }

    lemma UsablePage(page: nat)
      requires TablesOk() && page in VirtualPages()
      ensures page < scheme.Usable()
    {
    }

    /** The page walk: null unless the page is in use, else the address of its cell. */
    method FetchPte(va: nat) returns (cell: nat)
      requires TablesOk()
      ensures cell == if scheme.ValidAddress(va) && scheme.PageOf(va) in VirtualPages()
                      then scheme.CellPointer(scheme.PageOf(va)) else 0
    {
      var used := InUse(va);
      if !used {
        return 0;
      }
      var page := scheme.PageOf(va);
      var pde := Quotient(page, scheme.TableEntries());
      var pte := Remainder(page, scheme.TableEntries());
      WalkReachesCell(scheme, mem[..], page, pde);
      EntryInFrame(scheme, pde);
      FrameCount(scheme);
      var table := LoadWord(scheme.Pointer(0, scheme.EntryOffset(pde)), 0, scheme.EntryOffset(pde));
      return table + scheme.EntryOffset(pte);
    }

    /** The translation of an address, through the cache: the cell of its page, or null when
        the page is not in use. */
    method CheckTLB(va: nat) returns (cell: nat)
      requires TablesOk() && CacheOk()
      modifies this`misses, this`lookups, this`trace, tlb, tlb.repr
      ensures CacheOk() && fresh(tlb.repr - old(tlb.repr))
      ensures
        if scheme.ValidAddress(va) && scheme.PageOf(va) in VirtualPages()
        then cell == scheme.CellPointer(scheme.PageOf(va)) && trace == old(trace) + [Lru.Use(scheme.PageOf(va))]
        else cell == 0 && trace == old(trace)
    {
      var used := InUse(va);
      if !used {
        return 0;
      }
      cell := Translate(va);
    }

    /** A lookup of a page that is in use. */
    method Translate(va: nat) returns (cell: nat)
      requires TablesOk() && CacheOk() && scheme.ValidAddress(va) && scheme.PageOf(va) in VirtualPages()
      modifies this`misses, this`lookups, this`trace, tlb, tlb.repr
      ensures CacheOk() && fresh(tlb.repr - old(tlb.repr))
      ensures cell == scheme.CellPointer(scheme.PageOf(va)) && trace == old(trace) + [Lru.Use(scheme.PageOf(va))]
    {
      hide TablesOk, CacheState, Scheme.CellPointer, Quotient, Scheme.ValidAddress, Bitmap.Members, Tlb.Cache.Valid,
        Tlb.EntriesOf, Scheme.Usable;
      ghost var entries := tlb.Contents();
      var found, k := tlb.SearchAndRemove(va);
      assert FirstOf(scheme, entries, k, scheme.PageOf(va));
      if found != null {
        cell := OnHit(found, entries, k, scheme.PageOf(va));
      } else {
        cell := OnMiss(va);
      }
    }

    method OnHit(found: Tlb.Node, ghost entries: seq<Tlb.Entry>, ghost k: nat, ghost page: nat) returns (cell: nat)
      requires tlb.Valid() && tlb.pageSize == scheme.PageSize() && tlb.capacity == tlbEntries
        && tlb.size < tlb.capacity
      requires CacheState(scheme, tlbEntries, entries, trace, misses, lookups) && FirstOf(scheme, entries, k, page)
        && k < |entries|
      requires tlb.Contents() == entries[..k] + entries[k + 1..] && found.entry == entries[k] && found !in tlb.repr
      modifies this`lookups, this`trace, tlb, found
      ensures CacheOk() && tlb.repr == old(tlb.repr) + {found}
      ensures cell == scheme.CellPointer(page) && trace == old(trace) + [Lru.Use(page)]
    {
      hide CacheState, Scheme.CellPointer, FirstOf, Tlb.Cache.Valid, Tlb.EntriesOf, Tlb.Cache.Contents, Scheme.Ok,
        Scheme.PageSize;
      HitKeeps(scheme, tlbEntries, entries, trace, misses, lookups, k, page, found.entry, tlb.Contents());
      lookups := lookups + 1;
      tlb.Reinsert(found);
      trace := trace + [Lru.Use(page)];
      cell := found.entry.cell;
    }

    method OnMiss(va: nat) returns (cell: nat)
      requires TablesOk() && CacheOk() && scheme.ValidAddress(va) && scheme.PageOf(va) in VirtualPages()
      requires FirstOf(scheme, tlb.Contents(), |tlb.Contents()|, scheme.PageOf(va))
      modifies this`misses, this`lookups, this`trace, tlb, tlb.repr
      ensures CacheOk() && fresh(tlb.repr - old(tlb.repr))
      ensures cell == scheme.CellPointer(scheme.PageOf(va)) && trace == old(trace) + [Lru.Use(scheme.PageOf(va))]
    {
      hide CacheState, Scheme.CellPointer, FirstOf, Tlb.Cache.Valid, Tlb.EntriesOf, Tlb.Cache.Contents, TablesOk,
        Scheme.PageOf;
      cell := FetchPte(va);
      UsablePage(scheme.PageOf(va));
      MissKeeps(scheme, tlbEntries, tlb.Contents(), trace, misses, lookups, va);
      lookups := lookups + 1;
      misses := misses + 1;
      tlb.Add(va, cell);
      trace := trace + [Lru.Use(scheme.PageOf(va))];
    }

    /** A lookup of an address in use keeps everything but the cache. */
    method Lookup(va: nat) returns (cell: nat)
      requires Valid() && scheme.ValidAddress(va) && scheme.PageOf(va) in VirtualPages()
      modifies this`misses, this`lookups, this`trace, tlb, tlb.repr
      ensures Valid() && fresh(tlb.repr - old(tlb.repr))
      ensures cell == scheme.CellPointer(scheme.PageOf(va)) && trace == old(trace) + [Lru.Use(scheme.PageOf(va))]
    {
      hide TablesOk, CacheOk, Inv, BitmapsOk, VirtualPages, Scheme.PageOf, Scheme.ValidAddress, Scheme.CellPointer,
        Lru.Reinserting;
      ValidFacts();
      Lru.ReinsertingUse(trace, scheme.PageOf(va));
      cell := CheckTLB(va);
    }

    /** The word in the cell of the page of `va`. */
    method Deref(va: nat) returns (pa: nat)
      requires Valid() && scheme.ValidAddress(va) && scheme.PageOf(va) in VirtualPages()
      modifies this`misses, this`lookups, this`trace, tlb, tlb.repr
      ensures Valid() && fresh(tlb.repr - old(tlb.repr))
      ensures scheme.PageOf(va) < scheme.Usable() && pa == CellWord(scheme, mem[..], scheme.PageOf(va))
      ensures trace == old(trace) + [Lru.Use(scheme.PageOf(va))]
    {
      hide Valid, Bitmap.Members, Scheme.PageOf, Scheme.ValidAddress, Scheme.CellFrame, Scheme.CellOffset,
        Scheme.Pointer;
      ghost var page := scheme.PageOf(va);
      CellAccess(page);
      var cell := Lookup(va);
      CellAccess(page);
      pa := LoadWord(cell, scheme.CellFrame(page), scheme.CellOffset(page));
    }

    lemma CellAccess(page: nat)
      requires Valid() && page in VirtualPages()
      ensures scheme.Ok() && Shape(scheme, mem[..]) && page < scheme.Usable()
      ensures scheme.CellFrame(page) < scheme.Pages() && scheme.CellOffset(page) + scheme.Word() <= scheme.PageSize()
    {
      hide Inv, BitmapsOk, CacheOk, Scheme.Ok, Shape, Directory, VirtualPages, Scheme.CellFrame, Scheme.CellOffset;
      ValidFacts();
      CellInTables(scheme, page);
    }

    /** The link word at the start of a frame. */
    method LoadLink(pa: nat, ghost frame: nat) returns (next: nat)
      requires Valid() && frame < scheme.Pages() && pa == scheme.Pointer(frame, 0)
      ensures next == LinkWord(scheme, mem[..], frame)
    {
      FrameCount(scheme);
      hide TablesOk, CacheOk, Inv, Bitmap.Members, Scheme.Pointer;
      next := LoadWord(pa, frame, 0);
    }

    /** The link of a page in use; fails when its cell is null. */
    method NextLink(start: nat) returns (ok: bool, next: nat)
      requires Valid() && scheme.ValidAddress(start) && scheme.PageOf(start) in VirtualPages()
      modifies this`misses, this`lookups, this`trace, tlb, tlb.repr
      ensures Valid() && fresh(tlb.repr - old(tlb.repr))
      ensures trace == old(trace) + [Lru.Use(scheme.PageOf(start))]
      ensures ok <==> scheme.PageOf(start) in layout.frameOf || scheme.asWritten
      ensures ok ==> next == NextAddress(scheme, layout, scheme.PageOf(start)) && !InPageZero(scheme, next)
      ensures ok && scheme.PageOf(start) in layout.frameOf ==>
        && layout.frameOf[scheme.PageOf(start)] < scheme.Pages()
        && next == LinkWord(scheme, mem[..], layout.frameOf[scheme.PageOf(start)])
    {
      hide TablesOk, CacheOk, Inv, Bitmap.Members, Scheme.PageOf, Scheme.Pointer, Scheme.ValidAddress, CellWord,
        LinkWord, Scheme.Pages, NextAddress, InPageZero, Scheme.Ok;
      ghost var page := scheme.PageOf(start);
      ValidFacts();
      CellOfPage(scheme, mem[..], layout, page);
      var pa := Deref(start);
      if pa == 0 {
        return false, 0;
      }
      NextIsLink(scheme, mem[..], layout, page);
      next := LoadLink(pa, FrameAt(layout, page));
      ok := true;
    }

    /** Are `numLinks` pages in use and linked together from `start` on? As written, page 0 passes for the first one. */
    method ValidPagesLinkedTogetherFrom(start: nat, numLinks: nat) returns (r: bool)
      requires Valid()
      modifies this`misses, this`lookups, this`trace, tlb, tlb.repr
      ensures Valid() && fresh(tlb.repr - old(tlb.repr))
      ensures trace == old(trace) + CheckOps(scheme, layout, start, numLinks)
      ensures r <==> Accepted(scheme, layout, start, numLinks)
      decreases numLinks
    {
      hide TablesOk, Inv, BitmapsOk, CacheOk, VirtualPages, Scheme.Ok, Scheme.PageOf, Scheme.ValidAddress, LinkWord,
        Scheme.Pages, LinkedFrom, CheckOps, NextAddress, InPageZero, Accepted, Scheme.Pointer;
      ValidFacts();
      AcceptedFacts(scheme, mem[..], layout, start, numLinks);
      if numLinks == 0 {
        NoMoreChecks(scheme, layout, start, numLinks);
        return true;
      }
      if start == 0 && numLinks > 0 {
        NoMoreChecks(scheme, layout, start, numLinks);
        return false;
      }
      var used := InUse(start);
      if !used {
        NoMoreChecks(scheme, layout, start, numLinks);
        return false;
      }
      CheckStep(scheme, layout, start, numLinks);
      var ok, next := NextLink(start);
      if !ok {
        NoMoreChecks(scheme, layout, 0, numLinks - 1);
        return false;
      }
      AcceptedStep(scheme, mem[..], layout, start, numLinks, next);
      r := ValidPagesLinkedTogetherFrom(next, numLinks - 1);
    }

    /** The bytes stored in every allocation. */
    ghost function Bytes(): map<nat, seq<byte>>
      reads this`layout, mem
      requires Inv(scheme, mem[..], layout)
    {
      Contents(scheme, mem[..], layout)
    }

    /** Copies `d` to where `pa` points to, within one frame. */
    method StoreBytes(pa: nat, d: seq<byte>, ghost frame: nat, ghost offset: nat)
      requires Shape(scheme, mem[..])
      requires frame < scheme.Pages() && offset + |d| <= scheme.PageSize() && pa == scheme.Pointer(frame, offset)
      modifies mem
      ensures mem[..] == Overwritten(scheme, old(mem[..]), frame, offset, d)
    {
      if d == [] {
        assert Splice(mem[..][frame], offset, d) == mem[..][frame];
        return;
      }
      SplitPointer(scheme, frame, offset);
      var f, o := scheme.FrameOfPointer(pa), scheme.OffsetOfPointer(pa);
      assert mem[f] == mem[..][f];
      mem[f] := Splice(mem[f], o, d);
    }

    /** Copies `d` to offset `o` of the data bytes of the frame that `pa` points to. */
    method StoreInFrame(pa: nat, o: nat, d: seq<byte>, ghost f: nat)
      requires scheme.Ok() && Shape(scheme, mem[..]) && f < scheme.Pages() && pa == scheme.Pointer(f, 0)
      requires o + |d| <= scheme.Payload()
      modifies mem
      ensures mem[..] == WriteMemory(scheme, old(mem[..]), f, o, d)
    {
      hide Scheme.Ok, Shape, Scheme.Pointer, Overwritten;
      PointerSum(scheme, f, scheme.Word() + o);
      StoreBytes(pa + scheme.Word() + o, d, f, scheme.Word() + o);
    }

    lemma StorePreconditions(p: nat, o: nat, n: nat)
      requires Valid() && p in layout.frameOf && o + n <= scheme.Payload()
      ensures scheme.Ok() && Shape(scheme, mem[..]) && layout.frameOf[p] < scheme.Pages()
      ensures scheme.Word() + o + n <= scheme.PageSize()
      ensures Separate()
    {
    }

    /** The frame that a page in use leads to, and the address in its link word. */
    method OpenPage(start: nat) returns (pa: nat, next: nat)
      requires Valid() && scheme.ValidAddress(start)
      requires scheme.PageOf(start) in layout.frameOf || InPageZero(scheme, start)
      modifies this`misses, this`lookups, this`trace, tlb, tlb.repr
      ensures Valid() && fresh(tlb.repr - old(tlb.repr)) && trace == old(trace) + [Lru.Use(scheme.PageOf(start))]
      ensures FrameAt(layout, scheme.PageOf(start)) < scheme.Pages()
      ensures pa == scheme.Pointer(FrameAt(layout, scheme.PageOf(start)), 0)
      ensures next == LinkWord(scheme, mem[..], FrameAt(layout, scheme.PageOf(start)))
      ensures next == NextAddress(scheme, layout, scheme.PageOf(start))
    {
      hide TablesOk, CacheOk, Inv, BitmapsOk, VirtualPages, Scheme.PageOf, Scheme.Pointer, Scheme.ValidAddress,
        CellWord, LinkWord, NextAddress, Scheme.Pages, Scheme.Ok;
      ValidFacts();
      CellOfPage(scheme, mem[..], layout, scheme.PageOf(start));
      NextIsLink(scheme, mem[..], layout, scheme.PageOf(start));
      pa := Deref(start);
      next := LoadLink(pa, FrameAt(layout, scheme.PageOf(start)));
    }

    /** What a copy to or from `va` asks for: room in the allocation or, as written, in page 0. */
    ghost predicate Reaches(va: nat, n: nat)
      reads this`layout
      requires scheme.Ok()
    {
      if InPageZero(scheme, va) then scheme.OffsetOf(va) + n <= scheme.Payload() else RoomAt(scheme, layout, va, n)
    }

    /** What storing at `va` makes of the memory `before`: the bytes at the stream position of the address are replaced;
        in page 0, as written, words of the directory. */
    ghost predicate PutDone(before: Memory, va: nat, val: seq<byte>)
      reads this, virtualBitmap, frameBitmap, mem, tlb, tlb.spine
    {
      && Inv(scheme, before, layout)
      && if InPageZero(scheme, va) then
           && scheme.OffsetOf(va) + |val| <= scheme.Payload()
           && mem[..] == WriteMemory(scheme, before, 0, scheme.OffsetOf(va), val)
           && BitmapsOk() && CacheOk() && Lru.Reinserting(trace)
         else
           && Valid()
           && Stored(Contents(scheme, before, layout), Home(layout, scheme.PageOf(va)), Position(scheme, layout, va),
                     val, Bytes())
    }

    method PutAux(start: nat, val: seq<byte>)
      requires Valid() && scheme.Ok() && (val != [] ==> Reaches(start, |val|))
      modifies this`misses, this`lookups, this`trace, tlb, tlb.repr, mem
      ensures fresh(tlb.repr - old(tlb.repr))
      ensures trace == old(trace) + AccessOps(scheme, layout, scheme.PageOf(start), scheme.OffsetOf(start), |val|)
      ensures if val == [] then Valid() && mem[..] == old(mem[..]) else PutDone(old(mem[..]), start, val)
      decreases if val == [] then 0 else PagesLeft(layout, scheme.PageOf(start))
    {
      hide Inv, BitmapsOk, CacheOk, RoomAt, Home, Position, Stored, Scheme.PageOf, Scheme.Pointer, Scheme.ValidAddress,
        LinkWord, Lru.Reinserting, PagesLeft, Contents, Scheme.Ok, NextAddress, AccessOps, InPageZero;
      AccessStep(scheme, layout, scheme.PageOf(start), scheme.OffsetOf(start), |val|);
      if val == [] {
        return;
      }
      ReachFacts(start, |val|);
      var pa, next := OpenPage(start);
      var offset := scheme.OffsetOf(start);
      if offset > scheme.Payload() {
        SkipPage(scheme, mem[..], layout, start, |val|, next);
        PutAux(next + (offset - scheme.Payload()), val);
      } else {
        var writeable := scheme.Payload() - offset;
        if |val| <= writeable {
          StoreAt(pa, start, val);
        } else {
          TakePage(scheme, mem[..], layout, start, writeable, |val| - writeable, next);
          StoreAt(pa, start, val[..writeable]);
          ghost var half := mem[..];
          PutAux(next, val[writeable..]);
          StoredTwice(old(Bytes()), Home(layout, scheme.PageOf(start)), Position(scheme, layout, start), val, writeable,
            Contents(scheme, half, layout), Bytes());
        }
      }
    }

    /** An address that a copy can reach is mapped or, as written, in page 0; and mapped pages are not page 0. */
    lemma ReachFacts(va: nat, n: nat)
      requires Valid() && scheme.Ok() && Reaches(va, n)
      ensures scheme.ValidAddress(va) && FrameAt(layout, scheme.PageOf(va)) < scheme.Pages()
      ensures (scheme.PageOf(va) in layout.frameOf && scheme.PageOf(va) in layout.place) || InPageZero(scheme, va)
      ensures forall x {:trigger InPageZero(scheme, x)} :: scheme.PageOf(x) in layout.frameOf ==> !InPageZero(scheme, x)
    {
      hide BitmapsOk, CacheOk, Directory, Cells, FreeFramesZero, Linked, Shape, Placed, Scheme.PageOf, Scheme.OffsetOf,
        Scheme.ValidAddress, RoomAt;
      NullPage(scheme, mem[..], layout);
      FrameCount(scheme);
      if InPageZero(scheme, va) {
        InvalidPage(scheme, va);
      } else {
        RoomIsMapped(scheme, mem[..], layout, va, n);
      }
    }

    /** The memory and the bitmaps are different objects. */
    lemma Unmixed()
      requires Valid()
      ensures Separate() && Shape(scheme, mem[..])
    {
    }

    lemma StoreKeeps(before: Memory, va: nat, d: seq<byte>)
      requires Inv(scheme, before, layout) && BitmapsOk() && CacheOk() && Lru.Reinserting(trace)
      requires FrameAt(layout, scheme.PageOf(va)) < scheme.Pages() && scheme.OffsetOf(va) + |d| <= scheme.Payload()
      requires (scheme.PageOf(va) in layout.frameOf && scheme.PageOf(va) in layout.place) || InPageZero(scheme, va)
      requires mem[..] == WriteMemory(scheme, before, FrameAt(layout, scheme.PageOf(va)), scheme.OffsetOf(va), d)
      ensures PutDone(before, va, d)
    {
      hide BitmapsOk, CacheOk, Mapped, Placed, Directory, Cells, FreeFramesZero, Linked, Scheme.Ok, Shape, WriteMemory,
        Contents, StreamIndex, Scheme.PageOf, Scheme.OffsetOf, Stored, RoomAt;
      NullPage(scheme, before, layout);
      if !InPageZero(scheme, va) {
        PageStore(scheme, before, layout, scheme.PageOf(va), scheme.OffsetOf(va), d, mem[..]);
      }
    }

    method StoreAt(pa: nat, va: nat, d: seq<byte>)
      requires Valid() && scheme.Ok() && FrameAt(layout, scheme.PageOf(va)) < scheme.Pages()
      requires (scheme.PageOf(va) in layout.frameOf && scheme.PageOf(va) in layout.place) || InPageZero(scheme, va)
      requires pa == scheme.Pointer(FrameAt(layout, scheme.PageOf(va)), 0)
      requires scheme.OffsetOf(va) + |d| <= scheme.Payload()
      modifies mem
      ensures PutDone(old(mem[..]), va, d)
    {
      hide CacheOk, Inv, BitmapsOk, Stored, Contents, StreamIndex, Scheme.Pointer, Shape, WriteMemory, Lru.Reinserting,
        Scheme.Ok, Scheme.PageOf;
      ghost var before := mem[..];
      Unmixed();
      StoreInFrame(pa, scheme.OffsetOf(va), d, FrameAt(layout, scheme.PageOf(va)));
      StoreKeeps(before, va, d);
    }

    /** Copies the bytes to the stream position of `va`, if the allocation reaches that far. As written, an address in
        page 0 passes too, and then words of the directory are overwritten. Left out is a copy from page 0 that goes on
        in the page of the directory's own address: the cells on its way are those it may be overwriting. */
    method PutValue(va: nat, val: seq<byte>) returns (r: int)
      requires Valid() && !GoesOn(scheme, layout, va, |val|)
      modifies this`misses, this`lookups, this`trace, tlb, tlb.repr, mem
      ensures fresh(tlb.repr - old(tlb.repr)) && scheme.Ok()
      ensures r == if scheme.OffsetOf(va) + |val| == 0 || Reaches(va, |val|) then 0 else -1
      ensures trace == old(trace) + CheckOps(scheme, layout, va, PagesFor(scheme, |val| + scheme.OffsetOf(va)))
        + if r == 0 then AccessOps(scheme, layout, scheme.PageOf(va), scheme.OffsetOf(va), |val|) else []
      ensures if r == 0 && val != [] then PutDone(old(mem[..]), va, val) else Valid() && mem[..] == old(mem[..])
    {
      hide Inv, BitmapsOk, CacheOk, RoomAt, Scheme.PageOf, Lru.Reinserting, Contents, Scheme.Ok, PutDone, AccessOps,
        CheckOps, LinkedFrom, PagesFor, InPageZero;
      ValidFacts();
      var offset := scheme.OffsetOf(va);
      var enough := EnoughPages(va, |val|);
      if !enough {
        return -1;
      }
      PutAux(va, val);
      r := 0;
    }

    /** The check both `PutValue` and `GetValue` make: do `n` bytes at `va` lie within the allocation? */
    method EnoughPages(va: nat, n: nat) returns (r: bool)
      requires Valid()
      modifies this`misses, this`lookups, this`trace, tlb, tlb.repr
      ensures Valid() && fresh(tlb.repr - old(tlb.repr)) && scheme.Ok()
      ensures trace == old(trace) + CheckOps(scheme, layout, va, PagesFor(scheme, n + scheme.OffsetOf(va)))
      ensures r <==> scheme.OffsetOf(va) + n == 0 || Reaches(va, n) || GoesOn(scheme, layout, va, n)
    {
      hide TablesOk, BitmapsOk, CacheOk, Scheme.PageOf, Lru.Reinserting, LinkedFrom, Room, Mapped, Placed, Directory,
        Cells, FreeFramesZero, Linked, Shape, Scheme.Ok, PagesFor, CheckOps, Accepted, InPageZero;
      var size := n + scheme.OffsetOf(va);
      var numPages := PagesFor(scheme, size);
      AcceptedIsRoom(scheme, mem[..], layout, va, n);
      r := ValidPagesLinkedTogetherFrom(va, numPages);
    }

    /** Is `val` what the memory holds at `va`: the bytes at the stream position of the address; in page 0, as written,
        words of the directory? */
    ghost predicate GetDone(va: nat, val: seq<byte>)
      reads this`layout, mem
    {
      && Inv(scheme, mem[..], layout)
      && if InPageZero(scheme, va) then
           && 0 < scheme.Pages() && scheme.OffsetOf(va) + |val| <= scheme.Payload()
           && val == Data(scheme, mem[..], 0)[scheme.OffsetOf(va)..scheme.OffsetOf(va) + |val|]
         else Loaded(Bytes(), Home(layout, scheme.PageOf(va)), Position(scheme, layout, va), val)
    }

    /** Copies `n` bytes from the frame that `pa` points to, at the offset of `va` behind its link word. */
    method LoadAt(pa: nat, va: nat, n: nat) returns (d: seq<byte>)
      requires Valid() && scheme.Ok() && FrameAt(layout, scheme.PageOf(va)) < scheme.Pages()
      requires scheme.PageOf(va) in layout.frameOf || InPageZero(scheme, va)
      requires pa == scheme.Pointer(FrameAt(layout, scheme.PageOf(va)), 0)
      requires scheme.OffsetOf(va) + n <= scheme.Payload()
      ensures |d| == n && GetDone(va, d)
    {
      hide TablesOk, BitmapsOk, CacheOk, Mapped, Placed, Directory, Cells, FreeFramesZero, Linked, Scheme.Ok,
        Scheme.PageOf, Scheme.Pointer, Loaded, Home, Position;
      ghost var f := FrameAt(layout, scheme.PageOf(va));
      var at := scheme.Word() + scheme.OffsetOf(va);
      LoadMeans(va, n);
      if n == 0 {
        d := [];
        assert d == Data(scheme, mem[..], f)[scheme.OffsetOf(va)..scheme.OffsetOf(va) + n];
        return;
      }
      PointerSum(scheme, f, at);
      SplitPointer(scheme, f, at);
      var frame, o := scheme.FrameOfPointer(pa + at), scheme.OffsetOfPointer(pa + at);
      assert mem[frame] == mem[..][f];
      d := mem[frame][o..o + n];
      SliceOfSuffix(mem[..][f], scheme.Word(), scheme.OffsetOf(va), n);
      assert d == Data(scheme, mem[..], f)[scheme.OffsetOf(va)..scheme.OffsetOf(va) + n];
    }

    lemma LoadMeans(va: nat, n: nat)
      requires Valid() && scheme.Ok() && FrameAt(layout, scheme.PageOf(va)) < scheme.Pages()
      requires scheme.PageOf(va) in layout.frameOf || InPageZero(scheme, va)
      requires scheme.OffsetOf(va) + n <= scheme.Payload()
      ensures Shape(scheme, mem[..])
      ensures GetDone(va, Data(scheme, mem[..], FrameAt(layout, scheme.PageOf(va)))
                          [scheme.OffsetOf(va)..scheme.OffsetOf(va) + n])
    {
      hide TablesOk, BitmapsOk, CacheOk, Mapped, Placed, Directory, Cells, FreeFramesZero, Linked, Scheme.Ok,
        Scheme.PageOf, Loaded, Home, Position, Data, Shape, Contents;
      NullPage(scheme, mem[..], layout);
      if scheme.PageOf(va) in layout.frameOf {
        PageLoad(scheme, mem[..], layout, va, n);
      }
    }

    method GetAux(start: nat, bytesRemaining: nat) returns (val: seq<byte>)
      requires Valid() && scheme.Ok() && (bytesRemaining > 0 ==> Reaches(start, bytesRemaining))
      modifies this`misses, this`lookups, this`trace, tlb, tlb.repr
      ensures Valid() && fresh(tlb.repr - old(tlb.repr)) && |val| == bytesRemaining
      ensures trace == old(trace)
        + AccessOps(scheme, layout, scheme.PageOf(start), scheme.OffsetOf(start), bytesRemaining)
      ensures bytesRemaining > 0 ==> GetDone(start, val)
      decreases if bytesRemaining == 0 then 0 else PagesLeft(layout, scheme.PageOf(start))
    {
      hide Inv, BitmapsOk, CacheOk, RoomAt, Home, Position, Loaded, Scheme.PageOf, Scheme.Pointer, Scheme.ValidAddress,
        LinkWord, Lru.Reinserting, PagesLeft, Contents, Scheme.Ok, NextAddress, AccessOps, InPageZero, Data;
      AccessStep(scheme, layout, scheme.PageOf(start), scheme.OffsetOf(start), bytesRemaining);
      if bytesRemaining == 0 {
        return [];
      }
      ReachFacts(start, bytesRemaining);
      var pa, next := OpenPage(start);
      var offset := scheme.OffsetOf(start);
      if offset > scheme.Payload() {
        SkipPage(scheme, mem[..], layout, start, bytesRemaining, next);
        val := GetAux(next + (offset - scheme.Payload()), bytesRemaining);
      } else {
        var readable := scheme.Payload() - offset;
        if bytesRemaining <= readable {
          val := LoadAt(pa, start, bytesRemaining);
        } else {
          TakePage(scheme, mem[..], layout, start, readable, bytesRemaining - readable, next);
          var here := LoadAt(pa, start, readable);
          val := GetAux(next, bytesRemaining - readable);
          LoadedTwice(Bytes(), Home(layout, scheme.PageOf(start)), Position(scheme, layout, start), here, val);
          val := here + val;
        }
      }
    }

    /** Copies `size` bytes from the stream position of `va`; from page 0, as written, words of the directory. */
    method GetValue(va: nat, size: nat) returns (val: seq<byte>)
      requires Valid() && scheme.Ok() && (size > 0 ==> Reaches(va, size))
      modifies this`misses, this`lookups, this`trace, tlb, tlb.repr
      ensures Valid() && fresh(tlb.repr - old(tlb.repr)) && |val| == size
      ensures trace == old(trace) + CheckOps(scheme, layout, va, PagesFor(scheme, size + scheme.OffsetOf(va)))
        + AccessOps(scheme, layout, scheme.PageOf(va), scheme.OffsetOf(va), size)
      ensures size > 0 ==> GetDone(va, val)
    {
      hide Inv, BitmapsOk, CacheOk, RoomAt, Home, Position, Loaded, Scheme.PageOf, Lru.Reinserting, Contents, Scheme.Ok,
        InPageZero, AccessOps, CheckOps, PagesFor;
      var enough := EnoughPages(va, size);
      val := GetAux(va, size);
    }

    /** Drops the cached translation of a page about to be freed, and translates it once more. */
    method Forget(start: nat) returns (cell: nat)
      requires Valid() && scheme.ValidAddress(start) && scheme.PageOf(start) in VirtualPages()
      modifies this`misses, this`lookups, this`trace, tlb, tlb.repr
      ensures Valid() && fresh(tlb.repr - old(tlb.repr))
      ensures cell == scheme.CellPointer(scheme.PageOf(start))
      ensures trace == old(trace) + [Lru.Drop(scheme.PageOf(start))] + [Lru.Use(scheme.PageOf(start))]
    {
      hide TablesOk, CacheOk, Inv, BitmapsOk, VirtualPages, Scheme.PageOf, Scheme.ValidAddress, Scheme.CellPointer,
        Lru.Reinserting;
      ValidFacts();
      Lru.ReinsertingUse(trace, scheme.PageOf(start));
      Uncache(start);
      cell := CheckTLB(start);
    }

    method Uncache(start: nat)
      requires CacheOk()
      modifies this`trace, tlb, tlb.repr
      ensures CacheOk() && tlb.repr <= old(tlb.repr) && trace == old(trace) + [Lru.Drop(scheme.PageOf(start))]
    {
      hide CacheState, Quotient, Tlb.Cache.Valid, Tlb.EntriesOf;
      ghost var entries := tlb.Contents();
      var found, k := tlb.SearchAndRemove(start);
      assert FirstOf(scheme, entries, k, scheme.PageOf(start));
      RemovalKeeps(scheme, tlbEntries, entries, trace, misses, lookups, k, scheme.PageOf(start));
      trace := trace + [Lru.Drop(scheme.PageOf(start))];
    }

    /** Fills a frame with zeros. */
    method ClearFrame(frame: nat)
      requires Shape(scheme, mem[..]) && frame < scheme.Pages()
      modifies mem
      ensures mem[..] == Zeroed(scheme, old(mem[..]), frame)
    {
      mem[frame] := Zeros(scheme.PageSize());
    }

    /** Clears the cell and the frame of a page; the page's link is read in between. As written the cell of page 0 is
        the link word of the frame it names. */
    method ClearPage(cell: nat, ghost h: nat) returns (pa: nat, next: nat)
      requires Inv(scheme, mem[..], layout) && Separate() && cell == scheme.CellPointer(h)
      requires h in layout.blocks || (scheme.asWritten && h == 0)
      modifies mem
      ensures scheme.Ok() && Shape(scheme, old(mem[..])) && pa == scheme.Pointer(FrameAt(layout, h), 0)
      ensures h in layout.blocks ==>
        && CanDrop(scheme, layout, h) && next == LinkWord(scheme, old(mem[..]), layout.frameOf[h])
        && mem[..] == DropMemory(scheme, old(mem[..]), layout, h)
      ensures h !in layout.blocks ==>
        next == 0 && 0 < scheme.Pages() && mem[..] == Zeroed(scheme, old(mem[..]), 0)
    {
      hide Mapped, Placed, Directory, Cells, FreeFramesZero, Linked, Shape, Scheme.Ok, Scheme.CellFrame,
        Scheme.CellOffset, Scheme.Pointer, EncodeLE, Splice, DecodeLE;
      ghost var before, f := mem[..], FrameAt(layout, h);
      ClearFacts(before, h);
      CellInTables(scheme, h);
      FrameCount(scheme);
      pa := LoadWord(cell, scheme.CellFrame(h), scheme.CellOffset(h));
      StoreWord(cell, 0, scheme.CellFrame(h), scheme.CellOffset(h));
      assert h in layout.blocks ==> mem[..][f] == before[f];
      next := LoadWord(pa, f, 0);
      assert h in layout.blocks ==> next == LinkWord(scheme, before, f);
      SplitPointer(scheme, f, 0);
      ClearFrame(scheme.FrameOfPointer(pa));
    }

    lemma ClearFacts(before: Memory, h: nat)
      requires Inv(scheme, before, layout) && (h in layout.blocks || (scheme.asWritten && h == 0))
      ensures h < scheme.Usable() && FrameAt(layout, h) < scheme.Pages() && |before| == scheme.Pages()
      ensures CellWord(scheme, before, h) == scheme.Pointer(FrameAt(layout, h), 0)
      ensures h in layout.blocks ==> CanDrop(scheme, layout, h) && h in layout.frameOf
      ensures h in layout.blocks ==> layout.frameOf[h] != scheme.CellFrame(h)
      ensures h !in layout.blocks ==>
        && scheme.CellFrame(h) == FrameAt(layout, h) == scheme.CellOffset(h) == 0
        && LinkWord(scheme, WithCell(scheme, before, h, 0), 0) == 0
    {
      hide Directory, Cells, FreeFramesZero, Linked, Scheme.Ok, Scheme.Pointer, EncodeLE, Splice, DecodeLE, CellWord,
        LinkWord, WithCell;
      HeadsMapped(layout);
      CellOfPage(scheme, before, layout, h);
      CellInTables(scheme, h);
      FrameCount(scheme);
      if h in layout.blocks {
        ghost var mem0 := DropKeeps(scheme, before, layout, h);
      } else {
        DirectoryLink(scheme, before, layout);
        NullPage(scheme, before, layout);
        NullLink(scheme, before);
      }
    }

    /** The directory, its page and its frame are gone. */
    ghost predicate DirectoryFreed(before: Memory, pages: set<nat>, frames: set<nat>)
      reads this, virtualBitmap, frameBitmap, mem, tlb, tlb.spine
    {
      && Shape(scheme, before) && 0 < scheme.Pages() && mem[..] == Zeroed(scheme, before, 0)
      && VirtualPages() == pages - {0} && Frames() == frames - {0}
      && CacheOk() && Lru.Reinserting(trace)
    }

    /** Frees the first page of an allocation; what it was linked to becomes the allocation. Frees, as written, the
        directory for page 0. */
    method FreePage(start: nat) returns (next: nat)
      requires Valid() && (scheme.PageOf(start) in layout.blocks || InPageZero(scheme, start))
      modifies this`misses, this`lookups, this`trace, this`layout, tlb, tlb.repr, mem, virtualBitmap, frameBitmap
      ensures fresh(tlb.repr - old(tlb.repr))
      ensures trace == old(trace) + [Lru.Drop(scheme.PageOf(start))] + [Lru.Use(scheme.PageOf(start))]
      ensures scheme.PageOf(start) in old(layout).blocks ==>
        && Valid()
        && |old(layout).blocks[scheme.PageOf(start)]| > 0 && layout == DropLayout(old(layout), scheme.PageOf(start))
        && Shrunk(old(Bytes()), old(layout).blocks[scheme.PageOf(start)], scheme.Payload(), Bytes())
        && next == LinkAfter(scheme, old(layout).blocks[scheme.PageOf(start)], 0)
      ensures scheme.PageOf(start) !in old(layout).blocks ==>
        next == 0 && layout == old(layout) && DirectoryFreed(old(mem[..]), old(VirtualPages()), old(Frames()))
    {
      hide TablesOk, CacheOk, Inv, BitmapsOk, VirtualPages, Frames, Scheme.PageOf, Scheme.ValidAddress,
        Scheme.CellPointer, Lru.Reinserting, DropLayout, Shrunk, Contents, LinkAfter, Scheme.Pointer, Zeroed;
      FreeFacts(start);
      ghost var l, before := layout, mem[..];
      var cell := Forget(start);
      if scheme.PageOf(start) in l.blocks {
        ghost var after := DropKeeps(scheme, before, l, scheme.PageOf(start));
      }
      next := ReleasePage(start, cell);
    }

    lemma FreeFacts(start: nat)
      requires Valid() && (scheme.PageOf(start) in layout.blocks || InPageZero(scheme, start))
      ensures scheme.ValidAddress(start) && scheme.PageOf(start) in VirtualPages() && scheme.Ok()
    {
      hide TablesOk, CacheOk, Inv, Bitmap.Members, Scheme.PageOf, Scheme.ValidAddress, Lru.Reinserting, Reserved;
      AcceptedFacts(scheme, mem[..], layout, start, 1);
      ValidFacts();
      if scheme.PageOf(start) in layout.blocks {
        HeadFacts(start);
      }
    }

    method ReleasePage(start: nat, cell: nat) returns (next: nat)
      requires Valid() && cell == scheme.CellPointer(scheme.PageOf(start))
      requires scheme.PageOf(start) in layout.blocks || InPageZero(scheme, start)
      modifies this`layout, mem, virtualBitmap, frameBitmap
      ensures CacheOk() && Lru.Reinserting(trace) && scheme.Ok() && Shape(scheme, old(mem[..]))
      ensures scheme.PageOf(start) in old(layout).blocks ==>
        && BitmapsOk() && CanDrop(scheme, old(layout), scheme.PageOf(start))
        && layout == DropLayout(old(layout), scheme.PageOf(start))
        && mem[..] == DropMemory(scheme, old(mem[..]), old(layout), scheme.PageOf(start))
        && next == LinkAfter(scheme, old(layout).blocks[scheme.PageOf(start)], 0)
      ensures scheme.PageOf(start) !in old(layout).blocks ==>
        next == 0 && layout == old(layout) && DirectoryFreed(old(mem[..]), old(VirtualPages()), old(Frames()))
    {
      hide TablesOk, CacheOk, Inv, BitmapsOk, VirtualPages, Frames, Scheme.PageOf, Scheme.ValidAddress,
        Scheme.CellPointer, Lru.Reinserting, DropLayout, LinkAfter, Scheme.Pointer, DropMemory, Mapped, Scheme.Usable,
        Scheme.Pages, Shape, LinkWord, Zeroed;
      ghost var h := scheme.PageOf(start);
      ReleaseFacts(h);
      var pa;
      pa, next := ClearPage(cell, h);
      SplitPointer(scheme, FrameAt(layout, h), 0);
      ClearBits(scheme.PageOf(start), scheme.FrameOfPointer(pa));
    }

    lemma ReleaseFacts(h: nat)
      requires Valid() && (h in layout.blocks || (scheme.asWritten && h == 0))
      ensures Separate() && scheme.Ok() && Mapped(scheme, layout) && scheme.Usable() <= scheme.Pages()
      ensures Shape(scheme, mem[..]) && 0 < scheme.PageSize() && 0 < scheme.Pages() && 0 !in layout.frameOf
      ensures h in layout.blocks ==>
        && |layout.blocks[h]| > 0 && h in layout.frameOf && layout.frameOf[h] < scheme.Pages()
        && LinkWord(scheme, mem[..], layout.frameOf[h]) == LinkAfter(scheme, layout.blocks[h], 0)
    {
      hide TablesOk, CacheOk, Directory, Cells, FreeFramesZero, Bitmap.Members, Scheme.PageOf, Shape, LinkWord,
        Reserved;
      FrameCount(scheme);
      HeadsMapped(layout);
      NullPage(scheme, mem[..], layout);
      if h in layout.blocks {
        assert layout.place[layout.blocks[h][0]] == (h, 0);
        var g, i := MappedPage(scheme, mem[..], layout, h);
      }
    }

    lemma HeadFacts(start: nat)
      requires Valid() && scheme.PageOf(start) in layout.blocks
      ensures scheme.PageOf(start) in layout.frameOf
    {
      HeadsMapped(layout);
    }

    /** Marks a page and its frame free. */
    method ClearBits(page: nat, frame: nat)
      requires BitmapsOk() && Mapped(scheme, layout) && scheme.Usable() <= scheme.Pages() && 0 < scheme.Pages()
      requires if page in layout.blocks then |layout.blocks[page]| > 0 && page in layout.frameOf
                 && frame == layout.frameOf[page] else page == frame == 0
      modifies virtualBitmap, frameBitmap, this`layout
      ensures page in old(layout).blocks ==> layout == DropLayout(old(layout), page) && BitmapsOk()
      ensures page !in old(layout).blocks ==>
        layout == old(layout) && VirtualPages() == old(VirtualPages()) - {0} && Frames() == old(Frames()) - {0}
    {
      hide Mapped, Bitmap.Members, Reserved, DropLayout;
      if page in layout.blocks {
        DroppedSets(scheme, layout, page);
      }
      assert page < scheme.Pages() && frame < scheme.Pages() by {
        InRange(page);
      }
      Bitmap.UnsetAt(Bitmap.MsbFirst, virtualBitmap, page);
      Bitmap.UnsetAt(Bitmap.MsbFirst, frameBitmap, frame);
      if page in layout.blocks {
        layout := DropLayout(layout, page);
      }
    }

    lemma InRange(page: nat)
      requires Mapped(scheme, layout) && scheme.Usable() <= scheme.Pages()
      ensures page in layout.frameOf ==> page < scheme.Pages() && layout.frameOf[page] < scheme.Pages()
    {
    }

    /** Frees the first `numLinks` pages of the allocation that starts at `start`. From page 0, as written, it frees the
        directory and goes no further, whatever `numLinks` is. */
    method FreeAux(start: nat, numLinks: nat)
      requires start != 0 && numLinks > 0 ==>
        && Valid()
        && (scheme.PageOf(start) in layout.blocks ==> numLinks <= |layout.blocks[scheme.PageOf(start)]|)
        && (scheme.PageOf(start) in layout.blocks || InPageZero(scheme, start))
      modifies this`misses, this`lookups, this`trace, this`layout, tlb, tlb.repr, mem, virtualBitmap, frameBitmap
      ensures fresh(tlb.repr - old(tlb.repr))
      ensures start == 0 || numLinks == 0 ==>
        && layout == old(layout) && mem[..] == old(mem[..]) && trace == old(trace)
        && VirtualPages() == old(VirtualPages()) && Frames() == old(Frames())
        && (old(Valid()) ==> Valid()) && (old(CacheOk()) ==> CacheOk())
      ensures start != 0 && numLinks > 0 ==>
        var h := scheme.PageOf(start);
        if h in old(layout).blocks then
          && Valid() && FreedPages(old(layout), h, numLinks, layout)
          && FreedBytes(old(Bytes()), old(layout).blocks[h], numLinks, StreamIndex(scheme, numLinks, 0), Bytes())
          && trace == old(trace) + DropAndUseAll(old(layout).blocks[h][..numLinks])
        else
          && layout == old(layout) && DirectoryFreed(old(mem[..]), old(VirtualPages()), old(Frames()))
          && trace == old(trace) + [Lru.Drop(h)] + [Lru.Use(h)]
      decreases numLinks
    {
      hide TablesOk, CacheOk, Inv, BitmapsOk, Scheme.PageOf, Lru.Reinserting, DropLayout, Shrunk, Contents, LinkAfter,
        FreedPages, FreedBytes, StreamIndex, Placed, VirtualPages, Frames, Zeroed, DropAndUseAll;
      if start == 0 || numLinks == 0 {
        return;
      }
      ghost var l, h, before := layout, scheme.PageOf(start), mem[..];
      var next := FreePage(start);
      if h in l.blocks {
        NextHead(scheme, before, l, h, next);
        DropOneMore(l.blocks[h], numLinks);
      }
      ghost var c1 := if h in l.blocks then Bytes() else map[];
      FreeAux(next, numLinks - 1);
      if h in l.blocks {
        FreedStep(scheme, before, l, h, numLinks, c1, layout, Bytes());
        NoneDropped(l.blocks[h]);
      }
    }

    lemma NoneDropped(b: seq<nat>)
      requires b != []
      ensures DropAndUseAll(b[1..][..0]) == []
    {
    }

    /** Frees `size` bytes from the start of an allocation on, if that many are allocated. From page 0, as written,
        frees the directory. */
    method Free(va: nat, size: nat)
      requires Valid()
      requires scheme.PageOf(va) in layout.place ==> layout.place[scheme.PageOf(va)].1 == 0
      modifies this`misses, this`lookups, this`trace, this`layout, tlb, tlb.repr, mem, virtualBitmap, frameBitmap
      ensures fresh(tlb.repr - old(tlb.repr)) && scheme.Ok()
      ensures
        var h, k := scheme.PageOf(va), PagesFor(scheme, size);
        if size == 0 || !Accepted(scheme, old(layout), va, k) then
          && Valid() && layout == old(layout) && mem[..] == old(mem[..])
          && trace == old(trace) + if size == 0 then [] else CheckOps(scheme, old(layout), va, k)
        else if InPageZero(scheme, va) then
          && layout == old(layout) && DirectoryFreed(old(mem[..]), old(VirtualPages()), old(Frames()))
          && trace == old(trace) + CheckOps(scheme, old(layout), va, k) + [Lru.Drop(h)] + [Lru.Use(h)]
        else
          && Valid() && FreedPages(old(layout), h, k, layout)
          && FreedBytes(old(Bytes()), old(layout).blocks[h], k, StreamIndex(scheme, k, 0), Bytes())
          && trace == old(trace) + CheckOps(scheme, old(layout), va, k)
                      + DropAndUseAll(old(layout).blocks[h][..k])
    {
      hide TablesOk, CacheOk, Inv, BitmapsOk, Scheme.PageOf, Lru.Reinserting, Contents, FreedPages, FreedBytes,
        StreamIndex, Placed, PagesFor, Accepted, CheckOps, DropAndUseAll, InPageZero, DirectoryFreed;
      ValidFacts();
      if size == 0 {
        return;
      }
      var pagesRequested := PagesFor(scheme, size);
      HeadOfBlock(va, size);
      var enough := ValidPagesLinkedTogetherFrom(va, pagesRequested);
      if enough {
        FreeAux(va, pagesRequested);
      }
    }

    lemma HeadOfBlock(va: nat, size: nat)
      requires Inv(scheme, mem[..], layout) && size > 0
      requires scheme.PageOf(va) in layout.place ==> layout.place[scheme.PageOf(va)].1 == 0
      ensures
        var h, k := scheme.PageOf(va), PagesFor(scheme, size);
        && k > 0 && (InPageZero(scheme, va) ==> va != 0 && h !in layout.blocks)
        && (Accepted(scheme, layout, va, k) ==>
              va != 0 && (InPageZero(scheme, va) || (h in layout.blocks && k <= |layout.blocks[h]|)))
    {
      hide Mapped, Directory, Cells, FreeFramesZero, Linked, Shape, Scheme.PageOf, Quotient, Remainder, Scheme.Pointer;
      PagesForIsCeiling(size, scheme.Payload(), 0, 0);
      NullPage(scheme, mem[..], layout);
      HeadsMapped(layout);
    }

    /** A frame was taken from the bitmap, and it is not in use otherwise. */
    ghost predicate Grabbed(frame: nat)
      reads this`layout, virtualBitmap, frameBitmap
    {
      && 8 * virtualBitmap.Length == 8 * frameBitmap.Length == scheme.Pages() && Separate()
      && VirtualPages() == {0} + layout.frameOf.Keys
      && Frames() == Reserved(scheme) + layout.frameOf.Values + {frame}
      && scheme.DirEntries() < frame < scheme.Pages() && frame !in layout.frameOf.Values
    }

    lemma GrabbedFacts(frame: nat)
      requires Inv(scheme, mem[..], layout) && Grabbed(frame)
      ensures TablesOk() && scheme.Ok() && Shape(scheme, mem[..]) && Separate()
        && 8 * virtualBitmap.Length == scheme.Pages()
      ensures forall p: nat :: p !in VirtualPages() ==> p >= 1 && p !in layout.frameOf
    {
      hide Mapped, Placed, Directory, Shape, Scheme.Ok, Cells, FreeFramesZero, Linked, VirtualPages, Frames, Reserved,
        Scheme.Pages;
      UsablePages(scheme, layout);
    }

    /** Enters a frame into the page table; fails for an address out of range or in use. */
    method PageMap(va: nat, pa: nat, ghost frame: nat) returns (r: int)
      requires Inv(scheme, mem[..], layout) && Grabbed(frame) && CacheOk() && Lru.Reinserting(trace)
      requires scheme.ValidAddress(va) && scheme.PageOf(va) !in VirtualPages() ==> scheme.PageOf(va) < scheme.Usable()
      modifies this`misses, this`lookups, this`trace, this`layout, tlb, tlb.repr, mem, virtualBitmap
      ensures fresh(tlb.repr - old(tlb.repr))
      ensures trace == old(trace) + if r == 1 then [Lru.Use(scheme.PageOf(va))] else []
      ensures r == if scheme.ValidAddress(va) && scheme.PageOf(va) !in old(VirtualPages()) then 1 else 0
      ensures r == 0 ==> layout == old(layout) && mem[..] == old(mem[..]) && VirtualPages() == old(VirtualPages())
      ensures scheme.Ok() && Shape(scheme, old(mem[..]))
      ensures r == 1 ==>
        && CanMap(scheme, old(layout), scheme.PageOf(va), frame)
        && layout == MapLayout(old(layout), scheme.PageOf(va), frame)
        && mem[..] == WithCell(scheme, old(mem[..]), scheme.PageOf(va), pa)
        && BitmapsOk() && CacheOk() && Lru.Reinserting(trace)
    {
      hide Mapped, Placed, Directory, Cells, FreeFramesZero, Linked, CacheOk, Shape, Scheme.PageOf, Scheme.ValidAddress,
        Scheme.Pointer, Scheme.Ok, Bitmap.Members, Lru.Reinserting, MapLayout, WithCell, Scheme.Usable, VirtualPages,
        Frames, Reserved, Scheme.Pages;
      GrabbedFacts(frame);
      if !scheme.ValidAddress(va) {
        return 0;
      }
      var used := InUse(va);
      if used {
        return 0;
      }
      EnterCell(va, pa);
      MappedSets(scheme.PageOf(va), frame, old(VirtualPages()));
      layout := MapLayout(layout, scheme.PageOf(va), frame);
      r := 1;
    }

    /** Marks the page and stores into its cell. */
    method EnterCell(va: nat, pa: nat)
      requires TablesOk() && CacheOk() && Lru.Reinserting(trace)
      requires scheme.ValidAddress(va) && scheme.PageOf(va) < scheme.Usable()
      modifies this`misses, this`lookups, this`trace, tlb, tlb.repr, mem, virtualBitmap
      ensures fresh(tlb.repr - old(tlb.repr)) && trace == old(trace) + [Lru.Use(scheme.PageOf(va))]
      ensures CacheOk() && Lru.Reinserting(trace)
      ensures VirtualPages() == old(VirtualPages()) + {scheme.PageOf(va)}
      ensures scheme.Ok() && Shape(scheme, old(mem[..]))
        && mem[..] == WithCell(scheme, old(mem[..]), scheme.PageOf(va), pa)
    {
      hide CacheOk, Shape, Directory, Scheme.PageOf, Scheme.ValidAddress, Scheme.Ok, Bitmap.Members, Lru.Reinserting,
        Scheme.CellPointer, Scheme.CellFrame, Scheme.CellOffset;
      ghost var page := scheme.PageOf(va);
      FrameCount(scheme);
      CellInTables(scheme, page);
      Lru.ReinsertingUse(trace, page);
      ghost var before := mem[..];
      Bitmap.SetAt(Bitmap.MsbFirst, virtualBitmap, scheme.PageOf(va));
      assert mem[..] == before && VirtualPages() == old(VirtualPages()) + {page};
      var cell := CheckTLB(va);
      PointerIs(scheme, page);
      StoreWord(cell, pa, scheme.CellFrame(page), scheme.CellOffset(page));
    }

    lemma MappedSets(page: nat, frame: nat, before: set<nat>)
      requires 8 * virtualBitmap.Length == 8 * frameBitmap.Length == scheme.Pages() && Separate()
      requires before == {0} + layout.frameOf.Keys && page !in before && VirtualPages() == before + {page}
      requires Frames() == Reserved(scheme) + layout.frameOf.Values + {frame}
      ensures
        var l := MapLayout(layout, page, frame);
        VirtualPages() == {0} + l.frameOf.Keys && Frames() == Reserved(scheme) + l.frameOf.Values
    {
      hide Bitmap.Members, Reserved;
      ValuesAfter(layout.frameOf, page, frame);
    }

    /** Is every page of the virtual bitmap marked? */
    ghost predicate Full()
      reads virtualBitmap
    {
      forall p: nat :: p < scheme.Pages() ==> p in VirtualPages()
    }

    /** The address of the first page that is not in use; if there is none, -1 shifted to the place of a page number. */
    method GetNextAvail() returns (va: nat)
      requires Valid()
      ensures Full() ==> va == Pow256(scheme.Word()) - scheme.PageSize()
      ensures !Full() ==>
        va == scheme.AddressOf(scheme.PageOf(va), 0)
        && Bitmap.IsFirstFree(VirtualPages(), scheme.Pages(), scheme.PageOf(va))
      ensures |VirtualPages()| < scheme.Usable() ==> !Full() && scheme.PageOf(va) < scheme.Usable()
    {
      hide TablesOk, CacheOk, Mapped, Placed, Directory, Cells, FreeFramesZero, Linked, Shape, Bitmap.Members,
        Scheme.Pages, Scheme.Usable, Scheme.Ok, Scheme.PageOf, Scheme.AddressOf;
      UsablePages(scheme, layout);
      FrameCount(scheme);
      var p := Bitmap.FirstAvailable(Bitmap.MsbFirst, virtualBitmap);
      RoomBelow(scheme, VirtualPages(), p);
      if p < 0 {
        return Pow256(scheme.Word()) - scheme.PageSize();
      }
      SplitAddress(scheme, p, 0);
      va := scheme.AddressOf(p, 0);
    }

    lemma RoomBelow(s: Scheme, used: set<nat>, p: int)
      requires s.Ok() && Bitmap.IsFirstFree(used, s.Pages(), p) && forall q :: q in used ==> q < s.Usable()
      ensures |used| < s.Usable() ==> 0 <= p < s.Usable()
      ensures s.PageSize() <= Pow256(s.Word())
    {
      hide Bitmap.IsFirstFree;
      FrameCount(s);
      if |used| < s.Usable() {
        FirstFreeBelow(used, s.Usable(), s.Pages(), p);
      }
    }

    /** Takes the first free frame. */
    method GrabFrame() returns (frame: nat)
      requires Valid() && |Frames()| < scheme.Pages()
      modifies frameBitmap
      ensures Grabbed(frame) && Bitmap.IsFirstFree(old(Frames()), scheme.Pages(), frame)
      ensures Frames() == old(Frames()) + {frame}
      ensures mem[..] == old(mem[..]) && Inv(scheme, mem[..], layout) && CacheOk() && Lru.Reinserting(trace)
    {
      hide TablesOk, CacheOk, Inv, Bitmap.Members, Bitmap.IsFirstFree, Scheme.Pages, Scheme.Usable, Lru.Reinserting,
        Reserved;
      FramesBelow(scheme, mem[..], layout);
      var f := Bitmap.FirstAvailable(Bitmap.MsbFirst, frameBitmap);
      FirstFreeBelow(Frames(), scheme.Pages(), scheme.Pages(), f);
      FreeFrame(scheme, layout, f);
      Bitmap.SetAt(Bitmap.MsbFirst, frameBitmap, f);
      frame := f;
    }

    /** One round of the allocation loop: a fresh page on a fresh frame. */
    method NewPage() returns (va: nat, pa: nat, ghost page: nat, ghost frame: nat)
      requires Valid() && |VirtualPages()| < scheme.Usable() && |Frames()| < scheme.Pages()
      modifies this`misses, this`lookups, this`trace, this`layout, tlb, tlb.repr, mem, virtualBitmap, frameBitmap
      ensures Valid() && fresh(tlb.repr - old(tlb.repr)) && trace == old(trace) + [Lru.Use(page)]
      ensures va == scheme.AddressOf(page, 0) && pa == scheme.Pointer(frame, 0)
      ensures Bitmap.IsFirstFree(old(VirtualPages()), scheme.Pages(), page)
      ensures Bitmap.IsFirstFree(old(Frames()), scheme.Pages(), frame)
      ensures VirtualPages() == old(VirtualPages()) + {page} && Frames() == old(Frames()) + {frame}
      ensures layout == MapLayout(old(layout), page, frame)
      ensures Bytes() == old(Bytes())[page := Zeros(scheme.Payload())]
    {
      hide TablesOk, CacheOk, Inv, BitmapsOk, VirtualPages, Bitmap.IsFirstFree, Scheme.Pages, Scheme.Usable,
        Lru.Reinserting, Scheme.AddressOf, Scheme.Pointer, MapLayout, Zeros, Contents, Grabbed, Scheme.PageOf,
        Scheme.ValidAddress, Bitmap.Members;
      va := GetNextAvail();
      page := scheme.PageOf(va);
      PageAddress(page);
      var f := GrabFrame();
      frame := f;
      pa := MapFrame(va, f);
    }

    /** Clears a frame just taken, and maps a page to it. */
    method MapFrame(va: nat, frame: nat) returns (pa: nat)
      requires Inv(scheme, mem[..], layout) && Grabbed(frame) && CacheOk() && Lru.Reinserting(trace)
      requires scheme.ValidAddress(va) && scheme.PageOf(va) < scheme.Usable() && scheme.PageOf(va) !in VirtualPages()
      requires scheme.PageOf(va) >= 1 && scheme.PageOf(va) !in layout.frameOf
      modifies this`misses, this`lookups, this`trace, this`layout, tlb, tlb.repr, mem, virtualBitmap
      ensures Valid() && fresh(tlb.repr - old(tlb.repr)) && trace == old(trace) + [Lru.Use(scheme.PageOf(va))]
      ensures pa == scheme.Pointer(frame, 0) && scheme.Ok()
      ensures layout == MapLayout(old(layout), scheme.PageOf(va), frame)
      ensures VirtualPages() == old(VirtualPages()) + {scheme.PageOf(va)}
      ensures Bytes() == old(Bytes())[scheme.PageOf(va) := Zeros(scheme.Payload())]
    {
      hide TablesOk, CacheOk, Inv, Scheme.Usable, Lru.Reinserting, Scheme.Pointer, Zeros, Contents, Shape, VirtualPages,
        Frames, Scheme.PageOf, Scheme.ValidAddress, Zeroed, Scheme.Pages, Reserved, WithCell;
      ghost var before, l := mem[..], layout;
      pa := scheme.Pointer(frame, 0);
      MapNew(before, l, scheme.PageOf(va), frame);
      SplitPointer(scheme, frame, 0);
      ClearFrame(scheme.FrameOfPointer(pa));
      var mapped := PageMap(va, pa, frame);
      assert mapped == 1;
    }

    lemma AddressOfPage(s: Scheme, page: nat)
      requires s.Ok() && page < s.Usable()
      ensures s.PageSize() > 0 && s.PageOf(s.AddressOf(page, 0)) == page && s.ValidAddress(s.AddressOf(page, 0))
    {
      hide Scheme.PageOf, Scheme.AddressOf, Scheme.ValidAddress;
      SplitAddress(s, page, 0);
      FrameCount(s);
      InvalidPage(s, s.AddressOf(page, 0));
    }

    lemma PageAddress(page: nat)
      requires Valid() && page < scheme.Usable() && Bitmap.IsFirstFree(VirtualPages(), scheme.Pages(), page)
      ensures scheme.PageOf(scheme.AddressOf(page, 0)) == page && scheme.ValidAddress(scheme.AddressOf(page, 0))
      ensures page !in VirtualPages() && page >= 1 && page !in layout.frameOf && Separate()
    {
      hide TablesOk, CacheOk, Inv, Bitmap.Members, Scheme.PageOf, Scheme.AddressOf, Scheme.ValidAddress,
        Lru.Reinserting, Reserved, Scheme.Ok, Scheme.PageSize, VirtualPages, Frames;
      ValidFacts();
      AddressOfPage(scheme, page);
      assert 0 in VirtualPages();
    }

    lemma MapNew(before: Memory, l: Layout, page: nat, frame: nat)
      requires Inv(scheme, before, l) && page < scheme.Usable() && page >= 1 && page !in l.frameOf
      requires scheme.DirEntries() < frame < scheme.Pages() && frame !in l.frameOf.Values
      ensures Shape(scheme, before) && Zeroed(scheme, before, frame) == before
      ensures
        var after := WithCell(scheme, before, page, scheme.Pointer(frame, 0));
        && Inv(scheme, after, MapLayout(l, page, frame))
        && Contents(scheme, after, MapLayout(l, page, frame)) ==
             Contents(scheme, before, l)[page := Zeros(scheme.Payload())]
    {
      hide Mapped, Placed, Directory, Cells, FreeFramesZero, Linked, Shape, MapLayout, WithCell, Scheme.Pointer, Zeros,
        Zeroed;
      FreshFrame(scheme, before, l, frame);
      MapKeeps(scheme, before, l, page, frame);
    }

    /** The allocation loop: `n` pages and frames by first fit. */
    method MapPages(n: nat) returns (links: seq<nat>, requestedFrames: seq<nat>, ghost b: seq<nat>, ghost fs: seq<nat>)
      requires Valid() && |VirtualPages()| + n <= scheme.Usable() && |Frames()| + n <= scheme.Pages()
      modifies this`misses, this`lookups, this`trace, this`layout, tlb, tlb.repr, mem, virtualBitmap, frameBitmap
      ensures Valid() && fresh(tlb.repr - old(tlb.repr)) && trace == old(trace) + UseAll(b)
      ensures |b| == |fs| == n && scheme.Ok()
      ensures Mapping(scheme, old(layout), old(VirtualPages()), old(Frames()), old(Bytes()), b, fs,
                      layout, VirtualPages(), Frames(), Bytes())
      ensures AddressesOf(scheme, b, links) && PointersTo(scheme, fs, requestedFrames)
    {
      hide Inv, BitmapsOk, CacheOk, MapLayout, Bytes, VirtualPages, Frames, Zeros, Scheme.AddressOf, Scheme.Pointer,
        Scheme.Ok, Bitmap.IsFirstFree, Scheme.Pages, Scheme.Usable, Lru.Reinserting, Mapping, UseAll;
      ValidFacts();
      links, requestedFrames, b, fs := [], [], [], [];
      NothingYet(scheme, layout, VirtualPages(), Frames(), Bytes());
      var i := 0;
      while i < n
        invariant 0 <= i <= n && |b| == |fs| == i
        invariant Valid() && fresh(tlb.repr - old(tlb.repr)) && trace == old(trace) + UseAll(b) && scheme.Ok()
        invariant |VirtualPages()| + (n - i) <= scheme.Usable() && |Frames()| + (n - i) <= scheme.Pages()
        invariant Mapping(scheme, old(layout), old(VirtualPages()), old(Frames()), old(Bytes()), b, fs,
                          layout, VirtualPages(), Frames(), Bytes())
        invariant AddressesOf(scheme, b, links) && PointersTo(scheme, fs, requestedFrames)
      {
        ghost var l, v, f, c := layout, VirtualPages(), Frames(), Bytes();
        var va, pa, page, frame := NewPage();
        UseOneMore(b, page);
        MappingOneMore(scheme, old(layout), old(VirtualPages()), old(Frames()), old(Bytes()), b, fs, l, v, f, c, page,
          frame);
        links, requestedFrames, b, fs := links + [va], requestedFrames + [pa], b + [page], fs + [frame];
        i := i + 1;
      }
    }

    /** Stores the address of page `q` as the link of the last page of allocation `h`. */
    method LinkPage(pa: nat, va: nat, ghost h: nat, ghost q: nat)
      requires Valid() && CanJoin(layout, h, q) && va == scheme.AddressOf(q, 0)
      requires Last(layout, h) in layout.frameOf && pa == scheme.Pointer(layout.frameOf[Last(layout, h)], 0)
      modifies mem, this`layout
      ensures Valid() && layout == JoinLayout(old(layout), h, q)
      ensures Appended(old(Bytes()), h, q, Bytes())
    {
      hide TablesOk, CacheOk, Mapped, Placed, Directory, Cells, FreeFramesZero, Linked, Shape, Scheme.Ok,
        Scheme.AddressOf, Scheme.Pointer, VirtualPages, Frames, EncodeLE, Overwritten, Last;
      ghost var before, l := mem[..], layout;
      JoinKeeps(scheme, before, l, h, q);
      FrameCount(scheme);
      StoreWord(pa, va, layout.frameOf[Last(layout, h)], 0);
      layout := JoinLayout(layout, h, q);
    }

    /** The linking loop: every page but the last gets the address of its successor. */
    method LinkPages(links: seq<nat>, requestedFrames: seq<nat>, ghost b: seq<nat>, ghost fs: seq<nat>,
                     ghost l0: Layout, ghost c0: map<nat, seq<byte>>)
      requires Valid() && scheme.Ok() && b != [] && NewPages(l0, b) && c0.Keys == l0.blocks.Keys
      requires MappedSingles(l0, b, fs, layout) && Bytes() == c0 + ZeroPages(b, scheme.Payload())
      requires AddressesOf(scheme, b, links) && PointersTo(scheme, fs, requestedFrames)
      modifies mem, this`layout
      ensures Valid() && Allocated(l0, b, fs, layout)
      ensures Bytes() == c0[b[0] := Zeros(StreamIndex(scheme, |b|, 0))]
    {
      hide Inv, BitmapsOk, CacheOk, JoinLayout, Bytes, Zeros, Scheme.AddressOf, Scheme.Pointer, Scheme.Ok,
        Lru.Reinserting, LinkedUpTo, LinkedBytes, Zip, NewPages, Last, StreamIndex, CanJoin, Allocated;
      LinkedNone(l0, b, layout);
      LinkedBytesNone(scheme, c0, b);
      var j := 0;
      while j < |links| - 1
        invariant 0 <= j < |b|
        invariant Valid() && layout.frameOf == l0.frameOf + Zip(b, fs)
        invariant LinkedUpTo(l0, b, j, layout) && LinkedBytes(scheme, c0, b, j, Bytes())
      {
        LinkedOneMore(l0, b, j, layout);
        LinkedBytesOneMore(scheme, c0, l0, b, j, Bytes());
        ZipFrame(l0, b, fs, layout, j);
        JoinKeepsFrames(layout, b[0], b[j + 1]);
        LinkPage(requestedFrames[j], links[j + 1], b[0], b[j + 1]);
        j := j + 1;
      }
      LinkedAll(scheme, l0, b, fs, layout, c0, Bytes());
    }

    /** Are there `n` free pages and `n` free frames? */
    ghost predicate Fits(n: nat)
      reads virtualBitmap, frameBitmap
    {
      |VirtualPages()| + n <= scheme.Pages() && |Frames()| + n <= scheme.Pages()
    }

    method EnoughBits(n: nat) returns (r: bool)
      requires Valid() && n > 0
      ensures r <==> Fits(n)
    {
      hide TablesOk, Inv, CacheOk, Bitmap.Members, Scheme.Pages, Reserved;
      r := Bitmap.NBitsAvailable(Bitmap.MsbFirst, virtualBitmap, n);
      if r {
        r := Bitmap.NBitsAvailable(Bitmap.MsbFirst, frameBitmap, n);
      }
    }

    /** Maps `n` pages and links them. */
    method Allocate(n: nat) returns (va: nat, ghost b: seq<nat>, ghost fs: seq<nat>)
      requires Valid() && n > 0 && |VirtualPages()| + n <= scheme.Usable() && |Frames()| + n <= scheme.Pages()
      modifies this`misses, this`lookups, this`trace, this`layout, tlb, tlb.repr, mem, virtualBitmap, frameBitmap
      ensures Valid() && fresh(tlb.repr - old(tlb.repr)) && trace == old(trace) + UseAll(b) && scheme.Ok()
      ensures |b| == n && Allocated(old(layout), b, fs, layout) && va == scheme.AddressOf(b[0], 0) && va != 0
      ensures FirstFit(old(VirtualPages()), scheme.Pages(), b) && FirstFit(old(Frames()), scheme.Pages(), fs)
      ensures Bytes() == old(Bytes())[b[0] := Zeros(StreamIndex(scheme, |b|, 0))]
    {
      hide TablesOk, CacheOk, Mapped, Placed, Directory, Cells, FreeFramesZero, Linked, Shape, Scheme.Ok, Zeros,
        Scheme.AddressOf, Scheme.Pointer, Lru.Reinserting, Zip, NewPages, StreamIndex, Allocated, FirstFit,
        MappedSingles, VirtualPages, Frames, Reserved, Scheme.Pages, Scheme.Usable, ZeroPages, Mapping, BlockData;
      NewPagesLater(scheme, mem[..], layout);
      ghost var l0, v0, f0, c0 := layout, VirtualPages(), Frames(), Bytes();
      var links, requestedFrames;
      links, requestedFrames, b, fs := MapPages(n);
      MappingFacts(scheme, l0, v0, f0, c0, b, fs, layout, VirtualPages(), Frames(), Bytes());
      LinkPages(links, requestedFrames, b, fs, l0, c0);
      va := links[0];
      FirstIsNotNull(scheme, l0, b);
    }

    /** Allocates whole pages for `numBytes` bytes, or none at all. */
    method Malloc(numBytes: nat) returns (va: nat, ghost b: seq<nat>, ghost fs: seq<nat>)
      requires Valid()
      requires scheme.asWritten && Fits(PagesFor(scheme, numBytes)) ==>
        |VirtualPages()| + PagesFor(scheme, numBytes) <= scheme.Usable()
      modifies this`misses, this`lookups, this`trace, this`layout, tlb, tlb.repr, mem, virtualBitmap, frameBitmap
      ensures Valid() && fresh(tlb.repr - old(tlb.repr))
      ensures trace == old(trace) + if va == 0 then [] else UseAll(b)
      ensures va != 0 <==> numBytes > 0 && old(Fits(PagesFor(scheme, numBytes)))
      ensures va == 0 ==> layout == old(layout) && mem[..] == old(mem[..])
      ensures va != 0 ==>
        && |b| == PagesFor(scheme, numBytes) && Allocated(old(layout), b, fs, layout) && va == scheme.AddressOf(b[0], 0)
        && FirstFit(old(VirtualPages()), scheme.Pages(), b) && FirstFit(old(Frames()), scheme.Pages(), fs)
        && Bytes() == old(Bytes())[b[0] := Zeros(StreamIndex(scheme, |b|, 0))]
    {
      hide TablesOk, Inv, CacheOk, BitmapsOk, Bytes, Zeros, Scheme.AddressOf, Lru.Reinserting, Zip, NewPages,
        StreamIndex, Allocated, FirstFit, MappedSingles, Bitmap.Members, PagesFor, Scheme.Pages, Scheme.Usable, SetOf,
        VirtualPages, Frames;
      MallocFacts(numBytes);
      b, fs := [], [];
      if numBytes == 0 {
        return 0, b, fs;
      }
      var pagesRequested := PagesFor(scheme, numBytes);
      var fits := EnoughBits(pagesRequested);
      if !fits {
        return 0, b, fs;
      }
      va, b, fs := Allocate(pagesRequested);
    }

    lemma MallocFacts(n: nat)
      requires Valid()
      ensures scheme.Ok() && (n > 0 ==> PagesFor(scheme, n) > 0)
        && (!scheme.asWritten ==> scheme.Usable() == scheme.Pages())
    {
      hide Mapped, Placed, Directory, Cells, FreeFramesZero, Linked, Shape, BitmapsOk, CacheOk, Quotient, Remainder,
        Scheme.Ok;
      PagesForIsCeiling(n, scheme.Payload(), 0, 0);
    }
  }
}
