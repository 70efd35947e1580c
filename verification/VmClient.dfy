/** A client's view: allocate, store anything, free, and allocate again. */
module VmClient {
  import opened Arithmetic
  import opened Words
  import opened VmScheme
  import opened VmState
  import opened VmSteps
  import opened VmStream
  import opened VmAlloc
  import opened VmTrace
  import opened Vm
  import opened VmTheorems
  import Bitmap
  import Lru

  /** Bytes to be put at an address. */
  datatype Write = Write(va: nat, val: seq<byte>)

  /** Do all the addresses lie in pages `b`? */
  ghost predicate Within(s: Scheme, b: seq<nat>, writes: seq<Write>) {
    forall i :: 0 <= i < |writes| ==> s.PageOf(writes[i].va) in b
  }

  lemma FirstPlace(s: Scheme, mem: Memory, l0: Layout, b: seq<nat>, fs: seq<nat>, l: Layout)
    requires Inv(s, mem, l) && Allocated(l0, b, fs, l)
    ensures b != [] && b[0] in l.blocks && l.blocks[b[0]] == b && b[0] != 0
    ensures b[0] in l.place && l.place[b[0]] == (b[0], 0) && s.PageOf(s.AddressOf(b[0], 0)) == b[0]
    ensures forall i :: 0 <= i < |b| ==> b[i] < s.Usable()
  {
    hide Directory, Cells, Linked, FreeFramesZero, Shape, Scheme.Ok, Zip, Scheme.AddressOf, Scheme.PageOf;
    assert l.place[l.blocks[b[0]][0]] == (b[0], 0);
    SplitAddress(s, b[0], 0);
    forall i | 0 <= i < |b| ensures b[i] < s.Usable() {
      assert l.blocks[b[0]][i] in l.place;
    }
  }

  /** Every page of an allocation belongs to it. */
  lemma HomeOfPage(s: Scheme, mem: Memory, l0: Layout, b: seq<nat>, fs: seq<nat>, l: Layout, p: nat)
    requires Inv(s, mem, l) && Allocated(l0, b, fs, l) && p in b
    ensures Home(l, p) == b[0] && p != 0
  {
    hide Directory, Cells, Linked, FreeFramesZero, Shape, Scheme.Ok, Zip;
    var i :| 0 <= i < |b| && b[i] == p;
    assert l.place[l.blocks[b[0]][i]] == (b[0], i);
  }

  /** Everything but allocation `h` as before. */
  ghost predicate OnlyChanged(c: map<nat, seq<byte>>, h: nat, c': map<nat, seq<byte>>) {
    h in c' && c' - {h} == c - {h}
  }

  /** Any puts at addresses of one allocation, in whichever of its pages, change the bytes of that allocation only. */
  method PutAll(vm: VirtualMemory, writes: seq<Write>, ghost l0: Layout, ghost b: seq<nat>, ghost fs: seq<nat>)
    requires vm.Valid() && Allocated(l0, b, fs, vm.layout) && Within(vm.scheme, b, writes)
    modifies vm`misses, vm`lookups, vm`trace, vm.tlb, vm.tlb.repr, vm.mem
    ensures vm.Valid() && fresh(vm.tlb.repr - old(vm.tlb.repr))
    ensures OnlyChanged(old(vm.Bytes()), b[0], vm.Bytes())
  {
    hide Inv, VirtualMemory.BitmapsOk, VirtualMemory.CacheOk, Allocated, Scheme.PageOf, Scheme.OffsetOf,
      Scheme.AddressOf, RoomAt, Stored, Home, Position, Contents, Scheme.Ok, Scheme.PageSize, OnlyChanged;
    FirstIsHome(vm, l0, b, fs);
    SelfUnchanged(vm.Bytes(), b[0]);
    for i := 0 to |writes|
      invariant vm.Valid() && fresh(vm.tlb.repr - old(vm.tlb.repr)) && vm.scheme.Ok()
      invariant OnlyChanged(old(vm.Bytes()), b[0], vm.Bytes())
    {
      HomeOfPage(vm.scheme, vm.mem[..], l0, b, fs, vm.layout, vm.scheme.PageOf(writes[i].va));
      ghost var c := vm.Bytes();
      var r := vm.PutValue(writes[i].va, writes[i].val);
      StoredChanges(old(vm.Bytes()), c, b[0], vm.Bytes(), Position(vm.scheme, vm.layout, writes[i].va), writes[i].val);
    }
  }

  lemma FirstIsHome(vm: VirtualMemory, l0: Layout, b: seq<nat>, fs: seq<nat>)
    requires vm.Valid() && Allocated(l0, b, fs, vm.layout)
    ensures vm.scheme.Ok() && b != [] && b[0] in vm.Bytes()
  {
  }

  lemma SelfUnchanged(c: map<nat, seq<byte>>, h: nat)
    requires h in c
    ensures OnlyChanged(c, h, c)
  {
  }

  lemma StoredChanges(c0: map<nat, seq<byte>>, c: map<nat, seq<byte>>, h: nat, c': map<nat, seq<byte>>, at: nat,
                      d: seq<byte>)
    requires OnlyChanged(c0, h, c) && (c' == c || Stored(c, h, at, d, c'))
    ensures OnlyChanged(c0, h, c')
  {
    if c' != c {
      assert c' - {h} == c - {h};
    }
  }

  /** Are the writes for the allocation to come, whose pages first fit determines? */
  ghost predicate ForThatAllocation(s: Scheme, used: set<nat>, n: nat, writes: seq<Write>) {
    forall b :: FirstFit(used, s.Pages(), b) && |b| == n ==> Within(s, b, writes)
  }

  /** What every allocation of `n` pages asks for, as the program is written: cells of their own for all pages. */
  ghost predicate FitsTables(vm: VirtualMemory, n: nat)
    reads vm.virtualBitmap, vm.frameBitmap
  {
    vm.scheme.asWritten && vm.Fits(n) ==> |vm.VirtualPages()| + n <= vm.scheme.Usable()
  }

  /** After any writes to an allocation, freeing it restores both bitmaps to what they were before the allocation, and
      all of physical memory, tables included, exactly if the cells of its pages were null then: in the intended
      program always. */
  method AllocatePutFree(vm: VirtualMemory, numBytes: nat, writes: seq<Write>) returns (va: nat, ghost b: seq<nat>)
    requires vm.Valid() && FitsTables(vm, PagesFor(vm.scheme, numBytes))
    requires ForThatAllocation(vm.scheme, vm.VirtualPages(), PagesFor(vm.scheme, numBytes), writes)
    modifies vm`misses, vm`lookups, vm`trace, vm`layout, vm.tlb, vm.tlb.repr, vm.mem, vm.virtualBitmap, vm.frameBitmap
    ensures vm.Valid() && fresh(vm.tlb.repr - old(vm.tlb.repr)) && vm.scheme.Ok() && Shape(vm.scheme, old(vm.mem[..]))
    ensures vm.VirtualPages() == old(vm.VirtualPages()) && vm.Frames() == old(vm.Frames())
    ensures va != 0 <==> numBytes > 0 && old(vm.Fits(PagesFor(vm.scheme, numBytes)))
    ensures va == 0 ==> vm.mem[..] == old(vm.mem[..])
    ensures va != 0 ==> AllocatedAt(vm.scheme, old(vm.VirtualPages()), PagesFor(vm.scheme, numBytes), b, va)
    ensures va != 0 ==> (vm.mem[..] == old(vm.mem[..]) <==> CellsNull(vm.scheme, old(vm.mem[..]), b))
    ensures !vm.scheme.asWritten ==> vm.mem[..] == old(vm.mem[..])
  {
    hide Inv, VirtualMemory.CacheOk, VirtualMemory.VirtualPages, VirtualMemory.Frames, Allocated, Scheme.PageOf,
      Scheme.OffsetOf, Scheme.AddressOf, Contents, Scheme.Ok, Scheme.PageSize, OnlyChanged, FirstFit, PagesFor, Zeros,
      StreamIndex, FreedPages, FreedBytes, VirtualMemory.Fits, Reserved, LinkedFrom, CellsNull, Within, Shape, CheckOps,
      DropAndUseAll, VirtualMemory.DirectoryFreed, UseAll;
    ghost var l0, mem0, c0 := vm.layout, vm.mem[..], vm.Bytes();
    Marks(vm);
    ghost var fs;
    va, b, fs := vm.Malloc(numBytes);
    Marks(vm);
    if va == 0 {
      return;
    }
    FirstPlace(vm.scheme, vm.mem[..], l0, b, fs, vm.layout);
    FreshChanged(c0, b[0], vm.Bytes());
    ghost var l1, c1 := vm.layout, vm.Bytes();
    PutAll(vm, writes, l0, b, fs);
    ghost var c2 := vm.Bytes();
    FirstLinked(vm.layout, b);
    vm.Free(va, numBytes);
    ChangedTwice(c0, c1, b[0], c2);
    Marks(vm);
    FreeUndoesMalloc(vm.scheme, mem0, l0, b, fs, l1, c2, vm.mem[..], vm.layout);
  }

  lemma Marks(vm: VirtualMemory)
    requires vm.Valid()
    ensures vm.scheme.Ok() && vm.scheme.PageSize() > 0 && Shape(vm.scheme, vm.mem[..])
    ensures vm.VirtualPages() == {0} + vm.layout.frameOf.Keys
    ensures vm.Frames() == Reserved(vm.scheme) + vm.layout.frameOf.Values
  {
    hide Mapped, Placed, Directory, Cells, FreeFramesZero, Linked, Shape, VirtualMemory.CacheOk, Bitmap.Members,
      Reserved, Scheme.Ok;
  }

  ghost predicate AllocatedAt(s: Scheme, used: set<nat>, n: nat, b: seq<nat>, va: nat) {
    |b| == n && b != [] && FirstFit(used, s.Pages(), b) && va == s.AddressOf(b[0], 0)
  }

  lemma FreshChanged(c0: map<nat, seq<byte>>, h: nat, c: map<nat, seq<byte>>)
    requires h in c && c == c0[h := c[h]]
    ensures OnlyChanged(c0, h, c)
  {
  }

  lemma ChangedTwice(c0: map<nat, seq<byte>>, c1: map<nat, seq<byte>>, h: nat, c2: map<nat, seq<byte>>)
    requires OnlyChanged(c0, h, c1) && OnlyChanged(c1, h, c2)
    ensures h in c2 && c2 - {h} == c0 - {h}
  {
  }

  lemma FirstLinked(l: Layout, b: seq<nat>)
    requires b != [] && b[0] in l.blocks && l.blocks[b[0]] == b && b[0] in l.place && l.place[b[0]] == (b[0], 0)
    ensures LinkedFrom(l, b[0], |b|)
  {
  }

  /** So the next allocation of that size gets the same address. */
  method AllocateAgain(vm: VirtualMemory, numBytes: nat, writes: seq<Write>) returns (first: nat, second: nat)
    requires vm.Valid() && FitsTables(vm, PagesFor(vm.scheme, numBytes))
    requires ForThatAllocation(vm.scheme, vm.VirtualPages(), PagesFor(vm.scheme, numBytes), writes)
    modifies vm`misses, vm`lookups, vm`trace, vm`layout, vm.tlb, vm.tlb.repr, vm.mem, vm.virtualBitmap, vm.frameBitmap
    ensures vm.Valid() && second == first
  {
    hide Inv, VirtualMemory.CacheOk, VirtualMemory.BitmapsOk, VirtualMemory.VirtualPages, VirtualMemory.Frames,
      Allocated, Scheme.AddressOf, Contents, Scheme.Ok, Scheme.PageSize, FirstFit, PagesFor, Zeros, StreamIndex,
      ForThatAllocation, CellsNull, Shape;
    ghost var used := vm.VirtualPages();
    ghost var b0, b, fs;
    first, b0 := AllocatePutFree(vm, numBytes, writes);
    second, b, fs := vm.Malloc(numBytes);
    if first != 0 {
      FirstFitUnique(used, vm.scheme.Pages(), b0, b);
    }
  }

  /** As the program is written, the very first allocation and its release already leave memory changed: the cell of
      page 1 is the second entry of the directory. */
  method FirstUseChangesMemory(s: Scheme, tlbEntries: nat) returns (vm: VirtualMemory, ghost before: Memory)
    requires s.Ok() && tlbEntries >= 1 && s.asWritten && s.DirEntries() >= 2
    ensures vm.Valid() && vm.scheme == s && |vm.VirtualPages()| == 1 && vm.mem[..] != before
    ensures Inv(s, before, NoLayout())
  {
    hide Inv, VirtualMemory.CacheOk, Allocated, Scheme.AddressOf, Contents, Scheme.Ok, FirstFit, PagesFor, Zeros,
      StreamIndex, ForThatAllocation, CellsNull, Shape, Reserved, VirtualMemory.VirtualPages, VirtualMemory.Frames,
      Pow2;
    vm := new VirtualMemory(s, tlbEntries);
    before := vm.mem[..];
    FirstFits(vm);
    var va, b := AllocatePutFree(vm, 1, []);
    FirstCell(s, before, b);
    Marks(vm);
  }

  // ---- Addresses in page 0, as the program is written

  /** Any bytes can be put at an address in page 0, where there is room behind the first word; after that the memory is
      in order exactly if they were there before, as a get shows. */
  method PutInPageZero(vm: VirtualMemory, va: nat, val: seq<byte>) returns (before: seq<byte>, r: int)
    requires vm.Valid() && InPageZero(vm.scheme, va) && val != []
    requires vm.scheme.Ok() && vm.scheme.OffsetOf(va) + |val| <= vm.scheme.Payload()
    modifies vm`misses, vm`lookups, vm`trace, vm.tlb, vm.tlb.repr, vm.mem
    ensures r == 0 && |before| == |val| && vm.layout == old(vm.layout) && 0 < vm.scheme.Pages()
    ensures Shape(vm.scheme, old(vm.mem[..]))
    ensures vm.mem[..] == WriteMemory(vm.scheme, old(vm.mem[..]), 0, vm.scheme.OffsetOf(va), val)
    ensures before == Data(vm.scheme, old(vm.mem[..]), 0)[vm.scheme.OffsetOf(va)..vm.scheme.OffsetOf(va) + |val|]
    ensures vm.Valid() <==> val == before
  {
    hide VirtualMemory.BitmapsOk, VirtualMemory.CacheOk, Inv, Scheme.Ok, Shape, WriteMemory, CheckOps, AccessOps,
      PagesFor, Data, Scheme.PageOf, Lru.Reinserting;
    InUsePages(vm);
    ghost var mem := vm.mem[..];
    before := vm.GetValue(va, |val|);
    r := vm.PutValue(va, val);
    StoreInDirectory(vm.scheme, mem, vm.layout, vm.scheme.OffsetOf(va), val);
    StoredSame(vm.scheme, mem, vm.scheme.OffsetOf(va), val);
  }

  lemma InUsePages(vm: VirtualMemory)
    requires vm.Valid()
    ensures vm.scheme.Ok() && Shape(vm.scheme, vm.mem[..]) && 0 < vm.scheme.Pages()
  {
    hide VirtualMemory.BitmapsOk, VirtualMemory.CacheOk, Mapped, Placed, Directory, Cells, FreeFramesZero, Linked;
    FrameCount(vm.scheme);
  }

  /** A store changes nothing exactly if it stores what is there. */
  lemma StoredSame(s: Scheme, mem: Memory, o: nat, d: seq<byte>)
    requires s.Ok() && Shape(s, mem) && 0 < s.Pages() && o + |d| <= s.Payload()
    ensures WriteMemory(s, mem, 0, o, d) == mem <==> d == Data(s, mem, 0)[o..o + |d|]
  {
    hide Scheme.Ok;
    var w := s.Word();
    assert Data(s, mem, 0)[o..o + |d|] == mem[0][w + o..w + o + |d|];
    SpliceSame(mem[0], w + o, d);
  }

  lemma SpliceSame(f: seq<byte>, at: nat, d: seq<byte>)
    requires at + |d| <= |f|
    ensures Splice(f, at, d) == f <==> d == f[at..at + |d|]
  {
    assert Splice(f, at, d)[at..at + |d|] == d;
    if d == f[at..at + |d|] {
      assert f == f[..at] + f[at..at + |d|] + f[at + |d|..];
    }
  }

  /** So the very first put may do it: a byte changed in the directory of a new memory. */
  method FirstPutBreaks(s: Scheme, tlbEntries: nat) returns (vm: VirtualMemory, r: int)
    requires s.Ok() && tlbEntries >= 1 && s.asWritten
    ensures r == 0 && vm.scheme == s && vm.layout == NoLayout() && !vm.Valid()
  {
    hide VirtualMemory.BitmapsOk, VirtualMemory.CacheOk, Inv, Scheme.Ok, Shape, WriteMemory, Data;
    vm := new VirtualMemory(s, tlbEntries);
    LowAddress(s);
    var was := vm.GetValue(1, 1);
    var other: byte := if was[0] == 0 then 1 else 0;
    var before;
    before, r := PutInPageZero(vm, 1, [other]);
  }

  lemma LowAddress(s: Scheme)
    requires s.Ok() && s.asWritten
    ensures InPageZero(s, 1) && s.OffsetOf(1) == 1 && 2 <= s.Payload()
  {
    FrameCount(s);
    Sizes(s);
    ScaleMonotone(2, s.TableEntries(), s.Word());
    Split(0, s.PageSize(), 1);
  }

  /** The very first free of an address in page 0, of no more bytes than a page has behind it, clears the directory. */
  method FreeOfPageZero(s: Scheme, tlbEntries: nat, va: nat, size: nat) returns (vm: VirtualMemory)
    requires s.Ok() && tlbEntries >= 1 && InPageZero(s, va) && 0 < size <= s.Payload()
    ensures vm.scheme == s && Shape(s, vm.mem[..]) && 0 < s.Pages() && vm.mem[..][0] == Zeros(s.PageSize())
    ensures forall l :: !Inv(s, vm.mem[..], l)
    ensures vm.VirtualPages() == {} && 0 !in vm.Frames()
  {
    hide VirtualMemory.BitmapsOk, VirtualMemory.CacheOk, Inv, Scheme.Ok, Shape, CheckOps, VirtualMemory.Frames,
      VirtualMemory.VirtualPages, Zeros, Reserved, Quotient, Remainder, Scheme.Pointer, Scheme.PageOf;
    vm := new VirtualMemory(s, tlbEntries);
    InUsePages(vm);
    Marks(vm);
    ghost var before := vm.mem[..];
    PagesForIsCeiling(size, s.Payload(), 0, 0);
    PagesForIsCeiling(size, s.Payload(), 0, 1);
    vm.Free(va, size);
    DirectoryCleared(s, before);
  }

  /** A new memory has room for a page, with a cell of its own. */
  lemma FirstFits(vm: VirtualMemory)
    requires vm.Valid() && vm.layout == NoLayout()
    ensures vm.scheme.Ok() && PagesFor(vm.scheme, 1) == 1 && vm.Fits(1) && FitsTables(vm, 1) && vm.VirtualPages() == {0}
    ensures forall n :: ForThatAllocation(vm.scheme, vm.VirtualPages(), n, [])
  {
    hide Mapped, Placed, Directory, Cells, FreeFramesZero, Linked, Shape, VirtualMemory.CacheOk, Bitmap.Members,
      Reserved, FirstFit, Quotient, Remainder, VirtualMemory.VirtualPages, VirtualMemory.Frames;
    var s := vm.scheme;
    ReservedAlone(s, vm.layout.frameOf);
    FrameCount(s);
    ChecksHold(s);
    PagesForIsCeiling(1, s.Payload(), 0, 1);
    PagesForIsCeiling(1, s.Payload(), 0, 0);
  }

  lemma FirstCell(s: Scheme, mem: Memory, b: seq<nat>)
    requires Inv(s, mem, NoLayout()) && s.asWritten && s.DirEntries() >= 2 && |b| == 1 && FirstFit({0}, s.Pages(), b)
    ensures s.Ok() && Shape(s, mem) && !CellsNull(s, mem, b)
  {
    hide Mapped, Placed, Directory, Cells, FreeFramesZero, Linked, Shape, CellWord;
    FrameCount(s);
    assert Bitmap.IsFirstFree({0} + SetOf(b[..0]), s.Pages(), b[0]);
    assert SetOf(b[..0]) == {};
    assert 1 !in {0} + SetOf(b[..0]) && 0 in {0} + SetOf(b[..0]);
    FreshCell(s, mem, 1);
  }

  /** For every address, the translation through the cache is the one the page walk finds. */
  method Compare(vm: VirtualMemory, va: nat) returns (walked: nat, cached: nat)
    requires vm.Valid()
    modifies vm`misses, vm`lookups, vm`trace, vm.tlb, vm.tlb.repr
    ensures vm.Valid() && fresh(vm.tlb.repr - old(vm.tlb.repr)) && cached == walked
    ensures walked == if vm.scheme.ValidAddress(va) && vm.scheme.PageOf(va) in vm.VirtualPages()
                      then vm.scheme.CellPointer(vm.scheme.PageOf(va)) else 0
  {
    hide Inv, VirtualMemory.BitmapsOk, VirtualMemory.CacheOk, VirtualMemory.TablesOk, VirtualMemory.VirtualPages,
      Scheme.CellPointer, Scheme.ValidAddress, Scheme.PageOf, Lru.Reinserting;
    vm.ValidFacts();
    Lru.ReinsertingUse(vm.trace, vm.scheme.PageOf(va));
    walked := vm.FetchPte(va);
    cached := vm.CheckTLB(va);
  }

  // ---- Put and get

  /** Do the addresses stand for one position of one allocation? */
  ghost predicate SameSpot(s: Scheme, l: Layout, va: nat, va': nat)
    requires s.Ok()
  {
    && s.PageOf(va) in l.place && s.PageOf(va') in l.place
    && Home(l, s.PageOf(va')) == Home(l, s.PageOf(va)) && Position(s, l, va') == Position(s, l, va)
  }

  /** An address behind the data of its page is one in the next page. */
  lemma NextPageSpot(s: Scheme, mem: Memory, l: Layout, h: nat, i: nat, x: nat)
    requires Inv(s, mem, l) && h in l.blocks && i + 1 < |l.blocks[h]| && s.Payload() + x < s.PageSize()
    ensures SameSpot(s, l, s.AddressOf(l.blocks[h][i], s.Payload() + x), s.AddressOf(l.blocks[h][i + 1], x))
  {
    hide Directory, Cells, FreeFramesZero, Linked, Shape, Mapped, Scheme.PageOf, Scheme.OffsetOf, Scheme.AddressOf,
      StreamIndex;
    var b := l.blocks[h];
    SplitAddress(s, b[i], s.Payload() + x);
    SplitAddress(s, b[i + 1], x);
    assert l.place[b[i]] == (h, i) && l.place[b[i + 1]] == (h, i + 1);
    NextIndex(s, i, s.Payload() + x);
  }

  /** What is put at an address is got back, at this address and at any other that stands for the same position. */
  method PutAndGet(vm: VirtualMemory, va: nat, va': nat, val: seq<byte>) returns (r: int, got: seq<byte>)
    requires vm.Valid() && vm.scheme.Ok() && SameSpot(vm.scheme, vm.layout, va, va') && val != []
    modifies vm`misses, vm`lookups, vm`trace, vm.tlb, vm.tlb.repr, vm.mem
    ensures vm.Valid() && vm.layout == old(vm.layout) && fresh(vm.tlb.repr - old(vm.tlb.repr))
    ensures r == if RoomAt(vm.scheme, vm.layout, va, |val|) then 0 else -1
    ensures r == 0 ==> got == val
  {
    hide Inv, VirtualMemory.BitmapsOk, VirtualMemory.CacheOk, Scheme.PageOf, Scheme.OffsetOf, Scheme.Ok, Contents,
      StreamIndex, CheckOps, AccessOps, PagesFor, LinkedFrom, Stored;
    NotInPageZero(vm, va);
    NotInPageZero(vm, va');
    SameRoom(vm.scheme, vm.layout, va, va', |val|);
    got := [];
    ghost var c := vm.Bytes();
    r := vm.PutValue(va, val);
    if r == 0 {
      PutThenGet(c, Home(vm.layout, vm.scheme.PageOf(va)), Position(vm.scheme, vm.layout, va), val, vm.Bytes());
      got := vm.GetValue(va', |val|);
    }
  }

  lemma NotInPageZero(vm: VirtualMemory, va: nat)
    requires vm.Valid() && vm.scheme.PageOf(va) in vm.layout.place
    ensures !InPageZero(vm.scheme, va)
  {
    hide VirtualMemory.BitmapsOk, VirtualMemory.CacheOk, Directory, Cells, FreeFramesZero, Linked, Shape, Scheme.PageOf;
    NullPage(vm.scheme, vm.mem[..], vm.layout);
  }

  lemma SameRoom(s: Scheme, l: Layout, va: nat, va': nat, n: nat)
    requires s.Ok() && SameSpot(s, l, va, va')
    ensures RoomAt(s, l, va, n) <==> RoomAt(s, l, va', n)
  {
    hide StreamIndex, Scheme.PageOf, Scheme.OffsetOf;
  }
}
