/** What the simulated physical memory holds, seen as allocations: which frame backs a page,
    which pages form an allocation, and the bytes stored in it. */
module VmState {
  import opened Arithmetic
  import opened Words
  import opened VmScheme

  type Memory = seq<seq<byte>>

  /** Bookkeeping the program keeps only implicitly: the frame of every mapped page, the pages of
      every allocation listed from its first page (the key), and each page's allocation and index. */
  datatype Layout = Layout(frameOf: map<nat, nat>, blocks: map<nat, seq<nat>>, place: map<nat, (nat, nat)>,
    cleared: set<nat>)

  /** Nothing allocated, nothing ever freed. */
  function NoLayout(): Layout {
    Layout(map[], map[], map[], {})
  }

  ghost predicate Shape(s: Scheme, mem: Memory) {
    |mem| == s.Pages() && forall f :: 0 <= f < |mem| ==> |mem[f]| == s.PageSize()
  }

  function WordIn(frame: seq<byte>, offset: nat, word: nat): nat
    requires offset + word <= |frame|
  {
    DecodeLE(frame[offset..offset + word])
  }

  /** What entry `d` of the directory frame is initialised to. */
  function DirectoryWord(s: Scheme, d: nat): nat {
    if d < s.DirEntries() then s.Pointer(s.TableFrame(d), 0) else 0
  }

  ghost predicate Directory(s: Scheme, mem: Memory)
    requires s.Ok() && Shape(s, mem)
  {
    forall d: nat :: d < s.TableEntries() && (s.asWritten ==> d == 0) ==> EntryWord(s, mem, d) == DirectoryWord(s, d)
  }

  ghost function EntryWord(s: Scheme, mem: Memory, d: nat): nat
    requires s.Ok() && Shape(s, mem) && d < s.TableEntries()
  {
    EntryInFrame(s, d);
    WordIn(mem[0], s.EntryOffset(d), s.Word())
  }

  ghost function CellWord(s: Scheme, mem: Memory, page: nat): nat
    requires s.Ok() && Shape(s, mem) && page < s.Usable()
  {
    CellInTables(s, page);
    WordIn(mem[s.CellFrame(page)], s.CellOffset(page), s.Word())
  }

  ghost function LinkWord(s: Scheme, mem: Memory, frame: nat): nat
    requires s.Ok() && Shape(s, mem) && frame < s.Pages()
  {
    FrameCount(s);
    WordIn(mem[frame], 0, s.Word())
  }

  /** Mapped pages other than page 0 go one-to-one to frames that are not reserved. */
  ghost predicate Mapped(s: Scheme, l: Layout) {
    && (forall p :: p in l.frameOf ==> 1 <= p < s.Usable() && s.DirEntries() < l.frameOf[p] < s.Pages())
    && (forall p, q :: p in l.frameOf && q in l.frameOf && p != q ==> l.frameOf[p] != l.frameOf[q])
  }

  /** What the cell of a page that is not mapped holds: null, unless the directory is the table and the cell is still as
      initialised. */
  function FreeCell(s: Scheme, cleared: set<nat>, p: nat): nat {
    if s.asWritten && p < s.DirEntries() && p !in cleared then s.Pointer(0, 0) else 0
  }

  /** The cell of a mapped page names its frame; any other cell is as initialised or cleared. */
  ghost predicate Cells(s: Scheme, mem: Memory, l: Layout)
    requires s.Ok() && Shape(s, mem)
  {
    forall p: nat :: p < s.Usable() ==>
      if p in l.frameOf then CellWord(s, mem, p) == s.Pointer(l.frameOf[p], 0)
      else CellWord(s, mem, p) == FreeCell(s, l.cleared, p)
  }

  ghost predicate FreeFramesZero(s: Scheme, mem: Memory, l: Layout)
    requires Shape(s, mem)
  {
    forall f: nat :: f < s.Pages() && !s.HoldsTable(f) && f !in l.frameOf.Values ==> mem[f] == Zeros(s.PageSize())
  }

  /** Every mapped page has exactly one place in exactly one allocation. */
  ghost predicate Placed(l: Layout) {
    && l.place.Keys == l.frameOf.Keys
    && (forall h {:trigger l.blocks[h]} :: h in l.blocks ==> |l.blocks[h]| > 0 && l.blocks[h][0] == h)
    && (forall p {:trigger l.place[p]} :: p in l.place ==>
          l.place[p].0 in l.blocks && l.place[p].1 < |l.blocks[l.place[p].0]|
            && l.blocks[l.place[p].0][l.place[p].1] == p)
    && (forall h, i {:trigger l.blocks[h][i]} :: h in l.blocks && 0 <= i < |l.blocks[h]| ==>
          l.blocks[h][i] in l.place && l.place[l.blocks[h][i]] == (h, i))
  }

  /** The link word of the `i`-th page of an allocation: the next page's address, or null. */
  function LinkAfter(s: Scheme, block: seq<nat>, i: nat): nat
    requires i < |block|
  {
    if i + 1 < |block| then s.AddressOf(block[i + 1], 0) else 0
  }

  ghost predicate Linked(s: Scheme, mem: Memory, l: Layout)
    requires s.Ok() && Shape(s, mem)
  {
    forall h, i {:trigger l.blocks[h][i]} :: h in l.blocks && 0 <= i < |l.blocks[h]| ==>
      LinkedAt(s, mem, l, h, i)
  }

  ghost predicate LinkedAt(s: Scheme, mem: Memory, l: Layout, h: nat, i: nat)
    requires s.Ok() && Shape(s, mem) && h in l.blocks && i < |l.blocks[h]|
  {
    var p := l.blocks[h][i];
    p in l.frameOf && l.frameOf[p] < s.Pages() && LinkWord(s, mem, l.frameOf[p]) == LinkAfter(s, l.blocks[h], i)
  }

  /** What every operation of the allocator keeps. */
  ghost predicate Inv(s: Scheme, mem: Memory, l: Layout) {
    && s.Ok() && Shape(s, mem)
    && Mapped(s, l) && Placed(l)
    && Directory(s, mem) && Cells(s, mem, l) && FreeFramesZero(s, mem, l) && Linked(s, mem, l)
  }

  ghost predicate Known(s: Scheme, frameOf: map<nat, nat>, pages: seq<nat>) {
    forall i {:trigger pages[i]} :: 0 <= i < |pages| ==> pages[i] in frameOf && frameOf[pages[i]] < s.Pages()
  }

  /** The data bytes of a frame. */
  ghost function Data(s: Scheme, mem: Memory, f: nat): (r: seq<byte>)
    requires s.Ok() && Shape(s, mem) && f < s.Pages()
    ensures |r| == s.Payload()
  {
    FrameCount(s);
    mem[f][s.Word()..]
  }

  /** The data bytes of the listed pages, one after the other. */
  ghost function Stream(s: Scheme, mem: Memory, frameOf: map<nat, nat>, pages: seq<nat>): (r: seq<byte>)
    requires s.Ok() && Shape(s, mem) && Known(s, frameOf, pages)
  {
    if pages == [] then [] else
      Data(s, mem, frameOf[pages[0]]) + Stream(s, mem, frameOf, pages[1..])
  }

  lemma {:induction false} StreamLength(s: Scheme, mem: Memory, frameOf: map<nat, nat>, pages: seq<nat>)
    requires s.Ok() && Shape(s, mem) && Known(s, frameOf, pages)
    ensures |Stream(s, mem, frameOf, pages)| == |pages| * s.Payload()
  {
    if pages != [] {
      StreamLength(s, mem, frameOf, pages[1..]);
      OneMore(|pages|, s.Payload());
    }
  }

  lemma BlockKnown(s: Scheme, mem: Memory, l: Layout, h: nat)
    requires s.Ok() && Shape(s, mem) && Linked(s, mem, l) && h in l.blocks
    ensures Known(s, l.frameOf, l.blocks[h])
  {
    forall i | 0 <= i < |l.blocks[h]| ensures l.blocks[h][i] in l.frameOf && l.frameOf[l.blocks[h][i]] < s.Pages() {
      assert LinkedAt(s, mem, l, h, i);
    }
  }

  ghost function BlockData(s: Scheme, mem: Memory, l: Layout, h: nat): seq<byte>
    requires s.Ok() && Shape(s, mem) && Linked(s, mem, l) && h in l.blocks
  {
    BlockKnown(s, mem, l, h);
    Stream(s, mem, l.frameOf, l.blocks[h])
  }

  /** The bytes stored in every allocation. */
  ghost function Contents(s: Scheme, mem: Memory, l: Layout): (r: map<nat, seq<byte>>)
    requires Inv(s, mem, l)
    ensures r.Keys == l.blocks.Keys
  {
    map h | h in l.blocks :: BlockData(s, mem, l, h)
  }

  /** The data of pages that neither move nor change. */
  lemma {:induction false} StreamUnchanged(s: Scheme, mem: Memory, mem': Memory, frameOf: map<nat, nat>,
                                           frameOf': map<nat, nat>, pages: seq<nat>)
    requires s.Ok() && Shape(s, mem) && Shape(s, mem') && Known(s, frameOf, pages)
    requires forall i :: 0 <= i < |pages| ==> pages[i] in frameOf' && frameOf'[pages[i]] == frameOf[pages[i]]
    requires forall i :: 0 <= i < |pages| ==> Data(s, mem', frameOf[pages[i]]) == Data(s, mem, frameOf[pages[i]])
    ensures Known(s, frameOf', pages)
    ensures Stream(s, mem', frameOf', pages) == Stream(s, mem, frameOf, pages)
  {
    if pages != [] {
      var rest := pages[1..];
      assert forall i :: 0 <= i < |rest| ==> rest[i] == pages[i + 1];
      StreamUnchanged(s, mem, mem', frameOf, frameOf', rest);
    }
  }

  lemma {:induction false} StreamConcat(s: Scheme, mem: Memory, frameOf: map<nat, nat>, a: seq<nat>, b: seq<nat>)
    requires s.Ok() && Shape(s, mem) && Known(s, frameOf, a) && Known(s, frameOf, b)
    ensures Known(s, frameOf, a + b)
    ensures Stream(s, mem, frameOf, a + b) == Stream(s, mem, frameOf, a) + Stream(s, mem, frameOf, b)
  {
    if a == [] {
      assert a + b == b;
    } else {
      var rest := a[1..];
      StreamConcat(s, mem, frameOf, rest, b);
      assert (a + b)[0] == a[0] && (a + b)[1..] == rest + b;
      assert Known(s, frameOf, a + b);
    }
  }

  lemma WordElsewhere(frame: seq<byte>, at: nat, d: seq<byte>, offset: nat, word: nat)
    requires at + |d| <= |frame| && offset + word <= |frame|
    requires offset + word <= at || at + |d| <= offset
    ensures WordIn(Splice(frame, at, d), offset, word) == WordIn(frame, offset, word)
  {
    assert Splice(frame, at, d)[offset..offset + word] == frame[offset..offset + word];
  }

  lemma WordStored(frame: seq<byte>, at: nat, x: nat, word: nat)
    requires at + word <= |frame| && x < Pow256(word)
    ensures WordIn(Splice(frame, at, EncodeLE(x, word)), at, word) == x
  {
    assert Splice(frame, at, EncodeLE(x, word))[at..at + word] == EncodeLE(x, word);
    DecodeEncode(x, word);
  }

  lemma WordOfZeros(n: nat, offset: nat, word: nat)
    requires offset + word <= n
    ensures WordIn(Zeros(n), offset, word) == 0
  {
    assert Zeros(n)[offset..offset + word] == Zeros(word);
    DecodeZeros(word);
  }

  /** A store into the cell of `page`. */
  ghost function WithCell(s: Scheme, mem: Memory, page: nat, value: nat): (r: Memory)
    requires s.Ok() && Shape(s, mem) && page < s.Usable()
    ensures Shape(s, r)
    ensures forall f: nat :: f < s.Pages() && !s.HoldsTable(f) ==> r[f] == mem[f]
  {
    CellInTables(s, page);
    var f := s.CellFrame(page);
    mem[f := Splice(mem[f], s.CellOffset(page), EncodeLE(value, s.Word()))]
  }

  lemma CellStored(s: Scheme, mem: Memory, page: nat, value: nat, q: nat)
    requires s.Ok() && Shape(s, mem) && page < s.Usable() && value < Pow256(s.Word()) && q < s.Usable()
    ensures CellWord(s, WithCell(s, mem, page, value), q) == if q == page then value else CellWord(s, mem, q)
  {
    CellInTables(s, page);
    CellInTables(s, q);
    var frame := mem[s.CellFrame(page)];
    if q == page {
      WordStored(frame, s.CellOffset(page), value, s.Word());
    } else {
      CellsApart(s, page, q);
      if s.CellFrame(q) == s.CellFrame(page) {
        WordElsewhere(frame, s.CellOffset(page), EncodeLE(value, s.Word()), s.CellOffset(q), s.Word());
      }
    }
  }

  /** Storing into the cell of any page but page 0 leaves the directory intact. */
  lemma DirectoryKept(s: Scheme, mem: Memory, page: nat, value: nat)
    requires s.Ok() && Shape(s, mem) && Directory(s, mem) && 1 <= page < s.Usable()
    ensures Directory(s, WithCell(s, mem, page, value))
  {
    CellInTables(s, page);
    FrameCount(s);
    var mem' := WithCell(s, mem, page, value);
    forall d: nat | d < s.TableEntries() && (s.asWritten ==> d == 0)
      ensures EntryWord(s, mem', d) == EntryWord(s, mem, d)
    {
      if s.asWritten {
        ScaleMonotone(1, page, s.Word());
        WordElsewhere(mem[0], s.CellOffset(page), EncodeLE(value, s.Word()), 0, s.Word());
      }
    }
  }

  lemma DirectoryEntry(s: Scheme, mem: Memory, d: nat)
    requires s.Ok() && Shape(s, mem) && Directory(s, mem) && d < (if s.asWritten then 1 else s.DirEntries())
    ensures d < s.TableEntries() && EntryWord(s, mem, d) == s.Pointer(s.TableFrame(d), 0)
  {
    FrameCount(s);
  }

  /** The table walk of the program: directory entry, then the cell in the table it names. */
  lemma WalkReachesCell(s: Scheme, mem: Memory, page: nat, d: nat)
    requires s.Ok() && Shape(s, mem) && Directory(s, mem) && page < s.Usable()
    requires d == Quotient(page, s.TableEntries())
    ensures d < s.TableEntries()
    ensures EntryWord(s, mem, d) + s.EntryOffset(Remainder(page, s.TableEntries())) == s.CellPointer(page)
  {
    CellInTables(s, page);
    DirectoryEntry(s, mem, d);
  }

  /** `count` pages are linked together from page `p` on. */
  ghost predicate LinkedFrom(l: Layout, p: nat, count: nat) {
    count == 0 || (p in l.place && l.place[p].0 in l.blocks && l.place[p].1 + count <= |l.blocks[l.place[p].0]|)
  }

  /** Is it an address in page 0 that passes, as the program is written, for one of an allocation? */
  predicate InPageZero(s: Scheme, va: nat) {
    s.asWritten && va != 0 && s.PageOf(va) == 0
  }

  /** What the chain check accepts: as written, page 0 passes for a page linked to the address of the directory. */
  ghost predicate Accepted(s: Scheme, l: Layout, va: nat, count: nat) {
    if InPageZero(s, va) && count > 0 then LinkedFrom(l, s.PageOf(s.Pointer(0, 0)), count - 1)
    else LinkedFrom(l, s.PageOf(va), count)
  }

  /** The frame that a page in use leads to: its own, and for page 0, as written, that of the directory. */
  ghost function FrameAt(l: Layout, p: nat): nat {
    if p in l.frameOf then l.frameOf[p] else 0
  }

  /** As written, the cell of page 0 and the link word of the directory both are the first directory entry. */
  lemma DirectoryLink(s: Scheme, mem: Memory, l: Layout)
    requires Inv(s, mem, l) && s.asWritten
    ensures 0 < s.Usable() && 0 < s.Pages() && 0 !in l.frameOf
    ensures CellWord(s, mem, 0) == LinkWord(s, mem, 0) == s.Pointer(0, 0) > 0 && s.PageOf(s.Pointer(0, 0)) > 0
    ensures s.CellFrame(0) == 0 && s.CellOffset(0) == 0
  {
    hide Placed, Linked, FreeFramesZero, Cells;
    FrameCount(s);
    DirectoryEntry(s, mem, 0);
    CellInTables(s, 0);
    Split(0, s.TableEntries(), 0);
    PageAbove(s);
  }

  lemma PageAbove(s: Scheme)
    requires s.Ok()
    ensures s.base == s.Pointer(0, 0) && s.PageOf(s.base) > 0
  {
    QuotientAbove(s.base, s.PageSize());
  }

  lemma QuotientAbove(a: nat, b: nat)
    requires 0 < b <= a
    ensures Quotient(a, b) > 0
  {
  }

  /** What the tables and links say about a mapped page: its frame, and the page that continues it. */
  lemma MappedPage(s: Scheme, mem: Memory, l: Layout, p: nat) returns (h: nat, i: nat)
    requires Inv(s, mem, l) && p in l.frameOf
    ensures p < s.Usable() && CellWord(s, mem, p) == s.Pointer(l.frameOf[p], 0)
    ensures s.DirEntries() < l.frameOf[p] < s.Pages() && p in l.place && l.place[p] == (h, i)
    ensures h in l.blocks && i < |l.blocks[h]| && l.blocks[h][i] == p
    ensures LinkWord(s, mem, l.frameOf[p]) == LinkAfter(s, l.blocks[h], i)
    ensures i + 1 < |l.blocks[h]| ==>
      var q := l.blocks[h][i + 1];
      q in l.frameOf && q in l.place && l.place[q] == (h, i + 1) && q != p && q != 0
  {
    h, i := l.place[p].0, l.place[p].1;
    assert LinkedAt(s, mem, l, h, i);
    if i + 1 < |l.blocks[h]| {
      assert l.place[l.blocks[h][i + 1]] == (h, i + 1);
    }
  }

  /** Following the link of a mapped page. */
  lemma LinkStep(s: Scheme, mem: Memory, l: Layout, p: nat, count: nat, next: nat)
    requires Inv(s, mem, l) && p in l.frameOf && l.frameOf[p] < s.Pages() && next == LinkWord(s, mem, l.frameOf[p])
      && count > 0
    ensures LinkedFrom(l, p, count) <==> LinkedFrom(l, s.PageOf(next), count - 1)
    ensures next == 0 || s.PageOf(next) in l.frameOf
  {
    hide Mapped, Directory, Cells, Linked, FreeFramesZero, Shape, LinkWord;
    var h, i := MappedPage(s, mem, l, p);
    SplitAddress(s, 0, 0);
    if i + 1 < |l.blocks[h]| {
      SplitAddress(s, l.blocks[h][i + 1], 0);
    } else {
      NullPage(s, mem, l);
    }
  }

  lemma CellNamesFrame(s: Scheme, mem: Memory, l: Layout, p: nat)
    requires Inv(s, mem, l) && p in l.frameOf
    ensures p < s.Usable() && CellWord(s, mem, p) == s.Pointer(l.frameOf[p], 0)
    ensures s.DirEntries() < l.frameOf[p] < s.Pages()
  {
  }

  /** Allocations begin with mapped pages. */
  lemma HeadsMapped(l: Layout)
    requires Placed(l)
    ensures forall h :: h in l.blocks ==> h in l.frameOf
  {
    forall h | h in l.blocks ensures h in l.frameOf {
      assert l.blocks[h][0] in l.place;
    }
  }

  lemma NullPage(s: Scheme, mem: Memory, l: Layout)
    requires Inv(s, mem, l)
    ensures s.PageOf(0) == 0 && 0 !in l.frameOf
  {
    SplitAddress(s, 0, 0);
  }

  lemma LinkedPages(s: Scheme, mem: Memory, l: Layout, va: nat, count: nat)
    requires Inv(s, mem, l)
    ensures count == 0 ==> LinkedFrom(l, s.PageOf(va), count)
    ensures count > 0 && s.PageOf(va) !in l.frameOf ==> !LinkedFrom(l, s.PageOf(va), count)
    ensures s.PageOf(va) in l.frameOf ==> s.ValidAddress(va)
  {
    hide Directory, Cells, Linked, FreeFramesZero, Shape, Scheme.PageOf, Scheme.ValidAddress;
    FrameCount(s);
    if s.PageOf(va) in l.frameOf {
      InvalidPage(s, va);
    }
  }

  /** In a page in use, a null cell means page 0. */
  lemma NonNullCell(s: Scheme, mem: Memory, l: Layout, p: nat)
    requires Inv(s, mem, l) && p in {0} + l.frameOf.Keys
    ensures p < s.Usable() && (p in l.frameOf ==> CellWord(s, mem, p) != 0 && l.frameOf[p] < s.Pages())
    ensures !s.asWritten && CellWord(s, mem, p) != 0 ==> p in l.frameOf
  {
    FrameCount(s);
  }

  /** How many pages of its allocation lie at or behind page `p`. */
  ghost function PagesLeft(l: Layout, p: nat): nat {
    if p in l.place && l.place[p].0 in l.blocks && l.place[p].1 < |l.blocks[l.place[p].0]|
    then |l.blocks[l.place[p].0]| - l.place[p].1 else 0
  }
}
