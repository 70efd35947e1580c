/** Walking an allocation's chain of pages is walking its stream of data bytes. */
module VmStream {
  import opened Arithmetic
  import opened Words
  import opened VmScheme
  import opened VmState
  import opened VmSteps

  /** The `count` bytes at offset `o` of page `p` lie within the page's allocation. */
  ghost predicate Room(s: Scheme, l: Layout, p: nat, o: nat, count: nat)
    requires s.Ok()
  {
    && p in l.place && l.place[p].0 in l.blocks
    && StreamIndex(s, l.place[p].1, o) + count <= StreamIndex(s, |l.blocks[l.place[p].0]|, 0)
  }

  /** How many pages hold `n` bytes of data. */
  function PagesFor(s: Scheme, n: nat): nat
    requires s.Ok()
  {
    Quotient(n, s.Payload()) + if Remainder(n, s.Payload()) != 0 then 1 else 0
  }

  lemma PagesForIsCeiling(n: nat, m: nat, i: nat, k: nat)
    requires m > 0
    ensures i + Quotient(n, m) + (if Remainder(n, m) != 0 then 1 else 0) <= k <==> i * m + n <= k * m
  {
    var q, r := Quotient(n, m), Remainder(n, m);
    assert n == q * m + r;
    var c := q + if r != 0 then 1 else 0;
    if i + c <= k {
      ScaleMonotone(i + c, k, m);
      assert (i + c) * m == i * m + c * m;
      assert c * m >= n;
    } else {
      ScaleMonotone(k + 1, i + c, m);
      assert (i + c) * m == i * m + c * m && (k + 1) * m == k * m + m;
      assert c * m < n + m;
    }
  }

  /** The check the program makes before it touches any data: enough pages are linked from `p`
      on exactly when all the bytes lie within the allocation. */
  lemma LinkedIsRoom(s: Scheme, mem: Memory, l: Layout, p: nat, o: nat, n: nat)
    requires Inv(s, mem, l) && o + n > 0
    ensures LinkedFrom(l, p, PagesFor(s, o + n)) <==> Room(s, l, p, o, n)
  {
    hide Mapped, Directory, Cells, Linked, FreeFramesZero, Shape, Quotient, Remainder;
    assert PagesFor(s, o + n) > 0 by {
      PagesForIsCeiling(o + n, s.Payload(), 0, 0);
    }
    if p in l.place && l.place[p].0 in l.blocks {
      PagesForIsCeiling(o + n, s.Payload(), l.place[p].1, |l.blocks[l.place[p].0]|);
    }
  }

  lemma NoPages(s: Scheme, mem: Memory, l: Layout, p: nat)
    requires Inv(s, mem, l)
    ensures LinkedFrom(l, p, PagesFor(s, 0))
  {
  }

  /** Data that does not fit what is left of page `p` goes on in the page it links to:
      stream position `x` past the page's data is position `x` of the next page. */
  lemma Continues(s: Scheme, mem: Memory, l: Layout, p: nat, o: nat, n: nat, x: nat, next: nat)
    requires Inv(s, mem, l) && p in l.frameOf && l.frameOf[p] < s.Pages() && next == LinkWord(s, mem, l.frameOf[p])
    requires o == s.Payload() + x && x < s.PageSize() && n > 0 && Room(s, l, p, o, n)
    ensures s.OffsetOf(next + x) == x && s.PageOf(next + x) == s.PageOf(next) && s.PageOf(next) in l.frameOf
    ensures
      var q := s.PageOf(next + x);
      && q in l.place && l.place[q] == (l.place[p].0, l.place[p].1 + 1)
      && Room(s, l, q, x, n) && PagesLeft(l, q) < PagesLeft(l, p)
      && StreamIndex(s, l.place[p].1, o) == StreamIndex(s, l.place[q].1, x)
  {
    hide Mapped, Directory, Cells, Linked, FreeFramesZero, Shape, LinkWord, Scheme.PageOf, Scheme.OffsetOf, StreamIndex,
      Placed;
    var h, i := MappedPage(s, mem, l, p);
    var b := l.blocks[h];
    NextIndex(s, i, o);
    IndexSum(s, i + 1, 0, x);
    IndexMonotone(s, |b|, if i + 1 < |b| then |b| else i + 1);
    SplitAddress(s, b[i + 1], x);
    SplitAddress(s, b[i + 1], 0);
    AddressSum(s, b[i + 1], x);
  }

  lemma AddressSum(s: Scheme, page: nat, x: nat)
    ensures s.AddressOf(page, x) == s.AddressOf(page, 0) + x
  {
  }

  /** Two adjacent stores are one. */
  lemma StoredTwice(c: map<nat, seq<byte>>, h: nat, at: nat, d: seq<byte>, k: nat, c1: map<nat, seq<byte>>,
                    c2: map<nat, seq<byte>>)
    requires k <= |d| && Stored(c, h, at, d[..k], c1) && Stored(c1, h, at + k, d[k..], c2)
    ensures Stored(c, h, at, d, c2)
  {
    assert c2[h] == Splice(c[h], at, d);
  }

  /** The data of a page is a slice of its allocation's stream. */
  lemma {:induction false} StreamSlice(s: Scheme, mem: Memory, frameOf: map<nat, nat>, pages: seq<nat>, k: nat, o: nat,
                                       n: nat)
    requires s.Ok() && Shape(s, mem) && Known(s, frameOf, pages) && k < |pages| && o + n <= s.Payload()
    ensures
      var stream := Stream(s, mem, frameOf, pages);
      && StreamIndex(s, k, o) + n <= |stream|
      && stream[StreamIndex(s, k, o)..StreamIndex(s, k, o) + n] == Data(s, mem, frameOf[pages[k]])[o..o + n]
  {
    hide Scheme.Ok, Scheme.Payload, Shape, Data, StreamIndex;
    var head, rest := Data(s, mem, frameOf[pages[0]]), pages[1..];
    var tail := Stream(s, mem, frameOf, rest);
    assert Stream(s, mem, frameOf, pages) == head + tail;
    if k == 0 {
      IndexStart(s, o);
      SliceOfFirst(head, tail, o, n);
    } else {
      StreamSlice(s, mem, frameOf, rest, k - 1, o, n);
      IndexSum(s, k - 1, o, s.Payload());
      NextIndex(s, k - 1, o + s.Payload());
      SliceOfSecond(head, tail, StreamIndex(s, k - 1, o), n);
    }
  }

  lemma SliceOfFirst<T>(head: seq<T>, tail: seq<T>, at: nat, n: nat)
    requires at + n <= |head|
    ensures (head + tail)[at..at + n] == head[at..at + n]
  {
  }

  lemma SliceOfSecond<T>(head: seq<T>, tail: seq<T>, at: nat, n: nat)
    requires at + n <= |tail|
    ensures (head + tail)[|head| + at..|head| + at + n] == tail[at..at + n]
  {
  }

  /** A store that stays within the data bytes of page `p`. */
  lemma PageStore(s: Scheme, mem: Memory, l: Layout, p: nat, o: nat, d: seq<byte>, mem': Memory)
    requires Inv(s, mem, l) && p in l.frameOf && l.frameOf[p] < s.Pages() && p in l.place && o + |d| <= s.Payload()
    requires mem' == WriteMemory(s, mem, l.frameOf[p], o, d)
    ensures Inv(s, mem', l)
      && Stored(Contents(s, mem, l), l.place[p].0, StreamIndex(s, l.place[p].1, o), d, Contents(s, mem', l))
  {
    hide Directory, Cells, Linked, FreeFramesZero, Shape, Mapped, StreamIndex, Stored, Contents, WriteMemory;
    var h, i := MappedPage(s, mem, l, p);
    WriteKeeps(s, mem, l, h, i, l.frameOf[p], o, d, mem');
  }

  /** Room shrinks by what is consumed. */
  lemma RoomSplit(s: Scheme, l: Layout, p: nat, o: nat, k: nat, n: nat)
    requires s.Ok() && Room(s, l, p, o, k + n)
    ensures Room(s, l, p, o + k, n)
  {
  }

  ghost predicate RoomAt(s: Scheme, l: Layout, va: nat, count: nat)
    requires s.Ok()
  {
    Room(s, l, s.PageOf(va), s.OffsetOf(va), count)
  }

  /** The allocation of an address, and the position of the address in its stream. */
  ghost function Home(l: Layout, p: nat): nat {
    if p in l.place then l.place[p].0 else 0
  }

  ghost function Position(s: Scheme, l: Layout, va: nat): nat
    requires s.Ok()
  {
    if s.PageOf(va) in l.place then StreamIndex(s, l.place[s.PageOf(va)].1, s.OffsetOf(va)) else 0
  }

  /** An address with room is mapped, and the room ends where its allocation's stream does. */
  lemma RoomIsMapped(s: Scheme, mem: Memory, l: Layout, va: nat, count: nat)
    requires Inv(s, mem, l) && RoomAt(s, l, va, count)
    ensures s.PageOf(va) in l.frameOf && s.PageOf(va) in l.place && s.ValidAddress(va)
    ensures l.frameOf[s.PageOf(va)] < s.Pages() && s.Ok()
    ensures Home(l, s.PageOf(va)) in l.blocks
    ensures Position(s, l, va) + count <= |Contents(s, mem, l)[Home(l, s.PageOf(va))]|
  {
    hide Directory, Cells, FreeFramesZero, Linked, Shape, Scheme.PageOf, Scheme.OffsetOf, Stream;
    var h := Home(l, s.PageOf(va));
    BlockKnown(s, mem, l, h);
    StreamLength(s, mem, l.frameOf, l.blocks[h]);
    FrameCount(s);
    InvalidPage(s, va);
  }

  /** Past the data of its page, an address is an address in the page linked to it. */
  lemma SkipPage(s: Scheme, mem: Memory, l: Layout, va: nat, count: nat, next: nat)
    requires Inv(s, mem, l) && RoomAt(s, l, va, count) && count > 0 && s.OffsetOf(va) >= s.Payload()
    requires s.PageOf(va) in l.frameOf && l.frameOf[s.PageOf(va)] < s.Pages()
    requires next == LinkWord(s, mem, l.frameOf[s.PageOf(va)])
    ensures
      var va' := next + (s.OffsetOf(va) - s.Payload());
      && RoomAt(s, l, va', count) && Position(s, l, va') == Position(s, l, va)
      && Home(l, s.PageOf(va')) == Home(l, s.PageOf(va))
      && PagesLeft(l, s.PageOf(va')) < PagesLeft(l, s.PageOf(va))
      && s.PageOf(va') == s.PageOf(next) && s.PageOf(va') in l.frameOf
           && s.OffsetOf(va') == s.OffsetOf(va) - s.Payload()
  {
    hide Mapped, Placed, Directory, Cells, FreeFramesZero, Linked, Shape, Scheme.Ok, LinkWord, Scheme.PageOf, Room,
      PagesLeft, StreamIndex;
    var x := s.OffsetOf(va) - s.Payload();
    RoomPlace(s, l, s.PageOf(va), s.OffsetOf(va), count);
    Continues(s, mem, l, s.PageOf(va), s.OffsetOf(va), count, x, next);
  }

  /** What does not fit the page of `va` goes on at the start of the page linked to it. */
  lemma TakePage(s: Scheme, mem: Memory, l: Layout, va: nat, k: nat, count: nat, next: nat)
    requires Inv(s, mem, l) && RoomAt(s, l, va, k + count) && count > 0 && s.OffsetOf(va) + k == s.Payload()
    requires s.PageOf(va) in l.frameOf && l.frameOf[s.PageOf(va)] < s.Pages()
    requires next == LinkWord(s, mem, l.frameOf[s.PageOf(va)])
    ensures RoomAt(s, l, next, count) && Position(s, l, next) == Position(s, l, va) + k
    ensures Home(l, s.PageOf(next)) == Home(l, s.PageOf(va))
    ensures PagesLeft(l, s.PageOf(next)) < PagesLeft(l, s.PageOf(va))
    ensures s.PageOf(next) in l.frameOf && s.OffsetOf(next) == 0
  {
    hide Mapped, Placed, Directory, Cells, FreeFramesZero, Linked, Shape, Scheme.Ok, LinkWord, Scheme.PageOf, Room,
      PagesLeft, StreamIndex;
    RoomSplit(s, l, s.PageOf(va), s.OffsetOf(va), k, count);
    Continues(s, mem, l, s.PageOf(va), s.Payload(), count, 0, next);
    RoomPlace(s, l, s.PageOf(va), s.OffsetOf(va), k + count);
    IndexSum(s, l.place[s.PageOf(va)].1, s.OffsetOf(va), k);
  }

  lemma RoomPlace(s: Scheme, l: Layout, p: nat, o: nat, n: nat)
    requires s.Ok() && Room(s, l, p, o, n)
    ensures p in l.place
  {
  }

  lemma SliceOfSuffix<T>(s: seq<T>, from: nat, at: nat, n: nat)
    requires from + at + n <= |s|
    ensures s[from..][at..at + n] == s[from + at..from + at + n]
  {
  }

  /** `d` is the stretch of `h`'s bytes from `at` on. */
  ghost predicate Loaded(c: map<nat, seq<byte>>, h: nat, at: nat, d: seq<byte>) {
    h in c && at + |d| <= |c[h]| && d == c[h][at..at + |d|]
  }

  /** Two adjacent stretches are one. */
  lemma LoadedTwice(c: map<nat, seq<byte>>, h: nat, at: nat, d: seq<byte>, e: seq<byte>)
    requires Loaded(c, h, at, d) && Loaded(c, h, at + |d|, e)
    ensures Loaded(c, h, at, d + e)
  {
  }

  /** A load that stays within the data bytes of the page of `va`. */
  lemma PageLoad(s: Scheme, mem: Memory, l: Layout, va: nat, n: nat)
    requires Inv(s, mem, l) && s.PageOf(va) in l.frameOf && l.frameOf[s.PageOf(va)] < s.Pages()
    requires s.OffsetOf(va) + n <= s.Payload()
    ensures Loaded(Contents(s, mem, l), Home(l, s.PageOf(va)), Position(s, l, va),
                   Data(s, mem, l.frameOf[s.PageOf(va)])[s.OffsetOf(va)..s.OffsetOf(va) + n])
  {
    hide Directory, Cells, FreeFramesZero, Linked, Shape, Mapped, Placed, Scheme.PageOf, Stream, StreamIndex, Data;
    var h, i := MappedPage(s, mem, l, s.PageOf(va));
    BlockKnown(s, mem, l, h);
    StreamSlice(s, mem, l.frameOf, l.blocks[h], i, s.OffsetOf(va), n);
  }

  // ---- Freeing a prefix of an allocation

  /** The first `k` pages of allocation `h` are gone; what is left of it is an allocation. */
  ghost predicate FreedPages(l: Layout, h: nat, k: nat, l': Layout) {
    && h in l.blocks && k <= |l.blocks[h]|
    && l'.frameOf == l.frameOf - SetOf(l.blocks[h][..k])
    && l'.blocks == Cut(l.blocks, h, l.blocks[h], k, l.blocks[h][k..])
    && l'.cleared == l.cleared + SetOf(l.blocks[h][..k])
  }

  ghost function SetOf(pages: seq<nat>): set<nat> {
    set p | p in pages
  }

  /** The first `n` bytes of allocation `b[0]` are gone with its first `k` pages. */
  ghost predicate FreedBytes(c: map<nat, seq<byte>>, b: seq<nat>, k: nat, n: nat, c': map<nat, seq<byte>>) {
    && b != [] && k <= |b| && b[0] in c && n <= |c[b[0]]|
    && c' == Cut(c, b[0], b, k, c[b[0]][n..])
  }

  /** `m` with key `h` replaced by the `k`-th of `b`, or gone when there is none. */
  ghost function Cut<T>(m: map<nat, T>, h: nat, b: seq<nat>, k: nat, rest: T): map<nat, T>
    requires k <= |b|
  {
    if k == |b| then m - {h} else (m - {h})[b[k] := rest]
  }

  lemma CutAgain<T>(m: map<nat, T>, b: seq<nat>, k: nat, x: T, rest: T)
    requires 1 < |b| && 1 <= k <= |b| && b[1] !in m && b[1] != b[0]
    ensures Cut(Cut(m, b[0], b, 1, x), b[1], b[1..], k - 1, rest) == Cut(m, b[0], b, k, rest)
  {
    assert k < |b| ==> b[1..][k - 1] == b[k];
    assert (m - {b[0]})[b[1] := x] - {b[1]} == m - {b[0]};
  }

  lemma FreedOneMore(l: Layout, h: nat, k: nat, l2: Layout)
    requires Placed(l) && h in l.blocks && 1 <= k <= |l.blocks[h]|
    requires if |l.blocks[h]| == 1 then l2 == DropLayout(l, h)
             else FreedPages(DropLayout(l, h), l.blocks[h][1], k - 1, l2)
    ensures FreedPages(l, h, k, l2)
  {
    hide Placed, DropLayout;
    var b, l1 := l.blocks[h], DropLayout(l, h);
    DropBlocksAll(l, h);
    if |b| == 1 {
      assert b[..1] == [h];
    } else {
      var rest := b[1..];
      CutAgain(l.blocks, b, k, rest, b[k..]);
      assert l1.blocks == Cut(l.blocks, h, b, 1, rest);
      assert rest[k - 1..] == b[k..] && b[..k] == [h] + rest[..k - 1];
      assert l2.frameOf == l.frameOf - {h} - SetOf(rest[..k - 1]);
      assert l2.cleared == l.cleared + {h} + SetOf(rest[..k - 1]);
    }
  }

  lemma FreedBytesOneMore(c: map<nat, seq<byte>>, b: seq<nat>, n: nat, c1: map<nat, seq<byte>>, k: nat, m: nat,
                          c2: map<nat, seq<byte>>)
    requires Shrunk(c, b, n, c1) && 1 <= k <= |b| && (|b| > 1 ==> b[1] != b[0] && b[1] !in c)
    requires if |b| == 1 then c2 == c1 && m == 0 else FreedBytes(c1, b[1..], k - 1, m, c2)
    ensures FreedBytes(c, b, k, n + m, c2)
  {
    if |b| > 1 {
      assert c[b[0]][n..][m..] == c[b[0]][n + m..];
      assert k < |b| ==> b[1..][k - 1] == b[k];
    }
  }

  /** After the first page is freed the rest of the allocation is headed by the page linked to it. */
  lemma NextHead(s: Scheme, mem: Memory, l: Layout, h: nat, next: nat)
    requires Inv(s, mem, l) && h in l.blocks && |l.blocks[h]| > 0 && next == LinkAfter(s, l.blocks[h], 0)
    ensures l.blocks[h][0] == h && (|l.blocks[h]| == 1 ==> next == 0)
    ensures |l.blocks[h]| > 1 ==>
      var q := l.blocks[h][1];
      && next != 0 && s.PageOf(next) == q && q != h && q !in l.blocks
      && q in DropLayout(l, h).blocks && DropLayout(l, h).blocks[q] == l.blocks[h][1..]
  {
    hide Directory, Cells, FreeFramesZero, Linked, Shape, DropLayout, Scheme.PageOf, Scheme.AddressOf;
    DropBlocksAll(l, h);
    if |l.blocks[h]| > 1 {
      var q := l.blocks[h][1];
      SplitAddress(s, q, 0);
      SplitAddress(s, 0, 0);
      assert l.place[q] == (h, 1);
      NullPage(s, mem, l);
    }
  }

  lemma CutNothing<T>(m: map<nat, T>, b: seq<nat>)
    requires b != [] && b[0] in m
    ensures Cut(m, b[0], b, 0, m[b[0]]) == m
  {
  }

  /** One page freed, then `k - 1` more. */
  lemma FreedStep(s: Scheme, mem: Memory, l: Layout, h: nat, k: nat, c1: map<nat, seq<byte>>,
                  l2: Layout, c2: map<nat, seq<byte>>)
    requires Inv(s, mem, l) && h in l.blocks && 1 <= k <= |l.blocks[h]|
    requires Shrunk(Contents(s, mem, l), l.blocks[h], s.Payload(), c1)
    requires
      var l1 := DropLayout(l, h);
      if k == 1 then l2 == l1 && c2 == c1
      else
        && FreedPages(l1, l.blocks[h][1], k - 1, l2)
        && FreedBytes(c1, l.blocks[h][1..], k - 1, StreamIndex(s, k - 1, 0), c2)
    ensures FreedPages(l, h, k, l2)
    ensures FreedBytes(Contents(s, mem, l), l.blocks[h], k, StreamIndex(s, k, 0), c2)
  {
    hide Mapped, Placed, Directory, Cells, FreeFramesZero, Linked, Shape, DropLayout, StreamIndex, BlockData;
    var b, c := l.blocks[h], Contents(s, mem, l);
    DropBlocksAll(l, h);
    NextIndex(s, k - 1, s.Payload());
    IndexSum(s, k - 1, 0, s.Payload());
    IndexStart(s, 0);
    if k == 1 && |b| > 1 {
      CutNothing(DropLayout(l, h).blocks, b[1..]);
      CutNothing(c1, b[1..]);
      assert b[1..][0..] == b[1..] && c1[b[1]][0..] == c1[b[1]];
      assert l2.frameOf == l2.frameOf - SetOf(b[1..][..0]);
    }
    FreedOneMore(l, h, k, l2);
    FreedBytesOneMore(c, b, s.Payload(), c1, k, StreamIndex(s, k - 1, 0), c2);
  }
}
