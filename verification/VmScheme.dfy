/** Powers of two, quotients and remainders, as far as address arithmetic needs them. */
module Arithmetic {

  function Pow2(n: nat): (r: nat)
    ensures r >= 1
  {
    if n == 0 then 1 else 2 * Pow2(n - 1)
  }

  lemma {:induction false} Pow2Sum(a: nat, b: nat)
    ensures Pow2(a + b) == Pow2(a) * Pow2(b)
  {
    if a > 0 {
      Pow2Sum(a - 1, b);
      assert Pow2(a + b) == 2 * (Pow2(a - 1) * Pow2(b));
    }
  }

  lemma {:induction false} Pow2Monotone(a: nat, b: nat)
    requires a < b
    ensures 2 * Pow2(a) <= Pow2(b)
    decreases b
  {
    if a + 1 < b {
      Pow2Monotone(a, b - 1);
    }
  }

  lemma ScaleMonotone(a: nat, b: nat, k: nat)
    requires a <= b
    ensures a * k <= b * k
  {
  }

  lemma OneMore(n: nat, k: nat)
    requires n > 0
    ensures k + (n - 1) * k == n * k
  {
  }

  function Quotient(x: nat, m: nat): nat
    requires m > 0
  {
    x / m
  }

  function Remainder(x: nat, m: nat): (r: nat)
    requires m > 0
    ensures r < m
  {
    x % m
  }

  /** A multiple of `m` plus a remainder splits into just these. */
  lemma Split(k: nat, m: nat, o: nat)
    requires o < m
    ensures Quotient(k * m + o, m) == k && Remainder(k * m + o, m) == o
  {
    var q, r := (k * m + o) / m, (k * m + o) % m;
    assert q * m + r == k * m + o;
    if q < k {
      ScaleMonotone(q + 1, k, m);
    } else if k < q {
      ScaleMonotone(k + 1, q, m);
    }
  }

  /** The quotient of a number below `n * m` is below `n`. */
  lemma QuotientBound(x: nat, n: nat, m: nat)
    requires x < n * m
    ensures m > 0 && Quotient(x, m) < n && Quotient(x, m) * m + Remainder(x, m) == x
  {
    assert m > 0;
    if x / m >= n {
      ScaleMonotone(n, x / m, m);
    }
  }

  lemma MixedRadixBound(a: nat, m: nat, b: nat, n: nat)
    requires a < m && b < n
    ensures a * n + b < m * n
  {
    ScaleMonotone(a + 1, m, n);
  }

  /** Two items of an array of words do not overlap. */
  lemma WordsApart(i: nat, j: nat, word: nat)
    requires i != j
    ensures i * word + word <= j * word || j * word + word <= i * word
  {
    if i < j {
      ScaleMonotone(i + 1, j, word);
    } else {
      ScaleMonotone(j + 1, i, word);
    }
  }
}

/** The two-level paging scheme: bit widths, addresses, and where the cell of a page lies. */
module VmScheme {
  import opened Arithmetic
  import opened Words

  /** The widths of the parts of an address, and of a machine word in bytes. `base` is the address
      at which the simulated physical memory starts. `asWritten` tells which table the directory
      entries name: as the program is written every entry holds the address of the directory
      itself; the intended program stores the address of the table frame reserved just before. */
  /** Is the number of spare frames that the program asserts to have at the start positive? */
  predicate EnoughFrames(tableBits: nat, dirBits: nat) {
    5 <= tableBits || (tableBits == 4 && dirBits > 0)
  }

  datatype Scheme = Scheme(offsetBits: nat, tableBits: nat, dirBits: nat, wordBits: nat,
                           base: nat, asWritten: bool)
  {
    /** A table fills a page and has room for a directory, the memory lies above the null page and
        every address fits a word. */
    ghost predicate Ok() {
      && offsetBits == tableBits + wordBits
      && dirBits <= tableBits && EnoughFrames(tableBits, dirBits)
      && PageSize() <= base
      && base + Pow2(MaxBits()) <= Pow256(Word())
    }

    function MaxBits(): nat { offsetBits + tableBits + dirBits }

    function PageSize(): nat { Pow2(offsetBits) }

    /** The size of a pointer, a table entry and a link. */
    function Word(): nat { Pow2(wordBits) }

    function TableEntries(): nat { Pow2(tableBits) }

    function DirEntries(): nat { Pow2(dirBits) }

    /** The number of virtual pages, and of frames. */
    function Pages(): nat { Pow2(tableBits + dirBits) }

    /** Bytes of a page that hold data: all but the leading link word. */
    function Payload(): (r: nat)
      requires Ok()
      ensures 0 < r && r + Word() == PageSize()
    {
      Pow2Monotone(wordBits, offsetBits);
      PageSize() - Word()
    }

    /** The pages whose translation goes through an intact directory entry. */
    function Usable(): nat {
      if asWritten then TableEntries() else Pages()
    }

    function TableFrame(entry: nat): nat {
      if asWritten then 0 else entry + 1
    }

    /** Is the frame the directory, or a table that the directory names? */
    predicate HoldsTable(frame: nat) {
      frame == 0 || (!asWritten && frame <= DirEntries())
    }

    function CellFrame(page: nat): nat {
      TableFrame(Quotient(page, TableEntries()))
    }

    /** Where entry `i` of a table lies in its frame. */
    function EntryOffset(i: nat): nat {
      i * Word()
    }

    function CellOffset(page: nat): nat {
      EntryOffset(Remainder(page, TableEntries()))
    }

    function Pointer(frame: nat, offset: nat): (r: nat)
      ensures r >= base
    {
      base + frame * PageSize() + offset
    }

    function CellPointer(page: nat): nat {
      Pointer(CellFrame(page), CellOffset(page))
    }

    function FrameOfPointer(pa: nat): nat
      requires pa >= base
    {
      Quotient(pa - base, PageSize())
    }

    function OffsetOfPointer(pa: nat): nat
      requires pa >= base
    {
      Remainder(pa - base, PageSize())
    }

    function AddressOf(page: nat, offset: nat): nat {
      page * PageSize() + offset
    }

    function PageOf(va: nat): nat {
      Quotient(va, PageSize())
    }

    function OffsetOf(va: nat): nat {
      Remainder(va, PageSize())
    }

    /** No bit above the address width is set. */
    predicate ValidAddress(va: nat) {
      Quotient(va, Pow2(MaxBits())) == 0
    }
  }

  /** How the sizes relate. */
  lemma Sizes(s: Scheme)
    requires s.Ok()
    ensures s.TableEntries() * s.Word() == s.PageSize()
    ensures s.DirEntries() * s.TableEntries() == s.Pages()
    ensures s.Pages() * s.PageSize() == Pow2(s.MaxBits())
  {
    Pow2Sum(s.tableBits, s.wordBits);
    Pow2Sum(s.dirBits, s.tableBits);
    Pow2Sum(s.tableBits + s.dirBits, s.offsetBits);
  }

  lemma FrameCount(s: Scheme)
    requires s.Ok()
    ensures s.DirEntries() + 1 <= s.Pages() && s.DirEntries() <= s.TableEntries() <= s.Pages()
    ensures 2 <= s.TableEntries() && s.Usable() <= s.Pages()
    ensures 8 * Pow2(s.tableBits + s.dirBits - 3) == s.Pages()
    ensures s.Word() < s.PageSize()
  {
    Pow2Monotone(s.dirBits, s.tableBits + s.dirBits);
    Pow2Monotone(0, s.tableBits);
    if s.dirBits < s.tableBits {
      Pow2Monotone(s.dirBits, s.tableBits);
    }
    if s.dirBits > 0 {
      Pow2Monotone(s.tableBits, s.tableBits + s.dirBits);
    }
    Pow2Monotone(s.wordBits, s.offsetBits);
    Pow2Sum(s.tableBits + s.dirBits - 3, 3);
    assert Pow2(3) == 8;
  }

  lemma PointerSum(s: Scheme, frame: nat, offset: nat)
    ensures s.Pointer(frame, 0) + offset == s.Pointer(frame, offset)
  {
  }

  lemma PointerIs(s: Scheme, page: nat)
    ensures s.CellPointer(page) == s.Pointer(s.CellFrame(page), s.CellOffset(page))
  {
  }

  lemma SplitPointer(s: Scheme, frame: nat, offset: nat)
    requires offset < s.PageSize()
    ensures s.FrameOfPointer(s.Pointer(frame, offset)) == frame
    ensures s.OffsetOfPointer(s.Pointer(frame, offset)) == offset
  {
    Split(frame, s.PageSize(), offset);
  }

  lemma SplitAddress(s: Scheme, page: nat, offset: nat)
    requires offset < s.PageSize()
    ensures s.PageOf(s.AddressOf(page, offset)) == page && s.OffsetOf(s.AddressOf(page, offset)) == offset
  {
    Split(page, s.PageSize(), offset);
  }

  lemma ValidIsBelow(s: Scheme, va: nat)
    requires s.Ok()
    ensures s.ValidAddress(va) <==> va < s.Pages() * s.PageSize()
  {
    Sizes(s);
    if va < Pow2(s.MaxBits()) {
      Split(0, Pow2(s.MaxBits()), va);
    }
  }

  lemma InvalidPage(s: Scheme, va: nat)
    requires s.Ok() && s.PageOf(va) < s.Pages()
    ensures s.ValidAddress(va)
  {
    ValidIsBelow(s, va);
    ScaleMonotone(s.PageOf(va) + 1, s.Pages(), s.PageSize());
    QuotientBound(va, s.PageOf(va) + 1, s.PageSize());
  }

  /** Directory index, table index and offset reassemble the address they were extracted from. */
  lemma ExtractReconvert(s: Scheme, va: nat)
    requires s.Ok() && s.ValidAddress(va)
    ensures
      var page := s.PageOf(va);
      && page < s.Pages() && Quotient(page, s.TableEntries()) < s.DirEntries()
      && var whole := Quotient(page, s.TableEntries()) * s.TableEntries() + Remainder(page, s.TableEntries());
        s.AddressOf(whole, s.OffsetOf(va)) == va
  {
    ValidIsBelow(s, va);
    Sizes(s);
    QuotientBound(va, s.Pages(), s.PageSize());
    QuotientBound(s.PageOf(va), s.DirEntries(), s.TableEntries());
  }

  /** Indices and offset in range are extracted again from the address they make. */
  lemma ReconvertExtract(s: Scheme, pde: nat, pte: nat, offset: nat)
    requires s.Ok() && pde < s.DirEntries() && pte < s.TableEntries() && offset < s.PageSize()
    ensures
      var va := s.AddressOf(pde * s.TableEntries() + pte, offset);
      && s.ValidAddress(va) && s.OffsetOf(va) == offset
      && Quotient(s.PageOf(va), s.TableEntries()) == pde && Remainder(s.PageOf(va), s.TableEntries()) == pte
  {
    var page := pde * s.TableEntries() + pte;
    Sizes(s);
    MixedRadixBound(pde, s.DirEntries(), pte, s.TableEntries());
    MixedRadixBound(page, s.Pages(), offset, s.PageSize());
    ValidIsBelow(s, s.AddressOf(page, offset));
    Split(page, s.PageSize(), offset);
    Split(pde, s.TableEntries(), pte);
  }

  lemma IndexBounds(s: Scheme, page: nat)
    requires s.Ok() && page < s.Pages()
    ensures Quotient(page, s.TableEntries()) < s.DirEntries() <= s.TableEntries()
    ensures page < s.TableEntries() <==> Quotient(page, s.TableEntries()) == 0
    ensures page < s.TableEntries() ==> Remainder(page, s.TableEntries()) == page
  {
    Sizes(s);
    FrameCount(s);
    QuotientBound(page, s.DirEntries(), s.TableEntries());
    if page < s.TableEntries() {
      Split(0, s.TableEntries(), page);
    }
  }

  lemma EntryInFrame(s: Scheme, d: nat)
    requires s.Ok() && d < s.TableEntries()
    ensures s.EntryOffset(d) + s.Word() <= s.PageSize()
  {
    Sizes(s);
    ScaleMonotone(d + 1, s.TableEntries(), s.Word());
  }

  lemma PointerFits(s: Scheme, frame: nat)
    requires s.Ok() && frame < s.Pages()
    ensures s.Pointer(frame, 0) < Pow256(s.Word()) && s.AddressOf(frame, 0) < Pow256(s.Word())
  {
    Sizes(s);
    ScaleMonotone(frame + 1, s.Pages(), s.PageSize());
  }

  /** A usable page's cell lies within one of the reserved frames. */
  lemma CellInTables(s: Scheme, page: nat)
    requires s.Ok() && page < s.Usable()
    ensures s.CellFrame(page) <= s.DirEntries() < s.Pages() && s.HoldsTable(s.CellFrame(page))
    ensures s.CellOffset(page) + s.Word() <= s.PageSize()
    ensures Quotient(page, s.TableEntries()) < (if s.asWritten then 1 else s.DirEntries())
    ensures s.asWritten ==> s.CellOffset(page) == s.EntryOffset(page)
  {
    FrameCount(s);
    if s.asWritten {
      Split(0, s.TableEntries(), page);
    } else {
      Sizes(s);
      QuotientBound(page, s.DirEntries(), s.TableEntries());
    }
    EntryInFrame(s, Remainder(page, s.TableEntries()));
  }

  lemma SameFrameIndices(s: Scheme, p: nat, q: nat)
    requires s.Ok() && p < s.Usable() && q < s.Usable() && p != q
    requires s.CellFrame(p) == s.CellFrame(q)
    ensures Remainder(p, s.TableEntries()) != Remainder(q, s.TableEntries())
  {
    if s.asWritten {
      Split(0, s.TableEntries(), p);
      Split(0, s.TableEntries(), q);
    } else {
      Sizes(s);
      QuotientBound(p, s.DirEntries(), s.TableEntries());
      QuotientBound(q, s.DirEntries(), s.TableEntries());
    }
  }

  /** Distinct usable pages have cells that do not overlap. */
  lemma CellsApart(s: Scheme, p: nat, q: nat)
    requires s.Ok() && p < s.Usable() && q < s.Usable() && p != q
    ensures s.CellFrame(p) != s.CellFrame(q)
      || s.CellOffset(p) + s.Word() <= s.CellOffset(q) || s.CellOffset(q) + s.Word() <= s.CellOffset(p)
  {
    if s.CellFrame(p) == s.CellFrame(q) {
      SameFrameIndices(s, p, q);
      WordsApart(Remainder(p, s.TableEntries()), Remainder(q, s.TableEntries()), s.Word());
    }
  }

  /** The position of the highest set bit, -1 for zero. */
  method NumBitsNeededToEncode(val: nat) returns (n: int)
    ensures val == 0 ==> n == -1
    ensures val > 0 ==> n >= 0 && Pow2(n) <= val < 2 * Pow2(n)
  {
    hide Scaled;
    ScaledStart(val);
    var v, k := val, 0;
    while v > 0
      invariant Scaled(v, k, val)
    {
      ScaledHalf(v, k, val);
      v := v / 2;
      k := k + 1;
    }
    ScaledEnd(k, val);
    n := k - 1;
  }

  /** `v` is `val` shifted right by `k`, and no more than needed. */
  ghost predicate Scaled(v: nat, k: nat, val: nat) {
    v * Pow2(k) <= val < (v + 1) * Pow2(k) && (k > 0 ==> Pow2(k - 1) <= val)
  }

  lemma ScaledStart(val: nat)
    ensures Scaled(val, 0, val)
  {
  }

  lemma ScaledEnd(k: nat, val: nat)
    requires Scaled(0, k, val)
    ensures val == 0 ==> k == 0
    ensures val > 0 ==> k > 0 && Pow2(k - 1) <= val < 2 * Pow2(k - 1)
  {
  }

  lemma ScaledHalf(v: nat, k: nat, val: nat)
    requires v > 0 && Scaled(v, k, val)
    ensures Scaled(v / 2, k + 1, val)
  {
    HalfStep(v, v / 2, Pow2(k), val);
  }

  lemma HalfStep(v: nat, half: nat, p: nat, val: nat)
    requires v > 0 && v * p <= val < (v + 1) * p && 2 * half <= v <= 2 * half + 1
    ensures half * (2 * p) <= val < (half + 1) * (2 * p) && p <= val
  {
    ScaleMonotone(2 * half, v, p);
    ScaleMonotone(v + 1, 2 * half + 2, p);
    ScaleMonotone(1, v, p);
  }

  lemma {:induction false} Pow2Injective(a: nat, b: nat)
    requires Pow2(a) <= Pow2(b) < 2 * Pow2(a)
    ensures a == b
  {
    if a < b {
      Pow2Monotone(a, b);
    } else if b < a {
      Pow2Monotone(b, a);
    }
  }

  /** The widths the program derives from the sizes it is compiled for, given as powers of two: every address bit that
      both memories have is used, unless the directory is as large as a table. */
  method InitPagingScheme(vaSpace: nat, paSpace: nat, offset: nat, wordBits: nat, base: nat, asWritten: bool)
    returns (s: Scheme)
    requires 2 * offset <= paSpace + wordBits && 2 * offset <= vaSpace + wordBits
    requires offset >= wordBits + 5
      || (offset == wordBits + 4 && 2 * offset < paSpace + wordBits && 2 * offset < vaSpace + wordBits)
    requires Pow2(offset) <= base && base + Pow2(paSpace) <= Pow256(Pow2(wordBits))
    ensures s.Ok() && s.MaxBits() <= vaSpace && s.MaxBits() <= paSpace
    ensures s.MaxBits() == vaSpace || s.MaxBits() == paSpace || s.DirEntries() == s.TableEntries()
    ensures s.PageSize() == Pow2(offset) && s.Word() == Pow2(wordBits) && s.TableEntries() * s.Word() == s.PageSize()
    ensures s.base == base && s.asWritten == asWritten
  {
    var va := NumBitsNeededToEncode(Pow2(vaSpace));
    var pa := NumBitsNeededToEncode(Pow2(paSpace));
    Pow2Injective(va, vaSpace);
    Pow2Injective(pa, paSpace);
    var maxBits := if pa < va then pa else va;
    var offsetBits := NumBitsNeededToEncode(Pow2(offset));
    Pow2Injective(offsetBits, offset);
    var maxPages := maxBits - offsetBits;
    Pow2Sum(offset - wordBits, wordBits);
    var entries := Quotient(Pow2(offset), Pow2(wordBits));
    Split(Pow2(offset - wordBits), Pow2(wordBits), 0);
    var tableDirMax := NumBitsNeededToEncode(entries);
    Pow2Injective(tableDirMax, offset - wordBits);
    var remaining := maxPages - tableDirMax;
    var dirBits := if tableDirMax < remaining then tableDirMax else remaining;
    s := Scheme(offsetBits, tableDirMax, dirBits, wordBits, base, asWritten);
    if s.MaxBits() < paSpace {
      Pow2Monotone(s.MaxBits(), paSpace);
    }
    Sizes(s);
  }
}
