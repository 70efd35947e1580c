/** Packed bitmaps. The page allocator numbers the bits of a byte from the most
    significant one, the file system from the least significant one. */
module Bitmap {

  datatype Order = MsbFirst | LsbFirst

  function Mask(order: Order, pos: nat): bv8
    requires pos < 8
  {
    if order.MsbFirst? then (1 as bv8) << (7 - pos) else (1 as bv8) << pos
  }

  /** Bit 0 is worth 128 in one order, and 1 in the other. */
  lemma MaskValues(p: nat)
    requires p < 8
    ensures Mask(LsbFirst, p) as int == [1, 2, 4, 8, 16, 32, 64, 128][p]
    ensures Mask(MsbFirst, p) as int == [128, 64, 32, 16, 8, 4, 2, 1][p]
  {
    assert Mask(LsbFirst, 0) == 1 && Mask(LsbFirst, 1) == 2 && Mask(LsbFirst, 2) == 4 && Mask(LsbFirst, 3) == 8;
    assert Mask(LsbFirst, 4) == 16 && Mask(LsbFirst, 5) == 32 && Mask(LsbFirst, 6) == 64 && Mask(LsbFirst, 7) == 128;
    assert Mask(MsbFirst, 0) == 128 && Mask(MsbFirst, 1) == 64 && Mask(MsbFirst, 2) == 32 && Mask(MsbFirst, 3) == 16;
    assert Mask(MsbFirst, 4) == 8 && Mask(MsbFirst, 5) == 4 && Mask(MsbFirst, 6) == 2 && Mask(MsbFirst, 7) == 1;
  }

  predicate BitOf(order: Order, b: bv8, pos: nat)
    requires pos < 8
  {
    b & Mask(order, pos) != 0
  }

  predicate Bit(order: Order, s: seq<bv8>, p: nat)
    requires p < 8 * |s|
  {
    BitOf(order, s[p / 8], p % 8)
  }

  /** The positions whose bit is set. */
  ghost function Members(order: Order, s: seq<bv8>): (r: set<nat>)
    ensures forall p: nat :: p in r <==> p < 8 * |s| && Bit(order, s, p)
  {
    set p: nat | p < 8 * |s| && Bit(order, s, p)
  }

  lemma SetByte(order: Order, b: bv8, p: nat, q: nat)
    requires p < 8 && q < 8
    ensures BitOf(order, b | Mask(order, p), q) <==> p == q || BitOf(order, b, q)
  {
    if order.MsbFirst? { } else { }
  }

  lemma UnsetByte(order: Order, b: bv8, p: nat, q: nat)
    requires p < 8 && q < 8
    ensures BitOf(order, b & !Mask(order, p), q) <==> p != q && BitOf(order, b, q)
  {
    if order.MsbFirst? { } else { }
  }

  /** A byte with one bit changed. */
  function WithBit(order: Order, b: bv8, pos: nat, value: bool): (r: bv8)
    requires pos < 8
    ensures forall q: nat :: q < 8 ==> (BitOf(order, r, q) <==> if q == pos then value else BitOf(order, b, q))
  {
    if value then
      assert forall q: nat :: q < 8 ==> (BitOf(order, b | Mask(order, pos), q) <==> q == pos || BitOf(order, b, q)) by {
        forall q: nat | q < 8 ensures BitOf(order, b | Mask(order, pos), q) <==> q == pos || BitOf(order, b, q) {
          SetByte(order, b, pos, q);
        }
      }
      b | Mask(order, pos)
    else
      assert forall q: nat :: q < 8 ==>
        (BitOf(order, b & !Mask(order, pos), q) <==> q != pos && BitOf(order, b, q)) by {
        forall q: nat | q < 8 ensures BitOf(order, b & !Mask(order, pos), q) <==> q != pos && BitOf(order, b, q) {
          UnsetByte(order, b, pos, q);
        }
      }
      b & !Mask(order, pos)
  }

  /** Changing one bit of the byte that holds position `p` changes membership of `p` alone. */
  lemma ByteMembers(order: Order, s: seq<bv8>, p: nat, b: bv8, value: bool)
    requires p < 8 * |s|
    requires forall q: nat :: q < 8 ==>
      (BitOf(order, b, q) <==> if q == p % 8 then value else BitOf(order, s[p / 8], q))
    ensures Members(order, s[p / 8 := b]) == if value then Members(order, s) + {p} else Members(order, s) - {p}
  {
    var s' := s[p / 8 := b];
    forall q: nat | q < 8 * |s| ensures Bit(order, s', q) <==> if q == p then value else Bit(order, s, q) {
      assert q == p <==> q / 8 == p / 8 && q % 8 == p % 8;
    }
  }

  method SetAt(order: Order, bitmap: array<bv8>, p: nat)
    requires p < 8 * bitmap.Length
    modifies bitmap
    ensures Members(order, bitmap[..]) == old(Members(order, bitmap[..])) + {p}
  {
    ghost var s := bitmap[..];
    var b := WithBit(order, bitmap[p / 8], p % 8, true);
    ByteMembers(order, s, p, b, true);
    bitmap[p / 8] := b;
    assert bitmap[..] == s[p / 8 := b];
  }

  method UnsetAt(order: Order, bitmap: array<bv8>, p: nat)
    requires p < 8 * bitmap.Length
    modifies bitmap
    ensures Members(order, bitmap[..]) == old(Members(order, bitmap[..])) - {p}
  {
    ghost var s := bitmap[..];
    var b := WithBit(order, bitmap[p / 8], p % 8, false);
    ByteMembers(order, s, p, b, false);
    bitmap[p / 8] := b;
    assert bitmap[..] == s[p / 8 := b];
  }

  /** The lowest bit of a byte that is not set, -1 when there is none. */
  method LowestUnsetBit(order: Order, c: bv8) returns (pos: int)
    ensures -1 <= pos < 8
    ensures pos == -1 ==> forall q: nat :: q < 8 ==> BitOf(order, c, q)
    ensures pos >= 0 ==> !BitOf(order, c, pos) && forall q: nat :: q < pos ==> BitOf(order, c, q)
  {
    pos := 0;
    while pos <= 7
      invariant 0 <= pos <= 8
      invariant forall q: nat :: q < pos ==> BitOf(order, c, q)
    {
      if !BitOf(order, c, pos) {
        return;
      }
      pos := pos + 1;
    }
    return -1;
  }

  /** `p` is the lowest position below `limit` that is not in `used`, -1 when there is none. */
  ghost predicate IsFirstFree(used: set<nat>, limit: nat, p: int) {
    if p < 0 then p == -1 && forall q: nat :: q < limit ==> q in used
    else p < limit && p !in used && forall q: nat :: q < p ==> q in used
  }

  method FirstAvailable(order: Order, bitmap: array<bv8>) returns (p: int)
    ensures IsFirstFree(Members(order, bitmap[..]), 8 * bitmap.Length, p)
  {
    var i := 0;
    while i < bitmap.Length
      invariant 0 <= i <= bitmap.Length
      invariant forall q: nat :: q < 8 * i ==> Bit(order, bitmap[..], q)
    {
      var pos := LowestUnsetBit(order, bitmap[i]);
      if pos != -1 {
        p := i * 8 + pos;
        assert p / 8 == i && p % 8 == pos;
        assert !Bit(order, bitmap[..], p);
        forall q: nat | q < p ensures Bit(order, bitmap[..], q) {
          assert q < 8 * i || (q / 8 == i && q % 8 < pos);
        }
        return;
      }
      forall q: nat | q < 8 * (i + 1) ensures Bit(order, bitmap[..], q) {
        assert q < 8 * i || q / 8 == i;
      }
      i := i + 1;
    }
    return -1;
  }

  /** The members below `k`. */
  ghost function Below(used: set<nat>, k: nat): (r: set<nat>)
    ensures r <= used
  {
    set p | p in used && p < k
  }

  lemma BelowSucc(used: set<nat>, k: nat)
    ensures |Below(used, k + 1)| == |Below(used, k)| + if k in used then 1 else 0
  {
    assert Below(used, k + 1) == if k in used then Below(used, k) + {k} else Below(used, k);
  }

  lemma {:induction false} BelowCount(used: set<nat>, k: nat)
    ensures |Below(used, k)| <= k
  {
    if k == 0 {
      assert Below(used, 0) == {};
    } else {
      BelowCount(used, k - 1);
      BelowSucc(used, k - 1);
    }
  }

  /** Are at least `n` bits unset? */
  method NBitsAvailable(order: Order, bitmap: array<bv8>, n: nat) returns (r: bool)
    requires n > 0
    ensures r <==> |Members(order, bitmap[..])| + n <= 8 * bitmap.Length
  {
    ghost var used := Members(order, bitmap[..]);
    var left := n;
    var i := 0;
    assert Below(used, 0) == {};
    while i < bitmap.Length
      invariant 0 <= i <= bitmap.Length
      invariant 0 < left && left + (8 * i - |Below(used, 8 * i)|) == n
    {
      var pos := 0;
      while pos <= 7
        invariant 0 <= pos <= 8
        invariant 0 < left && left + (8 * i + pos - |Below(used, 8 * i + pos)|) == n
      {
        ghost var p := 8 * i + pos;
        assert p / 8 == i && p % 8 == pos;
        BelowSucc(used, p);
        left := if BitOf(order, bitmap[i], pos) then left else left - 1;
        if left == 0 {
          EnoughFree(used, p + 1, 8 * bitmap.Length);
          assert Below(used, 8 * bitmap.Length) == used;
          return true;
        }
        pos := pos + 1;
      }
      i := i + 1;
    }
    assert Below(used, 8 * bitmap.Length) == used;
    return false;
  }

  lemma {:induction false} EnoughFree(used: set<nat>, k: nat, m: nat)
    requires k <= m
    ensures m - |Below(used, m)| >= k - |Below(used, k)|
    decreases m
  {
    if k < m {
      EnoughFree(used, k, m - 1);
      BelowSucc(used, m - 1);
    }
  }

  method NumBitsSet(order: Order, bitmap: array<bv8>) returns (count: nat)
    ensures count == |Members(order, bitmap[..])|
  {
    ghost var used := Members(order, bitmap[..]);
    count := 0;
    var i := 0;
    assert Below(used, 0) == {};
    while i < bitmap.Length
      invariant 0 <= i <= bitmap.Length
      invariant count == |Below(used, 8 * i)|
    {
      var pos := 0;
      while pos <= 7
        invariant 0 <= pos <= 8
        invariant count == |Below(used, 8 * i + pos)|
      {
        ghost var p := 8 * i + pos;
        assert p / 8 == i && p % 8 == pos;
        BelowSucc(used, p);
        count := if BitOf(order, bitmap[i], pos) then count + 1 else count;
        pos := pos + 1;
      }
      i := i + 1;
    }
    assert Below(used, 8 * bitmap.Length) == used;
  }

  /** A bitmap that is not full has a first free position. */
  lemma FirstFreeExists(used: set<nat>, limit: nat, p: int)
    requires IsFirstFree(used, limit, p) && forall q :: q in used ==> q < limit
    ensures p >= 0 <==> |used| < limit
  {
    assert Below(used, limit) == used;
    if p < 0 {
      FullBelow(used, limit);
    } else {
      EnoughFree(used, p + 1, limit);
      BelowSucc(used, p);
      FullBelow(used, p);
    }
  }

  lemma {:induction false} FullBelow(used: set<nat>, k: nat)
    requires forall q: nat :: q < k ==> q in used
    ensures |Below(used, k)| == k
  {
    if k == 0 {
      assert Below(used, 0) == {};
    } else {
      FullBelow(used, k - 1);
      BelowSucc(used, k - 1);
    }
  }
}
