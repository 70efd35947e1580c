/** Bytes, little-endian machine words, and overwriting a stretch of a byte buffer. */
module Words {

  type byte = b: nat | b < 256

  function Pow256(n: nat): (r: nat)
    ensures r >= 1
  {
    if n == 0 then 1 else 256 * Pow256(n - 1)
  }

  function EncodeLE(x: nat, n: nat): (r: seq<byte>)
    ensures |r| == n
  {
    if n == 0 then [] else [x % 256] + EncodeLE(x / 256, n - 1)
  }

  function DecodeLE(s: seq<byte>): nat {
    if s == [] then 0 else s[0] + 256 * DecodeLE(s[1..])
  }

  lemma DecodeCons(b: byte, s: seq<byte>)
    ensures DecodeLE([b] + s) == b + 256 * DecodeLE(s)
  {
    assert ([b] + s)[1..] == s;
  }

  /** A value that fits its width survives being stored. */
  lemma {:induction false} DecodeEncode(x: nat, n: nat)
    requires x < Pow256(n)
    ensures DecodeLE(EncodeLE(x, n)) == x
  {
    if n > 0 {
      var low, high := x % 256, x / 256;
      DecodeEncode(high, n - 1);
      DecodeCons(low, EncodeLE(high, n - 1));
    }
  }

  lemma LowByte(b: nat, t: nat)
    requires b < 256
    ensures (b + 256 * t) % 256 == b && (b + 256 * t) / 256 == t
  {
  }

  /** Bytes are determined by the value they encode. */
  lemma {:induction false} EncodeDecode(s: seq<byte>)
    ensures EncodeLE(DecodeLE(s), |s|) == s
  {
    if s != [] {
      EncodeDecode(s[1..]);
      LowByte(s[0], DecodeLE(s[1..]));
      calc {
        EncodeLE(DecodeLE(s), |s|);
        [s[0]] + EncodeLE(DecodeLE(s[1..]), |s| - 1);
        [s[0]] + s[1..];
        s;
      }
    }
  }

  function Zeros(n: nat): (r: seq<byte>)
    ensures |r| == n && forall i :: 0 <= i < n ==> r[i] == 0
  {
    seq(n, _ => 0)
  }

  lemma {:induction false} DecodeZeros(n: nat)
    ensures DecodeLE(Zeros(n)) == 0
  {
    if n > 0 {
      DecodeZeros(n - 1);
      assert Zeros(n)[1..] == Zeros(n - 1);
    }
  }

  /** `s` with the bytes from `at` on overwritten by `d`. */
  function Splice<T>(s: seq<T>, at: nat, d: seq<T>): (r: seq<T>)
    requires at + |d| <= |s|
    ensures |r| == |s|
    ensures forall i :: 0 <= i < |s| ==> r[i] == if at <= i < at + |d| then d[i - at] else s[i]
  {
    s[..at] + d + s[at + |d|..]
  }

  lemma SpliceRight<T>(x: seq<T>, y: seq<T>, at: nat, d: seq<T>)
    requires |x| <= at && at + |d| <= |x| + |y|
    ensures Splice(x + y, at, d) == x + Splice(y, at - |x|, d)
  {
  }

  lemma SpliceLeft<T>(x: seq<T>, y: seq<T>, at: nat, d: seq<T>)
    requires at + |d| <= |x|
    ensures Splice(x + y, at, d) == Splice(x, at, d) + y
  {
  }
}
