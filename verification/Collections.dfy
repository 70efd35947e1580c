/** Facts about lists and maps that have nothing to do with what they hold. */
module Collections {

  /** The list without the first occurrence of `x`. */
  function Without(l: seq<nat>, x: nat): (r: seq<nat>)
    ensures x !in l ==> r == l
    ensures x in l ==> |r| == |l| - 1
  {
    if l == [] then [] else if l[0] == x then l[1..] else [l[0]] + Without(l[1..], x)
  }

  /** Where the remaining elements stand after a removal at position `k`. */
  lemma {:induction false} WithoutAt(l: seq<nat>, k: nat)
    requires k < |l| && forall i :: 0 <= i < k ==> l[i] != l[k]
    ensures Without(l, l[k]) == l[..k] + l[k + 1..]
  {
    if k > 0 {
      WithoutAt(l[1..], k - 1);
      assert l[1..][k - 1] == l[k];
      assert l[0] != l[k];
      assert [l[0]] + (l[1..][..k - 1] + l[1..][k..]) == l[..k] + l[k + 1..];
    }
  }

  /** Removing a pair whose value no other key has removes its value. */
  lemma ValuesWithout<T, U>(m: map<T, U>, k: T)
    requires k in m && forall a :: a in m && a != k ==> m[a] != m[k]
    ensures (m - {k}).Values == m.Values - {m[k]}
  {
    var m' := m - {k};
    forall v | v in m.Values && v != m[k] ensures v in m'.Values {
      var a :| a in m && m[a] == v;
      assert a in m' && m'[a] == v;
    }
  }

  /** An injective map has as many values as keys. */
  lemma {:induction false} ValuesSize<T, U>(m: map<T, U>)
    requires forall a, b :: a in m && b in m && a != b ==> m[a] != m[b]
    ensures |m.Values| == |m.Keys|
    decreases |m.Keys|
  {
    if m.Keys == {} {
      assert m.Values == {};
    } else {
      var k :| k in m;
      var m' := m - {k};
      ValuesWithout(m, k);
      assert m'.Keys == m.Keys - {k};
      ValuesSize(m');
      assert m[k] in m.Values;
    }
  }
}
