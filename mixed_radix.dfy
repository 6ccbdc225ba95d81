/**
 * Cartesian products taken "one pick per list, in list order": the k-th
 * combination picks, from each list, the digit of k in the mixed radix
 * whose digit m ranges over the indices of list m (most significant first).
 * Both `cross_combine` and `all_combine` enumerate products in this order.
 */
module MixedRadix {

  import Ordering

  /** The number of ways to pick one element of every list. */
  function Prod<U>(x: seq<seq<U>>): nat
  {
    if x == [] then 1 else |x[0]| * Prod(x[1..])
  }

  lemma DivBelow(k: nat, n: nat, q: nat)
    requires q > 0 && k < n * q
    ensures 0 <= k / q < n && k % q < q
    ensures k == (k / q) * q + k % q
  {
  }

  lemma {:induction false} MulStep(a: nat, b: nat, q: nat)
    requires a > b
    ensures a * q >= b * q + q
  {
    if q > 0 {
      MulStep(a, b, q - 1);
      assert a * q == a * (q - 1) + a;
      assert b * q == b * (q - 1) + b;
    }
  }

  lemma DivMonotone(k1: nat, k2: nat, q: nat)
    requires q > 0 && k1 < k2
    ensures k1 / q <= k2 / q
    ensures k1 / q == k2 / q ==> k1 % q < k2 % q
  {
    var a1, r1, a2, r2 := k1 / q, k1 % q, k2 / q, k2 % q;
    assert k1 == a1 * q + r1 && k2 == a2 * q + r2;
    if a1 > a2 {
      MulStep(a1, a2, q);
      assert false;
    }
  }

  /** Positive product: every list has at least one element. */
  lemma ProdPositive<U>(x: seq<seq<U>>)
    requires forall m :: 0 <= m < |x| ==> x[m] != []
    ensures Prod(x) > 0
  {
    if x != [] {
      ProdPositive(x[1..]);
    }
  }

  /** The picks of the k-th combination, one index per list. */
  function Unrank<U>(x: seq<seq<U>>, k: nat): (p: seq<nat>)
    requires k < Prod(x)
    ensures |p| == |x|
    ensures forall m :: 0 <= m < |x| ==> p[m] < |x[m]|
  {
    if x == [] then []
    else
      var q := Prod(x[1..]);
      assert q > 0;
      DivBelow(k, |x[0]|, q);
      [k / q] + Unrank(x[1..], k % q)
  }

  function NatLess(a: nat, b: nat): bool { a < b }

  /** The enumeration order is lexicographic in the picks: a later combination
      has lexicographically larger picks, so no combination repeats. */
  lemma {:induction false} UnrankIncreasing<U>(x: seq<seq<U>>, k1: nat, k2: nat)
    requires k1 < k2 < Prod(x)
    ensures Ordering.LexLess(Unrank(x, k1), Unrank(x, k2), NatLess)
  {
    var q := Prod(x[1..]);
    assert x != [];
    DivBelow(k1, |x[0]|, q);
    DivBelow(k2, |x[0]|, q);
    var p1, p2 := Unrank(x, k1), Unrank(x, k2);
    DivMonotone(k1, k2, q);
    if k1 / q == k2 / q {
      UnrankIncreasing(x[1..], k1 % q, k2 % q);
      assert p1[1..] == Unrank(x[1..], k1 % q);
      assert p2[1..] == Unrank(x[1..], k2 % q);
    } else {
    }
  }
}
