/**
 * Python's comparison of sequences (strings, lists and tuples compare
 * lexicographically) and Python's `sorted`, stated for any strict total
 * order on the elements.
 */
module Ordering {

  ghost predicate StrictTotalOrder<T(!new)>(less: (T, T) -> bool)
  {
    && (forall a :: !less(a, a))
    && (forall a, b, c :: less(a, b) && less(b, c) ==> less(a, c))
    && (forall a, b :: a == b || less(a, b) || less(b, a))
  }

  /** `a < b` on two Python sequences: the first position where they differ decides,
      and a proper prefix is smaller. */
  function LexLess<T(==)>(a: seq<T>, b: seq<T>, less: (T, T) -> bool): bool
  {
    if |b| == 0 then false
    else if |a| == 0 then true
    else if a[0] != b[0] then less(a[0], b[0])
    else LexLess(a[1..], b[1..], less)
  }

  lemma {:induction false} LexIrreflexive<T(!new)>(a: seq<T>, less: (T, T) -> bool)
    ensures !LexLess(a, a, less)
  {
    if |a| > 0 {
      LexIrreflexive(a[1..], less);
    }
  }

  lemma {:induction false} LexTransitive<T(!new)>(a: seq<T>, b: seq<T>, c: seq<T>, less: (T, T) -> bool)
    requires StrictTotalOrder(less)
    requires LexLess(a, b, less) && LexLess(b, c, less)
    ensures LexLess(a, c, less)
  {
    if |a| > 0 && |b| > 0 && |c| > 0 && a[0] == b[0] && b[0] == c[0] {
      LexTransitive(a[1..], b[1..], c[1..], less);
    }
  }

  lemma {:induction false} LexTrichotomous<T(!new)>(a: seq<T>, b: seq<T>, less: (T, T) -> bool)
    requires StrictTotalOrder(less)
    ensures a == b || LexLess(a, b, less) || LexLess(b, a, less)
  {
    if |a| > 0 && |b| > 0 && a[0] == b[0] {
      LexTrichotomous(a[1..], b[1..], less);
      if a[1..] == b[1..] {
        assert a == [a[0]] + a[1..] && b == [b[0]] + b[1..];
      }
    }
  }

  /** Lexicographic comparison is again a strict total order. */
  lemma LexStrictTotal<T(!new)>(less: (T, T) -> bool)
    requires StrictTotalOrder(less)
    ensures forall a: seq<T> :: !LexLess(a, a, less)
    ensures forall a: seq<T>, b: seq<T>, c: seq<T> ::
      LexLess(a, b, less) && LexLess(b, c, less) ==> LexLess(a, c, less)
    ensures forall a: seq<T>, b: seq<T> :: a == b || LexLess(a, b, less) || LexLess(b, a, less)
  {
    forall a: seq<T> ensures !LexLess(a, a, less) {
      LexIrreflexive(a, less);
    }
    forall a: seq<T>, b: seq<T>, c: seq<T> | LexLess(a, b, less) && LexLess(b, c, less)
      ensures LexLess(a, c, less)
    {
      LexTransitive(a, b, c, less);
    }
    forall a: seq<T>, b: seq<T> ensures a == b || LexLess(a, b, less) || LexLess(b, a, less) {
      LexTrichotomous(a, b, less);
    }
  }

  /** Non-decreasing: no later element is smaller than an earlier one. */
  ghost predicate Sorted<T>(s: seq<T>, less: (T, T) -> bool)
  {
    forall i, j :: 0 <= i < j < |s| ==> !less(s[j], s[i])
  }

  ghost predicate StrictlySorted<T>(s: seq<T>, less: (T, T) -> bool)
  {
    forall i, j :: 0 <= i < j < |s| ==> less(s[i], s[j])
  }

  ghost predicate Distinct<T>(s: seq<T>)
  {
    forall i, j :: 0 <= i < j < |s| ==> s[i] != s[j]
  }

  /** Inserts `x` before the first element that is not smaller than it. */
  function Insert<T>(x: T, s: seq<T>, less: (T, T) -> bool): seq<T>
  {
    if s == [] then [x]
    else if less(s[0], x) then [s[0]] + Insert(x, s[1..], less)
    else [x] + s
  }

  /** Inserting adds `x` and nothing else. */
  lemma {:induction false} InsertPermutes<T>(x: T, s: seq<T>, less: (T, T) -> bool)
    ensures multiset(Insert(x, s, less)) == multiset(s) + multiset{x}
  {
    if s != [] {
      assert s == [s[0]] + s[1..];
      if less(s[0], x) {
        InsertPermutes(x, s[1..], less);
      }
    }
  }

  /** Python's `sorted(s)`: the sorted permutation of `s`. */
  function Sort<T>(s: seq<T>, less: (T, T) -> bool): seq<T>
  {
    if s == [] then []
    else Insert(s[0], Sort(s[1..], less), less)
  }

  /** Sorting keeps the elements. */
  lemma {:induction false} SortPermutes<T>(s: seq<T>, less: (T, T) -> bool)
    ensures multiset(Sort(s, less)) == multiset(s)
  {
    if s != [] {
      SortPermutes(s[1..], less);
      InsertPermutes(s[0], Sort(s[1..], less), less);
      assert s == [s[0]] + s[1..];
    }
  }

  lemma {:induction false} InsertSorted<T(!new)>(x: T, s: seq<T>, less: (T, T) -> bool)
    requires StrictTotalOrder(less)
    requires Sorted(s, less)
    ensures Sorted(Insert(x, s, less), less)
  {
    if s != [] && less(s[0], x) {
      SortedTail(s, less);
      InsertSorted(x, s[1..], less);
      InsertPermutes(x, s[1..], less);
      var t := Insert(x, s[1..], less);
      forall y | y in t
        ensures !less(y, s[0])
      {
        assert y in multiset(t);
        if y != x {
          assert y in multiset(s[1..]);
          TailNotBelowHead(s, y, less);
        }
      }
      ConsSorted(s[0], t, less);
    }
  }

  /** No element after the head of a sorted sequence is below it. */
  lemma TailNotBelowHead<T>(s: seq<T>, y: T, less: (T, T) -> bool)
    requires s != [] && Sorted(s, less) && y in s[1..]
    ensures !less(y, s[0])
  {
    var k :| 0 <= k < |s[1..]| && s[1..][k] == y;
    assert s[k + 1] == y;
  }

  lemma ConsSorted<T>(h: T, t: seq<T>, less: (T, T) -> bool)
    requires Sorted(t, less)
    requires forall y :: y in t ==> !less(y, h)
    ensures Sorted([h] + t, less)
  {
    var r := [h] + t;
    forall i, j | 0 <= i < j < |r|
      ensures !less(r[j], r[i])
    {
      assert r[j] == t[j - 1];
      if i > 0 {
        assert r[i] == t[i - 1];
      }
    }
  }

  /** `Sort` returns a sorted permutation of its input. */
  lemma {:induction false} SortSorted<T(!new)>(s: seq<T>, less: (T, T) -> bool)
    requires StrictTotalOrder(less)
    ensures Sorted(Sort(s, less), less)
    ensures multiset(Sort(s, less)) == multiset(s) && |Sort(s, less)| == |s|
  {
    if s != [] {
      SortSorted(s[1..], less);
      InsertSorted(s[0], Sort(s[1..], less), less);
      assert Sort(s, less) == Insert(s[0], Sort(s[1..], less), less);
    }
    SortPermutes(s, less);
    calc {
      |Sort(s, less)|;
      |multiset(Sort(s, less))|;
      |multiset(s)|;
      |s|;
    }
  }

  /** The first element of a sorted sequence is not greater than any of its elements. */
  lemma HeadIsLeast<T(!new)>(s: seq<T>, x: T, less: (T, T) -> bool)
    requires StrictTotalOrder(less)
    requires Sorted(s, less) && x in s
    ensures !less(x, s[0])
  {
    var k :| 0 <= k < |s| && s[k] == x;
  }

  /** Two sorted sequences holding the same elements are equal:
      the result of `sorted` depends only on the multiset of its input. */
  lemma {:induction false} SortedUnique<T(!new)>(a: seq<T>, b: seq<T>, less: (T, T) -> bool)
    requires StrictTotalOrder(less)
    requires Sorted(a, less) && Sorted(b, less)
    requires multiset(a) == multiset(b)
    ensures a == b
  {
    if a != [] {
      assert a[0] in multiset(a);
      assert b != [];
      assert a[0] in multiset(b) && b[0] in multiset(a);
      HeadIsLeast(b, a[0], less);
      HeadIsLeast(a, b[0], less);
      assert a[0] == b[0];
      DropHead(a);
      DropHead(b);
      SortedTail(a, less);
      SortedTail(b, less);
      SortedUnique(a[1..], b[1..], less);
      SameHeadTail(a, b);
    }
  }

  lemma SameHeadTail<T>(a: seq<T>, b: seq<T>)
    requires a != [] && b != []
    requires a[0] == b[0] && a[1..] == b[1..]
    ensures a == b
  {
    assert a == [a[0]] + a[1..] && b == [b[0]] + b[1..];
  }

  lemma DropHead<T>(a: seq<T>)
    requires a != []
    ensures multiset(a[1..]) == multiset(a) - multiset{a[0]}
  {
    assert a == [a[0]] + a[1..];
  }

  lemma SortedTail<T>(a: seq<T>, less: (T, T) -> bool)
    requires a != [] && Sorted(a, less)
    ensures Sorted(a[1..], less)
  {
    forall i, j | 0 <= i < j < |a| - 1
      ensures !less(a[1..][j], a[1..][i])
    {
      assert a[1..][j] == a[j + 1] && a[1..][i] == a[i + 1];
    }
  }

  /** Sorting is determined by the multiset of the input. */
  lemma SortByMultiset<T(!new)>(s: seq<T>, t: seq<T>, less: (T, T) -> bool)
    requires StrictTotalOrder(less)
    requires multiset(s) == multiset(t)
    ensures Sort(s, less) == Sort(t, less)
  {
    SortSorted(s, less);
    SortSorted(t, less);
    SortedUnique(Sort(s, less), Sort(t, less), less);
  }

  /** Two strictly increasing sequences with the same elements are equal. */
  lemma {:induction false} StrictlySortedUnique<T(!new)>(a: seq<T>, b: seq<T>, less: (T, T) -> bool)
    requires StrictTotalOrder(less)
    requires StrictlySorted(a, less) && StrictlySorted(b, less)
    requires forall x :: x in a <==> x in b
    ensures a == b
  {
    if a != [] || b != [] {
      assert a != [] ==> a[0] in b;
      assert b != [] ==> b[0] in a;
      var k :| 0 <= k < |b| && b[k] == a[0];
      var k' :| 0 <= k' < |a| && a[k'] == b[0];
      assert a[0] == b[0];
      forall x ensures x in a[1..] <==> x in b[1..] {
        if x in a[1..] {
          var i :| 1 <= i < |a| && a[i] == x;
          assert less(a[0], x) && x != b[0] && x in b;
          var j :| 0 <= j < |b| && b[j] == x;
          assert b[1..][j - 1] == x;
        }
        if x in b[1..] {
          var i :| 1 <= i < |b| && b[i] == x;
          assert less(b[0], x) && x != a[0] && x in a;
          var j :| 0 <= j < |a| && a[j] == x;
          assert a[1..][j - 1] == x;
        }
      }
      StrictlySortedUnique(a[1..], b[1..], less);
      assert a == [a[0]] + a[1..] && b == [b[0]] + b[1..];
    }
  }

  /** A sorted sequence without repetitions is strictly increasing. */
  lemma SortedDistinctStrict<T(!new)>(s: seq<T>, less: (T, T) -> bool)
    requires StrictTotalOrder(less)
    requires Sorted(s, less) && Distinct(s)
    ensures StrictlySorted(s, less)
  {
  }

  lemma CountOfRepeated<T>(s: seq<T>, i: int, j: int)
    requires 0 <= i < j < |s|
    ensures s[i] == s[j] ==> multiset(s)[s[i]] >= 2
  {
    assert s == s[..i] + [s[i]] + s[i + 1..j] + [s[j]] + s[j + 1..];
  }

  /** Python's `sorted(list(xs))` for a set `xs`: the unique sorted sequence of its elements. */
  method SortSet<T(!new)>(xs: set<T>, less: (T, T) -> bool) returns (r: seq<T>)
    requires StrictTotalOrder(less)
    ensures Sorted(r, less) && Distinct(r)
    ensures multiset(r) == multiset(xs)
  {
    r := [];
    var rest := xs;
    while rest != {}
      invariant Sorted(r, less)
      invariant multiset(r) + multiset(rest) == multiset(xs)
      invariant rest <= xs
      decreases |rest|
    {
      var x :| x in rest;
      InsertSorted(x, r, less);
      InsertPermutes(x, r, less);
      r := Insert(x, r, less);
      rest := rest - {x};
    }
    forall i, j | 0 <= i < j < |r| ensures r[i] != r[j] {
      CountOfRepeated(r, i, j);
      assert multiset(xs)[r[i]] <= 1;
    }
  }
}
