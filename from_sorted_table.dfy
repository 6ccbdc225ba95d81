/**
 * `DecayChain.from_sorted_table` (tf_pwa/particle.py): rebuilding a decay chain from
 * a table that maps particles to the final particles below them.  The entries are
 * taken by increasing length; each becomes the core of a decay whose daughters are
 * the first selection of available particles whose entries, together, hold exactly
 * the core's final particles.  The daughters then stop being available and the core
 * becomes available in their place.
 */
module ChainFromTable {

  import opened Wrappers
  import opened Particles
  import opened PyDicts
  import opened Topology

  /** An item of the table: a particle and its entry. */
  type Item = (Particle, seq<Particle>)

  // ---------------------------------------------------------------------------
  // deep_ordered_iter

  /** `[x] + c` for every `c` of `cs`. */
  function Prefixed<T>(x: T, cs: seq<seq<T>>): (r: seq<seq<T>>)
    ensures |r| == |cs| && forall i :: 0 <= i < |cs| ==> r[i] == [x] + cs[i]
  {
    seq(|cs|, i requires 0 <= i < |cs| => [x] + cs[i])
  }

  /** `deep_ordered_iter(base, k)`: the selections of k keys, each listed in key order,
      the selections themselves in lexicographic order of positions. */
  function Selections<T>(s: seq<T>, k: nat): seq<seq<T>>
    decreases |s|
  {
    if k == 0 then [[]]
    else if s == [] then []
    else Prefixed(s[0], Selections(s[1..], k - 1)) + Selections(s[1..], k)
  }

  function Binomial(n: nat, k: nat): nat
  {
    if k == 0 then 1 else if n == 0 then 0 else Binomial(n - 1, k - 1) + Binomial(n - 1, k)
  }

  /** There are "n choose k" selections of k out of n keys. */
  lemma {:induction false} SelectionsCount<T>(s: seq<T>, k: nat)
    ensures |Selections(s, k)| == Binomial(|s|, k)
    decreases |s|
  {
    if k != 0 && s != [] {
      SelectionsCount(s[1..], k - 1);
      SelectionsCount(s[1..], k);
    }
  }

  /** `c` picks k of the keys `s`, in their order. */
  ghost predicate IsSelection<T>(s: seq<T>, k: nat, c: seq<T>)
    decreases |s|
  {
    if k == 0 then c == []
    else if s == [] then false
    else (c != [] && c[0] == s[0] && IsSelection(s[1..], k - 1, c[1..])) || IsSelection(s[1..], k, c)
  }

  /** The i-th listed selection of k keys: either the first key followed by a selection
      of k - 1 of the others, or a selection of k of the others. */
  lemma SelectionsIndex<T>(s: seq<T>, k: nat, i: nat)
    requires k != 0 && s != [] && i < |Selections(s, k)|
    ensures var n := |Selections(s[1..], k - 1)|;
            if i < n then Selections(s, k)[i] == [s[0]] + Selections(s[1..], k - 1)[i]
            else i - n < |Selections(s[1..], k)| && Selections(s, k)[i] == Selections(s[1..], k)[i - n]
  {
  }

  lemma SelectionsLength<T>(s: seq<T>, k: nat)
    requires k != 0 && s != []
    ensures |Selections(s, k)| == |Selections(s[1..], k - 1)| + |Selections(s[1..], k)|
  {
  }

  /** Every listed selection picks k keys in their order. */
  lemma {:induction false} SelectionsAt<T>(s: seq<T>, k: nat, i: nat)
    requires i < |Selections(s, k)|
    ensures IsSelection(s, k, Selections(s, k)[i])
    decreases |s|, 1
  {
    if k != 0 && s != [] {
      var n := |Selections(s[1..], k - 1)|;
      if i < n {
        TakeCase(s, k, i);
      } else {
        SkipCase(s, k, i, n);
      }
    }
  }

  lemma {:induction false} TakeCase<T>(s: seq<T>, k: nat, i: nat)
    requires k != 0 && s != [] && i < |Selections(s[1..], k - 1)|
    ensures i < |Selections(s, k)| && IsSelection(s, k, Selections(s, k)[i])
    decreases |s|, 0
  {
    SelectionsAt(s[1..], k - 1, i);
    TakeAt(s, k, i);
  }

  lemma {:induction false} SkipCase<T>(s: seq<T>, k: nat, i: nat, n: nat)
    requires k != 0 && s != [] && i < |Selections(s, k)|
    requires n == |Selections(s[1..], k - 1)| && n <= i
    ensures IsSelection(s, k, Selections(s, k)[i])
    decreases |s|, 0
  {
    SelectionsLength(s, k);
    SelectionsAt(s[1..], k, i - n);
    SkipAt(s, k, i, n);
  }

  lemma TakeAt<T>(s: seq<T>, k: nat, i: nat)
    requires k != 0 && s != [] && i < |Selections(s[1..], k - 1)|
    requires IsSelection(s[1..], k - 1, Selections(s[1..], k - 1)[i])
    ensures i < |Selections(s, k)| && IsSelection(s, k, Selections(s, k)[i])
  {
    SelectionsIndex(s, k, i);
    var c := Selections(s, k)[i];
    assert c[1..] == Selections(s[1..], k - 1)[i];
    IsSelectionTake(s, k, c);
  }

  lemma SkipAt<T>(s: seq<T>, k: nat, i: nat, n: nat)
    requires k != 0 && s != [] && i < |Selections(s, k)|
    requires n == |Selections(s[1..], k - 1)|
    requires n <= i < n + |Selections(s[1..], k)| && IsSelection(s[1..], k, Selections(s[1..], k)[i - n])
    ensures IsSelection(s, k, Selections(s, k)[i])
  {
    SelectionsIndex(s, k, i);
    IsSelectionSkip(s, k, Selections(s, k)[i]);
  }

  lemma SelectionsAre<T>(s: seq<T>, k: nat, c: seq<T>)
    requires c in Selections(s, k)
    ensures IsSelection(s, k, c)
  {
    var i :| 0 <= i < |Selections(s, k)| && Selections(s, k)[i] == c;
    SelectionsAt(s, k, i);
  }

  lemma IsSelectionTake<T>(s: seq<T>, k: nat, c: seq<T>)
    requires k != 0 && s != [] && c != [] && c[0] == s[0] && IsSelection(s[1..], k - 1, c[1..])
    ensures IsSelection(s, k, c)
  {
  }

  lemma IsSelectionSkip<T>(s: seq<T>, k: nat, c: seq<T>)
    requires k != 0 && s != [] && IsSelection(s[1..], k, c)
    ensures IsSelection(s, k, c)
  {
  }

  lemma {:induction false} IsSelectionMembers<T>(s: seq<T>, k: nat, c: seq<T>)
    requires IsSelection(s, k, c)
    ensures |c| == k
    ensures forall x :: x in c ==> x in s
    decreases |s|
  {
    if k != 0 {
      if c != [] && c[0] == s[0] && IsSelection(s[1..], k - 1, c[1..]) {
        IsSelectionMembers(s[1..], k - 1, c[1..]);
        assert c == [s[0]] + c[1..];
      } else {
        IsSelectionMembers(s[1..], k, c);
      }
    }
  }

  lemma {:induction false} IsSelectionUnique<T>(s: seq<T>, k: nat, c: seq<T>)
    requires IsSelection(s, k, c) && UniqueKeys(s)
    ensures UniqueKeys(c)
    decreases |s|
  {
    if k != 0 {
      TailUnique(s);
      if c != [] && c[0] == s[0] && IsSelection(s[1..], k - 1, c[1..]) {
        IsSelectionUnique(s[1..], k - 1, c[1..]);
        IsSelectionMembers(s[1..], k - 1, c[1..]);
        assert c == [s[0]] + c[1..];
        ConsUnique(s[0], c[1..]);
      } else {
        IsSelectionUnique(s[1..], k, c);
      }
    }
  }

  /** A selection has k elements, all of them keys. */
  lemma SelectionsMembers<T>(s: seq<T>, k: nat, c: seq<T>)
    requires c in Selections(s, k)
    ensures |c| == k
    ensures forall x :: x in c ==> x in s
  {
    SelectionsAre(s, k, c);
    IsSelectionMembers(s, k, c);
  }

  /** A selection from keys without repeats has none. */
  lemma SelectionsUnique<T>(s: seq<T>, k: nat, c: seq<T>)
    requires c in Selections(s, k) && UniqueKeys(s)
    ensures UniqueKeys(c)
  {
    SelectionsAre(s, k, c);
    IsSelectionUnique(s, k, c);
  }

  /** The tail of a sequence without repeats has none, and lacks the head. */
  lemma TailUnique<T>(s: seq<T>)
    requires s != [] && UniqueKeys(s)
    ensures UniqueKeys(s[1..]) && s[0] !in s[1..]
  {
    forall m | 0 <= m < |s| - 1 ensures s[1..][m] != s[0] {
      assert s[1..][m] == s[m + 1];
    }
  }

  lemma ConsUnique<T>(x: T, c: seq<T>)
    requires UniqueKeys(c) && x !in c
    ensures UniqueKeys([x] + c)
  {
    var d := [x] + c;
    forall i, j | 0 <= i < j < |d| ensures d[i] != d[j] {
      assert d[j] == c[j - 1];
      if i > 0 {
        assert d[i] == c[i - 1];
      }
    }
  }

  // ---------------------------------------------------------------------------
  // deep_search

  /** `sum_list([base[j] for j in c])`: the entries of the selected keys, one after another. */
  function Joined(base: Table, c: seq<Particle>): seq<Particle>
    requires forall x :: x in c ==> x in base.vals
  {
    if c == [] then [] else Joined(base, c[..|c| - 1]) + base.vals[c[|c| - 1]]
  }

  /** `sorted(check) == sorted(idx[1])`: the selected entries, together, are the entry `v`. */
  predicate Matches(base: Table, c: seq<Particle>, v: seq<Particle>)
  {
    (forall x :: x in c ==> x in base.vals) && SortParticles(Joined(base, c)) == SortParticles(v)
  }

  /** Comparing sorted lists is comparing multisets. */
  lemma SortedEqIff(a: seq<Particle>, b: seq<Particle>)
    ensures SortParticles(a) == SortParticles(b) <==> multiset(a) == multiset(b)
  {
    ParticleOrder();
    if multiset(a) == multiset(b) {
      Ordering.SortByMultiset(a, b, ParticleLess);
    }
    Ordering.SortPermutes(a, ParticleLess);
    Ordering.SortPermutes(b, ParticleLess);
  }

  /** The first element of `cs` that passes `ok`. */
  function FirstMatch<T>(cs: seq<T>, ok: T -> bool): Option<T>
  {
    if cs == [] then None
    else if ok(cs[0]) then Some(cs[0])
    else FirstMatch(cs[1..], ok)
  }

  lemma {:induction false} FirstMatchSpec<T>(cs: seq<T>, ok: T -> bool)
    ensures FirstMatch(cs, ok).Some? ==> FirstMatch(cs, ok).value in cs && ok(FirstMatch(cs, ok).value)
    ensures FirstMatch(cs, ok).None? <==> forall c :: c in cs ==> !ok(c)
  {
    if cs != [] && !ok(cs[0]) {
      FirstMatchSpec(cs[1..], ok);
      assert cs == [cs[0]] + cs[1..];
    }
  }

  /** The selections of k keys, then of k + 1, and so on up to all keys: the first that
      passes `ok`, or nothing. */
  function SearchFrom<T>(keys: seq<T>, ok: seq<T> -> bool, k: nat): Option<seq<T>>
    decreases |keys| + 1 - k
  {
    if k > |keys| then None
    else match FirstMatch(Selections(keys, k), ok)
      case Some(c) => Some(c)
      case None => SearchFrom(keys, ok, k + 1)
  }

  /** No selection of `lo` to `hi - 1` keys passes `ok`. */
  ghost predicate NoneBetween<T>(keys: seq<T>, ok: seq<T> -> bool, lo: nat, hi: nat)
  {
    forall m, c :: lo <= m < hi && c in Selections(keys, m) ==> !ok(c)
  }

  /** What the search finds is a selection of at least `k` keys that passes `ok`, and no
      smaller selection passes. */
  lemma {:induction false} SearchFound<T>(keys: seq<T>, ok: seq<T> -> bool, k: nat)
    requires SearchFrom(keys, ok, k).Some?
    ensures var c := SearchFrom(keys, ok, k).value;
              && k <= |c| <= |keys|
              && c in Selections(keys, |c|)
              && ok(c)
              && NoneBetween(keys, ok, k, |c|)
    decreases |keys| + 1 - k
  {
    var cs := Selections(keys, k);
    FirstMatchSpec(cs, ok);
    if FirstMatch(cs, ok).Some? {
      var c := FirstMatch(cs, ok).value;
      SelectionsMembers(keys, k, c);
      assert SearchFrom(keys, ok, k) == Some(c);
    } else {
      assert SearchFrom(keys, ok, k) == SearchFrom(keys, ok, k + 1);
      SearchFound(keys, ok, k + 1);
      var c := SearchFrom(keys, ok, k).value;
      forall m, c' | k <= m < |c| && c' in Selections(keys, m) ensures !ok(c') {
        if m == k {
          assert c' in cs;
        }
      }
    }
  }

  /** The search finds nothing exactly when no selection of `k` or more keys passes. */
  lemma {:induction false} SearchNone<T>(keys: seq<T>, ok: seq<T> -> bool, k: nat)
    ensures SearchFrom(keys, ok, k).None? <==> NoneBetween(keys, ok, k, |keys| + 1)
    decreases |keys| + 1 - k
  {
    if k <= |keys| {
      var cs := Selections(keys, k);
      FirstMatchSpec(cs, ok);
      if FirstMatch(cs, ok).Some? {
        var c := FirstMatch(cs, ok).value;
        assert SearchFrom(keys, ok, k) == Some(c);
        assert c in Selections(keys, k) && ok(c);
      } else {
        assert SearchFrom(keys, ok, k) == SearchFrom(keys, ok, k + 1);
        SearchNone(keys, ok, k + 1);
        if NoneBetween(keys, ok, k + 1, |keys| + 1) {
          forall m, c' | k <= m < |keys| + 1 && c' in Selections(keys, m) ensures !ok(c') {
            if m == k {
              assert c' in cs;
            }
          }
        }
      }
    }
  }

  /** The test `deep_search` applies to a selection. */
  function MatchTest(base: Table, v: seq<Particle>): seq<Particle> -> bool
  {
    c => Matches(base, c, v)
  }

  /** `deep_search(idx, base)` for the entry `v` of `idx`. */
  function Search(base: Table, v: seq<Particle>): Option<seq<Particle>>
  {
    SearchFrom(base.keys, MatchTest(base, v), 2)
  }

  /** `deep_search(idx, base)`: `None` where it raises "not found in searching". */
  method DeepSearch(base: Table, v: seq<Particle>) returns (r: Option<seq<Particle>>)
    ensures r == Search(base, v)
  {
    r := SearchLoop(base.keys, MatchTest(base, v));
  }

  /** The loop over selection sizes from 2 up to all keys, returning the first selection
      that passes `ok`. */
  method SearchLoop<T>(keys: seq<T>, ok: seq<T> -> bool) returns (r: Option<seq<T>>)
    ensures r == SearchFrom(keys, ok, 2)
  {
    var step := 2;
    var maxStep := |keys|;
    while step <= maxStep
      invariant 2 <= step
      invariant SearchFrom(keys, ok, 2) == SearchFrom(keys, ok, step)
      decreases maxStep + 1 - step
    {
      var found := FirstOf(Selections(keys, step), ok);
      if found.Some? {
        return found;
      }
      step := step + 1;
    }
    return None;
  }

  /** The inner loop over the selections of one size. */
  method FirstOf<T>(cs: seq<T>, ok: T -> bool) returns (r: Option<T>)
    ensures r == FirstMatch(cs, ok)
  {
    for i := 0 to |cs|
      invariant FirstMatch(cs, ok) == FirstMatch(cs[i..], ok)
    {
      if ok(cs[i]) {
        return Some(cs[i]);
      }
      assert cs[i..][1..] == cs[i + 1..];
    }
    assert cs[|cs|..] == [];
    return None;
  }

  // ---------------------------------------------------------------------------
  // The reconstruction loop

  /** `for i in found: del base_dict[i]` */
  function RemoveAll(b: Table, xs: seq<Particle>): (r: Table)
    ensures Valid(b) ==> Valid(r)
    ensures forall k :: k in r.vals <==> k in b.vals && k !in xs
    ensures forall k :: k in r.vals ==> r.vals[k] == b.vals[k]
  {
    if xs == [] then b
    else
      var r := Remove(RemoveAll(b, xs[..|xs| - 1]), xs[|xs| - 1]);
      assert forall k :: k in xs <==> k in xs[..|xs| - 1] || k == xs[|xs| - 1] by {
        assert xs == xs[..|xs| - 1] + [xs[|xs| - 1]];
      }
      r
  }

  /** One entry `j` of the loop: the daughters of `j`'s particle are searched for among
      the available particles, the decay is recorded, and the particle becomes
      available in place of its daughters. */
  function Step(ret: seq<Decay>, b: Table, j: Item): Result<(seq<Decay>, Table)>
  {
    match Search(b, j.1)
    case None => Err(SearchError("not found in searching"))
    case Some(found) => Ok((ret + [Decay(j.0, found)], Put(RemoveAll(b, found), j.0, j.1)))
  }

  /** The state of the loop: the decays found so far and the available particles. */
  type State = (seq<Decay>, Table)

  /** `step` applied to each of `xs` in turn from `s`, stopping at the first error. */
  function Fold<S, X>(xs: seq<X>, s: S, step: (S, X) -> Result<S>): Result<S>
  {
    if xs == [] then Ok(s)
    else match Fold(xs[..|xs| - 1], s, step)
      case Err(e) => Err(e)
      case Ok(acc) => step(acc, xs[|xs| - 1])
  }

  lemma {:induction false} FoldErrStays<S, X>(xs: seq<X>, more: seq<X>, s: S, step: (S, X) -> Result<S>)
    requires Fold(xs, s, step).Err?
    ensures Fold(xs + more, s, step) == Fold(xs, s, step)
    decreases |more|
  {
    if more == [] {
      assert xs + more == xs;
    } else {
      var m := more[..|more| - 1];
      FoldErrStays(xs, m, s, step);
      assert (xs + more)[..|xs + more| - 1] == xs + m;
    }
  }

  /** Extending the items by the next element of `slot` is one more step. */
  lemma FoldStep<S, X>(done: seq<X>, slot: seq<X>, m: nat, s: S, step: (S, X) -> Result<S>)
    requires m < |slot|
    ensures Fold(done + slot[..m + 1], s, step) ==
              match Fold(done + slot[..m], s, step)
              case Err(e) => Err(e)
              case Ok(acc) => step(acc, slot[m])
  {
    assert (done + slot[..m + 1])[..|done + slot[..m + 1]| - 1] == done + slot[..m];
  }

  /** A failure within `slot` is the failure of the whole slot. */
  lemma FoldSlotErr<S, X>(done: seq<X>, slot: seq<X>, m: nat, s: S, step: (S, X) -> Result<S>)
    requires m < |slot| && Fold(done + slot[..m + 1], s, step).Err?
    ensures Fold(done + slot, s, step) == Fold(done + slot[..m + 1], s, step)
  {
    SplitAfter(done, slot, m + 1);
    FoldErrStays(done + slot[..m + 1], slot[m + 1..], s, step);
  }

  lemma SplitAfter<X>(done: seq<X>, slot: seq<X>, n: nat)
    requires n <= |slot|
    ensures done + slot[..n] + slot[n..] == done + slot
  {
    assert slot[..n] + slot[n..] == slot;
  }

  /** The loop body as a step function. */
  function Next(): (State, Item) -> Result<State>
  {
    (acc: State, j: Item) => Step(acc.0, acc.1, j)
  }

  /** The loop over the entries `items`, from the available particles `b`. */
  function Build(items: seq<Item>, b: Table): Result<State>
  {
    Fold(items, ([], b), Next())
  }

  /** `dict(items)`. */
  function DictOf(items: seq<Item>): (r: Table)
    ensures Valid(r)
  {
    if items == [] then Empty()
    else Put(DictOf(items[..|items| - 1]), items[|items| - 1].0, items[|items| - 1].1)
  }

  // ---------------------------------------------------------------------------
  // from_sorted_table

  /** The longest entry, 0 when there is none. */
  ghost function MaxLen(items: seq<Item>): nat
  {
    if items == [] then 0
    else
      var m := MaxLen(items[..|items| - 1]);
      var l := |items[|items| - 1].1|;
      if l > m then l else m
  }

  lemma {:induction false} MaxLenFacts(items: seq<Item>)
    ensures forall i :: 0 <= i < |items| ==> |items[i].1| <= MaxLen(items)
    ensures items != [] ==> exists i :: 0 <= i < |items| && |items[i].1| == MaxLen(items)
  {
    if items != [] {
      var p := items[..|items| - 1];
      MaxLenFacts(p);
      forall i | 0 <= i < |p| ensures items[i] == p[i] { }
      if |items[|items| - 1].1| <= MaxLen(p) && p != [] {
        var i :| 0 <= i < |p| && |p[i].1| == MaxLen(p);
        assert items[i] == p[i];
      }
    }
  }

  /** The entries of lengths `lo` to `hi - 1`, shortest first, in table order within a
      length: the slots `split_len` makes for those lengths, one after another. */
  ghost function Pending<K, V>(items: seq<(K, seq<V>)>, lo: nat, hi: nat): seq<(K, seq<V>)>
  {
    if hi <= lo then [] else Pending(items, lo, hi - 1) + WithLength(items, hi - 1)
  }

  lemma PendingFacts<K, V>(items: seq<(K, seq<V>)>, lo: nat, hi: nat)
    ensures forall x :: x in Pending(items, lo, hi) <==> x in items && lo <= |x.1| < hi
    ensures forall i, j :: 0 <= i < j < |Pending(items, lo, hi)| ==>
              |Pending(items, lo, hi)[i].1| <= |Pending(items, lo, hi)[j].1|
  {
    forall x ensures x in Pending(items, lo, hi) <==> x in items && lo <= |x.1| < hi {
      PendingMember(items, lo, hi, x);
    }
    PendingSorted(items, lo, hi);
    assert ByLength(Pending(items, lo, hi));
  }

  /** The pending entries are those of the table with lengths from `lo` to `hi - 1`. */
  lemma {:induction false} PendingMember<K, V>(items: seq<(K, seq<V>)>, lo: nat, hi: nat, x: (K, seq<V>))
    ensures x in Pending(items, lo, hi) <==> x in items && lo <= |x.1| < hi
  {
    if lo < hi {
      PendingMember(items, lo, hi - 1, x);
      WithLengthMember(items, hi - 1, x);
    }
  }

  /** The pending entries come shortest first. */
  lemma {:induction false} PendingSorted<K, V>(items: seq<(K, seq<V>)>, lo: nat, hi: nat)
    ensures ByLength(Pending(items, lo, hi))
  {
    if lo < hi {
      var p := Pending(items, lo, hi - 1);
      var w := WithLength(items, hi - 1);
      PendingSorted(items, lo, hi - 1);
      PendingSplit(items, lo, hi);
      forall x | x in p ensures |x.1| < hi - 1 {
        PendingMember(items, lo, hi - 1, x);
      }
      forall x | x in w ensures |x.1| == hi - 1 {
        WithLengthMember(items, hi - 1, x);
      }
      AppendByLength(p, w, hi - 1);
    }
  }

  /** `Pending(items, lo, hi)` is `Pending(items, lo, hi - 1)` followed by the last slot. */
  lemma PendingSplit<K, V>(items: seq<(K, seq<V>)>, lo: nat, hi: nat)
    requires lo < hi
    ensures Pending(items, lo, hi) == Pending(items, lo, hi - 1) + WithLength(items, hi - 1)
  {
  }

  /** The entries of `q` come shortest first. */
  ghost predicate ByLength<K, V>(q: seq<(K, seq<V>)>)
  {
    forall i, j :: 0 <= i < j < |q| ==> |q[i].1| <= |q[j].1|
  }

  /** Entries shorter than n, shortest first, then entries of length n: shortest first. */
  lemma AppendByLength<K, V>(p: seq<(K, seq<V>)>, w: seq<(K, seq<V>)>, n: nat)
    requires ByLength(p)
    requires forall x :: x in p ==> |x.1| < n
    requires forall x :: x in w ==> |x.1| == n
    ensures ByLength(p + w)
  {
    var q := p + w;
    forall i, j | 0 <= i < j < |q| ensures |q[i].1| <= |q[j].1| {
      if j < |p| {
        assert q[i] == p[i] && q[j] == p[j];
      } else {
        assert q[j] == w[j - |p|] && q[j] in w;
        if i < |p| {
          assert q[i] == p[i] && q[i] in p;
        } else {
          assert q[i] == w[i - |p|] && q[i] in w;
        }
      }
    }
  }

  /** The decays `from_sorted_table(t)` hands to `DecayChain`, or what it raises first:
      a ValueError for an empty table (`max` of nothing), an IndexError when every
      entry is empty, a TypeError when no entry has length 1 (`dict(None)`), and the
      search's exception when some entry has no daughters to match. */
  ghost function TableDecays(t: Table): Result<seq<Decay>>
    requires Valid(t)
  {
    var items := Items(t);
    if items == [] then Err(ValueError("max() arg is an empty sequence"))
    else if MaxLen(items) < 1 then Err(IndexError("list index out of range"))
    else if WithLength(items, 1) == [] then Err(TypeError("'NoneType' object is not iterable"))
    else match Build(Pending(items, 2, MaxLen(items) + 1), DictOf(WithLength(items, 1)))
      case Err(e) => Err(e)
      case Ok(acc) => Ok(acc.0)
  }

  /** The slots `split_len` returns are those of `Pending` and `MaxLen`. */
  lemma SplitLenSize(t: Table, s: seq<Option<seq<Item>>>)
    requires Valid(t) && t.keys != [] && |s| > 0
    requires forall k :: k in t.vals ==> |t.vals[k]| < |s|
    requires exists k :: k in t.vals && |t.vals[k]| == |s| - 1
    ensures |s| == MaxLen(Items(t)) + 1
  {
    var items := Items(t);
    MaxLenFacts(items);
    var i :| 0 <= i < |items| && |items[i].1| == MaxLen(items);
    assert items[i].1 == t.vals[t.keys[i]];
    var k :| k in t.vals && |t.vals[k]| == |s| - 1;
    var m :| 0 <= m < |t.keys| && t.keys[m] == k;
    assert items[m].1 == t.vals[k];
  }

  /** `DecayChain.from_sorted_table(t)`. */
  method FromSortedTable(t: Table) returns (r: Result<DecayChain>)
    requires Valid(t)
    ensures r.Err? <==> TableDecays(t).Err? || |TopSet(TableDecays(t).value)| != 1
    ensures TableDecays(t).Err? ==> r == Err(TableDecays(t).error)
    ensures TableDecays(t).Ok? && r.Err? ==> r.error.AssertionError?
    ensures r.Ok? ==> r.value.chain == TableDecays(t).value && ValidChain(r.value)
  {
    ghost var items := Items(t);
    var split := SplitLen(t);
    if split.Err? {
      return Err(ValueError("max() arg is an empty sequence"));
    }
    var s := split.value;
    SplitLenSize(t, s);
    if |s| < 2 {
      return Err(IndexError("list index out of range"));
    }
    assert s[1] == Slot(items, 1);
    if s[1].None? {
      return Err(TypeError("'NoneType' object is not iterable"));
    }
    var built := AddSlots(s, DictOf(s[1].value), items);
    if built.Err? {
      return Err(built.error);
    }
    r := NewDecayChain(built.value.0);
  }

  /** `for i in range(2, len(s_dict)): ...`: every slot from length 2 up, in turn. */
  method AddSlots(s: seq<Option<seq<Item>>>, base0: Table, ghost items: seq<Item>) returns (r: Result<State>)
    requires |s| >= 2
    requires forall n :: 2 <= n < |s| ==> s[n] == Slot(items, n)
    ensures r == Build(Pending(items, 2, |s|), base0)
  {
    var ret: seq<Decay> := [];
    var base := base0;
    for n := 2 to |s|
      invariant Build(Pending(items, 2, n), base0) == Ok((ret, base))
    {
      ghost var done := Pending(items, 2, n);
      PendingSplit(items, 2, n + 1);
      if s[n].Some? {
        var next := AddSlot(ret, base, s[n].value, done, base0);
        if next.Err? {
          BuildErrGrows(items, n + 1, |s|, base0);
          return next;
        }
        ret, base := next.value.0, next.value.1;
      } else {
        assert done + [] == done;
      }
    }
    r := Ok((ret, base));
  }

  /** Once the loop fails, the later slots do not change the error. */
  lemma BuildErrGrows(items: seq<Item>, lo: nat, hi: nat, base0: Table)
    requires 2 <= lo <= hi && Build(Pending(items, 2, lo), base0).Err?
    ensures Build(Pending(items, 2, hi), base0) == Build(Pending(items, 2, lo), base0)
  {
    var a := Pending(items, 2, lo);
    var b := Pending(items, 2, hi);
    PendingGrows(items, lo, hi);
    assert b == a + b[|a|..];
    FoldErrStays(a, b[|a|..], ([], base0), Next());
  }

  /** `for j in s_dict_i: ...`: the loop body for every entry of one slot. */
  method AddSlot(ret: seq<Decay>, base: Table, slot: seq<Item>, ghost done: seq<Item>, ghost base0: Table)
    returns (r: Result<(seq<Decay>, Table)>)
    requires Build(done, base0) == Ok((ret, base))
    ensures r == Build(done + slot, base0)
  {
    var ret', base' := ret, base;
    assert done + slot[..0] == done;
    for m := 0 to |slot|
      invariant Build(done + slot[..m], base0) == Ok((ret', base'))
    {
      var j := slot[m];
      FoldStep(done, slot, m, ([], base0), Next());
      var found := DeepSearch(base', j.1);
      if found.None? {
        FoldSlotErr(done, slot, m, ([], base0), Next());
        return Err(SearchError("not found in searching"));
      }
      ret' := ret' + [Decay(j.0, found.value)];
      base' := DeleteAll(base', found.value);
      base' := Put(base', j.0, j.1);
    }
    assert slot[..|slot|] == slot;
    r := Ok((ret', base'));
  }

  /** `for i in found: del base_dict[i]` */
  method DeleteAll(b: Table, xs: seq<Particle>) returns (r: Table)
    ensures r == RemoveAll(b, xs)
  {
    r := b;
    for i := 0 to |xs|
      invariant r == RemoveAll(b, xs[..i])
    {
      assert xs[..i + 1][..i] == xs[..i];
      r := Remove(r, xs[i]);
    }
    assert xs[..|xs|] == xs;
  }

  lemma {:induction false} PendingGrows(items: seq<Item>, lo: nat, hi: nat)
    requires 2 <= lo <= hi
    ensures Pending(items, 2, lo) <= Pending(items, 2, hi)
    decreases hi - lo
  {
    if lo < hi {
      PendingGrows(items, lo, hi - 1);
    }
  }

  // ---------------------------------------------------------------------------
  // What the rebuilt decays satisfy

  /** Every available particle's entry is its entry in the table. */
  ghost predicate TableAgrees(b: Table, t: Table)
  {
    forall k :: k in b.vals ==> k in t.vals && b.vals[k] == t.vals[k]
  }

  /** A decay read off the table: its particle has an entry, its two or more daughters
      (none twice) have entries, and the daughters' entries together hold exactly the
      particle's final particles. */
  ghost predicate DecayFits(t: Table, d: Decay)
  {
    && d.core in t.vals
    && |d.outs| >= 2
    && UniqueKeys(d.outs)
    && (forall x :: x in d.outs ==> x in t.vals)
    && multiset(Joined(t, d.outs)) == multiset(t.vals[d.core])
  }

  /** An item of the table. */
  ghost predicate ItemOf(t: Table, j: Item)
  {
    j.0 in t.vals && t.vals[j.0] == j.1
  }

  lemma {:induction false} DictOfAgrees(items: seq<Item>, t: Table)
    requires forall x :: x in items ==> ItemOf(t, x)
    ensures TableAgrees(DictOf(items), t)
  {
    if items != [] {
      var p := items[..|items| - 1];
      forall x | x in p ensures ItemOf(t, x) {
        assert x in items;
      }
      DictOfAgrees(p, t);
      assert ItemOf(t, items[|items| - 1]);
    }
  }

  lemma {:induction false} JoinedAgrees(b: Table, t: Table, c: seq<Particle>)
    requires TableAgrees(b, t) && forall x :: x in c ==> x in b.vals
    ensures forall x :: x in c ==> x in t.vals
    ensures Joined(b, c) == Joined(t, c)
  {
    if c != [] {
      var p := c[..|c| - 1];
      forall x | x in p ensures x in b.vals {
        assert x in c;
      }
      JoinedAgrees(b, t, p);
    }
  }

  /** One step of the loop on an item of the table records a decay read off the table
      and keeps the available entries those of the table. */
  lemma StepFits(ret: seq<Decay>, b: Table, j: Item, t: Table)
    requires Valid(b) && TableAgrees(b, t) && ItemOf(t, j)
    requires Step(ret, b, j).Ok?
    ensures var r := Step(ret, b, j).value;
              && |r.0| == |ret| + 1 && r.0[..|ret|] == ret && r.0[|ret|].core == j.0
              && DecayFits(t, r.0[|ret|])
              && Valid(r.1) && TableAgrees(r.1, t)
  {
    var ok := MatchTest(b, j.1);
    SearchFound(b.keys, ok, 2);
    var found := Search(b, j.1).value;
    assert ok(found);
    assert Matches(b, found, j.1);
    SelectionsMembers(b.keys, |found|, found);
    SelectionsUnique(b.keys, |found|, found);
    JoinedAgrees(b, t, found);
    SortedEqIff(Joined(b, found), j.1);
    var r := Step(ret, b, j).value;
    assert r.0 == ret + [Decay(j.0, found)];
  }

  /** The loop over items of the table records one decay per item, in order, each read
      off the table. */
  lemma {:induction false} BuildFits(items: seq<Item>, b: Table, t: Table)
    requires Valid(b) && TableAgrees(b, t)
    requires forall x :: x in items ==> ItemOf(t, x)
    requires Build(items, b).Ok?
    ensures var r := Build(items, b).value;
              && |r.0| == |items|
              && (forall i :: 0 <= i < |items| ==> r.0[i].core == items[i].0 && DecayFits(t, r.0[i]))
              && Valid(r.1) && TableAgrees(r.1, t)
  {
    if items != [] {
      var p := items[..|items| - 1];
      var j := items[|items| - 1];
      forall x | x in p ensures ItemOf(t, x) {
        assert x in items;
      }
      assert Build(p, b).Ok?;
      BuildFits(p, b, t);
      var acc := Build(p, b).value;
      assert Build(items, b) == Step(acc.0, acc.1, j);
      StepFits(acc.0, acc.1, j, t);
      var r := Build(items, b).value;
      var last := r.0[|acc.0|];
      assert r.0 == acc.0 + [last];
      assert items == p + [j];
      forall i | 0 <= i < |items| ensures r.0[i].core == items[i].0 && DecayFits(t, r.0[i]) {
        if i < |p| {
          assert r.0[i] == acc.0[i] && items[i] == p[i];
        } else {
          assert r.0[i] == last && items[i] == j;
        }
      }
    }
  }

  /** What `from_sorted_table` rebuilds from a table: one decay for every particle whose
      entry has two or more final particles, by increasing entry length, each read off
      the table. */
  lemma TableDecaysFit(t: Table)
    requires Valid(t) && TableDecays(t).Ok?
    ensures var ret := TableDecays(t).value;
              && (forall i :: 0 <= i < |ret| ==> DecayFits(t, ret[i]) && |t.vals[ret[i].core]| >= 2)
              && (forall i, j :: 0 <= i < j < |ret| ==> |t.vals[ret[i].core]| <= |t.vals[ret[j].core]|)
              && (forall k :: k in t.vals && |t.vals[k]| >= 2 <==> exists i :: 0 <= i < |ret| && ret[i].core == k)
  {
    var items := Items(t);
    var pend := Pending(items, 2, MaxLen(items) + 1);
    var b := DictOf(WithLength(items, 1));
    TableDecaysBuild(t, pend, b);
    InitialAgrees(t, b);
    PendingItems(t, pend);
    BuildFits(pend, b, t);
    CoresOfPending(t, pend, Build(pend, b).value.0);
  }

  /** The decays of a table are those of the loop over the pending entries. */
  lemma TableDecaysBuild(t: Table, pend: seq<Item>, b: Table)
    requires Valid(t) && TableDecays(t).Ok?
    requires pend == Pending(Items(t), 2, MaxLen(Items(t)) + 1) && b == DictOf(WithLength(Items(t), 1))
    ensures Build(pend, b).Ok? && TableDecays(t).value == Build(pend, b).value.0
  {
  }

  /** The particles of length-1 entries start out available, with their table entries. */
  lemma InitialAgrees(t: Table, b: Table)
    requires Valid(t) && b == DictOf(WithLength(Items(t), 1))
    ensures Valid(b) && TableAgrees(b, t)
  {
    var ones := WithLength(Items(t), 1);
    forall x | x in ones ensures ItemOf(t, x) {
      WithLengthMember(Items(t), 1, x);
    }
    DictOfAgrees(ones, t);
  }

  /** Every pending entry is an entry of the table. */
  lemma PendingItems(t: Table, pend: seq<Item>)
    requires Valid(t) && pend == Pending(Items(t), 2, MaxLen(Items(t)) + 1)
    ensures forall x :: x in pend ==> ItemOf(t, x)
  {
    PendingOfTable(t, pend);
  }

  /** Decays whose cores are, in order, the particles of the pending entries. */
  lemma CoresOfPending(t: Table, pend: seq<Item>, ret: seq<Decay>)
    requires Valid(t) && pend == Pending(Items(t), 2, MaxLen(Items(t)) + 1)
    requires |ret| == |pend| && forall i :: 0 <= i < |pend| ==> ret[i].core == pend[i].0
    ensures forall i :: 0 <= i < |ret| ==> ret[i].core in t.vals && |t.vals[ret[i].core]| >= 2
    ensures forall i, j :: 0 <= i < j < |ret| ==> |t.vals[ret[i].core]| <= |t.vals[ret[j].core]|
    ensures forall k :: k in t.vals && |t.vals[k]| >= 2 <==> exists i :: 0 <= i < |ret| && ret[i].core == k
  {
    PendingOfTable(t, pend);
    CoresOf(t, pend, ret);
  }

  /** The pending entries of a table are its entries of length two or more, shortest first. */
  lemma PendingOfTable(t: Table, pend: seq<Item>)
    requires Valid(t) && pend == Pending(Items(t), 2, MaxLen(Items(t)) + 1)
    ensures forall x :: x in pend <==> ItemOf(t, x) && |x.1| >= 2
    ensures ByLength(pend)
  {
    forall x ensures x in pend <==> ItemOf(t, x) && |x.1| >= 2 {
      PendingEntry(t, x);
    }
    PendingSorted(Items(t), 2, MaxLen(Items(t)) + 1);
  }

  lemma PendingEntry(t: Table, x: Item)
    requires Valid(t)
    ensures x in Pending(Items(t), 2, MaxLen(Items(t)) + 1) <==> ItemOf(t, x) && |x.1| >= 2
  {
    var items := Items(t);
    PendingMember(items, 2, MaxLen(items) + 1, x);
    ItemOfIff(t, x);
    if x in items {
      MaxLenFacts(items);
    }
  }

  /** The items of a table are its entries. */
  lemma ItemOfIff(t: Table, x: Item)
    requires Valid(t)
    ensures x in Items(t) <==> ItemOf(t, x)
  {
    if ItemOf(t, x) {
      var m :| 0 <= m < |t.keys| && t.keys[m] == x.0;
      assert Items(t)[m] == x;
    }
  }

  lemma CoresOf(t: Table, pend: seq<Item>, ret: seq<Decay>)
    requires forall x :: x in pend <==> ItemOf(t, x) && |x.1| >= 2
    requires ByLength(pend)
    requires |ret| == |pend| && forall i :: 0 <= i < |pend| ==> ret[i].core == pend[i].0
    ensures forall i :: 0 <= i < |ret| ==> ret[i].core in t.vals && |t.vals[ret[i].core]| >= 2
    ensures forall i, j :: 0 <= i < j < |ret| ==> |t.vals[ret[i].core]| <= |t.vals[ret[j].core]|
    ensures forall k :: k in t.vals && |t.vals[k]| >= 2 <==> exists i :: 0 <= i < |ret| && ret[i].core == k
  {
    forall i | 0 <= i < |ret| ensures ret[i].core in t.vals && |t.vals[ret[i].core]| >= 2 {
      assert pend[i] in pend;
    }
    forall i, j | 0 <= i < j < |ret| ensures |t.vals[ret[i].core]| <= |t.vals[ret[j].core]| {
      assert pend[i] in pend && pend[j] in pend;
    }
    forall k | k in t.vals && |t.vals[k]| >= 2 ensures exists i :: 0 <= i < |ret| && ret[i].core == k {
      assert ItemOf(t, (k, t.vals[k]));
      var i :| 0 <= i < |pend| && pend[i] == (k, t.vals[k]);
      assert ret[i].core == k;
    }
  }
}
