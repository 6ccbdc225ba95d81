/**
 * Particle objects with their decay lists, `cross_combine` and
 * `BaseParticle.chain_decay` (tf_pwa/particle.py).
 */
module ParticleGraph {

  import opened Wrappers
  import opened Particles
  import opened MixedRadix
  import Ordering

  // ---------------------------------------------------------------------------
  // Particle objects

  /** `tuple(range(-J, J + 1))`, the default spin projections. */
  function SpinRange(J: nat): (r: seq<int>)
    ensures |r| == 2 * J + 1
    ensures forall i :: 0 <= i < |r| ==> r[i] == i - J
  {
    seq(2 * J + 1, i => i - J)
  }

  /** `x in decays` for a list of decays, with `BaseDecay.__eq__`. */
  predicate ContainsDecay(ds: seq<Decay>, d: Decay)
  {
    exists i :: 0 <= i < |ds| && DecayEq(ds[i], d)
  }

  /** No two entries of the list are equal decays. */
  ghost predicate NoEqualDecays(ds: seq<Decay>)
  {
    forall i, j :: 0 <= i < j < |ds| ==> !DecayEq(ds[i], ds[j])
  }

  /** Index of the first entry equal to `d`, as `list.remove` looks it up. */
  function FirstEqual(ds: seq<Decay>, d: Decay): (r: Option<nat>)
    ensures r.Some? ==> r.value < |ds|
  {
    if ds == [] then None
    else if DecayEq(ds[0], d) then Some(0)
    else
      match FirstEqual(ds[1..], d)
      case None => None
      case Some(k) => Some(k + 1)
  }

  /** `FirstEqual` finds the first equal entry, and finds none exactly when the decay is
      not in the list. */
  lemma {:induction false} FirstEqualSpec(ds: seq<Decay>, d: Decay)
    ensures var r := FirstEqual(ds, d);
      && (r.Some? ==> r.value < |ds| && DecayEq(ds[r.value], d))
      && (r.Some? ==> forall i :: 0 <= i < r.value ==> !DecayEq(ds[i], d))
      && (r.None? <==> !ContainsDecay(ds, d))
  {
    if ds != [] && !DecayEq(ds[0], d) {
      FirstEqualSpec(ds[1..], d);
      var r := FirstEqual(ds[1..], d);
      if r.Some? {
        assert forall i :: 1 <= i <= r.value ==> ds[i] == ds[1..][i - 1];
      }
    }
  }

  /**
   * `BaseParticle`: a particle object.  Its identity, spin, parity and spin
   * projections are fixed at construction; `decay` (the decays it is the core of)
   * and `creators` (the decays that produce it) grow as decays are registered.
   */
  class BaseParticle {
    const name: string
    const id: int
    const J: nat
    const P: Option<int>
    const spins: seq<int>
    var decay: seq<Decay>
    var creators: seq<Decay>

    /** The (name, id) pair that `__eq__`, `__hash__` and `__lt__` use. */
    function Key(): Particle
    {
      Particle(name, id)
    }

    /** `add_decay` keeps the decay list free of equal decays. */
    ghost predicate Valid()
      reads this
    {
      NoEqualDecays(decay)
    }

    /** `BaseParticle(name, J, P, spins, id_=...)`: the name is parsed by `set_name`. */
    constructor (fullName: string, j: nat, p: Option<int>, spinList: Option<seq<int>>, explicitId: Option<int>)
      ensures Key() == SetName(fullName, explicitId)
      ensures J == j && P == p
      ensures spins == if spinList.Some? then spinList.value else SpinRange(j)
      ensures decay == [] && creators == []
      ensures Valid()
    {
      var key := SetName(fullName, explicitId);
      name, id := key.name, key.id;
      J, P := j, p;
      spins := if spinList.Some? then spinList.value else SpinRange(j);
      decay, creators := [], [];
    }

    /** `add_decay(d)`: appends `d` unless an equal decay is already listed. */
    method AddDecay(d: Decay)
      requires Valid()
      modifies this
      ensures Valid()
      ensures decay == if ContainsDecay(old(decay), d) then old(decay) else old(decay) + [d]
      ensures creators == old(creators)
    {
      var i := 0;
      var found := false;
      while i < |decay| && !found
        invariant 0 <= i <= |decay|
        invariant found <==> exists k :: 0 <= k < i && DecayEq(decay[k], d)
      {
        found := DecayEq(decay[i], d);
        i := i + 1;
      }
      if !found {
        assert !ContainsDecay(decay, d);
        decay := decay + [d];
      }
    }

    /** `remove_decay(d)`: `list.remove` drops the first decay equal to `d`, or raises
        ValueError when there is none. */
    method RemoveDecay(d: Decay) returns (r: Result<()>)
      requires Valid()
      modifies this
      ensures Valid()
      ensures r.Err? <==> !ContainsDecay(old(decay), d)
      ensures match FirstEqual(old(decay), d)
        case None => r.Err? && decay == old(decay)
        case Some(k) => r.Ok? && decay == old(decay)[..k] + old(decay)[k + 1..]
      ensures creators == old(creators)
    {
      FirstEqualSpec(decay, d);
      match FirstEqual(decay, d)
      case None =>
        r := Err(ValueError("list.remove(x): x not in list"));
      case Some(k) =>
        ghost var before := decay;
        decay := decay[..k] + decay[k + 1..];
        assert forall i :: 0 <= i < |decay| ==> decay[i] == before[if i < k then i else i + 1];
        r := Ok(());
    }

    /** `add_creator(d)`: records a decay that produces this particle (duplicates allowed). */
    method AddCreator(d: Decay)
      modifies this
      ensures creators == old(creators) + [d]
      ensures decay == old(decay)
    {
      creators := creators + [d];
    }
  }

  // ---------------------------------------------------------------------------
  // cross_combine

  /** `for i in head: for j in other: ret.append(i + j)`. */
  function Combine<T>(head: seq<seq<T>>, other: seq<seq<T>>): seq<seq<T>>
  {
    if head == [] then []
    else seq(|other|, j requires 0 <= j < |other| => head[0] + other[j]) + Combine(head[1..], other)
  }

  /** `cross_combine(x)`: one pick from every list, concatenated.  When the combination of
      the later lists is empty, the picks of the first list are returned as they are. */
  function CrossCombine<T>(x: seq<seq<seq<T>>>): seq<seq<T>>
  {
    if x == [] then []
    else
      var other := CrossCombine(x[1..]);
      if other == [] then x[0] else Combine(x[0], other)
  }

  predicate AllNonEmpty<U>(x: seq<seq<U>>)
  {
    forall m :: 0 <= m < |x| ==> x[m] != []
  }

  /** The concatenation of the picked elements, in list order. */
  function ConcatPicks<T>(x: seq<seq<seq<T>>>, p: seq<nat>): seq<T>
    requires |p| == |x| && forall m :: 0 <= m < |x| ==> p[m] < |x[m]|
  {
    if x == [] then [] else x[0][p[0]] + ConcatPicks(x[1..], p[1..])
  }

  lemma {:induction false} CombineAt<T>(head: seq<seq<T>>, other: seq<seq<T>>, i: nat, j: nat)
    requires i < |head| && j < |other|
    ensures |Combine(head, other)| == |head| * |other|
    ensures i * |other| + j < |head| * |other|
    ensures Combine(head, other)[i * |other| + j] == head[i] + other[j]
  {
    var n := |other|;
    if i == 0 {
      if |head| > 1 {
        CombineAt(head[1..], other, 0, j);
      } else {
        assert head[1..] == [];
      }
    } else {
      CombineAt(head[1..], other, i - 1, j);
      assert i * n + j == n + ((i - 1) * n + j);
    }
    assert |Combine(head, other)| == n + |Combine(head[1..], other)|;
    assert |head| * n == n + (|head| - 1) * n;
  }

  /** When every list is non-empty, `cross_combine` has one element per combination of
      picks (the product of the lengths), and its k-th element is the concatenation of
      the picks given by the mixed-radix digits of k: the order is lexicographic in the
      picks (see `MixedRadix.UnrankIncreasing`). */
  lemma {:induction false} CrossCombineAt<T>(x: seq<seq<seq<T>>>, k: nat)
    requires x != [] && AllNonEmpty(x)
    requires k < Prod(x)
    ensures |CrossCombine(x)| == Prod(x)
    ensures CrossCombine(x)[k] == ConcatPicks(x, Unrank(x, k))
  {
    var t := x[1..];
    var q := Prod(t);
    ProdPositive(t);
    DivBelow(k, |x[0]|, q);
    var p := Unrank(x, k);
    assert p[1..] == Unrank(t, k % q);
    if t == [] {
      assert CrossCombine(x) == x[0];
    } else {
      CrossCombineAt(t, k % q);
      var other := CrossCombine(t);
      assert other != [];
      CombineAt(x[0], other, k / q, k % q);
    }
  }

  /** Every element of `cross_combine(x)` is a concatenation of one pick per list. */
  lemma CrossCombineElement<T>(x: seq<seq<seq<T>>>, c: seq<T>)
    requires x != [] && AllNonEmpty(x)
    requires c in CrossCombine(x)
    ensures exists k :: 0 <= k < Prod(x) && c == ConcatPicks(x, Unrank(x, k))
  {
    ProdPositive(x);
    CrossCombineAt(x, 0);
    var k :| 0 <= k < |CrossCombine(x)| && CrossCombine(x)[k] == c;
    CrossCombineAt(x, k);
  }

  // ---------------------------------------------------------------------------
  // chain_decay

  /** The decay lists of all particle objects, keyed by particle identity; a particle
      without an entry has an empty list. */
  type DecayLists = map<Particle, seq<Decay>>

  function DecaysOf(g: DecayLists, p: Particle): seq<Decay>
  {
    if p in g then g[p] else []
  }

  /** Each decay is listed under its own core, as `BaseDecay.__init__` registers it. */
  ghost predicate Registered(g: DecayLists)
  {
    forall p, d :: p in g && d in g[p] ==> d.core == p
  }

  /**
   * `p.chain_decay()`: for every decay of `p`, the cartesian product of `[[decay]]` and
   * the chains of those daughters that decay further.  `depth` bounds the recursion
   * as Python's recursion limit does: running out of it is `RecursionError`.
   */
  function ChainDecay(g: DecayLists, p: Particle, depth: nat): Result<seq<seq<Decay>>>
    decreases depth, 0, 0
  {
    if depth == 0 then Err(RecursionError("maximum recursion depth exceeded"))
    else ChainsOfDecays(g, DecaysOf(g, p), depth - 1)
  }

  /** The loop `for i in self.decay: ret += cross_combine(ret_tmp)`. */
  function ChainsOfDecays(g: DecayLists, ds: seq<Decay>, depth: nat): Result<seq<seq<Decay>>>
    decreases depth, 2, |ds|
  {
    if ds == [] then Ok([])
    else
      match OutChains(g, ds[0].outs, depth)
      case Err(e) => Err(e)
      case Ok(tails) =>
        match ChainsOfDecays(g, ds[1..], depth)
        case Err(e) => Err(e)
        case Ok(rest) => Ok(CrossCombine([[[ds[0]]]] + tails) + rest)
  }

  /** The loop `for j in i.outs: tmp = j.chain_decay(); if tmp: ret_tmp.append(tmp)`. */
  function OutChains(g: DecayLists, outs: seq<Particle>, depth: nat): Result<seq<seq<seq<Decay>>>>
    decreases depth, 1, |outs|
  {
    if outs == [] then Ok([])
    else
      match ChainDecay(g, outs[0], depth)
      case Err(e) => Err(e)
      case Ok(tmp) =>
        match OutChains(g, outs[1..], depth)
        case Err(e) => Err(e)
        case Ok(rest) => Ok((if tmp != [] then [tmp] else []) + rest)
  }

  /** Every decay of the chain is one of the registered decays of its core. */
  ghost predicate ChainRegistered(g: DecayLists, c: seq<Decay>)
  {
    forall d :: d in c ==> d in DecaysOf(g, d.core)
  }

  /**
   * What `chain_decay` returns: one or more chains per decay of `p` (none when `p` has
   * no decays), each starting with that decay of `p` and made only of registered decays.
   */
  lemma {:induction false} ChainDecayChains(g: DecayLists, p: Particle, depth: nat)
    requires Registered(g)
    requires ChainDecay(g, p, depth).Ok?
    ensures var r := ChainDecay(g, p, depth).value;
      && (r == [] <==> DecaysOf(g, p) == [])
      && forall c: seq<Decay> :: c in r ==> |c| > 0 && c[0] in DecaysOf(g, p) && c[0].core == p && ChainRegistered(g, c)
    decreases depth, 0, 0
  {
    var ds := DecaysOf(g, p);
    assert forall d :: d in ds ==> d.core == p && d in DecaysOf(g, d.core);
    ChainsOfDecaysChains(g, ds, depth - 1);
  }

  lemma {:induction false} ChainsOfDecaysChains(g: DecayLists, ds: seq<Decay>, depth: nat)
    requires Registered(g)
    requires forall d :: d in ds ==> d in DecaysOf(g, d.core)
    requires ChainsOfDecays(g, ds, depth).Ok?
    ensures var r := ChainsOfDecays(g, ds, depth).value;
      && (r == [] <==> ds == [])
      && forall c :: c in r ==> |c| > 0 && c[0] in ds && ChainRegistered(g, c)
    decreases depth, 2, |ds|
  {
    if ds != [] {
      var d := ds[0];
      OutChainsChains(g, d.outs, depth);
      CrossCombineChains(g, d, OutChains(g, d.outs, depth).value);
      ChainsOfDecaysChains(g, ds[1..], depth);
    }
  }

  /** The chains one decay contributes: each starts with that decay and extends it by
      registered chains. */
  lemma CrossCombineChains(g: DecayLists, d: Decay, tails: seq<seq<seq<Decay>>>)
    requires d in DecaysOf(g, d.core)
    requires forall tmp :: tmp in tails ==> tmp != [] && forall c :: c in tmp ==> ChainRegistered(g, c)
    ensures var r := CrossCombine([[[d]]] + tails);
      && r != []
      && forall c :: c in r ==> |c| > 0 && c[0] == d && ChainRegistered(g, c)
  {
    var x := [[[d]]] + tails;
    forall m | 1 <= m < |x| ensures x[m] != [] && forall c :: c in x[m] ==> ChainRegistered(g, c) {
      assert x[m] == tails[m - 1] && tails[m - 1] in tails;
    }
    ProdPositive(x);
    CrossCombineAt(x, 0);
    forall c | c in CrossCombine(x)
      ensures |c| > 0 && c[0] == d && ChainRegistered(g, c)
    {
      CrossCombineElement(x, c);
      var k :| 0 <= k < Prod(x) && c == ConcatPicks(x, Unrank(x, k));
      var pk := Unrank(x, k);
      PicksRegistered(g, x, pk);
      assert c == [d] + ConcatPicks(x[1..], pk[1..]);
    }
  }

  lemma {:induction false} PicksRegistered(g: DecayLists, x: seq<seq<seq<Decay>>>, p: seq<nat>)
    requires |p| == |x| && forall m :: 0 <= m < |x| ==> p[m] < |x[m]|
    requires forall m :: 0 <= m < |x| ==> forall c :: c in x[m] ==> ChainRegistered(g, c)
    ensures ChainRegistered(g, ConcatPicks(x, p))
  {
    if x != [] {
      assert x[0][p[0]] in x[0];
      PicksRegistered(g, x[1..], p[1..]);
      assert forall m :: 0 <= m < |x[1..]| ==> x[1..][m] == x[m + 1];
    }
  }

  lemma {:induction false} OutChainsChains(g: DecayLists, outs: seq<Particle>, depth: nat)
    requires Registered(g)
    requires OutChains(g, outs, depth).Ok?
    ensures forall tmp :: tmp in OutChains(g, outs, depth).value ==>
      tmp != [] && forall c :: c in tmp ==> ChainRegistered(g, c)
    decreases depth, 1, |outs|
  {
    if outs != [] {
      ChainDecayChains(g, outs[0], depth);
      OutChainsChains(g, outs[1..], depth);
    }
  }
}
