/**
 * Decay chains (tf_pwa/particle.py): classifying the particles of a chain,
 * the `DecayChain` constructor, `split_len`, and the table `sorted_table`
 * that maps every particle of a chain to the final particles below it.
 */
module Topology {

  import opened Wrappers
  import opened Particles
  import opened PyDicts
  import Ordering

  // ---------------------------------------------------------------------------
  // Particle roles in a chain

  /** Particles that decay somewhere in the chain. */
  ghost function CoreSet(chain: seq<Decay>): set<Particle>
  {
    set i | 0 <= i < |chain| :: chain[i].core
  }

  /** Particles produced somewhere in the chain. */
  ghost function OutSet(chain: seq<Decay>): set<Particle>
  {
    set i, j | 0 <= i < |chain| && 0 <= j < |chain[i].outs| :: chain[i].outs[j]
  }

  /** Decaying but never produced: the initial particle(s). */
  ghost function TopSet(chain: seq<Decay>): set<Particle> { CoreSet(chain) - OutSet(chain) }

  /** Produced and decaying again: the resonances. */
  ghost function InnerSet(chain: seq<Decay>): set<Particle> { CoreSet(chain) * OutSet(chain) }

  /** Produced and never decaying: the final-state particles. */
  ghost function FinalSet(chain: seq<Decay>): set<Particle> { OutSet(chain) - CoreSet(chain) }

  /** `split_particle_type(decays)`: the top, inner and final particles of a chain. */
  method SplitParticleType(decays: seq<Decay>) returns (top: set<Particle>, inner: set<Particle>, outs: set<Particle>)
    ensures top == TopSet(decays) && inner == InnerSet(decays) && outs == FinalSet(decays)
  {
    var coreParticles: set<Particle> := {};
    var outParticles: set<Particle> := {};
    for i := 0 to |decays|
      invariant coreParticles == CoreSet(decays[..i])
      invariant outParticles == OutSet(decays[..i])
    {
      coreParticles := coreParticles + {decays[i].core};
      for j := 0 to |decays[i].outs|
        invariant outParticles == OutSet(decays[..i]) + set m | 0 <= m < j :: decays[i].outs[m]
      {
        outParticles := outParticles + {decays[i].outs[j]};
      }
      assert decays[..i + 1][i] == decays[i];
      assert forall m :: 0 <= m < i ==> decays[..i + 1][m] == decays[..i][m];
    }
    assert decays[..|decays|] == decays;
    inner := coreParticles * outParticles;
    top := coreParticles - inner;
    outs := outParticles - inner;
  }

  /** The three roles split the particles of a chain: they are pairwise disjoint, and
      together they are every particle that occurs in it. */
  lemma RolesPartition(chain: seq<Decay>)
    ensures TopSet(chain) !! InnerSet(chain) && TopSet(chain) !! FinalSet(chain) && InnerSet(chain) !! FinalSet(chain)
    ensures TopSet(chain) + InnerSet(chain) + FinalSet(chain) == CoreSet(chain) + OutSet(chain)
    ensures forall d, p :: d in chain && p in d.outs ==> p !in TopSet(chain)
    ensures forall d :: d in chain ==> d.core !in FinalSet(chain)
  {
    forall d, p | d in chain && p in d.outs ensures p in OutSet(chain) {
      var i :| 0 <= i < |chain| && chain[i] == d;
      var j :| 0 <= j < |d.outs| && d.outs[j] == p;
      assert chain[i].outs[j] == p;
    }
    forall d | d in chain ensures d.core in CoreSet(chain) {
      var i :| 0 <= i < |chain| && chain[i] == d;
    }
  }

  // ---------------------------------------------------------------------------
  // DecayChain

  /** A `DecayChain`: the decays, the unique top particle, and the inner and final
      particles in sorted order. */
  datatype DecayChain = DecayChain(chain: seq<Decay>, top: Particle, inner: seq<Particle>, outs: seq<Particle>)

  /** `s` is `sorted(list(xs))`. */
  ghost predicate SortedListOf(s: seq<Particle>, xs: set<Particle>)
  {
    Ordering.Sorted(s, ParticleLess) && Ordering.Distinct(s) && multiset(s) == multiset(xs)
  }

  /** What the constructor establishes for every `DecayChain`. */
  ghost predicate ValidChain(c: DecayChain)
  {
    && TopSet(c.chain) == {c.top}
    && SortedListOf(c.inner, InnerSet(c.chain))
    && SortedListOf(c.outs, FinalSet(c.chain))
  }

  /** `DecayChain(chain)`: an AssertionError unless the chain has exactly one top particle. */
  method NewDecayChain(chain: seq<Decay>) returns (r: Result<DecayChain>)
    ensures r.Err? <==> |TopSet(chain)| != 1
    ensures r.Err? ==> r.error.AssertionError?
    ensures r.Ok? ==> r.value.chain == chain && ValidChain(r.value)
  {
    var top, inner, outs := SplitParticleType(chain);
    if |top| != 1 {
      return Err(AssertionError("top particles must be only one particle"));
    }
    var t :| t in top;
    assert top == {t} by {
      assert top == (top - {t}) + {t};
      assert |top - {t}| == 0;
    }
    ParticleOrder();
    var innerList := Ordering.SortSet(inner, ParticleLess);
    var outsList := Ordering.SortSet(outs, ParticleLess);
    r := Ok(DecayChain(chain, t, innerList, outsList));
  }

  /** The fields of a valid `DecayChain` are determined by its decays. */
  lemma ValidChainDetermined(c1: DecayChain, c2: DecayChain)
    requires ValidChain(c1) && ValidChain(c2) && c1.chain == c2.chain
    ensures c1 == c2
  {
    ParticleOrder();
    assert c1.top in {c2.top};
    Ordering.SortedUnique(c1.inner, c2.inner, ParticleLess);
    Ordering.SortedUnique(c1.outs, c2.outs, ParticleLess);
  }

  // ---------------------------------------------------------------------------
  // split_len

  /** The items of `items` whose value has length `n`, in order. */
  ghost function WithLength<K, V>(items: seq<(K, seq<V>)>, n: nat): seq<(K, seq<V>)>
  {
    if items == [] then []
    else
      var last := items[|items| - 1];
      WithLength(items[..|items| - 1], n) + (if |last.1| == n then [last] else [])
  }

  lemma {:induction false} WithLengthMember<K, V>(items: seq<(K, seq<V>)>, n: nat, x: (K, seq<V>))
    ensures x in WithLength(items, n) <==> x in items && |x.1| == n
  {
    if items != [] {
      WithLengthMember(items[..|items| - 1], n, x);
      assert items == items[..|items| - 1] + [items[|items| - 1]];
    }
  }

  /** Slot n of `split_len`: None when no item has a value of length n. */
  ghost function Slot<K, V>(items: seq<(K, seq<V>)>, n: nat): Option<seq<(K, seq<V>)>>
  {
    var w := WithLength(items, n);
    if w == [] then None else Some(w)
  }

  lemma SlotSnoc<K, V>(items: seq<(K, seq<V>)>, x: (K, seq<V>), n: nat)
    ensures Slot(items + [x], n) ==
      if |x.1| != n then Slot(items, n)
      else Some((if Slot(items, n).None? then [] else Slot(items, n).value) + [x])
  {
    assert (items + [x])[..|items|] == items;
    var s := items + [x];
    assert WithLength(s, n) == WithLength(items, n) + (if |x.1| == n then [x] else []);
    if |x.1| != n {
      assert WithLength(items, n) + [] == WithLength(items, n);
    }
  }

  /** `split_len(dicts)`: slot n lists the items whose value has length n, in
      dictionary order, or is None when there are none; the list stops at the longest
      value.  An empty dictionary is a ValueError (`max` of nothing). */
  method SplitLen<K(==, !new), V>(d: Dict<K, seq<V>>) returns (r: Result<seq<Option<seq<(K, seq<V>)>>>>)
    requires Valid(d)
    ensures r.Err? <==> d.keys == []
    ensures r.Ok? ==> && |r.value| > 0
                      && (forall k :: k in d.vals ==> |d.vals[k]| < |r.value|)
                      && (exists k :: k in d.vals && |d.vals[k]| == |r.value| - 1)
    ensures r.Ok? ==> forall n :: 0 <= n < |r.value| ==> r.value[n] == Slot(Items(d), n)
  {
    var items := Items(d);
    if |d.keys| == 0 {
      return Err(ValueError("max() arg is an empty sequence"));
    }
    var maxL := MaxLength(items);
    var ret := FillSlots(items, maxL);
    forall k | k in d.vals ensures |d.vals[k]| < |ret| {
      var m :| 0 <= m < |d.keys| && d.keys[m] == k;
      assert items[m] == (k, d.vals[k]);
    }
    var m :| 0 <= m < |items| && |items[m].1| == maxL;
    assert items[m] == (d.keys[m], d.vals[d.keys[m]]);
    r := Ok(ret);
  }

  /** The loop of `split_len`: each item is appended to the slot of its length. */
  method FillSlots<K, V>(items: seq<(K, seq<V>)>, maxL: nat) returns (ret: seq<Option<seq<(K, seq<V>)>>>)
    requires forall m :: 0 <= m < |items| ==> |items[m].1| <= maxL
    ensures |ret| == maxL + 1
    ensures forall n :: 0 <= n < |ret| ==> ret[n] == Slot(items, n)
  {
    ret := seq(maxL + 1, _ => None);
    for i := 0 to |items|
      invariant |ret| == maxL + 1
      invariant forall n :: 0 <= n < |ret| ==> ret[n] == Slot(items[..i], n)
    {
      var n := |items[i].1|;
      var slot := if ret[n].None? then [] else ret[n].value;
      ret := ret[n := Some(slot + [items[i]])];
      assert items[..i + 1] == items[..i] + [items[i]];
      forall n' | 0 <= n' < |ret| ensures ret[n'] == Slot(items[..i + 1], n') {
        SlotSnoc(items[..i], items[i], n');
      }
    }
    assert items[..|items|] == items;
  }

  /** `max([len(v) for k, v in items])` on a non-empty list. */
  method MaxLength<K, V>(items: seq<(K, seq<V>)>) returns (maxL: nat)
    requires items != []
    ensures forall m :: 0 <= m < |items| ==> |items[m].1| <= maxL
    ensures exists m :: 0 <= m < |items| && |items[m].1| == maxL
  {
    maxL := |items[0].1|;
    for i := 1 to |items|
      invariant forall m :: 0 <= m < i ==> |items[m].1| <= maxL
      invariant exists m :: 0 <= m < i && |items[m].1| == maxL
    {
      if |items[i].1| > maxL {
        maxL := |items[i].1|;
      }
    }
  }

  // ---------------------------------------------------------------------------
  // sorted_table

  /** The table maps every particle of a chain to the sorted list of final particles
      it ends in. */
  type Table = Dict<Particle, seq<Particle>>

  /** Every particle of `ps` has an entry. */
  predicate AllIn(t: Table, ps: seq<Particle>)
  {
    forall j :: 0 <= j < |ps| ==> ps[j] in t.vals
  }

  /** The entries of `ps` concatenated in order. */
  function Gather(t: Table, ps: seq<Particle>): seq<Particle>
    requires AllIn(t, ps)
  {
    if ps == [] then [] else Gather(t, ps[..|ps| - 1]) + t.vals[ps[|ps| - 1]]
  }

  /** Changing an entry that `ps` does not mention leaves its gather unchanged. */
  lemma {:induction false} GatherFrame(t: Table, t': Table, ps: seq<Particle>, k: Particle)
    requires AllIn(t, ps) && k !in ps && k in t'.vals
    requires t'.vals == t.vals[k := t'.vals[k]]
    ensures AllIn(t', ps)
    ensures Gather(t', ps) == Gather(t, ps)
  {
    if ps != [] {
      GatherFrame(t, t', ps[..|ps| - 1], k);
    }
  }

  /** Decay `d` is resolved in `t`: its daughters have entries, and its core's entry is
      the sorted concatenation of theirs. */
  ghost predicate Resolved(t: Table, d: Decay)
  {
    AllIn(t, d.outs) && d.core in t.vals && t.vals[d.core] == SortParticles(Gather(t, d.outs))
  }

  /** One resolution step of `sorted_table`: the core's entry is reset to [], the
      daughters' entries are appended to it one by one, and it is sorted. */
  method Resolve(t: Table, d: Decay) returns (r: Table)
    requires Valid(t) && AllIn(t, d.outs)
    ensures Valid(r) && d.core in r.vals
    ensures r.keys == Put(t, d.core, []).keys && r.vals == t.vals[d.core := r.vals[d.core]]
    ensures d.core !in d.outs ==> r.vals[d.core] == SortParticles(Gather(t, d.outs))
  {
    var acc;
    acc, r := GatherInto(t, d);
    UpdateTwice(t.vals, d.core, acc, SortParticles(acc));
    r := Put(r, d.core, SortParticles(acc));
  }

  /** The loop of a resolution step: the core's entry grows by each daughter's entry in
      turn (a daughter equal to the core reads the entry built so far). */
  method GatherInto(t: Table, d: Decay) returns (acc: seq<Particle>, r: Table)
    requires Valid(t) && AllIn(t, d.outs)
    ensures Valid(r) && r.keys == Put(t, d.core, []).keys && r.vals == t.vals[d.core := acc]
    ensures d.core !in d.outs ==> acc == Gather(t, d.outs)
  {
    acc := [];
    r := Put(t, d.core, acc);
    for m := 0 to |d.outs|
      invariant Valid(r)
      invariant r.keys == Put(t, d.core, []).keys && r.vals == t.vals[d.core := acc]
      invariant d.core !in d.outs ==> acc == Gather(t, d.outs[..m])
    {
      GatherStep(t, d.outs, m);
      UpdateTwice(t.vals, d.core, acc, acc + r.vals[d.outs[m]]);
      acc := acc + r.vals[d.outs[m]];
      r := Put(r, d.core, acc);
    }
    assert d.outs[..|d.outs|] == d.outs;
  }

  lemma UpdateTwice<K, V>(m: map<K, V>, k: K, a: V, b: V)
    ensures m[k := a][k := b] == m[k := b]
  {
  }

  lemma GatherStep(t: Table, ps: seq<Particle>, m: nat)
    requires AllIn(t, ps) && m < |ps|
    ensures AllIn(t, ps[..m]) && AllIn(t, ps[..m + 1])
    ensures Gather(t, ps[..m + 1]) == Gather(t, ps[..m]) + t.vals[ps[m]]
  {
    assert ps[..m + 1][..m] == ps[..m];
  }

  /** No two decays of the chain share a core (the chain is a tree, not a set of
      alternatives). */
  ghost predicate UniqueCores(chain: seq<Decay>)
  {
    forall i, j :: 0 <= i < j < |chain| ==> chain[i].core != chain[j].core
  }

  /** The chain can be layered: every daughter sits strictly below its mother, so no
      particle is (indirectly) its own descendant. */
  ghost predicate Layered(chain: seq<Decay>)
  {
    exists level: Particle -> nat :: LayeredBy(chain, level)
  }

  ghost predicate LayeredBy(chain: seq<Decay>, level: Particle -> nat)
  {
    forall i, j :: 0 <= i < |chain| && 0 <= j < |chain[i].outs| ==> level(chain[i].outs[j]) < level(chain[i].core)
  }

  /** What holds of the resolved part of the chain: the entries of cores come from
      resolved decays, and resolved decays keep their entries. */
  ghost predicate DoneOk(c: DecayChain, rem: seq<Decay>, t: Table)
  {
    && (forall p :: p in t.vals && p !in FinalSet(c.chain) ==>
          exists i :: 0 <= i < |c.chain| && c.chain[i].core == p && c.chain[i] !in rem)
    && (forall i :: 0 <= i < |c.chain| && c.chain[i] !in rem ==> Resolved(t, c.chain[i]))
  }

  /** The final particles have their own one-element entries. */
  ghost predicate FinalsMapped(c: DecayChain, t: Table)
  {
    forall f :: f in FinalSet(c.chain) ==> f in t.vals && t.vals[f] == [f]
  }

  lemma UniqueCoresRemove(s: seq<Decay>, pos: nat)
    requires UniqueCores(s) && pos < |s|
    ensures UniqueCores(s[..pos] + s[pos + 1..])
    ensures forall e :: e in s[..pos] + s[pos + 1..] ==> e in s && e != s[pos]
  {
    var r := s[..pos] + s[pos + 1..];
    assert forall m :: 0 <= m < |r| ==> r[m] == if m < pos then s[m] else s[m + 1];
  }

  /** A decay still to be resolved has no entry for its core yet, when cores are unique. */
  lemma CoreNotYetIn(c: DecayChain, rem: seq<Decay>, pos: nat, t: Table)
    requires UniqueCores(c.chain) && (forall e :: e in rem ==> e in c.chain)
    requires pos < |rem| && DoneOk(c, rem, t)
    ensures rem[pos].core !in t.vals
  {
    var d := rem[pos];
    RolesPartition(c.chain);
    assert d in c.chain;
    var jd :| 0 <= jd < |c.chain| && c.chain[jd] == d;

  }

  lemma RemoveAtMembers<T>(s: seq<T>, pos: nat)
    requires pos < |s|
    ensures forall e :: e in s && e != s[pos] ==> e in s[..pos] + s[pos + 1..]
  {
    forall e | e in s && e != s[pos] ensures e in s[..pos] + s[pos + 1..] {
      var k :| 0 <= k < |s| && s[k] == e;
      if k < pos {
        assert (s[..pos] + s[pos + 1..])[k] == e;
      } else {
        assert (s[..pos] + s[pos + 1..])[k - 1] == e;
      }
    }
  }

  /** Resolving a decay of the remaining list keeps `DoneOk` when cores are unique. */
  lemma ResolveKeepsDone(c: DecayChain, rem: seq<Decay>, pos: nat, t: Table, r: Table)
    requires UniqueCores(c.chain) && UniqueCores(rem) && (forall e :: e in rem ==> e in c.chain)
    requires pos < |rem| && AllIn(t, rem[pos].outs) && rem[pos].core !in rem[pos].outs
    requires DoneOk(c, rem, t)
    requires rem[pos].core in r.vals
    requires r.vals == t.vals[rem[pos].core := SortParticles(Gather(t, rem[pos].outs))]
    ensures DoneOk(c, rem[..pos] + rem[pos + 1..], r)
  {
    var d := rem[pos];
    var rem' := rem[..pos] + rem[pos + 1..];
    UniqueCoresRemove(rem, pos);
    CoreNotYetIn(c, rem, pos, t);
    assert d in c.chain;
    var jd :| 0 <= jd < |c.chain| && c.chain[jd] == d;
    forall i | 0 <= i < |c.chain| && c.chain[i] !in rem' ensures Resolved(r, c.chain[i]) {
      ResolvedAfterPut(c, rem, pos, t, r, i, jd);
    }
    forall p | p in r.vals && p !in FinalSet(c.chain)
      ensures exists i :: 0 <= i < |c.chain| && c.chain[i].core == p && c.chain[i] !in rem'
    {
      if p == d.core {
        assert c.chain[jd].core == p && c.chain[jd] !in rem';
      } else {
        var i :| 0 <= i < |c.chain| && c.chain[i].core == p && c.chain[i] !in rem;
        assert c.chain[i] !in rem';
      }
    }
  }

  lemma ResolvedAfterPut(c: DecayChain, rem: seq<Decay>, pos: nat, t: Table, r: Table, i: nat, jd: nat)
    requires UniqueCores(c.chain) && UniqueCores(rem)
    requires pos < |rem| && AllIn(t, rem[pos].outs) && rem[pos].core !in rem[pos].outs
    requires DoneOk(c, rem, t) && rem[pos].core !in t.vals
    requires rem[pos].core in r.vals
    requires r.vals == t.vals[rem[pos].core := SortParticles(Gather(t, rem[pos].outs))]
    requires jd < |c.chain| && c.chain[jd] == rem[pos]
    requires i < |c.chain| && c.chain[i] !in rem[..pos] + rem[pos + 1..]
    ensures Resolved(r, c.chain[i])
  {
    var d := rem[pos];
    var e := c.chain[i];
    if i == jd {
      GatherFrame(t, r, d.outs, d.core);
    } else {
      assert e.core != d.core;
      RemoveAtMembers(rem, pos);
      assert e !in rem;
      assert Resolved(t, e);
      assert d.core !in e.outs;
      GatherFrame(t, r, e.outs, d.core);
    }
  }

  /** Some decay with the lowest-level core. */
  lemma LowestCore(s: seq<Decay>, level: Particle -> nat) returns (m: nat)
    requires s != []
    ensures m < |s| && forall i :: 0 <= i < |s| ==> level(s[m].core) <= level(s[i].core)
  {
    m := 0;
    for i := 1 to |s|
      invariant m < |s| && forall k :: 0 <= k < i ==> level(s[m].core) <= level(s[k].core)
    {
      if level(s[i].core) < level(s[m].core) {
        m := i;
      }
    }
  }

  /** In a layered chain a pass of `sorted_table` always resolves something: a remaining
      decay with the lowest core has all its daughters resolved already. */
  lemma PassProgresses(c: DecayChain, rem: seq<Decay>, t: Table)
    requires Layered(c.chain) && rem != []
    requires forall e :: e in rem ==> e in c.chain
    requires FinalsMapped(c, t)
    requires forall i :: 0 <= i < |c.chain| && c.chain[i] !in rem ==> c.chain[i].core in t.vals
    ensures exists m :: 0 <= m < |rem| && AllIn(t, rem[m].outs)
  {
    var level :| LayeredBy(c.chain, level);
    var m := LowestCore(rem, level);
    var d := rem[m];
    assert d in rem;
    var jd :| 0 <= jd < |c.chain| && c.chain[jd] == d;
    forall j | 0 <= j < |d.outs| ensures d.outs[j] in t.vals {
      var o := d.outs[j];
      assert o == c.chain[jd].outs[j];
      assert level(o) < level(d.core);
      assert o in OutSet(c.chain);
      if o !in FinalSet(c.chain) {
        var i :| 0 <= i < |c.chain| && c.chain[i].core == o;

      }
    }
  }

  /** The loop state of `sorted_table` between steps: `rem` lists the decays not yet
      resolved. */
  ghost predicate TableState(c: DecayChain, rem: seq<Decay>, t: Table)
  {
    && Valid(t) && FinalsMapped(c, t)
    && (forall e :: e in rem ==> e in c.chain)
    && t.vals.Keys <= FinalSet(c.chain) + CoreSet(c.chain)
    && (forall i :: 0 <= i < |c.chain| && c.chain[i] !in rem ==> c.chain[i].core in t.vals)
    && (UniqueCores(c.chain) ==> UniqueCores(rem) && DoneOk(c, rem, t))
  }

  /** One pass of the `while chain` loop of `sorted_table`: every decay of `chain`
      whose daughters all have entries is resolved, in order; the others are kept
      for the next pass.  When nothing is resolved, the table is unchanged. */
  method TablePass(c: DecayChain, chain: seq<Decay>, t: Table) returns (tmp: seq<Decay>, r: Table)
    requires ValidChain(c) && TableState(c, chain, t)
    ensures TableState(c, tmp, r)
    ensures |tmp| <= |chain|
    ensures |tmp| == |chain| ==> r == t && forall m :: 0 <= m < |chain| ==> !AllIn(t, chain[m].outs)
  {
    tmp := [];
    r := t;
    PassStart(c, chain, t);
    for k := 0 to |chain|
      invariant PassInv(c, chain, t, k, tmp, r)
    {
      tmp, r := PassStep(c, chain, k, tmp, r, t);
    }
    PassEnd(c, chain, t, tmp, r);
  }

  lemma PassStart(c: DecayChain, chain: seq<Decay>, t: Table)
    requires TableState(c, chain, t)
    ensures PassInv(c, chain, t, 0, [], t)
  {
    assert [] + chain[0..] == chain;
  }

  lemma PassEnd(c: DecayChain, chain: seq<Decay>, t: Table, tmp: seq<Decay>, r: Table)
    requires PassInv(c, chain, t, |chain|, tmp, r)
    ensures TableState(c, tmp, r)
    ensures |tmp| <= |chain|
    ensures |tmp| == |chain| ==> r == t && forall m :: 0 <= m < |chain| ==> !AllIn(t, chain[m].outs)
  {
    assert tmp + chain[|chain|..] == tmp;
  }

  /** The state of a pass after its first `k` decays: `tmp` holds the kept ones. */
  ghost predicate PassInv(c: DecayChain, chain: seq<Decay>, t: Table, k: nat, tmp: seq<Decay>, r: Table)
    requires k <= |chain|
  {
    && TableState(c, tmp + chain[k..], r)
    && |tmp| <= k
    && (|tmp| == k ==> r == t && tmp == chain[..k])
    && (|tmp| == k ==> forall m :: 0 <= m < k ==> !AllIn(t, chain[m].outs))
  }

  /** One decay of a pass: resolved when all its daughters have entries, kept otherwise. */
  method PassStep(c: DecayChain, chain: seq<Decay>, k: nat, tmp: seq<Decay>, r: Table, ghost t: Table)
    returns (tmp': seq<Decay>, r': Table)
    requires ValidChain(c) && k < |chain| && PassInv(c, chain, t, k, tmp, r)
    ensures PassInv(c, chain, t, k + 1, tmp', r')
  {
    var d := chain[k];
    if AllIn(r, d.outs) {
      r' := Resolve(r, d);
      tmp' := tmp;
      PassResolveStep(c, chain, k, tmp, r, r');
    } else {
      PassKeepStep(c, chain, k, tmp, r);
      tmp' := tmp + [d];
      r' := r;
    }
  }

  lemma PassKeepStep(c: DecayChain, chain: seq<Decay>, k: nat, tmp: seq<Decay>, t: Table)
    requires k < |chain| && TableState(c, tmp + chain[k..], t)
    ensures TableState(c, (tmp + [chain[k]]) + chain[k + 1..], t)
    ensures |tmp| == k && tmp == chain[..k] ==> tmp + [chain[k]] == chain[..k + 1]
  {
    assert (tmp + [chain[k]]) + chain[k + 1..] == tmp + chain[k..];
  }

  lemma PassResolveStep(c: DecayChain, chain: seq<Decay>, k: nat, tmp: seq<Decay>, t: Table, r: Table)
    requires ValidChain(c) && k < |chain| && TableState(c, tmp + chain[k..], t)
    requires AllIn(t, chain[k].outs)
    requires Valid(r) && chain[k].core in r.vals
    requires r.vals == t.vals[chain[k].core := r.vals[chain[k].core]]
    requires chain[k].core !in chain[k].outs ==> r.vals[chain[k].core] == SortParticles(Gather(t, chain[k].outs))
    ensures TableState(c, tmp + chain[k + 1..], r)
  {
    var rem := tmp + chain[k..];
    DropNext(tmp, chain, k);
    ResolveKeepsState(c, rem, |tmp|, t, r);
  }

  /** Dropping the next unvisited element of `tmp + chain[k..]`. */
  lemma DropNext<T>(tmp: seq<T>, chain: seq<T>, k: nat)
    requires k < |chain|
    ensures (tmp + chain[k..])[|tmp|] == chain[k]
    ensures (tmp + chain[k..])[..|tmp|] + (tmp + chain[k..])[|tmp| + 1..] == tmp + chain[k + 1..]
  {
    var rem := tmp + chain[k..];
    assert rem[..|tmp|] == tmp;
    assert rem[|tmp| + 1..] == chain[k + 1..];
  }

  lemma ResolveKeepsState(c: DecayChain, rem: seq<Decay>, pos: nat, t: Table, r: Table)
    requires ValidChain(c) && TableState(c, rem, t)
    requires pos < |rem| && AllIn(t, rem[pos].outs)
    requires Valid(r) && rem[pos].core in r.vals
    requires r.vals == t.vals[rem[pos].core := r.vals[rem[pos].core]]
    requires rem[pos].core !in rem[pos].outs ==> r.vals[rem[pos].core] == SortParticles(Gather(t, rem[pos].outs))
    ensures TableState(c, rem[..pos] + rem[pos + 1..], r)
  {
    var d := rem[pos];
    var rem' := rem[..pos] + rem[pos + 1..];
    assert d in rem;
    RemoveAtMembers(rem, pos);
    ResolveKeepsBasics(c, rem, rem', d, t, r);
    if UniqueCores(c.chain) {
      CoreNotYetIn(c, rem, pos, t);
      UniqueCoresRemove(rem, pos);
      ResolveKeepsDone(c, rem, pos, t, r);
    }
  }

  lemma ResolveKeepsBasics(c: DecayChain, rem: seq<Decay>, rem': seq<Decay>, d: Decay, t: Table, r: Table)
    requires ValidChain(c) && TableState(c, rem, t) && d in rem
    requires forall e :: e in rem' ==> e in rem
    requires forall e :: e in rem && e != d ==> e in rem'
    requires Valid(r) && d.core in r.vals
    requires r.vals == t.vals[d.core := r.vals[d.core]]
    ensures Valid(r) && FinalsMapped(c, r)
    ensures forall e :: e in rem' ==> e in c.chain
    ensures r.vals.Keys <= FinalSet(c.chain) + CoreSet(c.chain)
    ensures forall i :: 0 <= i < |c.chain| && c.chain[i] !in rem' ==> c.chain[i].core in r.vals
  {
    var jd :| 0 <= jd < |c.chain| && c.chain[jd] == d;
    assert d.core in CoreSet(c.chain);
    forall i | 0 <= i < |c.chain| && c.chain[i] !in rem' ensures c.chain[i].core in r.vals {
      if c.chain[i] != d {
        assert c.chain[i] !in rem;
      }
    }
  }

  /** `DecayChain.sorted_table()`: starting from `{f: [f]}` for the final particles, it
      passes over the decays still unresolved, resolving each whose daughters all have
      entries, until none is left; then the top maps to the sorted final particles.
      When a pass resolves nothing the source loops forever; here that is `None`,
      and it cannot happen in a layered chain. */
  method SortedTable(c: DecayChain) returns (r: Option<Table>)
    requires ValidChain(c)
    ensures Layered(c.chain) ==> r.Some?
    ensures r.Some? ==> Valid(r.value)
    ensures r.Some? ==> r.value.vals.Keys == FinalSet(c.chain) + CoreSet(c.chain)
    ensures r.Some? ==> FinalsMapped(c, r.value)
    ensures r.Some? ==> r.value.vals[c.top] == c.outs
    ensures r.Some? && UniqueCores(c.chain) ==>
      forall d :: d in c.chain && d.core != c.top ==> Resolved(r.value, d)
    ensures r.Some? ==> IsSortedTableOf(c, r.value)
  {
    var t := FinalsTable(c);
    var chain := c.chain;
    while chain != []
      invariant TableState(c, chain, t)
      decreases |chain|
    {
      var tmp, t' := TablePass(c, chain, t);
      if |tmp| == |chain| {
        if Layered(c.chain) {
          PassProgresses(c, chain, t);
          assert false;
        }
        return None;
      }
      chain, t := tmp, t';
    }
    TableComplete(c, t);
    SortedOuts(c);
    ghost var tEnd := t;
    t := Put(t, c.top, SortParticles(c.outs));
    TopEntry(c, tEnd, t);
    r := Some(t);
  }

  /** What `sorted_table()` promises of its result for the chain `c`: the keys are the
      particles of the chain, each final maps to itself, the top maps to the sorted
      finals and, when every particle decays once, every other decay is resolved. */
  ghost predicate IsSortedTableOf(c: DecayChain, t: Table)
  {
    && Valid(t)
    && t.vals.Keys == FinalSet(c.chain) + CoreSet(c.chain)
    && FinalsMapped(c, t)
    && c.top in t.vals && t.vals[c.top] == c.outs
    && (UniqueCores(c.chain) ==> forall d :: d in c.chain && d.core != c.top ==> Resolved(t, d))
  }

  /** For a layered chain in which every particle decays once, the sorted table is
      determined by the chain: two tables meeting `IsSortedTableOf` hold the same entries. */
  lemma SortedTableDetermined(c: DecayChain, t1: Table, t2: Table, level: Particle -> nat)
    requires ValidChain(c) && UniqueCores(c.chain) && LayeredBy(c.chain, level)
    requires IsSortedTableOf(c, t1) && IsSortedTableOf(c, t2)
    ensures t1.vals == t2.vals
  {
    forall p | p in t1.vals
      ensures t1.vals[p] == t2.vals[p]
    {
      EntryAgrees(c, t1, t2, level, p);
    }
  }

  lemma {:induction false} EntryAgrees(c: DecayChain, t1: Table, t2: Table, level: Particle -> nat, p: Particle)
    requires ValidChain(c) && UniqueCores(c.chain) && LayeredBy(c.chain, level)
    requires IsSortedTableOf(c, t1) && IsSortedTableOf(c, t2)
    requires p in t1.vals
    ensures p in t2.vals && t1.vals[p] == t2.vals[p]
    decreases level(p)
  {
    if p !in FinalSet(c.chain) && p != c.top {
      assert p in CoreSet(c.chain);
      var i :| 0 <= i < |c.chain| && c.chain[i].core == p;
      var d := c.chain[i];
      assert Resolved(t1, d) && Resolved(t2, d);
      forall j | 0 <= j < |d.outs|
        ensures t1.vals[d.outs[j]] == t2.vals[d.outs[j]]
      {
        assert level(d.outs[j]) < level(p);
        EntryAgrees(c, t1, t2, level, d.outs[j]);
      }
      GatherAgrees(t1, t2, d.outs);
    }
  }

  /** Tables that agree on the entries of `ps` gather the same list. */
  lemma {:induction false} GatherAgrees(t1: Table, t2: Table, ps: seq<Particle>)
    requires AllIn(t1, ps) && AllIn(t2, ps)
    requires forall j :: 0 <= j < |ps| ==> t1.vals[ps[j]] == t2.vals[ps[j]]
    ensures Gather(t1, ps) == Gather(t2, ps)
  {
    if ps != [] {
      GatherAgrees(t1, t2, ps[..|ps| - 1]);
    }
  }

  /** `sorted(list(self.outs))` is `self.outs`, which the constructor already sorted. */
  lemma SortedOuts(c: DecayChain)
    requires ValidChain(c)
    ensures SortParticles(c.outs) == c.outs
  {
    ParticleOrder();
    Ordering.SortSorted(c.outs, ParticleLess);
    Ordering.SortedUnique(SortParticles(c.outs), c.outs, ParticleLess);
  }

  /** Setting the top's entry last disturbs no other decay's entry. */
  lemma TopEntry(c: DecayChain, t: Table, r: Table)
    requires ValidChain(c) && Valid(t) && c.top in t.vals
    requires UniqueCores(c.chain) ==> forall d :: d in c.chain ==> Resolved(t, d)
    requires r == Put(t, c.top, c.outs)
    ensures UniqueCores(c.chain) ==> forall d :: d in c.chain && d.core != c.top ==> Resolved(r, d)
  {
    RolesPartition(c.chain);
    if UniqueCores(c.chain) {
      forall d | d in c.chain && d.core != c.top ensures Resolved(r, d) {
        assert Resolved(t, d);
        assert c.top !in d.outs;
        GatherFrame(t, r, d.outs, c.top);
      }
    }
  }

  /** `{f: [f] for f in self.outs}`, the table `sorted_table` starts from. */
  method FinalsTable(c: DecayChain) returns (t: Table)
    requires ValidChain(c)
    ensures TableState(c, c.chain, t)
  {
    t := Empty();
    for i := 0 to |c.outs|
      invariant Valid(t)
      invariant forall f :: f in t.vals <==> f in c.outs[..i]
      invariant forall f :: f in t.vals ==> t.vals[f] == [f]
    {
      t := Put(t, c.outs[i], [c.outs[i]]);
    }
    assert c.outs[..|c.outs|] == c.outs;
    assert forall f :: f in FinalSet(c.chain) <==> f in c.outs by {
      assert forall f :: f in FinalSet(c.chain) <==> f in multiset(c.outs);
    }
  }

  /** With nothing left to resolve, every core has an entry. */
  lemma TableComplete(c: DecayChain, t: Table)
    requires ValidChain(c) && TableState(c, [], t)
    ensures t.vals.Keys == FinalSet(c.chain) + CoreSet(c.chain)
    ensures UniqueCores(c.chain) ==> forall d :: d in c.chain ==> Resolved(t, d)
  {
    forall p | p in CoreSet(c.chain) ensures p in t.vals {
      var i :| 0 <= i < |c.chain| && c.chain[i].core == p;
    }
    forall d | d in c.chain ensures UniqueCores(c.chain) ==> Resolved(t, d) {
      var i :| 0 <= i < |c.chain| && c.chain[i] == d;
    }
  }
}
