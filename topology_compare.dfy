/**
 * Comparing decay chains through their sorted tables (tf_pwa/particle.py):
 * `DecayChain.topology_id`, `topology_same` and `topology_map`.
 */
module TopologyCompare {

  import opened Wrappers
  import opened Particles
  import opened PyDicts
  import opened Topology
  import Ordering

  // ---------------------------------------------------------------------------
  // topology_id

  /** The fingerprint: sorted lists of names (identical particles allowed) or of
      particles. */
  datatype TopoId = ByNames(names: seq<seq<string>>) | ByParticles(parts: seq<seq<Particle>>)

  function Names(ps: seq<Particle>): (r: seq<string>)
    ensures |r| == |ps| && forall i :: 0 <= i < |ps| ==> r[i] == ps[i].name
  {
    seq(|ps|, i requires 0 <= i < |ps| => ps[i].name)
  }

  /** Python's `<` on lists of strings and on lists of particles. */
  function NameListLess(a: seq<string>, b: seq<string>): bool { Ordering.LexLess(a, b, NameLess) }
  function ParticleListLess(a: seq<Particle>, b: seq<Particle>): bool { Ordering.LexLess(a, b, ParticleLess) }

  lemma ListOrders()
    ensures Ordering.StrictTotalOrder(NameListLess)
    ensures Ordering.StrictTotalOrder(ParticleListLess)
  {
    NameOrder();
    ParticleOrder();
    Ordering.LexStrictTotal(NameLess);
    Ordering.LexStrictTotal(ParticleLess);
  }

  /** The entries of a table, in key order. */
  function Entries(t: Table): (r: seq<seq<Particle>>)
    requires Valid(t)
    ensures |r| == |t.keys| && forall i :: 0 <= i < |r| ==> r[i] == t.vals[t.keys[i]]
  {
    seq(|t.keys|, i requires 0 <= i < |t.keys| => t.vals[t.keys[i]])
  }

  function MapNames(es: seq<seq<Particle>>): (r: seq<seq<string>>)
    ensures |r| == |es| && forall i :: 0 <= i < |es| ==> r[i] == Names(es[i])
  {
    seq(|es|, i requires 0 <= i < |es| => Names(es[i]))
  }

  /** `topology_id(identical)` of a chain whose sorted table is `t`. */
  function TopologyId(t: Table, identical: bool): TopoId
    requires Valid(t)
  {
    if identical then ByNames(Ordering.Sort(MapNames(Entries(t)), NameListLess))
    else ByParticles(Ordering.Sort(Entries(t), ParticleListLess))
  }

  /** `topology_same(other, identical)`: equal fingerprints. */
  predicate TopologySame(a: Table, b: Table, identical: bool)
    requires Valid(a) && Valid(b)
  {
    TopologyId(a, identical) == TopologyId(b, identical)
  }

  /** Applying a function elementwise. */
  function MapSeq<A, B>(s: seq<A>, f: A -> B): (r: seq<B>)
    ensures |r| == |s| && forall i :: 0 <= i < |s| ==> r[i] == f(s[i])
  {
    seq(|s|, i requires 0 <= i < |s| => f(s[i]))
  }

  /** `ms` is `s` with `f` applied to each element. */
  ghost predicate MappedBy<A, B>(s: seq<A>, ms: seq<B>, f: A -> B)
  {
    |ms| == |s| && forall i :: 0 <= i < |s| ==> ms[i] == f(s[i])
  }

  lemma RemoveAtMultiset<A>(u: seq<A>, k: nat)
    requires k < |u|
    ensures multiset(u) == multiset(u[..k] + u[k + 1..]) + multiset{u[k]}
  {
    assert u == u[..k] + [u[k]] + u[k + 1..];
  }

  lemma MappedRemove<A, B>(u: seq<A>, mu: seq<B>, k: nat, f: A -> B)
    requires MappedBy(u, mu, f) && k < |u|
    ensures MappedBy(u[..k] + u[k + 1..], mu[..k] + mu[k + 1..], f)
  {
    var u', mu' := u[..k] + u[k + 1..], mu[..k] + mu[k + 1..];
    forall i | 0 <= i < |u'| ensures mu'[i] == f(u'[i]) {
      if i < k {
        assert mu'[i] == mu[i] && u'[i] == u[i];
      } else {
        assert mu'[i] == mu[i + 1] && u'[i] == u[i + 1];
      }
    }
  }

  lemma CancelOne<A>(a: multiset<A>, b: multiset<A>, x: A)
    requires a + multiset{x} == b + multiset{x}
    ensures a == b
  {
    assert forall y :: a[y] == (a + multiset{x})[y] - multiset{x}[y];
    assert forall y :: b[y] == (b + multiset{x})[y] - multiset{x}[y];
  }

  /** Where the first element of `s` sits in `u`, and what is left on both sides. */
  lemma MatchFirst<A>(s: seq<A>, u: seq<A>) returns (k: nat)
    requires s != [] && multiset(s) == multiset(u)
    ensures k < |u| && u[k] == s[0]
    ensures multiset(s[..0] + s[1..]) == multiset(u[..k] + u[k + 1..])
  {
    assert s[0] in multiset(u);
    k :| 0 <= k < |u| && u[k] == s[0];
    RemoveAtMultiset(s, 0);
    RemoveAtMultiset(u, k);
    CancelOne(multiset(s[..0] + s[1..]), multiset(u[..k] + u[k + 1..]), s[0]);
  }

  /** Mapping two sequences with equal multisets gives equal multisets. */
  lemma {:induction false} MappedMultiset<A, B>(s: seq<A>, u: seq<A>, ms: seq<B>, mu: seq<B>, f: A -> B)
    requires multiset(s) == multiset(u)
    requires MappedBy(s, ms, f) && MappedBy(u, mu, f)
    ensures multiset(ms) == multiset(mu)
  {
    if s != [] {
      var k := MatchFirst(s, u);
      var s', u', ms', mu' := s[..0] + s[1..], u[..k] + u[k + 1..], ms[..0] + ms[1..], mu[..k] + mu[k + 1..];
      MappedRemove(s, ms, 0, f);
      MappedRemove(u, mu, k, f);
      MappedMultiset(s', u', ms', mu', f);
      RemoveAtMultiset(ms, 0);
      RemoveAtMultiset(mu, k);
    }
  }

  /** Elementwise application keeps equal multisets equal. */
  lemma MapSeqMultiset<A, B>(s: seq<A>, u: seq<A>, f: A -> B)
    requires multiset(s) == multiset(u)
    ensures multiset(MapSeq(s, f)) == multiset(MapSeq(u, f))
  {
    MappedMultiset(s, u, MapSeq(s, f), MapSeq(u, f), f);
  }

  lemma MapNamesMultiset(s: seq<seq<Particle>>, u: seq<seq<Particle>>)
    requires multiset(s) == multiset(u)
    ensures multiset(MapNames(s)) == multiset(MapNames(u))
  {
    MapSeqMultiset(s, u, Names);
    assert MapNames(s) == MapSeq(s, Names);
    assert MapNames(u) == MapSeq(u, Names);
  }

  /** The table's keys in any insertion order give the same multiset of entries. */
  lemma EntriesMultiset(a: Table, b: Table)
    requires Valid(a) && Valid(b) && a.vals == b.vals
    ensures multiset(Entries(a)) == multiset(Entries(b))
  {
    DistinctKeysMultiset(a.keys, b.keys);
    var g := (k: Particle) => if k in a.vals then a.vals[k] else [];
    MapSeqMultiset(a.keys, b.keys, g);
    assert Entries(a) == MapSeq(a.keys, g);
    assert Entries(b) == MapSeq(b.keys, g);
  }

  lemma DistinctKeysMultiset(s: seq<Particle>, u: seq<Particle>)
    requires UniqueKeys(s) && UniqueKeys(u)
    requires forall x :: x in s <==> x in u
    ensures multiset(s) == multiset(u)
  {
    forall x ensures multiset(s)[x] == multiset(u)[x] {
      CountOfUnique(s, x);
      CountOfUnique(u, x);
    }
  }

  lemma {:induction false} CountOfUnique(s: seq<Particle>, x: Particle)
    requires UniqueKeys(s)
    ensures multiset(s)[x] == if x in s then 1 else 0
  {
    if s != [] {
      assert UniqueKeys(s[1..]) by {
        forall i, j | 0 <= i < j < |s[1..]| ensures s[1..][i] != s[1..][j] {
          assert s[1..][i] == s[i + 1] && s[1..][j] == s[j + 1];
        }
      }
      CountOfUnique(s[1..], x);
      assert s == [s[0]] + s[1..];
      if s[0] == x {
        assert x !in s[1..] by {
          forall i | 0 <= i < |s[1..]| ensures s[1..][i] != x {
            assert s[1..][i] == s[i + 1];
          }
        }
      }
    }
  }

  /** The fingerprint depends only on the table's contents, not on the order its keys
      were inserted in. */
  lemma TopologyIdOrderFree(a: Table, b: Table, identical: bool)
    requires Valid(a) && Valid(b) && a.vals == b.vals
    ensures TopologyId(a, identical) == TopologyId(b, identical)
  {
    ListOrders();
    EntriesMultiset(a, b);
    MapNamesMultiset(Entries(a), Entries(b));
    Ordering.SortByMultiset(MapNames(Entries(a)), MapNames(Entries(b)), NameListLess);
    Ordering.SortByMultiset(Entries(a), Entries(b), ParticleListLess);
  }

  /** Without identical particles, two chains have the same topology exactly when their
      tables hold the same entries, counted with multiplicity. */
  lemma TopologySameIff(a: Table, b: Table)
    requires Valid(a) && Valid(b)
    ensures TopologySame(a, b, false) <==> multiset(Entries(a)) == multiset(Entries(b))
  {
    ListOrders();
    if multiset(Entries(a)) == multiset(Entries(b)) {
      Ordering.SortByMultiset(Entries(a), Entries(b), ParticleListLess);
    }
    Ordering.SortPermutes(Entries(a), ParticleListLess);
    Ordering.SortPermutes(Entries(b), ParticleListLess);
  }

  /** Equal topology with particles told apart implies equal topology by names. */
  lemma TopologySameRefines(a: Table, b: Table)
    requires Valid(a) && Valid(b)
    requires TopologySame(a, b, false)
    ensures TopologySame(a, b, true)
  {
    ListOrders();
    TopologySameIff(a, b);
    MapNamesMultiset(Entries(a), Entries(b));
    Ordering.SortByMultiset(MapNames(Entries(a)), MapNames(Entries(b)), NameListLess);
  }

  /** `topology_same` is an equivalence relation. */
  lemma TopologySameEquivalence(a: Table, b: Table, c: Table, identical: bool)
    requires Valid(a) && Valid(b) && Valid(c)
    ensures TopologySame(a, a, identical)
    ensures TopologySame(a, b, identical) ==> TopologySame(b, a, identical)
    ensures TopologySame(a, b, identical) && TopologySame(b, c, identical) ==> TopologySame(a, c, identical)
  {
  }

  // ---------------------------------------------------------------------------
  // topology_map

  /** The one dictionary `topology_map` returns, split by the kind of its keys:
      particles to particles, and decays (keyed by their identity, as Python hashes
      them) to decays of the other chain. */
  datatype TopoMap = TopoMap(parts: Dict<Particle, Particle>, decays: Dict<(Particle, seq<Particle>), Decay>)

  /** Index of the first key of `t` whose entry is `v`. */
  function FirstEntry(t: Table, v: seq<Particle>): (r: Option<nat>)
    requires Valid(t)
    ensures r.Some? ==> r.value < |t.keys| && t.vals[t.keys[r.value]] == v
    ensures r.Some? ==> forall i :: 0 <= i < r.value ==> t.vals[t.keys[i]] != v
    ensures r.None? ==> forall i :: 0 <= i < |t.keys| ==> t.vals[t.keys[i]] != v
  {
    FirstEntryFrom(t, v, 0)
  }

  function FirstEntryFrom(t: Table, v: seq<Particle>, n: nat): (r: Option<nat>)
    requires Valid(t) && n <= |t.keys|
    requires forall i :: 0 <= i < n ==> t.vals[t.keys[i]] != v
    ensures r.Some? ==> n <= r.value < |t.keys| && t.vals[t.keys[r.value]] == v
    ensures r.Some? ==> forall i :: 0 <= i < r.value ==> t.vals[t.keys[i]] != v
    ensures r.None? ==> forall i :: 0 <= i < |t.keys| ==> t.vals[t.keys[i]] != v
    decreases |t.keys| - n
  {
    if n == |t.keys| then None
    else if t.vals[t.keys[n]] == v then Some(n)
    else FirstEntryFrom(t, v, n + 1)
  }

  /** Index of the first decay of `chain` equal (as `BaseDecay.__eq__`) to one of
      identity `id`. */
  function FirstDecay(chain: seq<Decay>, id: (Particle, seq<Particle>)): (r: Option<nat>)
    ensures r.Some? ==> r.value < |chain| && DecayId(chain[r.value]) == id
    ensures r.Some? ==> forall i :: 0 <= i < r.value ==> DecayId(chain[i]) != id
    ensures r.None? ==> forall i :: 0 <= i < |chain| ==> DecayId(chain[i]) != id
  {
    FirstDecayFrom(chain, id, 0)
  }

  function FirstDecayFrom(chain: seq<Decay>, id: (Particle, seq<Particle>), n: nat): (r: Option<nat>)
    requires n <= |chain|
    requires forall i :: 0 <= i < n ==> DecayId(chain[i]) != id
    ensures r.Some? ==> n <= r.value < |chain| && DecayId(chain[r.value]) == id
    ensures r.Some? ==> forall i :: 0 <= i < r.value ==> DecayId(chain[i]) != id
    ensures r.None? ==> forall i :: 0 <= i < |chain| ==> DecayId(chain[i]) != id
    decreases |chain| - n
  {
    if n == |chain| then None
    else if DecayId(chain[n]) == id then Some(n)
    else FirstDecayFrom(chain, id, n + 1)
  }

  /** A particle of the first chain has an image: its entry occurs in the other table. */
  predicate Mapped(a: Table, b: Table, p: Particle)
    requires Valid(a) && Valid(b)
  {
    p in a.vals && FirstEntry(b, a.vals[p]).Some?
  }

  /** Every particle of the decay has an image. */
  predicate DecayMapped(a: Table, b: Table, d: Decay)
    requires Valid(a) && Valid(b)
  {
    Mapped(a, b, d.core) && forall k :: k in d.outs ==> Mapped(a, b, k)
  }

  /** The keys of `a` that have an image, in `a`'s order. */
  function MappedKeys(a: Table, b: Table, ks: seq<Particle>): (r: seq<Particle>)
    requires Valid(a) && Valid(b)
    ensures forall p :: p in r <==> p in ks && Mapped(a, b, p)
  {
    if ks == [] then []
    else if Mapped(a, b, ks[|ks| - 1]) then MappedKeys(a, b, ks[..|ks| - 1]) + [ks[|ks| - 1]]
    else MappedKeys(a, b, ks[..|ks| - 1])
  }

  function Lookup(pm: map<Particle, Particle>, p: Particle): Particle
  {
    if p in pm then pm[p] else p
  }

  /** `BaseDecay(ret[i.core], [ret[k] for k in i.outs])`: a decay carried over. */
  function MapDecay(pm: map<Particle, Particle>, d: Decay): (r: Decay)
    ensures r.core == Lookup(pm, d.core)
    ensures |r.outs| == |d.outs| && forall i :: 0 <= i < |d.outs| ==> r.outs[i] == Lookup(pm, d.outs[i])
  {
    Decay(Lookup(pm, d.core), seq(|d.outs|, i requires 0 <= i < |d.outs| => Lookup(pm, d.outs[i])))
  }

  /** Equal decays are carried to equal decays, so the decay part of the map does not
      depend on which of several equal decays wrote it last. */
  lemma MapDecayEq(pm: map<Particle, Particle>, d1: Decay, d2: Decay)
    requires DecayEq(d1, d2)
    ensures DecayEq(MapDecay(pm, d1), MapDecay(pm, d2))
  {
    DecayEqIff(d1, d2);
    var f := (p: Particle) => Lookup(pm, p);
    MapSeqMultiset(d1.outs, d2.outs, f);
    assert MapDecay(pm, d1).outs == MapSeq(d1.outs, f);
    assert MapDecay(pm, d2).outs == MapSeq(d2.outs, f);
    DecayEqIff(MapDecay(pm, d1), MapDecay(pm, d2));
  }

  /** Under an identity particle map a decay is carried to itself. */
  lemma MapDecayIdentity(pm: map<Particle, Particle>, d: Decay)
    requires d.core in pm && pm[d.core] == d.core
    requires forall k :: k in d.outs ==> k in pm && pm[k] == k
    ensures MapDecay(pm, d) == d
  {
    assert MapDecay(pm, d).outs == d.outs;
  }

  /** The entries of the table are pairwise different: no two particles play the same
      part. */
  ghost predicate DistinctEntries(t: Table)
  {
    forall p, q :: p in t.vals && q in t.vals && p != q ==> t.vals[p] != t.vals[q]
  }

  /** Mapping a table onto itself sends each particle to itself when entries are
      distinct. */
  lemma FirstEntrySelf(t: Table, p: Particle)
    requires Valid(t) && DistinctEntries(t) && p in t.vals
    ensures FirstEntry(t, t.vals[p]).Some?
    ensures t.keys[FirstEntry(t, t.vals[p]).value] == p
  {
    var k :| 0 <= k < |t.keys| && t.keys[k] == p;
    assert t.vals[t.keys[k]] == t.vals[p];
  }

  /** `DecayChain.topology_map`, given the sorted tables `a` of this chain and `b` of
      the other: each particle goes to the first key of `b` with the same entry, each
      decay to the first decay of the other chain equal to its image; a particle of a
      decay without an image raises `KeyError`. */
  method TopologyMap(a: Table, selfChain: seq<Decay>, b: Table, otherChain: seq<Decay>) returns (r: Result<TopoMap>)
    requires Valid(a) && Valid(b)
    ensures r.Err? <==> exists i :: 0 <= i < |selfChain| && !DecayMapped(a, b, selfChain[i])
    ensures r.Err? ==> r.error.KeyError?
    ensures r.Ok? ==> Valid(r.value.parts) && Valid(r.value.decays)
    ensures r.Ok? ==> r.value.parts.keys == MappedKeys(a, b, a.keys)
    ensures r.Ok? ==> forall p :: p in r.value.parts.vals ==>
              Mapped(a, b, p) && r.value.parts.vals[p] == b.keys[FirstEntry(b, a.vals[p]).value]
    ensures r.Ok? ==> r.value.decays.vals.Keys <= IdsOf(selfChain, |selfChain|)
    ensures r.Ok? ==> forall i :: 0 <= i < |selfChain| ==>
              DecayCarried(r.value.parts.vals, r.value.decays, selfChain[i], otherChain)
  {
    var parts := MapParticles(a, b);
    forall d: Decay {
      CanMapIff(a, b, parts, d);
    }
    var decays := MapDecays(parts.vals, selfChain, otherChain);
    if decays.Err? {
      return Err(decays.error);
    }
    r := Ok(TopoMap(parts, decays.value));
  }

  /** The decay part of the map for decay `d`: its identity is a key exactly when its
      image occurs in the other chain, and then it maps to the first such decay. */
  ghost predicate DecayCarried(pm: map<Particle, Particle>, decays: Dict<(Particle, seq<Particle>), Decay>,
                               d: Decay, other: seq<Decay>)
  {
    && (DecayId(d) in decays.vals <==> Target(pm, d, other).Some?)
    && (Target(pm, d, other).Some? ==> decays.vals[DecayId(d)] == other[Target(pm, d, other).value])
  }

  /** The identities of the first `n` decays of the chain. */
  ghost function IdsOf(chain: seq<Decay>, n: nat): set<(Particle, seq<Particle>)>
    requires n <= |chain|
  {
    set i | 0 <= i < n :: DecayId(chain[i])
  }

  lemma IdsOfSnoc(chain: seq<Decay>, n: nat)
    requires n < |chain|
    ensures IdsOf(chain, n + 1) == IdsOf(chain, n) + {DecayId(chain[n])}
  {
  }

  /** Where the decay `d` goes in the other chain. */
  function Target(pm: map<Particle, Particle>, d: Decay, other: seq<Decay>): (r: Option<nat>)
    ensures r.Some? ==> r.value < |other|
  {
    FirstDecay(other, DecayId(MapDecay(pm, d)))
  }

  /** The particle loop of `topology_map`. */
  method MapParticles(a: Table, b: Table) returns (parts: Dict<Particle, Particle>)
    requires Valid(a) && Valid(b)
    ensures Valid(parts)
    ensures parts.keys == MappedKeys(a, b, a.keys)
    ensures forall p :: p in parts.vals ==> Mapped(a, b, p) && parts.vals[p] == b.keys[FirstEntry(b, a.vals[p]).value]
  {
    parts := Empty<Particle, Particle>();
    for n := 0 to |a.keys|
      invariant Valid(parts)
      invariant parts.keys == MappedKeys(a, b, a.keys[..n])
      invariant forall p :: p in parts.vals ==> Mapped(a, b, p) && parts.vals[p] == b.keys[FirstEntry(b, a.vals[p]).value]
    {
      var p := a.keys[n];
      assert a.keys[..n + 1][..n] == a.keys[..n];
      var m := FindEntry(b, a.vals[p]);
      if m < |b.keys| {
        NotYetMapped(a, b, n, parts.keys);
        parts := Put(parts, p, b.keys[m]);
      }
    }
    assert a.keys[..|a.keys|] == a.keys;
  }

  /** Every particle of the decay is a key of the particle map. */
  predicate CanMap(pm: map<Particle, Particle>, d: Decay)
  {
    d.core in pm && forall k :: k in d.outs ==> k in pm
  }

  lemma CanMapIff(a: Table, b: Table, parts: Dict<Particle, Particle>, d: Decay)
    requires Valid(a) && Valid(b)
    requires forall p :: p in parts.vals <==> Mapped(a, b, p)
    ensures CanMap(parts.vals, d) <==> DecayMapped(a, b, d)
  {
  }

  /** The decay loop of `topology_map`, over the particle part `pm` built first. */
  method MapDecays(pm: map<Particle, Particle>, selfChain: seq<Decay>, otherChain: seq<Decay>)
    returns (r: Result<Dict<(Particle, seq<Particle>), Decay>>)
    ensures r.Err? <==> exists i :: 0 <= i < |selfChain| && !CanMap(pm, selfChain[i])
    ensures r.Err? ==> r.error.KeyError?
    ensures r.Ok? ==> Valid(r.value)
    ensures r.Ok? ==> r.value.vals.Keys <= IdsOf(selfChain, |selfChain|)
    ensures r.Ok? ==> forall i :: 0 <= i < |selfChain| ==> DecayCarried(pm, r.value, selfChain[i], otherChain)
  {
    var decays := Empty<(Particle, seq<Particle>), Decay>();
    for n := 0 to |selfChain|
      invariant n <= |selfChain|
      invariant Valid(decays)
      invariant decays.vals.Keys <= IdsOf(selfChain, n)
      invariant forall i :: 0 <= i < n ==> CanMap(pm, selfChain[i])
      invariant forall i :: 0 <= i < n ==> DecayCarried(pm, decays, selfChain[i], otherChain)
    {
      if !CanMap(pm, selfChain[n]) {
        return Err(KeyError("particle without an image"));
      }
      decays := DecayStep(pm, decays, selfChain, n, otherChain);
    }
    r := Ok(decays);
  }

  /** One step of the decay loop, once the decay's particles are known to have images. */
  method DecayStep(pm: map<Particle, Particle>, decays: Dict<(Particle, seq<Particle>), Decay>,
                   selfChain: seq<Decay>, n: nat, otherChain: seq<Decay>)
    returns (r: Dict<(Particle, seq<Particle>), Decay>)
    requires Valid(decays) && n < |selfChain|
    requires decays.vals.Keys <= IdsOf(selfChain, n)
    requires forall i :: 0 <= i < n ==> DecayCarried(pm, decays, selfChain[i], otherChain)
    ensures Valid(r)
    ensures r.vals.Keys <= IdsOf(selfChain, n + 1)
    ensures forall i :: 0 <= i < n + 1 ==> DecayCarried(pm, r, selfChain[i], otherChain)
  {
    var m := FindDecay(otherChain, DecayId(MapDecay(pm, selfChain[n])));
    if m < |otherChain| {
      r := CarryDecay(pm, decays, selfChain, n, otherChain, m);
    } else {
      NotCarried(pm, decays, selfChain, n, otherChain);
      r := decays;
    }
  }

  /** One step of the decay loop with a match: `ret[i] = j`. */
  method CarryDecay(pm: map<Particle, Particle>, decays: Dict<(Particle, seq<Particle>), Decay>,
                    selfChain: seq<Decay>, n: nat, otherChain: seq<Decay>, m: nat)
    returns (r: Dict<(Particle, seq<Particle>), Decay>)
    requires Valid(decays) && n < |selfChain|
    requires FirstDecay(otherChain, DecayId(MapDecay(pm, selfChain[n]))) == Some(m)
    requires decays.vals.Keys <= IdsOf(selfChain, n)
    requires forall i :: 0 <= i < n ==> DecayCarried(pm, decays, selfChain[i], otherChain)
    ensures Valid(r)
    ensures r.vals.Keys <= IdsOf(selfChain, n + 1)
    ensures forall i :: 0 <= i < n + 1 ==> DecayCarried(pm, r, selfChain[i], otherChain)
  {
    var d := selfChain[n];
    r := Put(decays, DecayId(d), otherChain[m]);
    forall i | 0 <= i < n + 1
      ensures DecayCarried(pm, r, selfChain[i], otherChain)
    {
      CarriedAfterPut(pm, decays, d, m, selfChain[i], otherChain, i == n);
    }
    IdsOfSnoc(selfChain, n);
  }

  /** A decay whose image has no match: no equal decay before it wrote a key. */
  lemma NotCarried(pm: map<Particle, Particle>, decays: Dict<(Particle, seq<Particle>), Decay>,
                   selfChain: seq<Decay>, n: nat, otherChain: seq<Decay>)
    requires n < |selfChain|
    requires FirstDecay(otherChain, DecayId(MapDecay(pm, selfChain[n]))).None?
    requires decays.vals.Keys <= IdsOf(selfChain, n)
    requires forall i :: 0 <= i < n ==> DecayCarried(pm, decays, selfChain[i], otherChain)
    ensures forall i :: 0 <= i < n + 1 ==> DecayCarried(pm, decays, selfChain[i], otherChain)
  {
    var d := selfChain[n];
    if DecayId(d) in decays.vals {
      var i :| 0 <= i < n && DecayId(selfChain[i]) == DecayId(d);
      NoEarlierKey(pm, decays, selfChain[i], d, otherChain);
    }
  }

  lemma NoEarlierKey(pm: map<Particle, Particle>, decays: Dict<(Particle, seq<Particle>), Decay>,
                     e: Decay, d: Decay, otherChain: seq<Decay>)
    requires DecayId(e) == DecayId(d)
    requires FirstDecay(otherChain, DecayId(MapDecay(pm, d))).None?
    requires DecayCarried(pm, decays, e, otherChain)
    ensures DecayId(d) !in decays.vals
  {
    MapDecayEq(pm, e, d);
  }

  lemma CarriedAfterPut(pm: map<Particle, Particle>, decays: Dict<(Particle, seq<Particle>), Decay>,
                        d: Decay, m: nat, e: Decay, other: seq<Decay>, isNew: bool)
    requires FirstDecay(other, DecayId(MapDecay(pm, d))) == Some(m)
    requires isNew ==> e == d
    requires !isNew ==> DecayCarried(pm, decays, e, other)
    ensures DecayCarried(pm, Put(decays, DecayId(d), other[m]), e, other)
  {
    if DecayId(e) == DecayId(d) {
      MapDecayEq(pm, e, d);
    }
  }

  /** The inner search of the particle loop: index of the first key of `t` whose entry
      is `v`, or `|t.keys|`. */
  method FindEntry(t: Table, v: seq<Particle>) returns (m: nat)
    requires Valid(t)
    ensures m <= |t.keys|
    ensures m < |t.keys| <==> FirstEntry(t, v).Some?
    ensures m < |t.keys| ==> FirstEntry(t, v).value == m
  {
    m := 0;
    while m < |t.keys|
      invariant m <= |t.keys|
      invariant forall k :: 0 <= k < m ==> t.vals[t.keys[k]] != v
    {
      if t.vals[t.keys[m]] == v {
        return;
      }
      m := m + 1;
    }
  }

  /** The inner search of the decay loop. */
  method FindDecay(chain: seq<Decay>, id: (Particle, seq<Particle>)) returns (m: nat)
    ensures m <= |chain|
    ensures m < |chain| <==> FirstDecay(chain, id).Some?
    ensures m < |chain| ==> FirstDecay(chain, id).value == m
  {
    m := 0;
    while m < |chain|
      invariant m <= |chain|
      invariant forall k :: 0 <= k < m ==> DecayId(chain[k]) != id
    {
      if DecayId(chain[m]) == id {
        return;
      }
      m := m + 1;
    }
  }

  lemma NotYetMapped(a: Table, b: Table, n: nat, ks: seq<Particle>)
    requires Valid(a) && Valid(b) && n < |a.keys|
    requires ks == MappedKeys(a, b, a.keys[..n])
    ensures a.keys[n] !in ks
  {
    assert forall i :: 0 <= i < n ==> a.keys[..n][i] != a.keys[n];
  }

  /** Mapping a chain onto itself: with pairwise different entries every particle of
      the table is mapped, and to itself. */
  lemma SelfParticleMap(a: Table, parts: Dict<Particle, Particle>)
    requires Valid(a) && DistinctEntries(a)
    requires forall p :: p in parts.vals ==> Mapped(a, a, p) && parts.vals[p] == a.keys[FirstEntry(a, a.vals[p]).value]
    ensures forall p :: Mapped(a, a, p) <==> p in a.vals
    ensures forall p :: p in parts.vals ==> parts.vals[p] == p
  {
    forall p | p in a.vals
      ensures FirstEntry(a, a.vals[p]).Some? && a.keys[FirstEntry(a, a.vals[p]).value] == p
    {
      FirstEntrySelf(a, p);
    }
  }

  /** ... and then every decay of the chain is mapped to a decay equal to itself. */
  lemma SelfDecayMap(pm: map<Particle, Particle>, decays: Dict<(Particle, seq<Particle>), Decay>, chain: seq<Decay>)
    requires forall p :: p in pm ==> pm[p] == p
    requires forall i :: 0 <= i < |chain| ==> CanMap(pm, chain[i]) && DecayCarried(pm, decays, chain[i], chain)
    ensures forall i :: 0 <= i < |chain| ==>
              DecayId(chain[i]) in decays.vals && DecayEq(decays.vals[DecayId(chain[i])], chain[i])
  {
    forall i | 0 <= i < |chain|
      ensures DecayId(chain[i]) in decays.vals && DecayEq(decays.vals[DecayId(chain[i])], chain[i])
    {
      MapDecayIdentity(pm, chain[i]);
      assert DecayId(chain[i]) == DecayId(MapDecay(pm, chain[i]));
    }
  }
}
