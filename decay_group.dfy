/**
 * `DecayGroup` (tf_pwa/particle.py): a set of decay chains from one top particle to
 * the same final particles, the resonances they use, and one representative chain
 * per topology.
 */
module DecayGroups {

  import opened Wrappers
  import opened Particles
  import opened PyDicts
  import opened Topology
  import opened TopologyCompare

  /** The fields a `DecayGroup` is built with. */
  datatype DecayGroup = DecayGroup(chains: seq<DecayChain>, top: Particle, outs: seq<Particle>, resonances: seq<Particle>)

  // ---------------------------------------------------------------------------
  // Resonances: first occurrences, in order

  /** `s` with every repeated element dropped after its first occurrence. */
  function Dedup<T(==)>(s: seq<T>): seq<T>
  {
    if s == [] then []
    else
      var d := Dedup(s[..|s| - 1]);
      if s[|s| - 1] in d then d else d + [s[|s| - 1]]
  }

  lemma DedupSnoc<T>(s: seq<T>, x: T)
    ensures Dedup(s + [x]) == if x in Dedup(s) then Dedup(s) else Dedup(s) + [x]
  {
    assert (s + [x])[..|s|] == s;
  }

  /** Deduplication keeps exactly the elements, each once. */
  lemma {:induction false} DedupElements<T>(s: seq<T>)
    ensures forall x :: x in Dedup(s) <==> x in s
    ensures Ordering.Distinct(Dedup(s))
  {
    if s != [] {
      var s' := s[..|s| - 1];
      DedupElements(s');
      assert s == s' + [s[|s| - 1]];
    }
  }

  /** A sequence without repeats is its own deduplication. */
  lemma {:induction false} DedupDistinct<T>(s: seq<T>)
    requires Ordering.Distinct(s)
    ensures Dedup(s) == s
  {
    if s != [] {
      var s' := s[..|s| - 1];
      assert Ordering.Distinct(s');
      DedupDistinct(s');
      assert s[|s| - 1] !in s';
      assert s == s' + [s[|s| - 1]];
    }
  }

  /** Deduplicating twice is deduplicating once. */
  lemma DedupIdempotent<T>(s: seq<T>)
    ensures Dedup(Dedup(s)) == Dedup(s)
  {
    DedupElements(s);
    DedupDistinct(Dedup(s));
  }

  /** The inner particles of the chains, one list after another. */
  function InnerLists(chains: seq<DecayChain>): seq<Particle>
  {
    if chains == [] then [] else InnerLists(chains[..|chains| - 1]) + chains[|chains| - 1].inner
  }

  lemma {:induction false} InnerListsMembers(chains: seq<DecayChain>, x: Particle)
    ensures x in InnerLists(chains) <==> exists i :: 0 <= i < |chains| && x in chains[i].inner
  {
    if chains != [] {
      var c' := chains[..|chains| - 1];
      InnerListsMembers(c', x);
      if x in InnerLists(chains) && x !in chains[|chains| - 1].inner {
        var i :| 0 <= i < |c'| && x in c'[i].inner;
        assert chains[i] == c'[i];
      }
      if exists i :: 0 <= i < |chains| && x in chains[i].inner {
        var i :| 0 <= i < |chains| && x in chains[i].inner;
        if i < |c'| {
          assert c'[i] == chains[i];
        }
      }
    }
  }

  // ---------------------------------------------------------------------------
  // The constructor

  /** What the constructor guarantees of every `DecayGroup`. */
  ghost predicate ValidGroup(g: DecayGroup)
  {
    && g.chains != []
    && (forall c :: c in g.chains ==> ValidChain(c) && c.top == g.top && c.outs == g.outs)
    && g.resonances == Dedup(InnerLists(g.chains))
  }

  /** `DecayGroup(chains)` for a list of `DecayChain`s: an IndexError when there is no
      chain, an AssertionError when some chain has another top or other final
      particles than the first. */
  method NewDecayGroup(chains: seq<DecayChain>) returns (r: Result<DecayGroup>)
    requires forall c :: c in chains ==> ValidChain(c)
    ensures chains == [] <==> r.Err? && r.error.IndexError?
    ensures r.Err? && r.error.AssertionError? <==>
              chains != [] && exists c :: c in chains && (c.top != chains[0].top || c.outs != chains[0].outs)
    ensures r.Ok? ==> ValidGroup(r.value) && r.value.chains == chains
    ensures r.Ok? ==> r.value.top == chains[0].top && r.value.outs == chains[0].outs
    ensures r.Err? ==> r.error.IndexError? || r.error.AssertionError?
  {
    if chains == [] {
      return Err(IndexError("list index out of range"));
    }
    var first := chains[0];
    SortedOuts(first);
    var outs := SortParticles(first.outs);
    for i := 0 to |chains|
      invariant forall j :: 0 <= j < i ==> chains[j].top == first.top && chains[j].outs == first.outs
    {
      if chains[i].top != first.top || chains[i].outs != first.outs {
        return Err(AssertionError("particles are different"));
      }
    }
    var resonances := CollectResonances(chains);
    r := Ok(DecayGroup(chains, first.top, outs, resonances));
  }

  /** The resonance loop of the constructor: each inner particle of each chain, in
      order, unless it is already listed. */
  method CollectResonances(chains: seq<DecayChain>) returns (resonances: seq<Particle>)
    ensures resonances == Dedup(InnerLists(chains))
  {
    resonances := [];
    for i := 0 to |chains|
      invariant resonances == Dedup(InnerLists(chains[..i]))
    {
      resonances := DedupAppend(InnerLists(chains[..i]), resonances, chains[i].inner);
      InnerListsSnoc(chains, i);
    }
    assert chains[..|chains|] == chains;
  }

  lemma InnerListsSnoc(chains: seq<DecayChain>, i: nat)
    requires i < |chains|
    ensures InnerLists(chains[..i + 1]) == InnerLists(chains[..i]) + chains[i].inner
  {
    assert chains[..i + 1][..i] == chains[..i];
  }

  /** Extends the deduplication of `acc` by the elements of `xs`, one at a time. */
  method DedupAppend<T(==)>(ghost acc: seq<T>, d: seq<T>, xs: seq<T>) returns (r: seq<T>)
    requires d == Dedup(acc)
    ensures r == Dedup(acc + xs)
  {
    r := d;
    SnocPrefix(acc, xs, 0);
    for m := 0 to |xs|
      invariant r == Dedup(acc + xs[..m])
    {
      DedupSnoc(acc + xs[..m], xs[m]);
      SnocPrefix(acc, xs, m + 1);
      if xs[m] !in r {
        r := r + [xs[m]];
      }
    }
    assert xs[..|xs|] == xs;
  }

  lemma SnocPrefix<T>(acc: seq<T>, xs: seq<T>, m: nat)
    requires m <= |xs|
    ensures m == 0 ==> acc + xs[..m] == acc
    ensures 0 < m ==> acc + xs[..m] == acc + xs[..m - 1] + [xs[m - 1]]
  {
    if 0 < m {
      assert xs[..m] == xs[..m - 1] + [xs[m - 1]];
    }
  }

  /** The resonances of a group are its chains' inner particles, each listed once. */
  lemma Resonances(g: DecayGroup)
    requires ValidGroup(g)
    ensures Ordering.Distinct(g.resonances)
    ensures forall x :: x in g.resonances <==> exists c :: c in g.chains && x in c.inner
  {
    DedupElements(InnerLists(g.chains));
    forall x ensures x in g.resonances <==> exists c :: c in g.chains && x in c.inner {
      InnerListsMembers(g.chains, x);
    }
  }

  /** Two valid chains have the same top and the same final list exactly when their
      decays have the same top and final particles. */
  lemma SameEndsIff(c1: DecayChain, c2: DecayChain)
    requires ValidChain(c1) && ValidChain(c2)
    ensures c1.top == c2.top && c1.outs == c2.outs <==>
              TopSet(c1.chain) == TopSet(c2.chain) && FinalSet(c1.chain) == FinalSet(c2.chain)
  {
    if FinalSet(c1.chain) == FinalSet(c2.chain) {
      ParticleOrder();
      Ordering.SortedUnique(c1.outs, c2.outs, ParticleLess);
    }
    if c1.outs == c2.outs {
      var f1, f2 := FinalSet(c1.chain), FinalSet(c2.chain);
      assert forall x :: x in f1 <==> x in multiset(f1);
      assert forall x :: x in f2 <==> x in multiset(f2);
      assert f1 == f2;
    }
  }

  /** Every list of decays has the top and final particles of the first. */
  ghost predicate SameEnds(lists: seq<seq<Decay>>)
    requires lists != []
  {
    forall i :: 0 <= i < |lists| ==> TopSet(lists[i]) == TopSet(lists[0]) && FinalSet(lists[i]) == FinalSet(lists[0])
  }

  /** For the chains built from `lists`, all share the first chain's top and final list
      exactly when all lists share the first list's top and final particles. */
  lemma GroupEnds(chains: seq<DecayChain>, lists: seq<seq<Decay>>)
    requires lists != [] && |chains| == |lists|
    requires forall j :: 0 <= j < |chains| ==> ValidChain(chains[j]) && chains[j].chain == lists[j]
    ensures SameEnds(lists) <==> forall c :: c in chains ==> c.top == chains[0].top && c.outs == chains[0].outs
  {
    forall j | 0 <= j < |chains|
      ensures chains[j].top == chains[0].top && chains[j].outs == chains[0].outs <==>
                TopSet(lists[j]) == TopSet(lists[0]) && FinalSet(lists[j]) == FinalSet(lists[0])
    {
      SameEndsIff(chains[j], chains[0]);
    }
    if !SameEnds(lists) {
      var j :| 0 <= j < |lists| && !(TopSet(lists[j]) == TopSet(lists[0]) && FinalSet(lists[j]) == FinalSet(lists[0]));
      assert chains[j] in chains;
    }
  }

  /** `[DecayChain(i) for i in chains]`: the first list without exactly one top fails
      the conversion with AssertionError. */
  method ChainsOfLists(lists: seq<seq<Decay>>) returns (r: Result<seq<DecayChain>>)
    ensures r.Err? <==> exists i :: 0 <= i < |lists| && |TopSet(lists[i])| != 1
    ensures r.Err? ==> r.error.AssertionError?
    ensures r.Ok? ==> |r.value| == |lists|
    ensures r.Ok? ==> forall i :: 0 <= i < |lists| ==> ValidChain(r.value[i]) && r.value[i].chain == lists[i]
  {
    var chains: seq<DecayChain> := [];
    for i := 0 to |lists|
      invariant |chains| == i
      invariant forall j :: 0 <= j < i ==> ValidChain(chains[j]) && chains[j].chain == lists[j]
      invariant forall j :: 0 <= j < i ==> |TopSet(lists[j])| == 1
    {
      var c := NewDecayChain(lists[i]);
      if c.Err? {
        return Err(c.error);
      }
      chains := chains + [c.value];
    }
    r := Ok(chains);
  }

  /** `DecayGroup(chains)` for lists of decays: each becomes a `DecayChain` first.  It
      succeeds exactly when there is a list, each has one top, and all share the top and
      final particles; otherwise a non-empty input fails with AssertionError. */
  method DecayGroupFromDecays(lists: seq<seq<Decay>>) returns (r: Result<DecayGroup>)
    ensures lists == [] ==> r.Err? && r.error.IndexError?
    ensures (exists i :: 0 <= i < |lists| && |TopSet(lists[i])| != 1) ==> r.Err? && r.error.AssertionError?
    ensures r.Ok? <==> lists != [] && (forall i :: 0 <= i < |lists| ==> |TopSet(lists[i])| == 1) && SameEnds(lists)
    ensures lists != [] && r.Err? ==> r.error.AssertionError?
    ensures r.Ok? ==> ValidGroup(r.value) && |r.value.chains| == |lists|
    ensures r.Ok? ==> forall i :: 0 <= i < |lists| ==> r.value.chains[i].chain == lists[i]
  {
    if lists == [] {
      return Err(IndexError("list index out of range"));
    }
    var chains := ChainsOfLists(lists);
    if chains.Err? {
      return Err(chains.error);
    }
    GroupEnds(chains.value, lists);
    r := NewDecayGroup(chains.value);
  }

  // ---------------------------------------------------------------------------
  // topology_structure

  /** The kept positions: strictly increasing positions of `ts`. */
  ghost predicate Positions(kept: seq<nat>, n: nat)
  {
    && (forall k :: 0 <= k < |kept| ==> kept[k] < n)
    && (forall a, b :: 0 <= a < b < |kept| ==> kept[a] < kept[b])
  }

  /** `kept` lists, in order, the positions of the first occurrence of each distinct
      value in `ids`: exactly those that no earlier value equals. Hence no two kept
      values are equal and every value equals a kept one. */
  ghost predicate FirstOfEach<Y>(ids: seq<Y>, kept: seq<nat>, n: nat)
    requires n <= |ids|
  {
    && Positions(kept, n)
    && (forall i :: 0 <= i < n ==> (i in kept <==> forall j :: 0 <= j < i ==> ids[j] != ids[i]))
    && (forall a, b :: 0 <= a < b < |kept| ==> ids[kept[a]] != ids[kept[b]])
    && (forall i :: 0 <= i < n ==> Covered(ids, kept, i))
  }

  /** Some kept value equals `ids[i]`. */
  ghost predicate Covered<Y>(ids: seq<Y>, kept: seq<nat>, i: nat)
    requires i < |ids|
  {
    exists k :: 0 <= k < |kept| && kept[k] < |ids| && ids[i] == ids[kept[k]]
  }

  lemma CoveredGrows<Y>(ids: seq<Y>, kept: seq<nat>, i: nat, x: nat)
    requires i < |ids| && Covered(ids, kept, i)
    ensures Covered(ids, kept + [x], i)
  {
    var k :| 0 <= k < |kept| && kept[k] < |ids| && ids[i] == ids[kept[k]];
    assert (kept + [x])[k] == kept[k];
  }

  /** The loop of `topology_structure` over the fingerprints `ids` of the chains: each
      is kept unless one kept before is equal. */
  method KeepDistinct<Y(==)>(ids: seq<Y>) returns (kept: seq<nat>)
    ensures FirstOfEach(ids, kept, |ids|)
  {
    kept := [];
    for n := 0 to |ids|
      invariant FirstOfEach(ids, kept, n)
    {
      var found := FindSame(ids, kept, n);
      if found.None? {
        KeepNew(ids, kept, n);
        kept := kept + [n];
      } else {
        KeepOld(ids, kept, n, found.value);
      }
    }
  }

  lemma KeepNew<Y>(ids: seq<Y>, kept: seq<nat>, n: nat)
    requires n < |ids| && FirstOfEach(ids, kept, n)
    requires forall k :: 0 <= k < |kept| ==> ids[n] != ids[kept[k]]
    ensures FirstOfEach(ids, kept + [n], n + 1)
  {
    forall j | 0 <= j < n ensures ids[j] != ids[n] {
      assert Covered(ids, kept, j);
      var k :| 0 <= k < |kept| && kept[k] < |ids| && ids[j] == ids[kept[k]];
    }
    var kept' := kept + [n];
    assert ids[n] == ids[kept'[|kept|]];
    forall i | 0 <= i < n ensures i in kept' <==> i in kept {
    }
    forall i | 0 <= i < n + 1 ensures Covered(ids, kept', i) {
      if i < n {
        CoveredGrows(ids, kept, i, n);
      }
    }
  }

  lemma KeepOld<Y>(ids: seq<Y>, kept: seq<nat>, n: nat, f: nat)
    requires n < |ids| && FirstOfEach(ids, kept, n)
    requires f < |kept| && ids[n] == ids[kept[f]]
    ensures FirstOfEach(ids, kept, n + 1)
  {
    assert n !in kept;
    forall i | 0 <= i < n + 1 ensures i in kept <==> forall j :: 0 <= j < i ==> ids[j] != ids[i] {
      if i == n {
        assert kept[f] < n && ids[kept[f]] == ids[n];
      }
    }
    forall i | 0 <= i < n + 1 ensures Covered(ids, kept, i) {
      if i == n {
        assert kept[f] < n;
      }
    }
    assert Positions(kept, n + 1);
  }

  /** The inner loop: the first kept fingerprint equal to `ids[n]`. */
  method FindSame<Y(==)>(ids: seq<Y>, kept: seq<nat>, n: nat) returns (found: Option<nat>)
    requires n < |ids| && Positions(kept, n)
    ensures found.Some? ==> found.value < |kept| && ids[n] == ids[kept[found.value]]
    ensures found.None? ==> forall k :: 0 <= k < |kept| ==> ids[n] != ids[kept[k]]
  {
    for j := 0 to |kept|
      invariant forall k :: 0 <= k < j ==> ids[n] != ids[kept[k]]
    {
      if ids[n] == ids[kept[j]] {
        return Some(j);
      }
    }
    return None;
  }

  /** `sorted_table()` of every chain, in order; `None` when one of them would not
      finish. */
  method ChainTables(chains: seq<DecayChain>) returns (r: Option<seq<Table>>)
    requires forall c :: c in chains ==> ValidChain(c)
    ensures (forall c :: c in chains ==> Layered(c.chain)) ==> r.Some?
    ensures r.Some? ==> |r.value| == |chains|
    ensures r.Some? ==> forall i :: 0 <= i < |chains| ==>
              && Valid(r.value[i])
              && r.value[i].vals.Keys == FinalSet(chains[i].chain) + CoreSet(chains[i].chain)
              && chains[i].top in r.value[i].vals && r.value[i].vals[chains[i].top] == chains[i].outs
    ensures r.Some? ==> forall i :: 0 <= i < |chains| ==> IsSortedTableOf(chains[i], r.value[i])
  {
    var ts: seq<Table> := [];
    for i := 0 to |chains|
      invariant |ts| == i
      invariant forall j :: 0 <= j < i ==> IsSortedTableOf(chains[j], ts[j])
    {
      assert chains[i] in chains;
      assert chains[i].top in TopSet(chains[i].chain);
      var t := SortedTable(chains[i]);
      if t.None? {
        return None;
      }
      ts := ts + [t.value];
    }
    return Some(ts);
  }

  /** `topology_id(identical)` of every table. */
  function Fingerprints(ts: seq<Table>, identical: bool): (r: seq<TopoId>)
    requires forall i :: 0 <= i < |ts| ==> Valid(ts[i])
    ensures |r| == |ts|
    ensures forall i :: 0 <= i < |ts| ==> r[i] == TopologyId(ts[i], identical)
  {
    seq(|ts|, i requires 0 <= i < |ts| => TopologyId(ts[i], identical))
  }

  /** `topology_structure(identical, standard=False)`: the chains of the group, keeping
      a chain only when no earlier one has the same topology.  A single chain is returned
      as it is, without building its table.  With two or more chains every chain is
      compared, so every sorted table is built; `None` when one would not finish.
      `ts` are the chains' sorted tables and `kept` the positions of the chains returned. */
  method TopologyStructure(g: DecayGroup, identical: bool)
    returns (r: Option<seq<DecayChain>>, ghost ts: seq<Table>, ghost kept: seq<nat>)
    requires ValidGroup(g)
    ensures |g.chains| == 1 ==> r == Some(g.chains)
    ensures (forall c :: c in g.chains ==> Layered(c.chain)) ==> r.Some?
    ensures r.Some? ==> r.value != [] && r.value[0] == g.chains[0]
    ensures r.Some? && |g.chains| >= 2 ==> TablesOf(g.chains, ts) && KeptOf(g.chains, ts, kept, identical, r.value)
  {
    ts, kept := [], [0];
    if |g.chains| == 1 {
      return Some(g.chains), ts, kept;
    }
    var tables := ChainTables(g.chains);
    if tables.None? {
      return None, ts, kept;
    }
    ts := tables.value;
    var res;
    res, kept := KeepTopologies(g.chains, tables.value, identical);
    r := Some(res);
  }

  /** `ts` are sorted tables of the chains, one each, in order. */
  ghost predicate TablesOf(chains: seq<DecayChain>, ts: seq<Table>)
  {
    |ts| == |chains| && forall i :: 0 <= i < |ts| ==> IsSortedTableOf(chains[i], ts[i])
  }

  /** `res` lists the chains at the positions `kept`, which are the first of each
      fingerprint; no two of them have the same topology, and a chain is kept exactly
      when no earlier chain has its topology. */
  ghost predicate KeptOf(chains: seq<DecayChain>, ts: seq<Table>, kept: seq<nat>, identical: bool, res: seq<DecayChain>)
    requires TablesOf(chains, ts)
  {
    && FirstOfEach(Fingerprints(ts, identical), kept, |ts|)
    && res == seq(|kept|, k requires 0 <= k < |kept| => chains[kept[k]])
    && (forall a, b :: 0 <= a < b < |kept| ==> !TopologySame(ts[kept[a]], ts[kept[b]], identical))
    && (forall i :: 0 <= i < |ts| ==> (i in kept <==> forall j :: 0 <= j < i ==> !TopologySame(ts[j], ts[i], identical)))
  }

  /** The loop of `topology_structure` once the tables are built. */
  method KeepTopologies(chains: seq<DecayChain>, ts: seq<Table>, identical: bool)
    returns (r: seq<DecayChain>, kept: seq<nat>)
    requires chains != [] && TablesOf(chains, ts)
    ensures FirstOfEach(Fingerprints(ts, identical), kept, |ts|)
    ensures r == seq(|kept|, k requires 0 <= k < |kept| => chains[kept[k]])
    ensures r != [] && r[0] == chains[0]
    ensures forall a, b :: 0 <= a < b < |kept| ==> !TopologySame(ts[kept[a]], ts[kept[b]], identical)
    ensures forall i :: 0 <= i < |ts| ==> (i in kept <==> forall j :: 0 <= j < i ==> !TopologySame(ts[j], ts[i], identical))
    ensures KeptOf(chains, ts, kept, identical, r)
  {
    var ids := Fingerprints(ts, identical);
    kept := KeepDistinct(ids);
    assert 0 in kept;
    KeptTopologies(ts, kept, identical);
    forall i | 0 <= i < |ts|
      ensures i in kept <==> forall j :: 0 <= j < i ==> !TopologySame(ts[j], ts[i], identical)
    {
      KeptFirst(ts, kept, identical, i);
    }
    r := seq(|kept|, m requires 0 <= m < |kept| => chains[kept[m]]);
    assert KeptOf(chains, ts, kept, identical, r);
  }

  /** Which sorted table is taken does not matter: for a layered chain in which every
      particle decays once, any two tables meeting `IsSortedTableOf` compare the same
      way with any other table. */
  lemma SameTopologyDetermined(c: DecayChain, t: Table, t': Table, u: Table, identical: bool, level: Particle -> nat)
    requires ValidChain(c) && UniqueCores(c.chain) && LayeredBy(c.chain, level)
    requires IsSortedTableOf(c, t) && IsSortedTableOf(c, t') && Valid(u)
    ensures TopologySame(t, u, identical) <==> TopologySame(t', u, identical)
  {
    SortedTableDetermined(c, t, t', level);
    TopologyIdOrderFree(t, t', identical);
  }

  /** Equal fingerprints are `topology_same`. */
  lemma SameIds(ts: seq<Table>, identical: bool, x: nat, y: nat)
    requires forall i :: 0 <= i < |ts| ==> Valid(ts[i])
    requires x < |ts| && y < |ts|
    ensures TopologySame(ts[x], ts[y], identical) <==> Fingerprints(ts, identical)[x] == Fingerprints(ts, identical)[y]
  {
  }

  /** What `topology_structure` keeps, in terms of `topology_same`: no two kept chains
      have the same topology, and every chain has the topology of a kept one. */
  lemma KeptTopologies(ts: seq<Table>, kept: seq<nat>, identical: bool)
    requires forall i :: 0 <= i < |ts| ==> Valid(ts[i])
    requires FirstOfEach(Fingerprints(ts, identical), kept, |ts|)
    ensures forall a, b :: 0 <= a < b < |kept| ==> !TopologySame(ts[kept[a]], ts[kept[b]], identical)
    ensures forall i :: 0 <= i < |ts| ==> TopologyKept(ts, kept, identical, i)
  {
    var same := SameTest(identical);
    SameIsFingerprint(ts, identical);
    KeptRelation(ts, Fingerprints(ts, identical), kept, same);
    forall i | 0 <= i < |ts| ensures TopologyKept(ts, kept, identical, i) {
      assert SameAsKept(ts, kept, same, i);
      var k :| 0 <= k < |kept| && kept[k] < |ts| && same(ts[i], ts[kept[k]]);
      assert TopologySame(ts[i], ts[kept[k]], identical);
    }
  }

  /** Some kept chain has the topology of chain `i`. */
  ghost predicate TopologyKept(ts: seq<Table>, kept: seq<nat>, identical: bool, i: nat)
    requires forall i :: 0 <= i < |ts| ==> Valid(ts[i])
    requires i < |ts|
  {
    exists k :: 0 <= k < |kept| && kept[k] < |ts| && TopologySame(ts[i], ts[kept[k]], identical)
  }

  /** A chain is kept by `topology_structure` exactly when no earlier chain has its
      topology. */
  lemma KeptFirst(ts: seq<Table>, kept: seq<nat>, identical: bool, i: nat)
    requires forall i :: 0 <= i < |ts| ==> Valid(ts[i])
    requires FirstOfEach(Fingerprints(ts, identical), kept, |ts|)
    requires i < |ts|
    ensures i in kept <==> forall j :: 0 <= j < i ==> !TopologySame(ts[j], ts[i], identical)
  {
    var same := SameTest(identical);
    SameIsFingerprint(ts, identical);
    KeptRelationAt(ts, Fingerprints(ts, identical), kept, same, i);
  }

  /** `topology_same` as a test on two tables. */
  ghost function SameTest(identical: bool): (Table, Table) -> bool
  {
    (a: Table, b: Table) => Valid(a) && Valid(b) && TopologySame(a, b, identical)
  }

  lemma SameIsFingerprint(ts: seq<Table>, identical: bool)
    requires forall i :: 0 <= i < |ts| ==> Valid(ts[i])
    ensures forall x, y :: 0 <= x < |ts| && 0 <= y < |ts| ==>
              (SameTest(identical)(ts[x], ts[y]) <==> Fingerprints(ts, identical)[x] == Fingerprints(ts, identical)[y])
  {
    forall x, y | 0 <= x < |ts| && 0 <= y < |ts|
      ensures SameTest(identical)(ts[x], ts[y]) <==> Fingerprints(ts, identical)[x] == Fingerprints(ts, identical)[y]
    {
      SameIds(ts, identical, x, y);
    }
  }

  /** Where `same` holds exactly between equal fingerprints, the first-of-each positions
      are pairwise not `same`, and cover every element up to `same`. */
  lemma KeptRelation<X, Y>(xs: seq<X>, ids: seq<Y>, kept: seq<nat>, same: (X, X) -> bool)
    requires |ids| == |xs| && FirstOfEach(ids, kept, |xs|)
    requires forall x, y :: 0 <= x < |xs| && 0 <= y < |xs| ==> (same(xs[x], xs[y]) <==> ids[x] == ids[y])
    ensures forall a, b :: 0 <= a < b < |kept| ==> !same(xs[kept[a]], xs[kept[b]])
    ensures forall i :: 0 <= i < |xs| ==> SameAsKept(xs, kept, same, i)
  {
    forall a, b | 0 <= a < b < |kept| ensures !same(xs[kept[a]], xs[kept[b]]) {
      assert kept[a] < |xs| && kept[b] < |xs| && ids[kept[a]] != ids[kept[b]];
    }
    forall i | 0 <= i < |xs| ensures SameAsKept(xs, kept, same, i) {
      assert Covered(ids, kept, i);
      var k :| 0 <= k < |kept| && kept[k] < |ids| && ids[i] == ids[kept[k]];
      assert same(xs[i], xs[kept[k]]);
    }
  }

  /** Some kept element is `same` as `xs[i]`. */
  ghost predicate SameAsKept<X>(xs: seq<X>, kept: seq<nat>, same: (X, X) -> bool, i: nat)
    requires i < |xs|
  {
    exists k :: 0 <= k < |kept| && kept[k] < |xs| && same(xs[i], xs[kept[k]])
  }

  /** Where `same` holds exactly between equal fingerprints, an element is kept exactly
      when no earlier one is `same` as it. */
  lemma KeptRelationAt<X, Y>(xs: seq<X>, ids: seq<Y>, kept: seq<nat>, same: (X, X) -> bool, i: nat)
    requires |ids| == |xs| && FirstOfEach(ids, kept, |xs|) && i < |xs|
    requires forall x, y :: 0 <= x < |xs| && 0 <= y < |xs| ==> (same(xs[x], xs[y]) <==> ids[x] == ids[y])
    ensures i in kept <==> forall j :: 0 <= j < i ==> !same(xs[j], xs[i])
  {
    assert i in kept <==> forall j :: 0 <= j < i ==> ids[j] != ids[i];
    forall j | 0 <= j < i ensures ids[j] != ids[i] <==> !same(xs[j], xs[i]) {
    }
  }
}
