/**
 * Enumerating decay topologies (tf_pwa/particle.py): the edge-splitting graph
 * `_Chain_Graph` and `DecayChain.from_particles`, which grows every binary decay
 * tree by inserting the final particles one at a time into an edge.
 */
module ChainGraphs {

  import opened Wrappers
  import opened Particles
  import opened PyDicts
  import opened Topology

  /** A vertex: a particle, or the inner node named "node_k". */
  datatype Vertex = Leaf(p: Particle) | Node(k: nat)

  /** A directed edge, from the decaying vertex to one of its products. */
  type Edge = (Vertex, Vertex)

  /** `[0, 1, ..., n - 1]`: the node names created so far. */
  function Range(n: nat): (r: seq<nat>)
    ensures |r| == n && forall i :: 0 <= i < n ==> r[i] == i
  {
    if n == 0 then [] else Range(n - 1) + [n - 1]
  }

  /** Every inner node on an edge has been created. */
  ghost predicate KnownNodes(es: seq<Edge>, count: nat)
  {
    forall e :: e in es ==> (e.0.Node? ==> e.0.k < count) && (e.1.Node? ==> e.1.k < count)
  }

  /** Index of the first occurrence of `e`. */
  function IndexOf(s: seq<Edge>, e: Edge): (i: nat)
    requires e in s
    ensures i < |s| && s[i] == e && e !in s[..i]
  {
    if s[0] == e then 0
    else
      var i := IndexOf(s[1..], e) + 1;
      assert s[..i] == [s[0]] + s[1..][..i - 1];
      i
  }

  /** The edges after `add_node(e, d)` made node `n`: `e` (its first occurrence)
      gives way to `e.0 -> n`, `n -> e.1` and `n -> d`. */
  function NodeInserted(es: seq<Edge>, e: Edge, n: nat, d: Vertex): seq<Edge>
    requires e in es
  {
    var i := IndexOf(es, e);
    es[..i] + es[i + 1..] + [(e.0, Node(n)), (Node(n), e.1), (Node(n), d)]
  }

  class ChainGraph {
    var nodes: seq<nat>
    var edges: seq<Edge>
    var count: nat

    /** Nodes are created as node_0, node_1, ... and `count` is the next number. */
    ghost predicate Valid()
      reads this
    {
      nodes == Range(count) && KnownNodes(edges, count)
    }

    constructor ()
      ensures Valid()
      ensures nodes == [] && edges == [] && count == 0
    {
      nodes := [];
      edges := [];
      count := 0;
    }

    /** `add_edge(a, b)` */
    method AddEdge(a: Vertex, b: Vertex)
      modifies this
      ensures edges == old(edges) + [(a, b)]
      ensures nodes == old(nodes) && count == old(count)
      ensures old(Valid()) && KnownNodes([(a, b)], count) ==> Valid()
    {
      edges := edges + [(a, b)];
    }

    /** `add_node(e, d)`: splits edge `e` with a new node that also produces `d`;
        `list.remove` raises `ValueError` when `e` is not an edge. */
    method AddNode(e: Edge, d: Vertex) returns (r: Result<()>)
      modifies this
      ensures r.Err? <==> e !in old(edges)
      ensures r.Err? ==> r.error.ValueError? && edges == old(edges) && nodes == old(nodes) && count == old(count)
      ensures r.Ok? ==> edges == NodeInserted(old(edges), e, old(count), d)
      ensures r.Ok? ==> nodes == old(nodes) + [old(count)] && count == old(count) + 1
      ensures r.Ok? ==> |edges| == |old(edges)| + 2
      ensures r.Ok? && old(Valid()) && !d.Node? ==> Valid()
    {
      if e !in edges {
        return Err(ValueError("list.remove(x): x not in list"));
      }
      var i := IndexOf(edges, e);
      edges := edges[..i] + edges[i + 1..];
      var node := count;
      nodes := nodes + [node];
      edges := edges + [(e.0, Node(node))];
      edges := edges + [(Node(node), e.1)];
      edges := edges + [(Node(node), d)];
      count := count + 1;
      r := Ok(());
      if old(Valid()) && !d.Node? {
        forall x | x in old(edges)[..i] + old(edges)[i + 1..] ensures x in old(edges) {
        }
      }
    }

    /** `copy()`: a new graph with the same nodes, edges and count. */
    method Copy() returns (g: ChainGraph)
      ensures fresh(g)
      ensures g.nodes == nodes && g.edges == edges && g.count == count
    {
      g := new ChainGraph();
      g.nodes := nodes;
      g.edges := edges;
      g.count := count;
    }
  }

  // ---------------------------------------------------------------------------
  // The shape of a graph grown from one edge

  /** The products of `v`, in edge order. */
  function TargetsFrom(es: seq<Edge>, v: Vertex): (r: seq<Vertex>)
    ensures forall w :: w in r <==> (v, w) in es
  {
    if es == [] then []
    else
      var r := TargetsFrom(es[..|es| - 1], v) + (if es[|es| - 1].0 == v then [es[|es| - 1].1] else []);
      assert es == es[..|es| - 1] + [es[|es| - 1]];
      r
  }

  /** Every edge reversed. */
  function Flip(es: seq<Edge>): (r: seq<Edge>)
    ensures |r| == |es| && forall i :: 0 <= i < |es| ==> r[i] == (es[i].1, es[i].0)
  {
    seq(|es|, i requires 0 <= i < |es| => (es[i].1, es[i].0))
  }

  /** The vertices producing `v`. */
  function SourcesTo(es: seq<Edge>, v: Vertex): seq<Vertex>
  {
    TargetsFrom(Flip(es), v)
  }

  lemma {:induction false} TargetsFromAppend(a: seq<Edge>, b: seq<Edge>, v: Vertex)
    ensures TargetsFrom(a + b, v) == TargetsFrom(a, v) + TargetsFrom(b, v)
  {
    if b == [] {
      assert a + b == a;
    } else {
      var b' := b[..|b| - 1];
      assert (a + b)[..|a + b| - 1] == a + b';
      var last := b[|b| - 1];
      assert (a + b)[|a + b| - 1] == last;
      assert b == b' + [last];
      TargetsFromAppend(a, b', v);
      assert TargetsFrom(a + b, v) == TargetsFrom(a + b', v) + (if last.0 == v then [last.1] else []);
      var x := if last.0 == v then [last.1] else [];
      assert TargetsFrom(b, v) == TargetsFrom(b', v) + x;
      assert TargetsFrom(a, v) + TargetsFrom(b', v) + x == TargetsFrom(a, v) + (TargetsFrom(b', v) + x);
    }
  }

  lemma FlipAppend(a: seq<Edge>, b: seq<Edge>)
    ensures Flip(a + b) == Flip(a) + Flip(b)
  {
  }

  ghost function Sources(es: seq<Edge>): set<Vertex> { set e | e in es :: e.0 }
  ghost function Targets(es: seq<Edge>): set<Vertex> { set e | e in es :: e.1 }

  /** The particles at the leaves. */
  ghost function LeafTargets(es: seq<Edge>): set<Particle>
  {
    set e | e in es && e.1.Leaf? :: e.1.p
  }

  /** The edges of a binary decay tree rooted at `top` with inner nodes node_0 ...
      node_{count-1}: `top` is produced by nothing and decays once, only `top` and
      inner nodes decay, the first decay of `top` is to an inner node once there is
      one, and every inner node is produced once and decays to two vertices. */
  ghost predicate TreeShape(es: seq<Edge>, top: Particle, count: nat)
  {
    && KnownNodes(es, count)
    && Leaf(top) !in Targets(es)
    && (forall v :: v in Sources(es) ==> v == Leaf(top) || v.Node?)
    && |TargetsFrom(es, Leaf(top))| == 1
    && (count > 0 ==> TargetsFrom(es, Leaf(top))[0].Node?)
    && (forall k :: 0 <= k < count ==> |TargetsFrom(es, Node(k))| == 2)
    && (forall k :: 0 <= k < count ==> |SourcesTo(es, Node(k))| == 1)
  }

  /** The single edge `top -> f` is such a tree. */
  lemma BaseShape(top: Particle, f: Particle)
    requires f != top
    ensures TreeShape([(Leaf(top), Leaf(f))], top, 0)
    ensures LeafTargets([(Leaf(top), Leaf(f))]) == {f}
  {
    var es := [(Leaf(top), Leaf(f))];
    assert es[..0] == [];
    assert TargetsFrom(es, Leaf(top)) == [Leaf(f)];
  }

  /** The products in the three edges `add_node` appends. */
  lemma NewEdgesTargets(x: Vertex, y: Vertex, m: Vertex, d: Vertex, v: Vertex)
    requires x != m
    ensures TargetsFrom([(x, m), (m, y), (m, d)], v) ==
              if v == m then [y, d] else if v == x then [m] else []
  {
    assert [(x, m), (m, y), (m, d)] == [(x, m)] + [(m, y)] + [(m, d)];
    TargetsFromAppend([(x, m)] + [(m, y)], [(m, d)], v);
    TargetsFromAppend([(x, m)], [(m, y)], v);
    SingleTargets((x, m), v);
    SingleTargets((m, y), v);
    SingleTargets((m, d), v);
  }

  lemma SingleTargets(e: Edge, v: Vertex)
    ensures TargetsFrom([e], v) == if e.0 == v then [e.1] else []
  {
    assert [e][..0] == [];
  }

  /** Removing the edge at position `i` removes its product from its source's list. */
  lemma RemovedTargets(es: seq<Edge>, i: nat, v: Vertex)
    requires i < |es|
    ensures TargetsFrom(es, v) == TargetsFrom(es[..i], v) + TargetsFrom([es[i]], v) + TargetsFrom(es[i + 1..], v)
    ensures TargetsFrom(es[..i] + es[i + 1..], v) == TargetsFrom(es[..i], v) + TargetsFrom(es[i + 1..], v)
  {
    assert es == es[..i] + [es[i]] + es[i + 1..];
    TargetsFromAppend(es[..i] + [es[i]], es[i + 1..], v);
    TargetsFromAppend(es[..i], [es[i]], v);
    TargetsFromAppend(es[..i], es[i + 1..], v);
  }

  lemma NoTargets(es: seq<Edge>, v: Vertex)
    requires v !in Sources(es)
    ensures TargetsFrom(es, v) == []
  {
    var r := TargetsFrom(es, v);
    assert forall w :: w !in r;
  }

  /** How `add_node` changes the products of each vertex: `e`'s source trades `e.1`
      for the new node, and the new node gets `e.1` and `d`. */
  lemma InsertedTargets(es: seq<Edge>, e: Edge, n: nat, d: Vertex, v: Vertex)
    requires e in es && Node(n) !in Sources(es) && v != Node(n)
    ensures |TargetsFrom(NodeInserted(es, e, n, d), v)| == |TargetsFrom(es, v)|
    ensures v != e.0 ==> TargetsFrom(NodeInserted(es, e, n, d), v) == TargetsFrom(es, v)
    ensures v == e.0 && |TargetsFrom(es, v)| == 1 ==> TargetsFrom(NodeInserted(es, e, n, d), v) == [Node(n)]
  {
    var i := IndexOf(es, e);
    assert e.0 in Sources(es);
    RemovedTargets(es, i, v);
    SingleTargets(e, v);
    TargetsFromAppend(es[..i] + es[i + 1..], [(e.0, Node(n)), (Node(n), e.1), (Node(n), d)], v);
    NewEdgesTargets(e.0, e.1, Node(n), d, v);
    ReplacedPart(TargetsFrom(es[..i], v), TargetsFrom([e], v), TargetsFrom(es[i + 1..], v),
                 TargetsFrom([(e.0, Node(n)), (Node(n), e.1), (Node(n), d)], v));
  }

  /** `a + b + c` with `b` dropped and `m` put at the end instead. */
  lemma ReplacedPart<T>(a: seq<T>, b: seq<T>, c: seq<T>, m: seq<T>)
    requires |b| == |m|
    ensures |a + c + m| == |a + b + c|
    ensures b == [] && m == [] ==> a + c + m == a + b + c
    ensures |a + b + c| == 1 && |b| == 1 ==> a + c + m == m
  {
    if b == [] && m == [] {
      assert a + c + m == a + c && a + b + c == a + c;
    }
  }

  lemma InsertedNewTargets(es: seq<Edge>, e: Edge, n: nat, d: Vertex)
    requires e in es && Node(n) !in Sources(es)
    ensures TargetsFrom(NodeInserted(es, e, n, d), Node(n)) == [e.1, d]
  {
    var i := IndexOf(es, e);
    assert e.0 in Sources(es);
    assert Node(n) !in Sources(es[..i] + es[i + 1..]) by {
      forall x | x in es[..i] + es[i + 1..] ensures x in es {
      }
    }
    NoTargets(es[..i] + es[i + 1..], Node(n));
    TargetsFromAppend(es[..i] + es[i + 1..], [(e.0, Node(n)), (Node(n), e.1), (Node(n), d)], Node(n));
    NewEdgesTargets(e.0, e.1, Node(n), d, Node(n));
  }

  lemma FlippedNewTargets(x: Vertex, y: Vertex, m: Vertex, d: Vertex, v: Vertex)
    ensures |TargetsFrom([(m, x), (y, m), (d, m)], v)| ==
              (if v == m then 1 else 0) + (if v == y then 1 else 0) + (if v == d then 1 else 0)
  {
    assert [(m, x), (y, m), (d, m)] == [(m, x)] + [(y, m)] + [(d, m)];
    TargetsFromAppend([(m, x)] + [(y, m)], [(d, m)], v);
    TargetsFromAppend([(m, x)], [(y, m)], v);
    SingleTargets((m, x), v);
    SingleTargets((y, m), v);
    SingleTargets((d, m), v);
  }

  lemma FlipInserted(es: seq<Edge>, e: Edge, n: nat, d: Vertex)
    requires e in es
    ensures Flip(NodeInserted(es, e, n, d)) ==
              Flip(es)[..IndexOf(es, e)] + Flip(es)[IndexOf(es, e) + 1..] + [(Node(n), e.0), (e.1, Node(n)), (d, Node(n))]
  {
    var i := IndexOf(es, e);
    var news := [(e.0, Node(n)), (Node(n), e.1), (Node(n), d)];
    FlipAppend(es[..i] + es[i + 1..], news);
    FlipAppend(es[..i], es[i + 1..]);
    assert Flip(es[..i]) == Flip(es)[..i] && Flip(es[i + 1..]) == Flip(es)[i + 1..];
  }

  lemma SourcesAfterInsert(es: seq<Edge>, e: Edge, n: nat, d: Vertex, w: Vertex)
    requires e in es
    ensures |SourcesTo(NodeInserted(es, e, n, d), w)| ==
              |SourcesTo(es, w)| + (if w == Node(n) then 1 else 0) + (if w == d then 1 else 0)
  {
    var i := IndexOf(es, e);
    FlipInserted(es, e, n, d);
    assert Flip(es)[i] == (e.1, e.0);
    RemovedTargets(Flip(es), i, w);
    SingleTargets(Flip(es)[i], w);
    TargetsFromAppend(Flip(es)[..i] + Flip(es)[i + 1..], [(Node(n), e.0), (e.1, Node(n)), (d, Node(n))], w);
    FlippedNewTargets(e.0, e.1, Node(n), d, w);
  }

  lemma FlipSources(es: seq<Edge>, v: Vertex)
    requires v !in Targets(es)
    ensures SourcesTo(es, v) == []
  {
    assert v !in Sources(Flip(es)) by {
      forall x | x in Flip(es) ensures x.0 != v {
        var j :| 0 <= j < |Flip(es)| && Flip(es)[j] == x;
        assert es[j] in es;
      }
    }
    NoTargets(Flip(es), v);
  }

  /** ... and the producers of each vertex: `e.1` is now produced by the new node, which
      is produced by `e.0`, and `d` is produced once more. */
  lemma InsertedSources(es: seq<Edge>, e: Edge, n: nat, d: Vertex, v: Vertex)
    requires e in es && Node(n) !in Targets(es) && v != d && d != Node(n)
    ensures v != Node(n) ==> |SourcesTo(NodeInserted(es, e, n, d), v)| == |SourcesTo(es, v)|
    ensures |SourcesTo(NodeInserted(es, e, n, d), Node(n))| == 1
  {
    SourcesAfterInsert(es, e, n, d, v);
    SourcesAfterInsert(es, e, n, d, Node(n));
    FlipSources(es, Node(n));
  }

  lemma InsertedMembers(es: seq<Edge>, e: Edge, n: nat, d: Vertex)
    requires e in es
    ensures forall x :: x in NodeInserted(es, e, n, d) ==> x in es || x == (e.0, Node(n)) || x == (Node(n), e.1) || x == (Node(n), d)
    ensures forall x :: x in es && x != e ==> x in NodeInserted(es, e, n, d)
    ensures (e.0, Node(n)) in NodeInserted(es, e, n, d) && (Node(n), e.1) in NodeInserted(es, e, n, d)
    ensures (Node(n), d) in NodeInserted(es, e, n, d)
  {
    var i := IndexOf(es, e);
    assert forall x :: x in es[..i] + es[i + 1..] ==> x in es;
    forall x | x in es && x != e ensures x in es[..i] + es[i + 1..] {
      var j :| 0 <= j < |es| && es[j] == x;
      if j < i { assert es[..i][j] == x; } else { assert es[i + 1..][j - i - 1] == x; }
    }
  }

  lemma InsertLeaves(es: seq<Edge>, e: Edge, n: nat, d: Vertex)
    requires e in es && d.Leaf?
    ensures LeafTargets(NodeInserted(es, e, n, d)) == LeafTargets(es) + {d.p}
  {
    InsertedMembers(es, e, n, d);
  }

  /** `add_node(e, d)` with a new node and a leaf `d` other than `top` keeps the tree
      shape, and adds `d` to the leaves. */
  lemma InsertShape(es: seq<Edge>, e: Edge, count: nat, d: Vertex, top: Particle)
    requires TreeShape(es, top, count)
    requires e in es && d.Leaf? && d != Leaf(top)
    ensures TreeShape(NodeInserted(es, e, count, d), top, count + 1)
    ensures LeafTargets(NodeInserted(es, e, count, d)) == LeafTargets(es) + {d.p}
  {
    var es' := NodeInserted(es, e, count, d);
    var n := Node(count);
    assert n !in Sources(es) && n !in Targets(es);
    assert e.0 in Sources(es) && e.1 in Targets(es);
    InsertLeaves(es, e, count, d);
    InsertedMembers(es, e, count, d);
    assert KnownNodes(es', count + 1);
    assert Leaf(top) !in Targets(es');
    assert forall v :: v in Sources(es') ==> v == Leaf(top) || v.Node?;
    InsertCounts(es, e, count, d, top);
  }

  lemma InsertCounts(es: seq<Edge>, e: Edge, count: nat, d: Vertex, top: Particle)
    requires TreeShape(es, top, count)
    requires e in es && d.Leaf? && d != Leaf(top)
    ensures |TargetsFrom(NodeInserted(es, e, count, d), Leaf(top))| == 1
    ensures TargetsFrom(NodeInserted(es, e, count, d), Leaf(top))[0].Node?
    ensures forall k :: 0 <= k < count + 1 ==> |TargetsFrom(NodeInserted(es, e, count, d), Node(k))| == 2
    ensures forall k :: 0 <= k < count + 1 ==> |SourcesTo(NodeInserted(es, e, count, d), Node(k))| == 1
  {
    var es' := NodeInserted(es, e, count, d);
    assert Node(count) !in Sources(es) && Node(count) !in Targets(es);
    assert e.0 in Sources(es);
    InsertedTargets(es, e, count, d, Leaf(top));
    InsertedNewTargets(es, e, count, d);
    forall k | 0 <= k < count + 1 ensures |TargetsFrom(es', Node(k))| == 2 {
      if k < count {
        InsertedTargets(es, e, count, d, Node(k));
      }
    }
    forall k | 0 <= k < count + 1 ensures |SourcesTo(es', Node(k))| == 1 {
      InsertedSources(es, e, count, d, Node(k));
    }
  }

  // ---------------------------------------------------------------------------
  // get_graphs

  /** Number of graphs `get_graphs` makes from a graph with `e` edges and `n` particles
      still to place: each placement picks an edge and adds two. */
  function Placements(e: nat, n: nat): nat
    decreases n
  {
    if n == 0 then 1 else e * Placements(e + 2, n - 1)
  }

  /** 1 * 3 * 5 * ... * (2m - 1) */
  function OddProduct(m: nat): nat
  {
    if m == 0 then 1 else OddProduct(m - 1) * (2 * m - 1)
  }

  lemma {:induction false} PlacementsProduct(a: nat, m: nat)
    ensures OddProduct(a) * Placements(2 * a + 1, m) == OddProduct(a + m)
    decreases m
  {
    if m > 0 {
      PlacementsProduct(a + 1, m - 1);
      var rest := Placements(2 * a + 3, m - 1);
      assert Placements(2 * a + 1, m) == (2 * a + 1) * rest;
      assert OddProduct(a + 1) == OddProduct(a) * (2 * a + 1);
      assert 2 * (a + 1) + 1 == 2 * a + 3;
      MulAssoc(OddProduct(a), 2 * a + 1, rest);
    }
  }

  lemma MulAssoc(x: nat, y: nat, z: nat)
    ensures x * (y * z) == (x * y) * z
  {
  }

  /** From the single edge `top -> finals[0]`, placing the other n - 1 finals gives
      1 * 3 * ... * (2n - 3) graphs: 1, 3 and 15 for two, three and four finals. */
  lemma PlacementsFromOneEdge(n: nat)
    requires n >= 1
    ensures Placements(1, n - 1) == OddProduct(n - 1)
    ensures Placements(1, 1) == 1 && Placements(1, 2) == 3 && Placements(1, 3) == 15
  {
    PlacementsProduct(0, n - 1);
  }

  /** What a graph grown from one with `edges`, `count` nodes and leaves `leaves` by
      placing `ps` looks like. */
  ghost predicate Grown(h: ChainGraph, edges: seq<Edge>, count: nat, ps: seq<Particle>, top: Particle)
    reads h
  {
    && h.Valid()
    && |h.edges| == |edges| + 2 * |ps|
    && h.count == count + |ps|
    && LeafTargets(h.edges) == LeafTargets(edges) + (set p | p in ps)
    && (TreeShape(edges, top, count) && top !in ps ==> TreeShape(h.edges, top, h.count))
  }

  /** `get_graphs(g, ps)`: every way to place the particles `ps`, in order, each into
      one edge of the graph grown so far. */
  method GetGraphs(g: ChainGraph, ps: seq<Particle>, ghost top: Particle) returns (gs: seq<ChainGraph>)
    requires g.Valid()
    ensures |gs| == Placements(|g.edges|, |ps|)
    ensures ps == [] ==> gs == [g]
    ensures forall h :: h in gs ==> Grown(h, g.edges, g.count, ps, top)
    decreases |ps|
  {
    if ps == [] {
      assert (set p | p in ps) == {};
      return [g];
    }
    gs := [];
    var edges := g.edges;
    for n := 0 to |edges|
      invariant |gs| == n * Placements(|g.edges| + 2, |ps| - 1)
      invariant forall h :: h in gs ==> Grown(h, g.edges, g.count, ps, top)
    {
      var sub := PlaceInEdge(g, edges[n], ps, top);
      gs := gs + sub;
    }
  }

  /** One turn of `get_graphs`' loop: copy the graph, split edge `e` with the first
      particle, and place the rest. */
  method PlaceInEdge(g: ChainGraph, e: Edge, ps: seq<Particle>, ghost top: Particle) returns (sub: seq<ChainGraph>)
    requires g.Valid() && e in g.edges && ps != []
    ensures |sub| == Placements(|g.edges| + 2, |ps| - 1)
    ensures forall h :: h in sub ==> Grown(h, g.edges, g.count, ps, top)
    decreases |ps|, 0
  {
    var gi := g.Copy();
    var added := gi.AddNode(e, Leaf(ps[0]));
    sub := GetGraphs(gi, ps[1..], top);
    forall h | h in sub ensures Grown(h, g.edges, g.count, ps, top) {
      GrownStep(h, g.edges, g.count, e, ps, top);
    }
  }

  lemma GrownStep(h: ChainGraph, edges: seq<Edge>, count: nat, e: Edge, ps: seq<Particle>, top: Particle)
    requires e in edges && ps != []
    requires Grown(h, NodeInserted(edges, e, count, Leaf(ps[0])), count + 1, ps[1..], top)
    ensures Grown(h, edges, count, ps, top)
  {
    InsertLeaves(edges, e, count, Leaf(ps[0]));
    if TreeShape(edges, top, count) && top !in ps {
      InsertShape(edges, e, count, Leaf(ps[0]), top);
    }
    assert forall x :: x in ps <==> x == ps[0] || x in ps[1..];
    assert (set p | p in ps) == {ps[0]} + (set p | p in ps[1..]);
    assert |NodeInserted(edges, e, count, Leaf(ps[0]))| == |edges| + 2;
  }

  // ---------------------------------------------------------------------------
  // get_decay_chain

  /** `BaseParticle(head + "node_k")`, the particle that stands for node k. */
  function NodeParticle(head: string, k: nat): Particle
  {
    SetName(head + "node_" + NatToString(k), None)
  }

  /** `inner_particle.get(v, v)`: inner nodes become their particles. */
  function VertexParticle(head: string, v: Vertex): Particle
  {
    match v
    case Leaf(p) => p
    case Node(k) => NodeParticle(head, k)
  }

  /** `decay_list[p]` once every edge is read: the products of the vertices standing
      for `p`, in edge order. */
  function OutsOf(es: seq<Edge>, head: string, p: Particle): seq<Particle>
  {
    if es == [] then []
    else
      var e := es[|es| - 1];
      OutsOf(es[..|es| - 1], head, p) + (if VertexParticle(head, e.0) == p then [VertexParticle(head, e.1)] else [])
  }

  /** The keys of `decay_list`: the particles of the decaying vertices. */
  ghost function SourceParticles(es: seq<Edge>, head: string): set<Particle>
  {
    set e | e in es :: VertexParticle(head, e.0)
  }

  function MapParticles(head: string, vs: seq<Vertex>): (r: seq<Particle>)
    ensures |r| == |vs| && forall i :: 0 <= i < |vs| ==> r[i] == VertexParticle(head, vs[i])
  {
    seq(|vs|, i requires 0 <= i < |vs| => VertexParticle(head, vs[i]))
  }

  /** With a name free of ':', the node particle has that name and id 0. */
  lemma NodeParticleName(head: string, k: nat)
    requires ':' !in head
    ensures NodeParticle(head, k) == Particle(head + "node_" + NatToString(k), 0)
  {
    var s := head + "node_" + NatToString(k);
    assert forall i :: 0 <= i < |s| ==> s[i] != ':' by {
      forall i | 0 <= i < |s| ensures s[i] != ':' {
        if i < |head| {
          assert s[i] == head[i];
        } else if i >= |head| + 5 {
          assert s[i] == NatToString(k)[i - |head| - 5];
          assert IsDigit(NatToString(k)[i - |head| - 5]);
        }
      }
    }
  }

  /** No particle of the graph is named like an inner node. */
  ghost predicate NoClash(head: string, es: seq<Edge>)
  {
    forall v, k :: (v in Sources(es) || v in Targets(es)) && v.Leaf? ==> v.p != NodeParticle(head, k)
  }

  /** Distinct vertices of the graph stand for distinct particles. */
  lemma VertexParticleInjective(head: string, es: seq<Edge>, u: Vertex, w: Vertex)
    requires ':' !in head && NoClash(head, es)
    requires u in Sources(es) || u in Targets(es)
    requires w in Sources(es) || w in Targets(es)
    requires VertexParticle(head, u) == VertexParticle(head, w)
    ensures u == w
  {
    if u.Node? && w.Node? {
      NodeParticleName(head, u.k);
      NodeParticleName(head, w.k);
      var a := head + "node_";
      assert a + NatToString(u.k) == a + NatToString(w.k);
      assert NatToString(u.k) == (a + NatToString(u.k))[|a|..];
      assert NatToString(w.k) == (a + NatToString(w.k))[|a|..];
      NatToStringInjective(u.k, w.k);
    }
  }

  /** Read through an injective naming, `decay_list[p]` is the products of the vertex
      standing for `p`. */
  lemma {:induction false} OutsOfVertex(es: seq<Edge>, head: string, v: Vertex)
    requires forall u :: u in Sources(es) && VertexParticle(head, u) == VertexParticle(head, v) ==> u == v
    ensures OutsOf(es, head, VertexParticle(head, v)) == MapParticles(head, TargetsFrom(es, v))
  {
    if es != [] {
      var es' := es[..|es| - 1];
      var e := es[|es| - 1];
      SourcesOfPrefix(es);
      OutsOfVertex(es', head, v);
      var more := if e.0 == v then [e.1] else [];
      assert TargetsFrom(es, v) == TargetsFrom(es', v) + more;
      MapParticlesAppend(head, TargetsFrom(es', v), more);
    }
  }

  lemma SourcesOfPrefix(es: seq<Edge>)
    requires es != []
    ensures Sources(es[..|es| - 1]) <= Sources(es) && es[|es| - 1].0 in Sources(es)
  {
    var es' := es[..|es| - 1];
    forall u | u in Sources(es')
      ensures u in Sources(es)
    {
      var x :| x in es' && x.0 == u;
      assert x in es;
    }
    assert es[|es| - 1] in es;
  }

  lemma MapParticlesAppend(head: string, a: seq<Vertex>, b: seq<Vertex>)
    ensures MapParticles(head, a + b) == MapParticles(head, a) + MapParticles(head, b)
  {
  }

  /** The chain `get_decay_chain` returns, read off the edges: `top` decays once, to
      `tmp`; `tmp` stands aside and `top` takes over its products; every other decaying
      particle decays once, to its products. */
  ghost predicate ChainFrom(chain: seq<Decay>, es: seq<Edge>, head: string, top: Particle)
  {
    |OutsOf(es, head, top)| == 1 &&
    var tmp := OutsOf(es, head, top)[0];
    && CoreSet(chain) == SourceParticles(es, head) - {tmp}
    && UniqueCores(chain)
    && forall i :: 0 <= i < |chain| ==>
         chain[i].outs == OutsOf(es, head, if chain[i].core == top then tmp else chain[i].core)
  }

  /** `inner_particle.get(v, v)` over the dictionary of node particles. */
  function InnerGet(inner: Dict<nat, Particle>, v: Vertex): Particle
    requires v.Node? ==> v.k in inner.vals
  {
    match v
    case Leaf(p) => p
    case Node(k) => inner.vals[k]
  }

  /** `get_decay_chain(top, head)`. */
  method GetDecayChain(g: ChainGraph, top: Particle, head: string) returns (r: Result<DecayChain>)
    requires g.Valid()
    ensures top !in SourceParticles(g.edges, head) ==> r.Err? && r.error.KeyError?
    ensures top in SourceParticles(g.edges, head) && |OutsOf(g.edges, head, top)| != 1 ==>
              r.Err? && r.error.AssertionError?
    ensures (&& top in SourceParticles(g.edges, head) && |OutsOf(g.edges, head, top)| == 1
             && OutsOf(g.edges, head, top)[0] !in SourceParticles(g.edges, head)) ==> r.Err? && r.error.KeyError?
    ensures (&& top in SourceParticles(g.edges, head) && |OutsOf(g.edges, head, top)| == 1
             && OutsOf(g.edges, head, top)[0] in SourceParticles(g.edges, head) && r.Err?) ==> r.error.AssertionError?
    ensures r.Ok? ==> ValidChain(r.value) && ChainFrom(r.value.chain, g.edges, head, top)
    ensures TreeReady(g.edges, top, g.count, head) ==>
              && r.Ok? && r.value.top == top
              && FinalSet(r.value.chain) == LeafTargets(g.edges)
              && forall i :: 0 <= i < |r.value.chain| ==> |r.value.chain[i].outs| == 2
  {
    var inner := InnerParticles(g.nodes, head);
    var decayList := ReadEdges(g.edges, g.count, inner, head);
    r := ChainOfDecays(decayList, g.edges, top, head, g.count);
  }

  /** The rest of `get_decay_chain` once the products of each particle are read: the
      top's only product is replaced by the top itself, and the decays are listed. */
  method ChainOfDecays(decayList: Dict<Particle, seq<Particle>>, es: seq<Edge>, top: Particle, head: string, ghost count: nat)
    returns (r: Result<DecayChain>)
    requires Valid(decayList)
    requires forall p :: p in decayList.vals <==> p in SourceParticles(es, head)
    requires forall p :: p in decayList.vals ==> decayList.vals[p] == OutsOf(es, head, p)
    ensures top !in SourceParticles(es, head) ==> r.Err? && r.error.KeyError?
    ensures top in SourceParticles(es, head) && |OutsOf(es, head, top)| != 1 ==>
              r.Err? && r.error.AssertionError?
    ensures (&& top in SourceParticles(es, head) && |OutsOf(es, head, top)| == 1
             && OutsOf(es, head, top)[0] !in SourceParticles(es, head)) ==> r.Err? && r.error.KeyError?
    ensures (&& top in SourceParticles(es, head) && |OutsOf(es, head, top)| == 1
             && OutsOf(es, head, top)[0] in SourceParticles(es, head) && r.Err?) ==> r.error.AssertionError?
    ensures r.Ok? ==> ValidChain(r.value) && ChainFrom(r.value.chain, es, head, top)
    ensures TreeReady(es, top, count, head) ==>
              && r.Ok? && r.value.top == top
              && FinalSet(r.value.chain) == LeafTargets(es)
              && forall i :: 0 <= i < |r.value.chain| ==> |r.value.chain[i].outs| == 2
  {
    ghost var tree := TreeReady(es, top, count, head);
    if tree {
      TreeLists(es, top, count, head);
    }
    if top !in decayList.vals {
      return Err(KeyError("top particle has no decay"));
    }
    if |decayList.vals[top]| != 1 {
      return Err(AssertionError("top particle must decay once"));
    }
    if decayList.vals[top][0] !in decayList.vals {
      return Err(KeyError("the first product of the top particle has no decay"));
    }
    var ret := MergeTop(decayList, es, top, head);
    if tree {
      TreeChain(ret, es, top, count, head);
    }
    r := NewDecayChain(ret);
  }

  /** The top takes over the products of its only product, which is dropped; the
      decays are then listed in key order. */
  method MergeTop(decayList: Dict<Particle, seq<Particle>>, es: seq<Edge>, top: Particle, head: string)
    returns (ret: seq<Decay>)
    requires Valid(decayList)
    requires forall p :: p in decayList.vals <==> p in SourceParticles(es, head)
    requires forall p :: p in decayList.vals ==> decayList.vals[p] == OutsOf(es, head, p)
    requires top in decayList.vals && |decayList.vals[top]| == 1 && decayList.vals[top][0] in decayList.vals
    ensures ChainFrom(ret, es, head, top)
  {
    var tmp := decayList.vals[top][0];
    var d := Put(decayList, top, decayList.vals[tmp]);
    d := Remove(d, tmp);
    ret := DictDecays(d);
    DictChain(ret, d, es, head, top);
  }

  /** The first loop of `get_decay_chain`: a particle for each node. */
  method InnerParticles(nodes: seq<nat>, head: string) returns (inner: Dict<nat, Particle>)
    requires forall i :: 0 <= i < |nodes| ==> nodes[i] == i
    ensures Valid(inner)
    ensures forall k: nat :: k in inner.vals <==> k < |nodes|
    ensures forall k :: k in inner.vals ==> inner.vals[k] == NodeParticle(head, k)
  {
    inner := Empty<nat, Particle>();
    for i := 0 to |nodes|
      invariant Valid(inner)
      invariant forall k: nat :: k in inner.vals <==> k < i
      invariant forall k :: k in inner.vals ==> inner.vals[k] == NodeParticle(head, k)
    {
      var next := Put(inner, nodes[i], NodeParticle(head, nodes[i]));
      KeysBelowGrow(inner.vals, next.vals, i);
      inner := next;
    }
  }

  lemma KeysBelowGrow<V>(m: map<nat, V>, m': map<nat, V>, i: nat)
    requires forall k: nat :: k in m <==> k < i
    requires m'.Keys == m.Keys + {i}
    ensures forall k: nat :: k in m' <==> k < i + 1
  {
  }

  /** The second loop of `get_decay_chain`: the products of each decaying particle. */
  method ReadEdges(es: seq<Edge>, count: nat, inner: Dict<nat, Particle>, head: string)
    returns (decayList: Dict<Particle, seq<Particle>>)
    requires KnownNodes(es, count)
    requires forall k: nat :: k in inner.vals <==> k < count
    requires forall k :: k in inner.vals ==> inner.vals[k] == NodeParticle(head, k)
    ensures Valid(decayList)
    ensures forall p :: p in decayList.vals <==> p in SourceParticles(es, head)
    ensures forall p :: p in decayList.vals ==> decayList.vals[p] == OutsOf(es, head, p)
  {
    decayList := Empty<Particle, seq<Particle>>();
    for n := 0 to |es|
      invariant EdgesRead(decayList, es[..n], head)
    {
      EdgeEnds(es, n, count, inner, head);
      var i := InnerGet(inner, es[n].0);
      var j := InnerGet(inner, es[n].1);
      var next;
      if i in decayList.vals {
        next := Put(decayList, i, decayList.vals[i] + [j]);
      } else {
        next := Put(decayList, i, [j]);
      }
      EdgeStep(decayList, next, es, n, head);
      decayList := next;
    }
    assert es[..|es|] == es;
  }

  /** Both ends of edge `n` have their particles in `inner`. */
  lemma EdgeEnds(es: seq<Edge>, n: nat, count: nat, inner: Dict<nat, Particle>, head: string)
    requires KnownNodes(es, count) && n < |es|
    requires forall k: nat :: k in inner.vals <==> k < count
    requires forall k :: k in inner.vals ==> inner.vals[k] == NodeParticle(head, k)
    ensures es[n].0.Node? ==> es[n].0.k in inner.vals
    ensures es[n].1.Node? ==> es[n].1.k in inner.vals
    ensures InnerGet(inner, es[n].0) == VertexParticle(head, es[n].0)
    ensures InnerGet(inner, es[n].1) == VertexParticle(head, es[n].1)
  {
    assert es[n] in es;
  }

  /** `decayList` holds the products of each particle standing for a source of `es`. */
  ghost predicate EdgesRead(decayList: Dict<Particle, seq<Particle>>, es: seq<Edge>, head: string)
  {
    && Valid(decayList)
    && (forall p :: p in decayList.vals <==> p in SourceParticles(es, head))
    && (forall p :: p in decayList.vals ==> decayList.vals[p] == OutsOf(es, head, p))
  }

  lemma EdgeStep(dl: Dict<Particle, seq<Particle>>, next: Dict<Particle, seq<Particle>>, es: seq<Edge>, n: nat, head: string)
    requires n < |es| && EdgesRead(dl, es[..n], head)
    requires var i, j := VertexParticle(head, es[n].0), VertexParticle(head, es[n].1);
      next == if i in dl.vals then Put(dl, i, dl.vals[i] + [j]) else Put(dl, i, [j])
    ensures EdgesRead(next, es[..n + 1], head)
  {
    var i := VertexParticle(head, es[n].0);
    EdgesSnoc(es, n, head);
    if i !in dl.vals {
      OutsOfNone(es[..n], head, i);
    }
  }

  /** The last loop of `get_decay_chain`: one decay per entry, in key order. */
  method DictDecays(d: Dict<Particle, seq<Particle>>) returns (ret: seq<Decay>)
    requires Valid(d)
    ensures |ret| == |d.keys| && forall j :: 0 <= j < |ret| ==> ret[j] == Decay(d.keys[j], d.vals[d.keys[j]])
  {
    ret := [];
    for n := 0 to |d.keys|
      invariant |ret| == n
      invariant forall j :: 0 <= j < n ==> ret[j] == Decay(d.keys[j], d.vals[d.keys[j]])
    {
      ret := ret + [Decay(d.keys[n], d.vals[d.keys[n]])];
    }
  }

  /** A particle nothing stands for has no products. */
  lemma {:induction false} OutsOfNone(es: seq<Edge>, head: string, p: Particle)
    requires p !in SourceParticles(es, head)
    ensures OutsOf(es, head, p) == []
  {
    if es != [] {
      assert es[|es| - 1] in es;
      assert forall x :: x in es[..|es| - 1] ==> x in es;
      OutsOfNone(es[..|es| - 1], head, p);
    }
  }

  lemma EdgesSnoc(es: seq<Edge>, n: nat, head: string)
    requires n < |es|
    ensures SourceParticles(es[..n + 1], head) == SourceParticles(es[..n], head) + {VertexParticle(head, es[n].0)}
    ensures forall p :: OutsOf(es[..n + 1], head, p) ==
              OutsOf(es[..n], head, p) + (if VertexParticle(head, es[n].0) == p then [VertexParticle(head, es[n].1)] else [])
  {
    assert es[..n + 1] == es[..n] + [es[n]];
    assert es[..n + 1][..n] == es[..n];
  }

  /** The decays listed from the final dictionary form the chain read off the edges. */
  lemma DictChain(ret: seq<Decay>, d: Dict<Particle, seq<Particle>>, es: seq<Edge>, head: string, top: Particle)
    requires Valid(d)
    requires |OutsOf(es, head, top)| == 1
    requires forall p :: p in d.vals <==> p in SourceParticles(es, head) - {OutsOf(es, head, top)[0]}
    requires forall p :: p in d.vals ==>
               d.vals[p] == OutsOf(es, head, if p == top then OutsOf(es, head, top)[0] else p)
    requires |ret| == |d.keys| && forall j :: 0 <= j < |ret| ==> ret[j] == Decay(d.keys[j], d.vals[d.keys[j]])
    ensures ChainFrom(ret, es, head, top)
  {
    forall p ensures p in CoreSet(ret) <==> p in d.vals {
      if p in d.vals {
        var j :| 0 <= j < |d.keys| && d.keys[j] == p;
        assert ret[j].core == p;
      }
    }
  }

  // ---------------------------------------------------------------------------
  // A tree-shaped graph gives a well-formed chain

  /** A tree-shaped graph with at least one inner node, whose particles are not named
      like inner nodes. */
  ghost predicate TreeReady(es: seq<Edge>, top: Particle, count: nat, head: string)
  {
    TreeShape(es, top, count) && count > 0 && ':' !in head && NoClash(head, es)
  }

  /** The vertex `top` first decays to. */
  ghost function FirstChild(es: seq<Edge>, top: Particle): Vertex
    requires |TargetsFrom(es, Leaf(top))| == 1
  {
    TargetsFrom(es, Leaf(top))[0]
  }

  lemma Injective(es: seq<Edge>, head: string)
    requires ':' !in head && NoClash(head, es)
    ensures forall u, w ::
              ((u in Sources(es) || u in Targets(es)) && (w in Sources(es) || w in Targets(es)) &&
               VertexParticle(head, u) == VertexParticle(head, w)) ==> u == w
  {
    forall u, w | (u in Sources(es) || u in Targets(es)) && (w in Sources(es) || w in Targets(es))
                  && VertexParticle(head, u) == VertexParticle(head, w)
      ensures u == w
    {
      VertexParticleInjective(head, es, u, w);
    }
  }

  /** The products of a decaying vertex, read through the naming. */
  lemma SourceOuts(es: seq<Edge>, head: string, v: Vertex)
    requires ':' !in head && NoClash(head, es) && v in Sources(es)
    ensures OutsOf(es, head, VertexParticle(head, v)) == MapParticles(head, TargetsFrom(es, v))
  {
    Injective(es, head);
    OutsOfVertex(es, head, v);
  }

  lemma InSources(es: seq<Edge>, v: Vertex, w: Vertex)
    requires w in TargetsFrom(es, v)
    ensures v in Sources(es) && w in Targets(es)
  {
    assert (v, w) in es;
  }

  /** In a tree, `get_decay_chain` finds the decay of `top` and of its first product. */
  lemma TreeLists(es: seq<Edge>, top: Particle, count: nat, head: string)
    requires TreeReady(es, top, count, head)
    ensures FirstChild(es, top).Node? && FirstChild(es, top).k < count
    ensures top in SourceParticles(es, head)
    ensures OutsOf(es, head, top) == [VertexParticle(head, FirstChild(es, top))]
    ensures VertexParticle(head, FirstChild(es, top)) in SourceParticles(es, head)
  {
    var tv := FirstChild(es, top);
    InSources(es, Leaf(top), tv);
    assert (Leaf(top), tv) in es;
    SourceOuts(es, head, Leaf(top));
    assert TargetsFrom(es, tv)[0] in TargetsFrom(es, tv);
    InSources(es, tv, TargetsFrom(es, tv)[0]);
    assert (tv, TargetsFrom(es, tv)[0]) in es;
  }

  /** The daughters of the chain: the products of every vertex but `top`. */
  ghost function TreeOuts(es: seq<Edge>, top: Particle, head: string): set<Particle>
  {
    set e | e in es && e.0 != Leaf(top) :: VertexParticle(head, e.1)
  }

  /** What the tree guarantees about `top` and its first child `tv`. */
  ghost predicate TopFacts(es: seq<Edge>, top: Particle, head: string, tv: Vertex)
  {
    && ':' !in head && NoClash(head, es)
    && tv.Node? && tv in Sources(es) && Leaf(top) in Sources(es)
    && OutsOf(es, head, top) == [VertexParticle(head, tv)]
  }

  lemma TreeTopFacts(es: seq<Edge>, top: Particle, count: nat, head: string)
    requires TreeReady(es, top, count, head)
    ensures TopFacts(es, top, head, FirstChild(es, top))
  {
    var tv := FirstChild(es, top);
    TreeLists(es, top, count, head);
    InSources(es, Leaf(top), tv);
    assert |TargetsFrom(es, tv)| == 2;
    InSources(es, tv, TargetsFrom(es, tv)[0]);
  }

  /** The daughters of the chain are the products of every vertex but `top`. */
  lemma TreeOutSet(chain: seq<Decay>, es: seq<Edge>, top: Particle, head: string, tv: Vertex)
    requires TopFacts(es, top, head, tv) && ChainFrom(chain, es, head, top)
    ensures OutSet(chain) == TreeOuts(es, top, head)
  {
    forall p | p in OutSet(chain) ensures p in TreeOuts(es, top, head) {
      var i, j :| 0 <= i < |chain| && 0 <= j < |chain[i].outs| && chain[i].outs[j] == p;
      DaughterIsProduct(chain, es, top, head, tv, i, j);
    }
    forall p | p in TreeOuts(es, top, head) ensures p in OutSet(chain) {
      var e :| e in es && e.0 != Leaf(top) && VertexParticle(head, e.1) == p;
      ProductIsDaughter(chain, es, top, head, tv, e);
    }
  }

  /** The products a decay of the chain lists are those of some vertex other than `top`. */
  lemma DaughterIsProduct(chain: seq<Decay>, es: seq<Edge>, top: Particle, head: string, tv: Vertex, i: nat, j: nat)
    requires ':' !in head && NoClash(head, es)
    requires tv.Node? && tv in Sources(es)
    requires OutsOf(es, head, top) == [VertexParticle(head, tv)]
    requires ChainFrom(chain, es, head, top)
    requires i < |chain| && j < |chain[i].outs|
    ensures chain[i].outs[j] in TreeOuts(es, top, head)
  {
    var c := chain[i].core;
    assert c in CoreSet(chain);
    var s: Vertex;
    if c == top {
      s := tv;
    } else {
      var e :| e in es && VertexParticle(head, e.0) == c;
      s := e.0;
    }
    assert s in Sources(es) && s != Leaf(top);
    SourceOuts(es, head, s);
    var w := TargetsFrom(es, s)[j];
    assert w in TargetsFrom(es, s);
    assert (s, w) in es && VertexParticle(head, w) == chain[i].outs[j];
  }

  /** Every product of a vertex other than `top` is listed by some decay of the chain. */
  lemma ProductIsDaughter(chain: seq<Decay>, es: seq<Edge>, top: Particle, head: string, tv: Vertex, e: Edge)
    requires ':' !in head && NoClash(head, es)
    requires tv.Node? && tv in Sources(es) && Leaf(top) in Sources(es)
    requires OutsOf(es, head, top) == [VertexParticle(head, tv)]
    requires ChainFrom(chain, es, head, top)
    requires e in es && e.0 != Leaf(top)
    ensures VertexParticle(head, e.1) in OutSet(chain)
  {
    var s := e.0;
    assert s in Sources(es);
    var i := DecayOfSource(chain, es, top, head, tv, s);
    assert e.1 in TargetsFrom(es, s);
    var j :| 0 <= j < |TargetsFrom(es, s)| && TargetsFrom(es, s)[j] == e.1;
    assert chain[i].outs[j] == VertexParticle(head, e.1);
  }

  /** The decay of the chain that lists the products of the vertex `s`. */
  lemma DecayOfSource(chain: seq<Decay>, es: seq<Edge>, top: Particle, head: string, tv: Vertex, s: Vertex)
    returns (i: nat)
    requires ':' !in head && NoClash(head, es)
    requires tv.Node? && tv in Sources(es) && Leaf(top) in Sources(es)
    requires OutsOf(es, head, top) == [VertexParticle(head, tv)]
    requires ChainFrom(chain, es, head, top)
    requires s in Sources(es) && s != Leaf(top)
    ensures i < |chain| && chain[i].outs == MapParticles(head, TargetsFrom(es, s))
  {
    Injective(es, head);
    SourceOuts(es, head, s);
    var c := if s == tv then top else VertexParticle(head, s);
    assert VertexParticle(head, Leaf(top)) == top;
    var e :| e in es && e.0 == s;
    assert c in SourceParticles(es, head);
    assert c != VertexParticle(head, tv);
    assert c in CoreSet(chain);
    i :| 0 <= i < |chain| && chain[i].core == c;
  }


  lemma SourcesToMember(es: seq<Edge>, v: Vertex, x: Vertex)
    ensures x in SourcesTo(es, v) <==> (x, v) in es
  {
    var f := Flip(es);
    if (x, v) in es {
      var i :| 0 <= i < |es| && es[i] == (x, v);
      assert f[i] == (v, x);
    }
    if x in SourcesTo(es, v) {
      assert (v, x) in f;
      var i :| 0 <= i < |f| && f[i] == (v, x);
      assert es[i] == (x, v);
    }
  }

  /** In a tree, the one vertex producing `v` is `u`. */
  lemma OnlySource(es: seq<Edge>, u: Vertex, u': Vertex, v: Vertex)
    requires |SourcesTo(es, v)| == 1 && (u, v) in es && (u', v) in es
    ensures u == u'
  {
    SourcesToMember(es, v, u);
    SourcesToMember(es, v, u');
    var s := SourcesTo(es, v);
    assert u in s && u' in s;
    assert s == [s[0]];
  }

  /** `top`'s only product is its first child. */
  lemma OnlyChild(es: seq<Edge>, top: Particle, w: Vertex)
    requires |TargetsFrom(es, Leaf(top))| == 1 && (Leaf(top), w) in es
    ensures w == FirstChild(es, top)
  {
    var s := TargetsFrom(es, Leaf(top));
    assert w in s;
    assert s == [s[0]];
  }

  /** A decaying particle of the chain other than `top` is produced somewhere. */
  lemma CoreIsProduced(chain: seq<Decay>, es: seq<Edge>, top: Particle, count: nat, head: string, c: Particle)
    requires TreeReady(es, top, count, head) && ChainFrom(chain, es, head, top)
    requires c in CoreSet(chain) && c != top
    ensures c in TreeOuts(es, top, head)
  {
    var tv := FirstChild(es, top);
    TreeLists(es, top, count, head);
    var e :| e in es && VertexParticle(head, e.0) == c;
    var s := e.0;
    assert s in Sources(es);
    assert s != Leaf(top) && s != tv;
    assert s.Node? && s.k < count;
    var sources := SourcesTo(es, s);
    assert |sources| == 1;
    var u := sources[0];
    assert u in sources;
    SourcesToMember(es, s, u);
    if u == Leaf(top) {
      OnlyChild(es, top, s);
    }
    assert (u, s) in es && u != Leaf(top);
  }

  /** `top` decays in the chain and is produced nowhere. */
  lemma TopUnproduced(chain: seq<Decay>, es: seq<Edge>, top: Particle, count: nat, head: string)
    requires TreeReady(es, top, count, head) && ChainFrom(chain, es, head, top)
    ensures top in CoreSet(chain) && top !in TreeOuts(es, top, head)
  {
    var tv := FirstChild(es, top);
    TreeLists(es, top, count, head);
    InSources(es, Leaf(top), tv);
    Injective(es, head);
    assert VertexParticle(head, Leaf(top)) == top;
    forall e | e in es ensures VertexParticle(head, e.1) != top {
      assert e.1 in Targets(es);
    }
  }

  /** In a tree the chain starts at `top` alone. */
  lemma TreeTop(chain: seq<Decay>, es: seq<Edge>, top: Particle, count: nat, head: string)
    requires TreeReady(es, top, count, head) && ChainFrom(chain, es, head, top)
    ensures TopSet(chain) == {top}
  {
    TreeTopFacts(es, top, count, head);
    TreeOutSet(chain, es, top, head, FirstChild(es, top));
    TopUnproduced(chain, es, top, count, head);
    forall c | c in CoreSet(chain) && c != top ensures c in OutSet(chain) {
      CoreIsProduced(chain, es, top, count, head, c);
    }
  }

  /** A leaf of the tree is a final particle of the chain. */
  lemma LeafIsFinal(chain: seq<Decay>, es: seq<Edge>, top: Particle, count: nat, head: string, e: Edge)
    requires TreeReady(es, top, count, head) && ChainFrom(chain, es, head, top)
    requires e in es && e.1.Leaf?
    ensures e.1.p in TreeOuts(es, top, head) && e.1.p !in CoreSet(chain)
  {
    var tv := FirstChild(es, top);
    TreeTopFacts(es, top, count, head);
    if e.0 == Leaf(top) {
      OnlyChild(es, top, e.1);
    }
    assert VertexParticle(head, e.1) == e.1.p;
    if e.1.p in CoreSet(chain) {
      var f :| f in es && VertexParticle(head, f.0) == e.1.p;
      assert f.0 in Sources(es) && e.1 in Targets(es);
      VertexParticleInjective(head, es, f.0, e.1);
      assert false;
    }
  }

  /** A final particle of the chain is a leaf of the tree. */
  lemma FinalIsLeaf(chain: seq<Decay>, es: seq<Edge>, top: Particle, count: nat, head: string, e: Edge)
    requires TreeReady(es, top, count, head) && ChainFrom(chain, es, head, top)
    requires e in es && e.0 != Leaf(top) && VertexParticle(head, e.1) !in CoreSet(chain)
    ensures e.1.Leaf?
  {
    var tv := FirstChild(es, top);
    TreeTopFacts(es, top, count, head);
    var w := e.1;
    if w.Node? {
      assert w.k < count && |TargetsFrom(es, w)| == 2;
      InSources(es, w, TargetsFrom(es, w)[0]);
      assert VertexParticle(head, w) == VertexParticle(head, tv);
      VertexParticleInjective(head, es, w, tv);
      InSources(es, Leaf(top), tv);
      OnlySource(es, Leaf(top), e.0, tv);
    }
  }

  /** In a tree the final particles of the chain are the leaves. */
  lemma TreeFinal(chain: seq<Decay>, es: seq<Edge>, top: Particle, count: nat, head: string)
    requires TreeReady(es, top, count, head) && ChainFrom(chain, es, head, top)
    ensures FinalSet(chain) == LeafTargets(es)
  {
    TreeTopFacts(es, top, count, head);
    TreeOutSet(chain, es, top, head, FirstChild(es, top));
    forall p | p in LeafTargets(es) ensures p in FinalSet(chain) {
      var e :| e in es && e.1.Leaf? && e.1.p == p;
      LeafIsFinal(chain, es, top, count, head, e);
    }
    forall p | p in FinalSet(chain) ensures p in LeafTargets(es) {
      var e :| e in es && e.0 != Leaf(top) && VertexParticle(head, e.1) == p;
      FinalIsLeaf(chain, es, top, count, head, e);
    }
  }

  /** In a tree every decay of the chain is a two-body decay. */
  lemma TreeBinary(chain: seq<Decay>, es: seq<Edge>, top: Particle, count: nat, head: string, i: nat)
    requires TreeReady(es, top, count, head) && ChainFrom(chain, es, head, top)
    requires i < |chain|
    ensures |chain[i].outs| == 2
  {
    var tv := FirstChild(es, top);
    TreeTopFacts(es, top, count, head);
    var c := chain[i].core;
    assert c in CoreSet(chain);
    var s: Vertex;
    if c == top {
      s := tv;
    } else {
      var e :| e in es && VertexParticle(head, e.0) == c;
      s := e.0;
    }
    assert s in Sources(es) && s != Leaf(top);
    SourceOuts(es, head, s);
  }

  /** In a tree the chain has the single top `top`, the leaves as final particles, and
      only two-body decays. */
  lemma TreeChain(chain: seq<Decay>, es: seq<Edge>, top: Particle, count: nat, head: string)
    requires TreeReady(es, top, count, head) && ChainFrom(chain, es, head, top)
    ensures TopSet(chain) == {top} && FinalSet(chain) == LeafTargets(es)
    ensures forall i :: 0 <= i < |chain| ==> |chain[i].outs| == 2
  {
    TreeTop(chain, es, top, count, head);
    TreeFinal(chain, es, top, count, head);
    forall i | 0 <= i < |chain| ensures |chain[i].outs| == 2 {
      TreeBinary(chain, es, top, count, head, i);
    }
  }

  // ---------------------------------------------------------------------------
  // from_particles

  /** The name prefix of the i-th chain's inner particles, `"chain{}_".format(i)`. */
  function ChainHead(i: nat): string
  {
    "chain" + NatToString(i) + "_"
  }

  lemma ChainHeadColonFree(i: nat)
    ensures ':' !in ChainHead(i)
  {
    var s := ChainHead(i);
    forall j | 0 <= j < |s| ensures s[j] != ':' {
      if 5 <= j < 5 + |NatToString(i)| {
        assert s[j] == NatToString(i)[j - 5];
      }
    }
  }

  /** No given particle is named like an inner node of some chain. */
  ghost predicate FreshNames(top: Particle, finals: seq<Particle>)
  {
    forall i: nat, k: nat :: NodeParticle(ChainHead(i), k) != top && NodeParticle(ChainHead(i), k) !in finals
  }

  /** A graph grown from `top -> finals[0]` by placing the other finals is ready to be
      read as a chain, whose leaves are the finals. */
  lemma GrownReady(es: seq<Edge>, count: nat, top: Particle, finals: seq<Particle>, i: nat)
    requires |finals| >= 2 && top !in finals && FreshNames(top, finals)
    requires count == |finals| - 1 && TreeShape(es, top, count)
    requires LeafTargets(es) == {finals[0]} + (set p | p in finals[1..])
    ensures TreeReady(es, top, count, ChainHead(i))
    ensures LeafTargets(es) == set p | p in finals
  {
    var head := ChainHead(i);
    ChainHeadColonFree(i);
    assert forall x :: x in finals <==> x == finals[0] || x in finals[1..];
    forall v, k | (v in Sources(es) || v in Targets(es)) && v.Leaf?
      ensures v.p != NodeParticle(head, k)
    {
      if v in Targets(es) {
        var e :| e in es && e.1 == v;
        assert v.p in LeafTargets(es);
      }
    }
  }

  /** The only edge `top -> f` yields no chain: `f` has no decay, or, when `f` is
      `top`, nothing is left. */
  lemma OneEdge(top: Particle, f: Particle, head: string, chain: seq<Decay>)
    ensures SourceParticles([(Leaf(top), Leaf(f))], head) == {top}
    ensures OutsOf([(Leaf(top), Leaf(f))], head, top) == [f]
    ensures ChainFrom(chain, [(Leaf(top), Leaf(f))], head, top) && f == top ==> TopSet(chain) == {}
  {
    var es := [(Leaf(top), Leaf(f))];
    assert es[..0] == [];
    if ChainFrom(chain, es, head, top) && f == top {
      assert CoreSet(chain) == {};
    }
  }

  /** The inputs for which `from_particles` succeeds. */
  ghost predicate Placeable(top: Particle, finals: seq<Particle>)
  {
    |finals| >= 2 && top !in finals && FreshNames(top, finals)
  }

  /** A chain from `top` to `finals` made only of two-body decays. */
  ghost predicate BinaryChainOf(c: DecayChain, top: Particle, finals: seq<Particle>)
  {
    && c.top == top
    && FinalSet(c.chain) == (set p | p in finals)
    && forall j :: 0 <= j < |c.chain| ==> |c.chain[j].outs| == 2
  }

  /** `from_particles(top, finals)`: every binary decay tree from `top` to `finals`,
      one chain per graph. */
  method FromParticles(top: Particle, finals: seq<Particle>) returns (r: Result<seq<DecayChain>>)
    ensures finals == [] ==> r.Err? && r.error.AssertionError?
    ensures |finals| == 1 && top != finals[0] ==> r.Err? && r.error.KeyError?
    ensures finals == [top] ==> r.Err? && r.error.AssertionError?
    ensures r.Ok? ==> |r.value| == OddProduct(|finals| - 1)
    ensures r.Ok? ==> forall c :: c in r.value ==> ValidChain(c)
    ensures Placeable(top, finals) ==> r.Ok? && forall c :: c in r.value ==> BinaryChainOf(c, top, finals)
  {
    if |finals| == 0 {
      return Err(AssertionError("finals must not be empty"));
    }
    var gs := GraphsFromParticles(top, finals);
    r := ChainsOfGraphs(gs, top, finals);
  }

  /** The graphs `from_particles` grows: the edge `top -> finals[0]`, then every placement of the rest. */
  method GraphsFromParticles(top: Particle, finals: seq<Particle>) returns (gs: seq<ChainGraph>)
    requires |finals| >= 1
    ensures |gs| == OddProduct(|finals| - 1)
    ensures |finals| == 1 ==> gs != [] && forall h :: h in gs ==> h.edges == [(Leaf(top), Leaf(finals[0]))]
    ensures forall h :: h in gs ==> h.Valid()
    ensures top != finals[0] ==> forall h :: h in gs ==> Grown(h, [(Leaf(top), Leaf(finals[0]))], 0, finals[1..], top)
  {
    var base := BaseGraph(top, finals[0]);
    gs := GetGraphs(base, finals[1..], top);
    PlacementsFromOneEdge(|finals|);
    GraphsOfBase(gs, base, top, finals);
  }

  /** The one-edge graph `top -> f` that `from_particles` starts from. */
  method BaseGraph(top: Particle, f: Particle) returns (base: ChainGraph)
    ensures base.Valid()
    ensures base.edges == [(Leaf(top), Leaf(f))] && base.count == 0
  {
    base := new ChainGraph();
    base.AddEdge(Leaf(top), Leaf(f));
    assert KnownNodes(base.edges, 0);
  }

  lemma GraphsOfBase(gs: seq<ChainGraph>, base: ChainGraph, top: Particle, finals: seq<Particle>)
    requires |finals| >= 1
    requires base.edges == [(Leaf(top), Leaf(finals[0]))] && base.count == 0
    requires finals[1..] == [] ==> gs == [base]
    requires forall h :: h in gs ==> Grown(h, base.edges, base.count, finals[1..], top)
    ensures |finals| == 1 ==> gs != [] && forall h :: h in gs ==> h.edges == [(Leaf(top), Leaf(finals[0]))]
    ensures forall h :: h in gs ==> h.Valid()
    ensures top != finals[0] ==> forall h :: h in gs ==> Grown(h, [(Leaf(top), Leaf(finals[0]))], 0, finals[1..], top)
  {
  }

  /** The loop of `from_particles`: one chain per grown graph, in order. */
  method ChainsOfGraphs(gs: seq<ChainGraph>, top: Particle, finals: seq<Particle>) returns (r: Result<seq<DecayChain>>)
    requires |finals| >= 1
    requires |finals| == 1 ==> gs != [] && forall h :: h in gs ==> h.edges == [(Leaf(top), Leaf(finals[0]))]
    requires forall h :: h in gs ==> h.Valid()
    requires top != finals[0] ==> forall h :: h in gs ==> Grown(h, [(Leaf(top), Leaf(finals[0]))], 0, finals[1..], top)
    ensures |finals| == 1 && top != finals[0] ==> r.Err? && r.error.KeyError?
    ensures finals == [top] ==> r.Err? && r.error.AssertionError?
    ensures r.Ok? ==> |r.value| == |gs|
    ensures r.Ok? ==> forall c :: c in r.value ==> ValidChain(c)
    ensures Placeable(top, finals) ==> r.Ok? && forall c :: c in r.value ==> BinaryChainOf(c, top, finals)
  {
    var chains: seq<DecayChain> := [];
    for i := 0 to |gs|
      invariant |chains| == i
      invariant |finals| == 1 ==> i == 0
      invariant forall c :: c in chains ==> ValidChain(c)
      invariant Placeable(top, finals) ==> forall c :: c in chains ==> BinaryChainOf(c, top, finals)
    {
      assert gs[i] in gs;
      var c := ChainOfGraph(gs[i], top, finals, i);
      if c.Err? {
        return Err(c.error);
      }
      chains := chains + [c.value];
    }
    return Ok(chains);
  }

  /** `gi.get_decay_chain(top, head="chain{}_".format(i))` on one grown graph. */
  method ChainOfGraph(h: ChainGraph, top: Particle, finals: seq<Particle>, i: nat) returns (c: Result<DecayChain>)
    requires |finals| >= 1
    requires |finals| == 1 ==> h.edges == [(Leaf(top), Leaf(finals[0]))]
    requires top != finals[0] ==> Grown(h, [(Leaf(top), Leaf(finals[0]))], 0, finals[1..], top)
    requires h.Valid()
    ensures c.Ok? ==> ValidChain(c.value)
    ensures |finals| == 1 && top != finals[0] ==> c.Err? && c.error.KeyError?
    ensures finals == [top] ==> c.Err? && c.error.AssertionError?
    ensures Placeable(top, finals) ==> c.Ok? && BinaryChainOf(c.value, top, finals)
  {
    if Placeable(top, finals) {
      BaseShape(top, finals[0]);
      GrownReady(h.edges, h.count, top, finals, i);
    }
    c := GetDecayChain(h, top, ChainHead(i));
    if |finals| == 1 {
      OneEdge(top, finals[0], ChainHead(i), if c.Ok? then c.value.chain else []);
    }
  }
}
