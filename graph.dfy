/** The graph observers of observers/graph.py. A networkx graph is modelled by its node
    set and a map from undirected edges to `paths_count`; a multigraph by a map from
    (edge, "<rc>_<peer_ip>" key) to `paths_count`. */
module Graph {
  import opened Common
  import opened AsPath
  import opened Counts
  import opened ObserverApi

  /** An undirected edge {u, v}, stored with its endpoints in order. */
  datatype Edge = Edge(lo: int, hi: int)

  function MkEdge(u: int, v: int): (e: Edge)
    ensures e.lo <= e.hi
    ensures (e.lo == u && e.hi == v) || (e.lo == v && e.hi == u)
  {
    if u <= v then Edge(u, v) else Edge(v, u)
  }

  /** The edges between consecutive ASes of a path, in path order. */
  function Pairs(path: Path): (r: seq<Edge>)
    ensures |r| == if |path| <= 1 then 0 else |path| - 1
    ensures forall i :: 0 <= i < |r| ==> r[i] == MkEdge(path[i], path[i + 1])
  {
    if |path| <= 1 then []
    else seq(|path| - 1, i requires 0 <= i < |path| - 1 => MkEdge(path[i], path[i + 1]))
  }

  /** Every AS that is an endpoint of one of the edges. */
  function Endpoints(es: seq<Edge>): set<int>
    decreases |es|
  {
    if |es| == 0 then {} else Endpoints(es[..|es| - 1]) + {es[|es| - 1].lo, es[|es| - 1].hi}
  }

  /** A weighted undirected graph: nodes survive the removal of their edges, as in networkx. */
  datatype WGraph = WGraph(nodes: set<int>, counts: map<Edge, int>)

  const EmptyGraph: WGraph := WGraph({}, map[])

  predicate WellFormed(g: WGraph) {
    && Positive(g.counts)
    && forall e | e in g.counts :: e.lo <= e.hi && e.lo in g.nodes && e.hi in g.nodes
  }

  /** networkx keeps the nodes of a graph in the order they entered it. The observer's
      state does not record that order; it is computed only for the comparison as written
      below. `add_edge(u, v)` enters `u`, then `v`, each only when the graph lacks it. */
  function Admit(order: seq<int>, x: int): seq<int> {
    if x in order then order else order + [x]
  }

  /** The node order after `_add_path` has run over the consecutive pairs of `path`. */
  function OrderAfter(order: seq<int>, path: Path): seq<int>
    decreases |path|
  {
    if |path| <= 1 then order
    else Admit(Admit(OrderAfter(order, path[..|path| - 1]), path[|path| - 2]), path[|path| - 1])
  }

  /** `ASGraphObserver._add_path`: each consecutive pair bumps its edge, creating it at 1. */
  function AddPathSpec(g: WGraph, path: Path): WGraph {
    WGraph(g.nodes + Endpoints(Pairs(path)), IncAll(g.counts, Pairs(path)))
  }

  /** `ASGraphObserver._remove_path`: each consecutive pair lowers its edge, deleting it at 0;
      a missing edge is skipped and no node is removed. */
  function RemovePathSpec(g: WGraph, path: Path): WGraph {
    g.(counts := DecAll(g.counts, Pairs(path)))
  }

  lemma {:induction false} EndpointsOfEdges(es: seq<Edge>, x: int)
    ensures x in Endpoints(es) <==> exists i :: 0 <= i < |es| && (es[i].lo == x || es[i].hi == x)
    decreases |es|
  {
    if |es| > 0 {
      EndpointsOfEdges(es[..|es| - 1], x);
      if x in Endpoints(es[..|es| - 1]) {
        var i :| 0 <= i < |es| - 1 && (es[..|es| - 1][i].lo == x || es[..|es| - 1][i].hi == x);
        assert es[i] == es[..|es| - 1][i];
      }
      if exists i :: 0 <= i < |es| && (es[i].lo == x || es[i].hi == x) {
        var i :| 0 <= i < |es| && (es[i].lo == x || es[i].hi == x);
        if i < |es| - 1 {
          assert es[..|es| - 1][i] == es[i];
        }
      }
    }
  }

  /** Adding a path keeps the graph well formed: counts stay at least 1 and every edge
      joins two nodes of the graph. */
  lemma AddPathWellFormed(g: WGraph, path: Path)
    requires WellFormed(g)
    ensures WellFormed(AddPathSpec(g, path))
  {
    var ps := Pairs(path);
    IncAllPositive(g.counts, ps);
    var h := AddPathSpec(g, path);
    forall e | e in h.counts ensures e.lo <= e.hi && e.lo in h.nodes && e.hi in h.nodes {
      if e !in g.counts {
        IncAllCount(g.counts, ps, e);
        assert e in ps;
        var i :| 0 <= i < |ps| && ps[i] == e;
        EndpointsOfEdges(ps, e.lo);
        EndpointsOfEdges(ps, e.hi);
      }
    }
  }

  /** `_add_path` enters exactly the nodes it adds to the graph, so a node order that lists
      the graph's nodes keeps listing them. */
  lemma AddPathOrderListsNodes(g: WGraph, order: seq<int>, path: Path)
    requires forall n :: n in order <==> n in g.nodes
    ensures forall n :: n in OrderAfter(order, path) <==> n in AddPathSpec(g, path).nodes
  {
    forall n ensures n in OrderAfter(order, path) <==> n in AddPathSpec(g, path).nodes {
      OrderAfterNodes(order, path, n);
      EndpointsOfPath(path, n);
    }
  }

  /** The nodes `_add_path` enters are those of the path, when it has an edge. */
  lemma {:induction false} OrderAfterNodes(order: seq<int>, path: Path, x: int)
    ensures x in OrderAfter(order, path) <==> x in order || (|path| > 1 && x in path)
    decreases |path|
  {
    if |path| > 1 {
      var pre, u, v := path[..|path| - 1], path[|path| - 2], path[|path| - 1];
      OrderAfterNodes(order, pre, x);
      var inner := OrderAfter(order, pre);
      AdmitMember(inner, u, x);
      AdmitMember(Admit(inner, u), v, x);
      assert x in path <==> x in pre || x == v by {
        assert path == pre + [v];
      }
      assert u == pre[|pre| - 1];
      if |pre| == 1 {
        assert x in pre <==> x == u;
      }
    }
  }

  lemma AdmitMember(order: seq<int>, y: int, x: int)
    ensures x in Admit(order, y) <==> x in order || x == y
  {
  }

  /** The endpoints of a path's edges are the ASes of the path, when it has an edge. */
  lemma EndpointsOfPath(path: Path, x: int)
    ensures x in Endpoints(Pairs(path)) <==> |path| > 1 && x in path
  {
    var ps := Pairs(path);
    EndpointsOfEdges(ps, x);
    if x in Endpoints(ps) {
      var i :| 0 <= i < |ps| && (ps[i].lo == x || ps[i].hi == x);
      assert ps[i] == MkEdge(path[i], path[i + 1]);
    }
    if |path| > 1 && x in path {
      var j :| 0 <= j < |path| && path[j] == x;
      var i := if j < |path| - 1 then j else j - 1;
      assert ps[i] == MkEdge(path[i], path[i + 1]);
    }
  }

  lemma {:induction false} DecAllShrinks<K>(m: map<K, int>, ks: seq<K>)
    ensures DecAll(m, ks).Keys <= m.Keys
    decreases |ks|
  {
    if |ks| > 0 {
      DecAllShrinks(m, ks[..|ks| - 1]);
    }
  }

  /** Removing a path keeps the graph well formed. */
  lemma RemovePathWellFormed(g: WGraph, path: Path)
    requires WellFormed(g)
    ensures WellFormed(RemovePathSpec(g, path))
  {
    DecAllPositive(g.counts, Pairs(path));
    DecAllShrinks(g.counts, Pairs(path));
  }

  /** Adding a path raises the count of every edge by its number of occurrences among the
      path's consecutive pairs, and nothing else. */
  lemma AddPathCounts(g: WGraph, path: Path, e: Edge)
    ensures Get(AddPathSpec(g, path).counts, e) == Get(g.counts, e) + multiset(Pairs(path))[e]
  {
    IncAllCount(g.counts, Pairs(path), e);
  }

  /** Adding a path and then removing the same path restores the edge -> count map
      (the nodes the path introduced stay, as networkx keeps them). */
  lemma AddThenRemovePath(g: WGraph, path: Path)
    requires WellFormed(g)
    ensures RemovePathSpec(AddPathSpec(g, path), path).counts == g.counts
    ensures RemovePathSpec(AddPathSpec(g, path), path).nodes >= g.nodes
  {
    IncThenDecAll(g.counts, Pairs(path));
  }

  /** A path with fewer than two ASes has no edge and changes nothing. */
  lemma ShortPathNoOp(g: WGraph, path: Path)
    requires |path| <= 1
    ensures AddPathSpec(g, path) == g && RemovePathSpec(g, path) == g
  {
    assert Pairs(path) == [];
  }

  // ---- Multigraph: one parallel edge per "<rc>_<peer_ip>" key ----

  datatype KeyedEdge = KeyedEdge(edge: Edge, key: string)

  /** `f"{kwargs['rc']}_{kwargs['peer_ip']}"` (observers/graph.py:229, 242). */
  function RcPeerKey(rc: string, peerIp: string): string {
    rc + "_" + peerIp
  }

  function KeyedPairs(path: Path, key: string): (r: seq<KeyedEdge>)
    ensures |r| == |Pairs(path)|
    ensures forall i :: 0 <= i < |r| ==> r[i] == KeyedEdge(Pairs(path)[i], key)
  {
    seq(|Pairs(path)|, i requires 0 <= i < |Pairs(path)| => KeyedEdge(Pairs(path)[i], key))
  }

  /** `ASMultiGraphObserver._add_path`. */
  function MultiAddSpec(m: map<KeyedEdge, int>, key: string, path: Path): map<KeyedEdge, int> {
    IncAll(m, KeyedPairs(path, key))
  }

  /** `ASMultiGraphObserver._remove_path`. */
  function MultiRemoveSpec(m: map<KeyedEdge, int>, key: string, path: Path): map<KeyedEdge, int> {
    DecAll(m, KeyedPairs(path, key))
  }

  /** The multigraph keeps the counts of other rc_peer keys on the same edges untouched. */
  lemma MultiOtherKeysUntouched(m: map<KeyedEdge, int>, key: string, path: Path, ke: KeyedEdge)
    requires ke.key != key
    ensures Get(MultiAddSpec(m, key, path), ke) == Get(m, ke)
    ensures Get(MultiRemoveSpec(m, key, path), ke) == Get(m, ke)
  {
    assert ke !in KeyedPairs(path, key);
    UntouchedKeys(m, KeyedPairs(path, key), ke);
  }

  /** Add then remove of the same path under the same key restores the multigraph. */
  lemma MultiAddThenRemove(m: map<KeyedEdge, int>, key: string, path: Path)
    requires Positive(m)
    ensures MultiRemoveSpec(MultiAddSpec(m, key, path), key, path) == m
  {
    IncThenDecAll(m, KeyedPairs(path, key));
  }

  /** The rc_peer keys carried by an edge of the multigraph. */
  function KeysOn(m: map<KeyedEdge, int>, e: Edge): set<string> {
    set ke | ke in m && ke.edge == e :: ke.key
  }

  /** `len(multigraph[u][v])`: the number of distinct rc_peer keys on the edge. */
  function PeersCount(m: map<KeyedEdge, int>, e: Edge): nat {
    |KeysOn(m, e)|
  }

  /** The rows `ASGraphObserver.dump` writes for one family: each edge with its
      `paths_count` and `peers_count`; edges absent from the multigraph are skipped. */
  function DumpRows(g: WGraph, m: map<KeyedEdge, int>): map<Edge, (int, nat)> {
    map e | e in g.counts && PeersCount(m, e) > 0 :: (g.counts[e], PeersCount(m, e))
  }

  // ---- Hook routing of BaseGraphObserver, shared by both graph observers ----

  datatype PerFamily<T> = PerFamily(v4: T, v6: T) {
    function Get(fam: Family): T {
      if fam == IPv4 then v4 else v6
    }
    function Set(fam: Family, x: T): PerFamily<T> {
      if fam == IPv4 then this.(v4 := x) else this.(v6 := x)
    }
  }

  /** `BaseGraphObserver`'s hooks on an `ASGraphObserver`: build and announcement hooks add
      the path to the family's graph, withdrawal removes it, and an announcement with a
      truthy `old_path` first removes the old path. */
  function GraphStep(s: PerFamily<WGraph>, e: Event): PerFamily<WGraph> {
    match e
    case AddPath(fam, _, _, _, path) => s.Set(fam, AddPathSpec(s.Get(fam), path))
    case Withdrawal(fam, _, _, _, path) => s.Set(fam, RemovePathSpec(s.Get(fam), path))
    case Announcement(fam, _, _, _, newPath, oldPath) =>
      var g := if Truthy(oldPath) then RemovePathSpec(s.Get(fam), oldPath.value) else s.Get(fam);
      s.Set(fam, AddPathSpec(g, newPath))
    case Dump(_) => s
  }

  /** The same hooks on an `ASMultiGraphObserver`, under the key `<rc>_<peer_ip>`. */
  function MultiGraphStep(s: PerFamily<map<KeyedEdge, int>>, e: Event): PerFamily<map<KeyedEdge, int>> {
    match e
    case AddPath(fam, rc, peerIp, _, path) => s.Set(fam, MultiAddSpec(s.Get(fam), RcPeerKey(rc, peerIp), path))
    case Withdrawal(fam, rc, peerIp, _, path) => s.Set(fam, MultiRemoveSpec(s.Get(fam), RcPeerKey(rc, peerIp), path))
    case Announcement(fam, rc, peerIp, _, newPath, oldPath) =>
      var key := RcPeerKey(rc, peerIp);
      var m := if Truthy(oldPath) then MultiRemoveSpec(s.Get(fam), key, oldPath.value) else s.Get(fam);
      s.Set(fam, MultiAddSpec(m, key, newPath))
    case Dump(_) => s
  }

  predicate GraphsWellFormed(s: PerFamily<WGraph>) {
    WellFormed(s.v4) && WellFormed(s.v6)
  }

  /** Every hook keeps both graphs well formed, so no stored `paths_count` is ever below 1. */
  lemma GraphStepWellFormed(s: PerFamily<WGraph>, e: Event)
    requires GraphsWellFormed(s)
    ensures GraphsWellFormed(GraphStep(s, e))
  {
    match e
    case AddPath(fam, _, _, _, path) => AddPathWellFormed(s.Get(fam), path);
    case Withdrawal(fam, _, _, _, path) => RemovePathWellFormed(s.Get(fam), path);
    case Announcement(fam, _, _, _, newPath, oldPath) =>
      var g := if Truthy(oldPath) then RemovePathSpec(s.Get(fam), oldPath.value) else s.Get(fam);
      if Truthy(oldPath) { RemovePathWellFormed(s.Get(fam), oldPath.value); }
      AddPathWellFormed(g, newPath);
    case Dump(_) =>
  }

  /** An IPv4 hook never touches the IPv6 graph and vice versa. */
  lemma GraphStepKeepsOtherFamily(s: PerFamily<WGraph>, e: Event, other: Family)
    requires !e.Dump? && e.fam != other
    ensures GraphStep(s, e).Get(other) == s.Get(other)
  {
  }

  /** An announcement that replaces a path by itself leaves the edge counts unchanged
      when the old path's edges were all present. */
  lemma AnnounceSamePathKeepsCounts(g: WGraph, path: Path)
    requires WellFormed(g)
    ensures AddPathSpec(RemovePathSpec(AddPathSpec(g, path), path), path).counts == AddPathSpec(g, path).counts
  {
    AddThenRemovePath(g, path);
  }

  predicate MultiWellFormed(s: PerFamily<map<KeyedEdge, int>>) {
    Positive(s.v4) && Positive(s.v6)
  }

  lemma MultiGraphStepWellFormed(s: PerFamily<map<KeyedEdge, int>>, e: Event)
    requires MultiWellFormed(s)
    ensures MultiWellFormed(MultiGraphStep(s, e))
  {
    match e
    case AddPath(fam, rc, peerIp, _, path) =>
      IncAllPositive(s.Get(fam), KeyedPairs(path, RcPeerKey(rc, peerIp)));
    case Withdrawal(fam, rc, peerIp, _, path) =>
      DecAllPositive(s.Get(fam), KeyedPairs(path, RcPeerKey(rc, peerIp)));
    case Announcement(fam, rc, peerIp, _, newPath, oldPath) =>
      var key := RcPeerKey(rc, peerIp);
      var m := if Truthy(oldPath) then MultiRemoveSpec(s.Get(fam), key, oldPath.value) else s.Get(fam);
      if Truthy(oldPath) { DecAllPositive(s.Get(fam), KeyedPairs(oldPath.value, key)); }
      IncAllPositive(m, KeyedPairs(newPath, key));
    case Dump(_) =>
  }

  // ---- compare_weighted_graphs ----

  datatype Comparison = Comparison(
    addedNodes: set<int>,
    removedNodes: set<int>,
    addedEdges: set<Edge>,
    removedEdges: set<Edge>,
    modifiedEdges: map<Edge, (int, int)>)

  /** observers/graph.py:264-287, on undirected edges: nodes and edges only in the second
      graph, only in the first, and shared edges whose weights differ with both weights. */
  function CompareWeightedGraphs(g1: WGraph, g2: WGraph): (c: Comparison)
    ensures c.addedNodes == g2.nodes - g1.nodes && c.removedNodes == g1.nodes - g2.nodes
    ensures c.addedEdges !! g1.counts.Keys && c.removedEdges !! g2.counts.Keys
    ensures c.addedEdges + (g1.counts.Keys * g2.counts.Keys) == g2.counts.Keys
    ensures c.removedEdges + (g1.counts.Keys * g2.counts.Keys) == g1.counts.Keys
    ensures c.modifiedEdges.Keys <= g1.counts.Keys * g2.counts.Keys
    ensures forall e | e in g1.counts && e in g2.counts :: e in c.modifiedEdges <==> g1.counts[e] != g2.counts[e]
    ensures forall e | e in c.modifiedEdges :: c.modifiedEdges[e] == (g1.counts[e], g2.counts[e])
  {
    Comparison(
      g2.nodes - g1.nodes,
      g1.nodes - g2.nodes,
      g2.counts.Keys - g1.counts.Keys,
      g1.counts.Keys - g2.counts.Keys,
      map e | e in g1.counts.Keys * g2.counts.Keys && g1.counts[e] != g2.counts[e] :: (g1.counts[e], g2.counts[e]))
  }

  predicate NoDifferences(c: Comparison) {
    c.addedNodes == {} && c.removedNodes == {} && c.addedEdges == {} && c.removedEdges == {}
    && c.modifiedEdges == map[]
  }

  /** The comparison reports nothing exactly when the two graphs have the same nodes and
      the same weighted edges (the order the nodes entered in is not compared). */
  lemma CompareReportsNothingIffEqual(g1: WGraph, g2: WGraph)
    ensures NoDifferences(CompareWeightedGraphs(g1, g2)) <==> g1.nodes == g2.nodes && g1.counts == g2.counts
  {
    var c := CompareWeightedGraphs(g1, g2);
    if NoDifferences(c) {
      assert g1.nodes == g2.nodes;
      assert g1.counts.Keys == g2.counts.Keys;
      forall e | e in g1.counts ensures g1.counts[e] == g2.counts[e] {
        assert e !in c.modifiedEdges;
      }
      assert g1.counts == g2.counts;
    }
  }

  /** Comparing in the other direction swaps what is added and what is removed. */
  lemma CompareSwapped(g1: WGraph, g2: WGraph)
    ensures CompareWeightedGraphs(g2, g1).addedNodes == CompareWeightedGraphs(g1, g2).removedNodes
    ensures CompareWeightedGraphs(g2, g1).addedEdges == CompareWeightedGraphs(g1, g2).removedEdges
    ensures CompareWeightedGraphs(g2, g1).modifiedEdges.Keys == CompareWeightedGraphs(g1, g2).modifiedEdges.Keys
  {
  }

  // ---- compare_weighted_graphs as written, on the tuples `edges()` lists ----

  /** The position at which `x` entered the graph. */
  function Rank(order: seq<int>, x: int): (i: nat)
    requires x in order
    ensures i < |order| && order[i] == x
    ensures forall j | 0 <= j < i :: order[j] != x
  {
    if order[0] == x then 0 else 1 + Rank(order[1..], x)
  }

  /** The tuple `edges()` lists an edge as: networkx walks the nodes in the order they
      entered the graph and lists each edge from whichever endpoint it meets first. */
  function Listed(order: seq<int>, e: Edge): (t: (int, int))
    ensures t == (e.lo, e.hi) || t == (e.hi, e.lo)
    ensures e.lo <= e.hi ==> MkEdge(t.0, t.1) == e
  {
    if e.lo in order && e.hi in order && Rank(order, e.hi) < Rank(order, e.lo) then (e.hi, e.lo)
    else (e.lo, e.hi)
  }

  /** `set(graph.edges())`. */
  function ListedEdges(g: WGraph, order: seq<int>): set<(int, int)> {
    set e | e in g.counts :: Listed(order, e)
  }

  /** `{(v, u) for u, v in ts}`. */
  function Flipped(ts: set<(int, int)>): set<(int, int)> {
    set t | t in ts :: (t.1, t.0)
  }

  datatype ListedComparison = ListedComparison(
    addedNodes: set<int>,
    removedNodes: set<int>,
    addedEdges: set<(int, int)>,
    removedEdges: set<(int, int)>,
    modifiedEdges: map<(int, int), (int, int)>)

  /** observers/graph.py:264-287 as written: added and removed edges subtract both
      orientations, but the modified edges are looked for only among the tuples both
      graphs list in the same orientation. `get_edge_data` does not depend on the
      orientation, so a weight is read by the undirected edge. `o1` and `o2` are the orders
      the nodes entered the two graphs in. */
  function CompareListed(g1: WGraph, o1: seq<int>, g2: WGraph, o2: seq<int>): ListedComparison {
    var l1, l2 := ListedEdges(g1, o1), ListedEdges(g2, o2);
    ListedComparison(
      g2.nodes - g1.nodes,
      g1.nodes - g2.nodes,
      l2 - l1 - Flipped(l1),
      l1 - l2 - Flipped(l2),
      map t | t in l1 * l2 && Get(g1.counts, MkEdge(t.0, t.1)) != Get(g2.counts, MkEdge(t.0, t.1)) ::
        (Get(g1.counts, MkEdge(t.0, t.1)), Get(g2.counts, MkEdge(t.0, t.1))))
  }

  /** The tuples of `ListedEdges(g, order)` name exactly the edges of a well-formed graph. */
  lemma ListedEdgesNameEdges(g: WGraph, order: seq<int>, t: (int, int))
    requires WellFormed(g)
    ensures t in ListedEdges(g, order) ==> MkEdge(t.0, t.1) in g.counts
    ensures MkEdge(t.0, t.1) in g.counts ==> t in ListedEdges(g, order) || (t.1, t.0) in ListedEdges(g, order)
  {
    var e := MkEdge(t.0, t.1);
    if e in g.counts {
      assert Listed(order, e) in ListedEdges(g, order);
    }
  }

  lemma FlippedMember(ts: set<(int, int)>, t: (int, int))
    ensures t in Flipped(ts) <==> (t.1, t.0) in ts
  {
    if (t.1, t.0) in ts {
      assert ((t.1, t.0).1, (t.1, t.0).0) == t;
    }
  }

  /** Subtracting both orientations makes the source's added edges exactly those of the
      comparison on undirected edges, whatever orders the nodes entered in. */
  lemma CompareListedAddedEdges(g1: WGraph, o1: seq<int>, g2: WGraph, o2: seq<int>)
    requires WellFormed(g1) && WellFormed(g2)
    ensures (set t | t in CompareListed(g1, o1, g2, o2).addedEdges :: MkEdge(t.0, t.1))
            == CompareWeightedGraphs(g1, g2).addedEdges
  {
    var l1, l2 := ListedEdges(g1, o1), ListedEdges(g2, o2);
    var added := CompareListed(g1, o1, g2, o2).addedEdges;
    var lhs := set t | t in added :: MkEdge(t.0, t.1);
    forall e | e in lhs ensures e in g2.counts && e !in g1.counts {
      var t :| t in added && MkEdge(t.0, t.1) == e;
      ListedEdgesNameEdges(g2, o2, t);
      ListedEdgesNameEdges(g1, o1, t);
      FlippedMember(l1, t);
    }
    forall e | e in g2.counts && e !in g1.counts ensures e in lhs {
      var t := Listed(o2, e);
      assert t in l2;
      ListedEdgesNameEdges(g1, o1, t);
      ListedEdgesNameEdges(g1, o1, (t.1, t.0));
      FlippedMember(l1, t);
      assert MkEdge(t.1, t.0) == e;
      assert t in added;
    }
  }

  /** The same holds of the removed edges. */
  lemma CompareListedRemovedEdges(g1: WGraph, o1: seq<int>, g2: WGraph, o2: seq<int>)
    requires WellFormed(g1) && WellFormed(g2)
    ensures (set t | t in CompareListed(g1, o1, g2, o2).removedEdges :: MkEdge(t.0, t.1))
            == CompareWeightedGraphs(g1, g2).removedEdges
  {
    CompareListedAddedEdges(g2, o2, g1, o1);
    assert CompareListed(g2, o2, g1, o1).addedEdges == CompareListed(g1, o1, g2, o2).removedEdges;
  }

  /** Every modified edge the source reports is one the undirected comparison reports, with
      the same pair of weights; the converse fails (see below). */
  lemma CompareListedModifiedAgree(g1: WGraph, o1: seq<int>, g2: WGraph, o2: seq<int>, t: (int, int))
    requires WellFormed(g1) && WellFormed(g2)
    requires t in CompareListed(g1, o1, g2, o2).modifiedEdges
    ensures MkEdge(t.0, t.1) in CompareWeightedGraphs(g1, g2).modifiedEdges
    ensures CompareWeightedGraphs(g1, g2).modifiedEdges[MkEdge(t.0, t.1)] == CompareListed(g1, o1, g2, o2).modifiedEdges[t]
  {
    ListedEdgesNameEdges(g1, o1, t);
    ListedEdgesNameEdges(g2, o2, t);
  }

  /** The two graphs of the example below, and the orders their nodes entered in, as
      `_add_path` builds them. */
  lemma ReversedExampleGraphs()
    ensures AddPathSpec(EmptyGraph, [1, 2]) == WGraph({1, 2}, map[Edge(1, 2) := 1])
    ensures AddPathSpec(AddPathSpec(EmptyGraph, [2, 1]), [2, 1]) == WGraph({1, 2}, map[Edge(1, 2) := 2])
    ensures OrderAfter([], [1, 2]) == [1, 2]
    ensures OrderAfter(OrderAfter([], [2, 1]), [2, 1]) == [2, 1]
  {
    var e := Edge(1, 2);
    assert Pairs([1, 2]) == [e] && Pairs([2, 1]) == [e];
    assert Endpoints([e]) == {1, 2};
    assert [1, 2][..1] == [1] && [2, 1][..1] == [2];
    assert IncAll(map[], [e]) == map[e := 1];
    assert IncAll(map[e := 1], [e]) == map[e := 2];
    assert OrderAfter([], [1]) == [] && OrderAfter([], [2]) == [];
    assert OrderAfter([2, 1], [2]) == [2, 1];
  }

  lemma ListedEdgesOne(g: WGraph, order: seq<int>, e: Edge)
    requires g.counts.Keys == {e}
    ensures ListedEdges(g, order) == {Listed(order, e)}
  {
  }

  lemma ListedExample()
    ensures Listed([1, 2], Edge(1, 2)) == (1, 2) && Listed([2, 1], Edge(1, 2)) == (2, 1)
  {
    assert [1, 2][1..] == [2] && [2, 1][1..] == [1];
    assert Rank([1, 2], 1) == 0 && Rank([1, 2], 2) == 1;
    assert Rank([2, 1], 2) == 0 && Rank([2, 1], 1) == 1;
  }

  /** A graph whose every node has an edge has nothing to prune. */
  lemma PruneNothing(g: WGraph)
    requires forall n | n in g.nodes :: exists e | e in g.counts :: e.lo == n || e.hi == n
    ensures PruneIsolates(g) == g
  {
    var h := PruneIsolates(g);
    forall n | n in g.nodes ensures n in h.nodes {
      var e :| e in g.counts && (e.lo == n || e.hi == n);
    }
    assert h.nodes == g.nodes;
  }

  /** The as-written comparison of the two graphs of the example below. */
  lemma CompareListedExample()
    ensures CompareListed(WGraph({1, 2}, map[Edge(1, 2) := 1]), [1, 2], WGraph({1, 2}, map[Edge(1, 2) := 2]), [2, 1])
            == ListedComparison({}, {}, {}, {}, map[])
  {
    var e := Edge(1, 2);
    var g1 := WGraph({1, 2}, map[e := 1]);
    var g2 := WGraph({1, 2}, map[e := 2]);
    ListedExample();
    ListedEdgesOne(g1, [1, 2], e);
    ListedEdgesOne(g2, [2, 1], e);
    FlippedMember({(1, 2)}, (2, 1));
    FlippedMember({(2, 1)}, (1, 2));
    assert {(1, 2)} * {(2, 1)} == {};
    var c := CompareListed(g1, [1, 2], g2, [2, 1]);
    assert c.addedEdges == {} && c.removedEdges == {};
    assert c.modifiedEdges == map[];
  }

  /** The source misses a weight change on an edge the two graphs list in opposite
      orientations: the path 1 2 seen once against the path 2 1 seen twice reports
      nothing, while the comparison on undirected edges reports the change of weight.
      Pruning the first graph removes no node, so its node order stays as built. */
  lemma CompareListedMissesReversedEdge()
    ensures var g1 := AddPathSpec(EmptyGraph, [1, 2]);
            var g2 := AddPathSpec(AddPathSpec(EmptyGraph, [2, 1]), [2, 1]);
            var o1 := OrderAfter([], [1, 2]);
            var o2 := OrderAfter(OrderAfter([], [2, 1]), [2, 1]);
            && PruneIsolates(g1) == g1
            && g1.counts != g2.counts
            && CompareListed(PruneIsolates(g1), o1, g2, o2) == ListedComparison({}, {}, {}, {}, map[])
            && CompareWeightedGraphs(PruneIsolates(g1), g2).modifiedEdges.Keys == {Edge(1, 2)}
            && CompareWeightedGraphs(PruneIsolates(g1), g2).modifiedEdges[Edge(1, 2)] == (1, 2)
  {
    ReversedExampleGraphs();
    CompareListedExample();
    CompareWeightedExample();
  }

  /** The undirected comparison of the same two graphs; the first has no isolated node. */
  lemma CompareWeightedExample()
    ensures var g1 := WGraph({1, 2}, map[Edge(1, 2) := 1]);
            var g2 := WGraph({1, 2}, map[Edge(1, 2) := 2]);
            && PruneIsolates(g1) == g1
            && CompareWeightedGraphs(g1, g2).modifiedEdges.Keys == {Edge(1, 2)}
            && CompareWeightedGraphs(g1, g2).modifiedEdges[Edge(1, 2)] == (1, 2)
  {
    var e := Edge(1, 2);
    var g1 := WGraph({1, 2}, map[e := 1]);
    assert e in g1.counts && e.lo == 1 && e.hi == 2;
    PruneNothing(g1);
  }

  /** `remove_nodes_from(list(nx.isolates(g)))`: drop the nodes that no edge touches. */
  function PruneIsolates(g: WGraph): (h: WGraph)
    ensures h.counts == g.counts && h.nodes <= g.nodes
    ensures forall n | n in g.nodes :: n in h.nodes <==> exists e :: e in g.counts && (e.lo == n || e.hi == n)
  {
    var touched := set n | n in g.nodes && (exists e :: e in g.counts && (e.lo == n || e.hi == n));
    WGraph(touched, g.counts)
  }

  /** Pruning keeps a well-formed graph well formed. */
  lemma PruneIsolatesWellFormed(g: WGraph)
    requires WellFormed(g)
    ensures WellFormed(PruneIsolates(g))
  {
    var h := PruneIsolates(g);
    forall e | e in h.counts ensures e.lo in h.nodes && e.hi in h.nodes {
      assert e in g.counts && (e.lo == e.lo || e.hi == e.lo);
      assert e in g.counts && (e.lo == e.hi || e.hi == e.hi);
    }
  }

  /** A second pruning finds no isolated node left. */
  lemma PruneIsolatesIdempotent(g: WGraph)
    ensures PruneIsolates(PruneIsolates(g)) == PruneIsolates(g)
  {
    var h := PruneIsolates(g);
    forall n | n in h.nodes ensures n in PruneIsolates(h).nodes {
      var e :| e in g.counts && (e.lo == n || e.hi == n);
      assert e in h.counts;
    }
    assert PruneIsolates(h).nodes == h.nodes;
  }

  // ---- The loops of `_add_path` / `_remove_path` over consecutive AS pairs ----

  lemma IncAllStep<K>(m: map<K, int>, ks: seq<K>, l: int)
    requires 0 <= l < |ks|
    ensures IncAll(m, ks[..l + 1]) == Inc(IncAll(m, ks[..l]), ks[l])
    ensures DecAll(m, ks[..l + 1]) == Dec(DecAll(m, ks[..l]), ks[l])
  {
    assert ks[..l + 1][..l] == ks[..l];
  }

  lemma EndpointsStep(es: seq<Edge>, l: int)
    requires 0 <= l < |es|
    ensures Endpoints(es[..l + 1]) == Endpoints(es[..l]) + {es[l].lo, es[l].hi}
  {
    assert es[..l + 1][..l] == es[..l];
  }

  /** `ASGraphObserver._add_path` on one graph. */
  method AddEdges(g0: WGraph, path: Path) returns (g: WGraph)
    ensures g == AddPathSpec(g0, path)
  {
    ghost var ps := Pairs(path);
    var nodes, counts := g0.nodes, g0.counts;
    var l := 0;
    while l + 1 < |path|
      invariant 0 <= l <= |ps|
      invariant l + 1 < |path| || l == |ps|
      invariant nodes == g0.nodes + Endpoints(ps[..l])
      invariant counts == IncAll(g0.counts, ps[..l])
    {
      var u, v := path[l], path[l + 1];
      IncAllStep(g0.counts, ps, l);
      EndpointsStep(ps, l);
      counts := BumpEdge(counts, MkEdge(u, v));
      nodes := nodes + {u, v};
      l := l + 1;
    }
    assert ps[..l] == ps;
    g := WGraph(nodes, counts);
  }

  /** `ASGraphObserver._remove_path` on one graph. */
  method RemoveEdges(g0: WGraph, path: Path) returns (g: WGraph)
    ensures g == RemovePathSpec(g0, path)
  {
    ghost var ps := Pairs(path);
    var counts := g0.counts;
    var l := 0;
    while l + 1 < |path|
      invariant 0 <= l <= |ps|
      invariant l + 1 < |path| || l == |ps|
      invariant counts == DecAll(g0.counts, ps[..l])
    {
      IncAllStep(g0.counts, ps, l);
      counts := DropEdge(counts, MkEdge(path[l], path[l + 1]));
      l := l + 1;
    }
    assert ps[..l] == ps;
    g := g0.(counts := counts);
  }

  /** `if graph.has_edge(u, v[, key]): paths_count += 1 else: add_edge(..., paths_count=1)`. */
  method BumpEdge<K>(m: map<K, int>, k: K) returns (r: map<K, int>)
    ensures r == Inc(m, k)
  {
    if k in m {
      r := m[k := m[k] + 1];
    } else {
      r := m[k := 1];
    }
  }

  /** `if has_edge: paths_count -= 1; if paths_count == 0: remove_edge`. */
  method DropEdge<K>(m: map<K, int>, k: K) returns (r: map<K, int>)
    ensures r == Dec(m, k)
  {
    r := m;
    if k in m {
      var c := m[k] - 1;
      if c == 0 {
        r := m - {k};
      } else {
        r := m[k := c];
      }
    }
  }

  /** `ASMultiGraphObserver._add_path` on one multigraph. */
  method AddKeyedEdges(m0: map<KeyedEdge, int>, key: string, path: Path) returns (m: map<KeyedEdge, int>)
    ensures m == MultiAddSpec(m0, key, path)
  {
    m := m0;
    ghost var ks := KeyedPairs(path, key);
    var l := 0;
    while l + 1 < |path|
      invariant 0 <= l <= |ks|
      invariant l + 1 < |path| || l == |ks|
      invariant m == IncAll(m0, ks[..l])
    {
      var ke := KeyedEdge(MkEdge(path[l], path[l + 1]), key);
      IncAllStep(m0, ks, l);
      m := BumpEdge(m, ke);
      l := l + 1;
    }
    assert ks[..l] == ks;
  }

  /** `ASMultiGraphObserver._remove_path` on one multigraph. */
  method RemoveKeyedEdges(m0: map<KeyedEdge, int>, key: string, path: Path) returns (m: map<KeyedEdge, int>)
    ensures m == MultiRemoveSpec(m0, key, path)
  {
    m := m0;
    ghost var ks := KeyedPairs(path, key);
    var l := 0;
    while l + 1 < |path|
      invariant 0 <= l <= |ks|
      invariant l + 1 < |path| || l == |ks|
      invariant m == DecAll(m0, ks[..l])
    {
      var ke := KeyedEdge(MkEdge(path[l], path[l + 1]), key);
      IncAllStep(m0, ks, l);
      m := DropEdge(m, ke);
      l := l + 1;
    }
    assert ks[..l] == ks;
  }

  // ---- The two observer classes ----

  class ASMultiGraphObserver {
    const settings: Settings
    var graph4: map<KeyedEdge, int>
    var graph6: map<KeyedEdge, int>

    /** The `graph_ipv4` / `graph_ipv6` properties. */
    function Graphs(): PerFamily<map<KeyedEdge, int>>
      reads this
    {
      PerFamily(graph4, graph6)
    }

    ghost predicate Valid()
      reads this
    {
      MultiWellFormed(Graphs())
    }

    constructor(name: string := DefaultName, outputDir: string := DefaultOutputDir,
                timeFmt: string := DefaultTimeFmt)
      ensures Valid()
      ensures settings == BaseSettings(name, outputDir, timeFmt)
      ensures graph4 == map[] && graph6 == map[]
    {
      settings := BaseSettings(name, outputDir, timeFmt);
      graph4, graph6 := map[], map[];
    }

    method SetGraph(fam: Family, m: map<KeyedEdge, int>)
      modifies this
      ensures Graphs() == old(Graphs()).Set(fam, m)
    {
      if fam == IPv4 { graph4 := m; } else { graph6 := m; }
    }

    /** `_add_path`: bump the (edge, key) count of every consecutive pair. */
    method AddPathTo(fam: Family, path: Path, rc: string, peerIp: string)
      requires Valid()
      modifies this
      ensures Valid()
      ensures Graphs() == old(Graphs()).Set(fam, MultiAddSpec(old(Graphs()).Get(fam), RcPeerKey(rc, peerIp), path))
    {
      var m := AddKeyedEdges(Graphs().Get(fam), rc + "_" + peerIp, path);
      IncAllPositive(Graphs().Get(fam), KeyedPairs(path, RcPeerKey(rc, peerIp)));
      SetGraph(fam, m);
    }

    /** `_remove_path`: lower the (edge, key) count of every consecutive pair, deleting it
        at 0; a missing (edge, key) is skipped. */
    method RemovePathFrom(fam: Family, path: Path, rc: string, peerIp: string)
      requires Valid()
      modifies this
      ensures Valid()
      ensures Graphs() == old(Graphs()).Set(fam, MultiRemoveSpec(old(Graphs()).Get(fam), RcPeerKey(rc, peerIp), path))
    {
      var m := RemoveKeyedEdges(Graphs().Get(fam), rc + "_" + peerIp, path);
      DecAllPositive(Graphs().Get(fam), KeyedPairs(path, RcPeerKey(rc, peerIp)));
      SetGraph(fam, m);
    }

    method AddPathHook(fam: Family, rc: string, peerIp: string, pfx: string, path: Path)
      requires Valid()
      modifies this
      ensures Valid()
      ensures Graphs() == MultiGraphStep(old(Graphs()), AddPath(fam, rc, peerIp, pfx, path))
    {
      AddPathTo(fam, path, rc, peerIp);
    }

    method UpdateWithdrawal(fam: Family, rc: string, peerIp: string, pfx: string, path: Path)
      requires Valid()
      modifies this
      ensures Valid()
      ensures Graphs() == MultiGraphStep(old(Graphs()), Withdrawal(fam, rc, peerIp, pfx, path))
    {
      RemovePathFrom(fam, path, rc, peerIp);
    }

    method UpdateAnnouncement(fam: Family, rc: string, peerIp: string, pfx: string, newPath: Path,
                              oldPath: Option<Path> := None)
      requires Valid()
      modifies this
      ensures Valid()
      ensures Graphs() == MultiGraphStep(old(Graphs()), Announcement(fam, rc, peerIp, pfx, newPath, oldPath))
    {
      if oldPath.Some? && oldPath.value != [] {
        RemovePathFrom(fam, oldPath.value, rc, peerIp);
        AddPathTo(fam, newPath, rc, peerIp);
      } else {
        AddPathTo(fam, newPath, rc, peerIp);
      }
    }

    /** `dump` writes nothing for the multigraph. */
    method Dump(ts: int)
    {
    }
  }

  class ASGraphObserver {
    const settings: Settings
    /** The multigraph observer the dump reads its `peers_count` from, if one was given. */
    const multigraph: Option<ASMultiGraphObserver>
    var graph4: WGraph
    var graph6: WGraph

    function Graphs(): PerFamily<WGraph>
      reads this
    {
      PerFamily(graph4, graph6)
    }

    ghost predicate Valid()
      reads this
    {
      GraphsWellFormed(Graphs())
    }

    constructor(name: string := DefaultName, outputDir: string := DefaultOutputDir,
                timeFmt: string := DefaultTimeFmt, multigraph: Option<ASMultiGraphObserver> := None)
      ensures Valid()
      ensures settings == BaseSettings(name, outputDir, timeFmt) && this.multigraph == multigraph
      ensures graph4 == EmptyGraph && graph6 == EmptyGraph
    {
      settings := BaseSettings(name, outputDir, timeFmt);
      this.multigraph := multigraph;
      graph4, graph6 := EmptyGraph, EmptyGraph;
    }

    method SetGraph(fam: Family, g: WGraph)
      modifies this
      ensures Graphs() == old(Graphs()).Set(fam, g)
    {
      if fam == IPv4 { graph4 := g; } else { graph6 := g; }
    }

    /** `_add_path`: bump the edge of every consecutive pair, creating it (and its two
        nodes) with count 1 when it is missing. */
    method AddPathTo(fam: Family, path: Path)
      requires Valid()
      modifies this
      ensures Valid()
      ensures Graphs() == old(Graphs()).Set(fam, AddPathSpec(old(Graphs()).Get(fam), path))
    {
      var g := AddEdges(Graphs().Get(fam), path);
      AddPathWellFormed(Graphs().Get(fam), path);
      SetGraph(fam, g);
    }

    /** `_remove_path`: lower the edge of every consecutive pair and delete it at 0; a
        missing edge raises KeyError, which is caught and ignored. */
    method RemovePathFrom(fam: Family, path: Path)
      requires Valid()
      modifies this
      ensures Valid()
      ensures Graphs() == old(Graphs()).Set(fam, RemovePathSpec(old(Graphs()).Get(fam), path))
    {
      var g := RemoveEdges(Graphs().Get(fam), path);
      RemovePathWellFormed(Graphs().Get(fam), path);
      SetGraph(fam, g);
    }

    method AddPathHook(fam: Family, rc: string, peerIp: string, pfx: string, path: Path)
      requires Valid()
      modifies this
      ensures Valid()
      ensures Graphs() == GraphStep(old(Graphs()), AddPath(fam, rc, peerIp, pfx, path))
    {
      AddPathTo(fam, path);
    }

    method UpdateWithdrawal(fam: Family, rc: string, peerIp: string, pfx: string, path: Path)
      requires Valid()
      modifies this
      ensures Valid()
      ensures Graphs() == GraphStep(old(Graphs()), Withdrawal(fam, rc, peerIp, pfx, path))
    {
      RemovePathFrom(fam, path);
    }

    method UpdateAnnouncement(fam: Family, rc: string, peerIp: string, pfx: string, newPath: Path,
                              oldPath: Option<Path> := None)
      requires Valid()
      modifies this
      ensures Valid()
      ensures Graphs() == GraphStep(old(Graphs()), Announcement(fam, rc, peerIp, pfx, newPath, oldPath))
    {
      if oldPath.Some? && oldPath.value != [] {
        RemovePathFrom(fam, oldPath.value);
        AddPathTo(fam, newPath);
      } else {
        AddPathTo(fam, newPath);
      }
    }

    /** The rows `dump` writes for both families (observers/graph.py:173-193): every edge
        with its `paths_count` and the number of rc_peer keys the multigraph has on it;
        an edge the multigraph lacks raises KeyError and is skipped. Without a multigraph
        observer the dump reads the missing attribute `as_graph_ipv4` (graph.py:160). */
    method Dump(ts: int) returns (r: Result<(map<Edge, (int, nat)>, map<Edge, (int, nat)>)>)
      ensures multigraph.Some? ==>
                r == Ok((DumpRows(graph4, multigraph.value.graph4), DumpRows(graph6, multigraph.value.graph6)))
      ensures multigraph.None? ==> r == Err(AttributeError)
    {
      if multigraph.None? {
        return Err(AttributeError);
      }
      var rows4 := DumpFamily(graph4, multigraph.value.graph4);
      var rows6 := DumpFamily(graph6, multigraph.value.graph6);
      r := Ok((rows4, rows6));
    }

    /** Compare the IPv4 graph with another observer's, after dropping isolated nodes. */
    method Compare(other: ASGraphObserver) returns (c: Comparison)
      modifies this
      ensures graph4 == PruneIsolates(old(graph4)) && graph6 == old(graph6)
      ensures c == CompareWeightedGraphs(graph4, other.graph4)
    {
      graph4 := PruneIsolates(graph4);
      c := CompareWeightedGraphs(graph4, other.graph4);
    }
  }

  /** The loop over the edges of one graph in `ASGraphObserver.dump`. */
  method DumpFamily(g: WGraph, m: map<KeyedEdge, int>) returns (rows: map<Edge, (int, nat)>)
    ensures rows == DumpRows(g, m)
  {
    rows := map[];
    var todo := g.counts.Keys;
    while todo != {}
      invariant todo <= g.counts.Keys
      invariant forall e | e in rows :: e in g.counts && e !in todo && PeersCount(m, e) > 0
                                         && rows[e] == (g.counts[e], PeersCount(m, e))
      invariant forall e | e in g.counts && e !in todo && PeersCount(m, e) > 0 :: e in rows
      decreases todo
    {
      var e :| e in todo;
      var keys := set ke | ke in m && ke.edge == e :: ke.key;
      if |keys| > 0 {
        rows := rows[e := (g.counts[e], |keys|)];
      }
      todo := todo - {e};
    }
    assert rows.Keys == DumpRows(g, m).Keys;
  }
}
