/**
 * The lineage graph: records keyed by their id, and typed directed edges, at
 * most one per ordered pair of ids. Neighbourhoods ignore edge direction.
 */
module Graph {
  import opened Wrappers
  import opened Text
  import opened LineageNodes

  /** The edge types the interface names; the graph stores whatever type it is given. */
  const Adjacent: string := "adjacent"
  const Semantic: string := "semantic"

  type Edges = map<(string, string), string>

  // ---------------------------------------------------------------------------
  // Neighbourhoods

  /** The ids one hop from some id of `s`, following edges either way. */
  function NbrsOf(e: Edges, s: set<string>): set<string> {
    (set p | p in e && p.0 in s :: p.1) + (set p | p in e && p.1 in s :: p.0)
  }

  /** The ids at most `d` hops from `start`, `start` included. */
  function Reach(e: Edges, start: string, d: nat): set<string> {
    if d == 0 then {start}
    else Reach(e, start, d - 1) + NbrsOf(e, Reach(e, start, d - 1))
  }

  lemma NbrsOfUnion(e: Edges, a: set<string>, b: set<string>)
    ensures NbrsOf(e, a + b) == NbrsOf(e, a) + NbrsOf(e, b)
  {
  }

  /** A neighbourhood only grows with the number of hops. */
  lemma {:induction false} ReachMonotone(e: Edges, start: string, d: nat, d': nat)
    requires d <= d'
    ensures Reach(e, start, d) <= Reach(e, start, d')
    decreases d' - d
  {
    if d < d' {
      ReachMonotone(e, start, d, d' - 1);
    }
  }

  /** Once a hop adds nothing, no later hop does either. */
  lemma {:induction false} ReachStable(e: Edges, start: string, k: nat, j: nat)
    requires k <= j
    requires NbrsOf(e, Reach(e, start, k)) <= Reach(e, start, k)
    ensures Reach(e, start, j) == Reach(e, start, k)
    decreases j - k
  {
    if k < j {
      ReachStable(e, start, k, j - 1);
    }
  }

  /**
   * One breadth-first level: when the ids reached before the frontier have all
   * their neighbours already reached, the next neighbourhood is what is reached
   * plus the frontier's unvisited neighbours.
   */
  lemma ReachStep(e: Edges, start: string, k: nat, visited: set<string>, current: set<string>)
    requires visited == Reach(e, start, k) && current <= visited
    requires NbrsOf(e, visited - current) <= visited
    ensures Reach(e, start, k + 1) == visited + (NbrsOf(e, current) - visited)
  {
    NbrsOfUnion(e, visited - current, current);
    assert visited == (visited - current) + current;
  }

  /** One frontier id handled: the next level gains its unvisited neighbours. */
  lemma ExpandStep(e: Edges, done: set<string>, id: string, visited: set<string>, next: set<string>)
    requires next == NbrsOf(e, done) - visited
    ensures next + (NbrsOf(e, {id}) - (visited + next)) == NbrsOf(e, done + {id}) - visited
  {
    NbrsOfUnion(e, done, {id});
  }

  /** The breadth-first loop's invariant survives one level, and an empty level means nothing more is reachable. */
  lemma BfsStep(e: Edges, start: string, k: nat, visited: set<string>, current: set<string>, next: set<string>)
    requires visited == Reach(e, start, k) && start in visited && current <= visited
    requires NbrsOf(e, visited - current) <= visited
    requires next == NbrsOf(e, current) - visited
    ensures visited + next == Reach(e, start, k + 1)
    ensures next <= visited + next && start in visited + next
    ensures NbrsOf(e, (visited + next) - next) <= visited + next
    ensures (visited + next) - {start} == (visited - {start}) + next
    ensures next == {} ==> NbrsOf(e, Reach(e, start, k + 1)) <= Reach(e, start, k + 1)
  {
    ReachStep(e, start, k, visited, current);
    assert (visited + next) - next == visited;
    if next == {} {
      NbrsOfUnion(e, visited - current, current);
      assert visited == (visited - current) + current;
    }
  }

  /** The nodes of the graph as the JSON export lists them. */
  datatype NodeJson = NodeJson(lnId: string, contentHash: string, datasetVersion: string)

  datatype EdgeJson = EdgeJson(source: string, target: string, edgeType: string)

  /** The exported document: the node dictionary and the edge list. */
  datatype GraphJson = GraphJson(nodes: map<string, NodeJson>, edges: seq<EdgeJson>)

  function NodeJsonOf(ln: LineageNode): NodeJson {
    NodeJson(ln.lnId, ln.contentHash, ln.datasetVersion)
  }

  /** The export's node dictionary: one summary per node, under its id. */
  function ExportNodes(nodes: map<string, LineageNode>): (r: map<string, NodeJson>)
    ensures r.Keys == nodes.Keys
    ensures forall id :: id in r ==> r[id] == NodeJsonOf(nodes[id])
  {
    map id | id in nodes :: NodeJsonOf(nodes[id])
  }

  /** An edge list names exactly the edges of `e`, each with its type. */
  predicate ListsEdges(l: seq<EdgeJson>, e: Edges) {
    && (forall i :: 0 <= i < |l| ==> (l[i].source, l[i].target) in e && e[(l[i].source, l[i].target)] == l[i].edgeType)
    && (forall p :: p in e ==> exists i :: 0 <= i < |l| && (l[i].source, l[i].target) == p)
  }

  /** The edges `load_json` adds from a list, in order: those whose two endpoints are among `ids`. */
  function LoadEdges(l: seq<EdgeJson>, ids: set<string>): Edges
    decreases |l|
  {
    if l == [] then map[]
    else
      var prev := LoadEdges(l[..|l| - 1], ids);
      var x := l[|l| - 1];
      if x.source in ids && x.target in ids then prev[(x.source, x.target) := x.edgeType] else prev
  }

  /** The ordered pairs a list names. */
  function PairsOf(l: seq<EdgeJson>): set<(string, string)> {
    set i | 0 <= i < |l| :: (l[i].source, l[i].target)
  }

  /** Loading a list whose entries agree with `e` and whose endpoints are known gives `e` restricted to the pairs listed. */
  lemma {:induction false} LoadEdgesAgreeing(l: seq<EdgeJson>, e: Edges, ids: set<string>)
    requires forall i :: 0 <= i < |l| ==> (l[i].source, l[i].target) in e && e[(l[i].source, l[i].target)] == l[i].edgeType
    requires forall p :: p in e ==> p.0 in ids && p.1 in ids
    ensures LoadEdges(l, ids) == map p | p in e && p in PairsOf(l) :: e[p]
    decreases |l|
  {
    if l != [] {
      var init := l[..|l| - 1];
      var x := l[|l| - 1];
      assert forall i :: 0 <= i < |init| ==> init[i] == l[i];
      LoadEdgesAgreeing(init, e, ids);
      assert PairsOf(l) == PairsOf(init) + {(x.source, x.target)} by {
        forall q | q in PairsOf(l) ensures q in PairsOf(init) + {(x.source, x.target)} {
          var i :| 0 <= i < |l| && (l[i].source, l[i].target) == q;
          if i < |init| {
            assert (init[i].source, init[i].target) == q;
          }
        }
        forall q | q in PairsOf(init) ensures q in PairsOf(l) {
          var i :| 0 <= i < |init| && (init[i].source, init[i].target) == q;
          assert (l[i].source, l[i].target) == q;
        }
        assert (l[|l| - 1].source, l[|l| - 1].target) in PairsOf(l);
      }
    } else {
      assert PairsOf(l) == {};
    }
  }

  /** Loading an exported edge list over the same nodes gives back the same edges. */
  lemma LoadExportedEdges(l: seq<EdgeJson>, e: Edges, ids: set<string>)
    requires ListsEdges(l, e)
    requires forall p :: p in e ==> p.0 in ids && p.1 in ids
    ensures LoadEdges(l, ids) == e
  {
    LoadEdgesAgreeing(l, e, ids);
    forall p | p in e ensures p in PairsOf(l) {
      var i :| 0 <= i < |l| && (l[i].source, l[i].target) == p;
    }
  }

  /** Every key of the registry holds the record with that id. */
  predicate WellKeyed(registry: map<string, LineageNode>) {
    forall id :: id in registry ==> registry[id].lnId == id
  }

  /** The nodes `load_json` keeps: the listed ids the registry knows, with the registry's records. */
  function LoadNodes(ids: set<string>, registry: map<string, LineageNode>): map<string, LineageNode> {
    map id | id in ids && id in registry :: registry[id]
  }

  /** The order-free content of a set, as a list without repeats. */
  method SetToSeq<T>(s: set<T>) returns (r: seq<T>)
    ensures |r| == |s|
    ensures forall x :: x in r <==> x in s
    ensures forall i, j :: 0 <= i < j < |r| ==> r[i] != r[j]
  {
    r := [];
    var rest := s;
    while rest != {}
      invariant rest <= s
      invariant forall x :: x in r <==> x in s - rest
      invariant |r| + |rest| == |s|
      invariant forall i, j :: 0 <= i < j < |r| ==> r[i] != r[j]
      decreases rest
    {
      var x :| x in rest;
      assert x !in r;
      r := r + [x];
      rest := rest - {x};
    }
  }

  class LineageGraph {
    var nodes: map<string, LineageNode>
    var edges: Edges

    /** Every record sits under its own id and every edge joins two nodes. */
    ghost predicate Valid()
      reads this
    {
      && WellKeyed(nodes)
      && forall p :: p in edges ==> p.0 in nodes && p.1 in nodes
    }

    /** An empty graph. */
    constructor ()
      ensures nodes == map[] && edges == map[] && Valid()
    {
      nodes := map[];
      edges := map[];
    }

    /** `add_node`: inserts the record under its id, replacing any record already there. */
    method AddNode(ln: LineageNode)
      requires Valid()
      modifies this
      ensures nodes == old(nodes)[ln.lnId := ln] && edges == old(edges)
      ensures old(|nodes|) <= |nodes| <= old(|nodes|) + 1
      ensures Valid()
    {
      nodes := nodes[ln.lnId := ln];
    }

    /**
     * `add_edge`: an error naming the missing endpoint (source checked first) and
     * no change; otherwise the edge of this ordered pair now has this type.
     */
    method AddEdge(source: string, target: string, edgeType: string) returns (r: Result<(), string>)
      requires Valid()
      modifies this
      ensures source !in nodes ==> r == Err("Source node not found: " + source)
      ensures source in nodes && target !in nodes ==> r == Err("Target node not found: " + target)
      ensures r.Err? ==> edges == old(edges)
      ensures r.Ok? <==> source in nodes && target in nodes
      ensures r.Ok? ==> edges == old(edges)[(source, target) := edgeType]
      ensures nodes == old(nodes) && Valid()
    {
      if source !in nodes {
        return Err("Source node not found: " + source);
      }
      if target !in nodes {
        return Err("Target node not found: " + target);
      }
      edges := edges[(source, target) := edgeType];
      r := Ok(());
    }

    /** `__len__`: the number of nodes. */
    function Len(): (n: nat)
      reads this
      ensures n == |nodes.Keys|
    {
      |nodes|
    }

    /** `__contains__`. */
    predicate Contains(id: string)
      reads this
    {
      id in nodes
    }

    /** `get_node`: the record under the id, or None. */
    function GetNode(id: string): (r: Option<LineageNode>)
      reads this
      ensures r.Some? <==> Contains(id)
      ensures r.Some? ==> r.value == nodes[id]
    {
      if id in nodes then Some(nodes[id]) else None
    }

    /**
     * The inner loops of one breadth-first level: every unvisited neighbour of
     * a frontier id (successor or predecessor) joins the next level and the
     * visited set.
     */
    method ExpandLevel(current: set<string>, visited: set<string>) returns (next: set<string>, visited': set<string>)
      ensures next == NbrsOf(edges, current) - visited
      ensures visited' == visited + next
    {
      next := {};
      visited' := visited;
      var rest := current;
      while rest != {}
        invariant rest <= current
        invariant next == NbrsOf(edges, current - rest) - visited
        invariant visited' == visited + next
        decreases rest
      {
        var id :| id in rest;
        var found := NbrsOf(edges, {id}) - visited';
        ExpandStep(edges, current - rest, id, visited, next);
        assert current - (rest - {id}) == (current - rest) + {id};
        next := next + found;
        visited' := visited' + found;
        rest := rest - {id};
      }
      assert current - rest == current;
    }

    /**
     * `neighbors`: nothing for an unknown id; otherwise every id within `depth`
     * hops, ignoring edge direction, except the start itself, each once.
     */
    method Neighbors(id: string, depth: int) returns (r: seq<string>)
      ensures id !in nodes ==> r == []
      ensures id in nodes ==> forall x :: x in r <==> x in Reach(edges, id, if depth < 0 then 0 else depth) - {id}
      ensures Distinct(r)
    {
      if id !in nodes {
        return [];
      }
      var d: nat := if depth < 0 then 0 else depth;
      var found: set<string> := {};
      var current := {id};
      var visited := {id};
      var k := 0;
      while k < d
        invariant 0 <= k <= d
        invariant visited == Reach(edges, id, k) && id in visited
        invariant current <= visited
        invariant NbrsOf(edges, visited - current) <= visited
        invariant found == visited - {id}
      {
        var next, visited' := ExpandLevel(current, visited);
        BfsStep(edges, id, k, visited, current, next);
        found := found + next;
        visited := visited';
        current := next;
        k := k + 1;
        if current == {} {
          ReachStable(edges, id, k, d);
          break;
        }
      }
      r := SetToSeq(found);
    }

    /** `export_json`: a summary of every node under its id, and every edge once with its type. */
    method ExportJson() returns (j: GraphJson)
      ensures j.nodes == ExportNodes(nodes)
      ensures ListsEdges(j.edges, edges)
      ensures forall a, b :: 0 <= a < b < |j.edges| ==>
                (j.edges[a].source, j.edges[a].target) != (j.edges[b].source, j.edges[b].target)
    {
      var pairs := SetToSeq(edges.Keys);
      var list: seq<EdgeJson> := [];
      for i := 0 to |pairs|
        invariant |list| == i
        invariant forall k :: 0 <= k < i ==> list[k] == EdgeJson(pairs[k].0, pairs[k].1, edges[pairs[k]])
      {
        list := list + [EdgeJson(pairs[i].0, pairs[i].1, edges[pairs[i]])];
      }
      forall p | p in edges ensures exists k :: 0 <= k < |list| && (list[k].source, list[k].target) == p {
        var k :| 0 <= k < |pairs| && pairs[k] == p;
        assert (list[k].source, list[k].target) == p;
      }
      j := GraphJson(ExportNodes(nodes), list);
    }

    /** The node loop of `load_json`: for each id of `ids` the registry knows, its record is added. */
    method AddRegistryNodes(ids: set<string>, registry: map<string, LineageNode>)
      requires Valid()
      modifies this
      ensures Valid() && edges == old(edges)
      ensures nodes.Values <= old(nodes).Values + registry.Values
      ensures WellKeyed(registry) ==> nodes == old(nodes) + LoadNodes(ids, registry)
    {
      var rest := ids;
      ghost var done: set<string> := {};
      ghost var start := nodes;
      assert LoadNodes(done, registry) == map[];
      while rest != {}
        invariant done + rest == ids && done !! rest
        invariant Valid() && edges == old(edges)
        invariant nodes.Values <= start.Values + registry.Values
        invariant WellKeyed(registry) ==> nodes == start + LoadNodes(done, registry)
        decreases rest
      {
        var k :| k in rest;
        ghost var before := nodes;
        AddKnown(k, registry);
        SubsetTrans(nodes.Values, before.Values, start.Values, registry.Values);
        if WellKeyed(registry) {
          LoadNodesStep(start, before, nodes, done, k, registry);
        }
        rest := rest - {k};
        done := done + {k};
      }
    }

    /** One step of the node loop: the registry's record for `k` is added, when there is one. */
    method AddKnown(k: string, registry: map<string, LineageNode>)
      requires Valid()
      modifies this
      ensures Valid() && edges == old(edges)
      ensures k in registry ==> nodes == old(nodes)[registry[k].lnId := registry[k]]
      ensures k !in registry ==> nodes == old(nodes)
      ensures nodes.Values <= old(nodes).Values + registry.Values
    {
      if k in registry {
        AddNode(registry[k]);
        assert nodes.Values <= old(nodes).Values + {registry[k]};
      }
    }

    /** The edge loop of `load_json`: each listed edge whose two endpoints are nodes is added, in list order. */
    method AddListedEdges(list: seq<EdgeJson>)
      requires Valid() && edges == map[]
      modifies this
      ensures Valid() && nodes == old(nodes)
      ensures edges == LoadEdges(list, nodes.Keys)
    {
      for i := 0 to |list|
        invariant Valid() && nodes == old(nodes)
        invariant edges == LoadEdges(list[..i], nodes.Keys)
      {
        var x := list[i];
        assert list[..i + 1][..i] == list[..i];
        if x.source in nodes && x.target in nodes {
          var _ := AddEdge(x.source, x.target, x.edgeType);
        }
      }
      assert list[..|list|] == list;
    }

    /**
     * `load_json`: clears the graph; adds the registry's record for each listed
     * id the registry knows, then each listed edge whose two endpoints were
     * added, in list order.
     */
    method LoadJson(data: GraphJson, registry: map<string, LineageNode>)
      modifies this
      ensures Valid()
      ensures nodes.Values <= registry.Values
      ensures WellKeyed(registry) ==> nodes == LoadNodes(data.nodes.Keys, registry)
      ensures edges == LoadEdges(data.edges, nodes.Keys)
    {
      nodes := map[];
      edges := map[];
      AddRegistryNodes(data.nodes.Keys, registry);
      AddListedEdges(data.edges);
    }
  }

  lemma SubsetTrans<T>(a: set<T>, b: set<T>, c: set<T>, d: set<T>)
    requires a <= b + d && b <= c + d
    ensures a <= c + d
  {
  }

  /** The node loop's invariant survives one more id. */
  lemma LoadNodesStep(start: map<string, LineageNode>, before: map<string, LineageNode>, after: map<string, LineageNode>,
                      done: set<string>, k: string, registry: map<string, LineageNode>)
    requires WellKeyed(registry) && before == start + LoadNodes(done, registry)
    requires k in registry ==> after == before[registry[k].lnId := registry[k]]
    requires k !in registry ==> after == before
    ensures after == start + LoadNodes(done + {k}, registry)
  {
    LoadNodesAdd(done, k, registry);
  }

  /** Loading one more id adds the registry's record for it, when there is one. */
  lemma LoadNodesAdd(done: set<string>, k: string, registry: map<string, LineageNode>)
    requires WellKeyed(registry)
    ensures LoadNodes(done + {k}, registry)
            == if k in registry then LoadNodes(done, registry)[registry[k].lnId := registry[k]] else LoadNodes(done, registry)
  {
  }

  /**
   * Exporting a valid graph and loading the document back with a registry that
   * holds every node reproduces the nodes and the edges.
   */
  lemma ExportLoadRoundTrip(nodes: map<string, LineageNode>, e: Edges, l: seq<EdgeJson>,
                            registry: map<string, LineageNode>)
    requires WellKeyed(nodes) && forall p :: p in e ==> p.0 in nodes && p.1 in nodes
    requires ListsEdges(l, e)
    requires WellKeyed(registry) && forall id :: id in nodes ==> id in registry && registry[id] == nodes[id]
    ensures LoadNodes(ExportNodes(nodes).Keys, registry) == nodes
    ensures LoadEdges(l, LoadNodes(ExportNodes(nodes).Keys, registry).Keys) == e
  {
    assert LoadNodes(ExportNodes(nodes).Keys, registry) == nodes;
    LoadExportedEdges(l, e, nodes.Keys);
  }
}
