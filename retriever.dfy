/**
 * Retrieval with graph expansion: the vector search (embedding and store
 * together, as a function of the query and the number of results asked for),
 * optional filtering, a cut to `k`, optional expansion through the lineage
 * graph at a fixed score, and a stable sort by descending score.
 */
module Retriever {
  import opened Wrappers
  import opened Text
  import opened LineageNodes
  import opened Graph
  import opened Filters

  /** The score every neighbour added by graph expansion gets. */
  const NeighborScore: real := 0.8

  // ---------------------------------------------------------------------------
  // Slicing and sorting

  /** Python's `s[:k]`: the first `k` elements, or all but the last `-k` when `k` is negative. */
  function Prefix<T>(s: seq<T>, k: int): (r: seq<T>)
    ensures r <= s
    ensures 0 <= k ==> |r| == if k < |s| then k else |s|
    ensures k < 0 ==> |r| == if |s| + k < 0 then 0 else |s| + k
  {
    if 0 <= k then (if k < |s| then s[..k] else s)
    else if |s| + k < 0 then []
    else s[..|s| + k]
  }

  /** Scores never increase along the list. */
  predicate SortedDesc(s: seq<Hit>) {
    forall i, j :: 0 <= i < j < |s| ==> s[i].1 >= s[j].1
  }

  /** Places `h` after every leading pair that scores at least as high. */
  function Insert(h: Hit, s: seq<Hit>): seq<Hit>
    decreases |s|
  {
    if s == [] then [h]
    else if s[0].1 >= h.1 then [s[0]] + Insert(h, s[1..])
    else [h] + s
  }

  /**
   * `list.sort(key=score, reverse=True)`: by descending score, pairs of equal
   * score in their original order (each pair is placed after the earlier ones
   * scoring at least as high).
   */
  function SortByScore(s: seq<Hit>): seq<Hit>
    decreases |s|
  {
    if s == [] then []
    else Insert(s[|s| - 1], SortByScore(s[..|s| - 1]))
  }

  /** Inserting adds exactly the one pair. */
  lemma {:induction false} InsertCount(h: Hit, s: seq<Hit>)
    ensures multiset(Insert(h, s)) == multiset(s) + multiset{h}
    ensures |Insert(h, s)| == |s| + 1
    decreases |s|
  {
    if s != [] && s[0].1 >= h.1 {
      InsertCount(h, s[1..]);
      assert s == [s[0]] + s[1..];
    }
  }

  /** Inserting into a list in descending order keeps it in descending order. */
  lemma {:induction false} InsertSorted(h: Hit, s: seq<Hit>)
    requires SortedDesc(s)
    ensures SortedDesc(Insert(h, s))
    decreases |s|
  {
    if s != [] && s[0].1 >= h.1 {
      var tail := s[1..];
      assert forall i :: 0 <= i < |tail| ==> tail[i] == s[i + 1];
      InsertSorted(h, tail);
      InsertCount(h, tail);
      var t := Insert(h, tail);
      var r := [s[0]] + t;
      forall j | 0 <= j < |t| ensures s[0].1 >= t[j].1 {
        assert t[j] in multiset(t);
        if t[j] != h {
          assert t[j] in tail;
        }
      }
      forall i, j | 0 <= i < j < |r| ensures r[i].1 >= r[j].1 {
        assert r[j] == t[j - 1];
        if i > 0 {
          assert r[i] == t[i - 1];
        }
      }
    }
  }

  /** Sorting yields scores that never increase, and the same pairs with the same multiplicities. */
  lemma {:induction false} SortByScoreSorted(s: seq<Hit>)
    ensures SortedDesc(SortByScore(s))
    ensures multiset(SortByScore(s)) == multiset(s)
    decreases |s|
  {
    if s != [] {
      var init := s[..|s| - 1];
      SortByScoreSorted(init);
      InsertSorted(s[|s| - 1], SortByScore(init));
      InsertCount(s[|s| - 1], SortByScore(init));
      assert s == init + [s[|s| - 1]];
    }
  }

  /** Appending a pair that scores no higher than any other lands it at the end. */
  lemma {:induction false} InsertLowest(h: Hit, s: seq<Hit>)
    requires forall i :: 0 <= i < |s| ==> s[i].1 >= h.1
    ensures Insert(h, s) == s + [h]
    decreases |s|
  {
    if s != [] {
      InsertLowest(h, s[1..]);
      assert s == [s[0]] + s[1..];
    }
  }

  /** The sort is stable: a list already in descending order comes through unchanged. */
  lemma {:induction false} SortByScoreFixed(s: seq<Hit>)
    requires SortedDesc(s)
    ensures SortByScore(s) == s
    decreases |s|
  {
    if s != [] {
      var init := s[..|s| - 1];
      SortByScoreFixed(init);
      InsertLowest(s[|s| - 1], init);
      assert s == init + [s[|s| - 1]];
    }
  }

  lemma PrefixSorted(s: seq<Hit>, k: int)
    requires SortedDesc(s)
    ensures SortedDesc(Prefix(s, k))
  {
    var r := Prefix(s, k);
    assert forall i :: 0 <= i < |r| ==> r[i] == s[i];
  }

  // ---------------------------------------------------------------------------
  // Graph expansion

  /** What `neighbors(id, depth)` holds as a set: nothing for an unknown id, else the ids within `depth` hops but `id`. */
  ghost function Around(g: LineageGraph, id: string, depth: int): set<string>
    reads g
  {
    if id in g.nodes then Reach(g.edges, id, if depth < 0 then 0 else depth) - {id} else {}
  }

  /** The neighbours of every id of a run of results. */
  ghost function AroundAll(g: LineageGraph, hits: seq<Hit>, depth: int): set<string>
    reads g
    decreases |hits|
  {
    if hits == [] then {}
    else AroundAll(g, hits[..|hits| - 1], depth) + Around(g, hits[|hits| - 1].0, depth)
  }

  /** A pair of the expanded set: a kept result, or a known neighbour of one at the fixed score. */
  ghost predicate Expansion(g: LineageGraph, registry: map<string, LineageNode>, top: seq<Hit>, depth: int, h: Hit)
    reads g
  {
    h in top || (h.1 == NeighborScore && h.0 in registry && h.0 in AroundAll(g, top, depth))
  }

  /** The inner loop: every neighbour the registry knows is added at the fixed score. */
  method AddNeighbors(expanded: set<Hit>, nbrs: seq<string>, registry: map<string, LineageNode>) returns (r: set<Hit>)
    ensures forall h :: h in r <==> h in expanded || (h.1 == NeighborScore && h.0 in registry && h.0 in nbrs)
  {
    r := expanded;
    for j := 0 to |nbrs|
      invariant forall h :: h in r <==> h in expanded || (h.1 == NeighborScore && h.0 in registry && h.0 in nbrs[..j])
    {
      assert nbrs[..j + 1] == nbrs[..j] + [nbrs[j]];
      if nbrs[j] in registry {
        r := r + {(nbrs[j], NeighborScore)};
      }
    }
    assert nbrs[..|nbrs|] == nbrs;
  }

  /** The candidates before the cut: twice `k` asked of the store, filtered only when a configuration is given. */
  function Candidates(search: (string, int) -> seq<Hit>, registry: map<string, LineageNode>,
                      query: string, k: int, filters: Option<FilterConfig>): seq<Hit> {
    var found := search(query, k * 2);
    if filters.Some? then Filtered(found, registry, filters.value) else found
  }

  class Retriever {
    const graph: LineageGraph
    const registry: map<string, LineageNode>
    /** The embedder and the vector store together: for a query and a count, (id, score) pairs best first. */
    const search: (string, int) -> seq<Hit>

    constructor (graph: LineageGraph, registry: map<string, LineageNode>, search: (string, int) -> seq<Hit>)
      ensures this.graph == graph && this.registry == registry && this.search == search
    {
      this.graph := graph;
      this.registry := registry;
      this.search := search;
    }

    /**
     * `retrieve`: without expansion, the first `k` candidates stably sorted by
     * descending score. With expansion, the kept candidates together with every
     * known neighbour within `graphDepth` hops at score 0.8 form a set, which
     * is cut to `k` in no particular order and then sorted.
     */
    method Retrieve(query: string, k: int, filters: Option<FilterConfig>, graphDepth: int) returns (r: seq<Hit>)
      ensures graphDepth <= 0 ==> r == Prefix(SortByScore(Prefix(Candidates(search, registry, query, k, filters), k)), k)
      ensures graphDepth > 0 ==>
                var top := Prefix(Candidates(search, registry, query, k, filters), k);
                && (forall i :: 0 <= i < |r| ==> Expansion(graph, registry, top, graphDepth, r[i]))
                && NoRepeats(r)
                && (0 <= k ==> |r| == k || forall h :: Expansion(graph, registry, top, graphDepth, h) ==> h in r)
      ensures SortedDesc(r)
      ensures 0 <= k ==> |r| <= k
    {
      var results := search(query, k * 2);
      if filters.Some? {
        results := ApplyFilters(results, registry, filters.value);
      }
      assert results == Candidates(search, registry, query, k, filters);
      results := Prefix(results, k);
      ghost var top := results;
      if graphDepth > 0 {
        var expanded := set h | h in results;
        for i := 0 to |results|
          invariant forall h :: h in expanded <==>
                      h in top || (h.1 == NeighborScore && h.0 in registry && h.0 in AroundAll(graph, top[..i], graphDepth))
        {
          assert top[..i + 1][..i] == top[..i];
          var nbrs := graph.Neighbors(results[i].0, graphDepth);
          expanded := AddNeighbors(expanded, nbrs, registry);
        }
        assert top[..|top|] == top;
        var listed := SetToSeq(expanded);
        results := Prefix(listed, k);
        ExpandedResult(listed, k, expanded);
      }
      SortByScoreSorted(results);
      PrefixSorted(SortByScore(results), k);
      r := Prefix(SortByScore(results), k);
    }
  }

  /** No pair occurs twice. */
  predicate NoRepeats(s: seq<Hit>) {
    forall i, j :: 0 <= i < j < |s| ==> s[i] != s[j]
  }

  lemma NoRepeatsMultiset(s: seq<Hit>)
    ensures NoRepeats(s) <==> forall h :: multiset(s)[h] <= 1
  {
    if NoRepeats(s) {
      forall h ensures multiset(s)[h] <= 1 {
        NoRepeatsCount(s, h);
      }
    } else {
      var i, j :| 0 <= i < j < |s| && s[i] == s[j];
      assert s == s[..j] + [s[j]] + s[j + 1..];
      assert s[i] in s[..j];
      assert multiset(s)[s[j]] >= multiset(s[..j])[s[j]] + 1;
    }
  }

  lemma {:induction false} NoRepeatsCount(s: seq<Hit>, h: Hit)
    requires NoRepeats(s)
    ensures multiset(s)[h] <= 1
    decreases |s|
  {
    if s != [] {
      var init := s[..|s| - 1];
      assert NoRepeats(init);
      NoRepeatsCount(init, h);
      assert s == init + [s[|s| - 1]];
      assert s[|s| - 1] !in init;
    }
  }

  /**
   * The cut and sort after expansion: from a listing of the expanded set in any
   * order, the result holds only pairs of the set, none twice, and for `k` not
   * negative either `k` of them or all of them.
   */
  lemma ExpandedResult(listed: seq<Hit>, k: int, expanded: set<Hit>)
    requires NoRepeats(listed) && |listed| == |expanded|
    requires forall h :: h in listed <==> h in expanded
    ensures var r := Prefix(SortByScore(Prefix(listed, k)), k);
            && (forall i :: 0 <= i < |r| ==> r[i] in expanded)
            && NoRepeats(r)
            && (0 <= k ==> |r| == k || forall h :: h in expanded ==> h in r)
  {
    var cut := Prefix(listed, k);
    var sorted := SortByScore(cut);
    var r := Prefix(sorted, k);
    SortByScoreSorted(cut);
    assert |sorted| == |multiset(sorted)| == |multiset(cut)| == |cut|;
    assert NoRepeats(cut) by {
      assert forall i :: 0 <= i < |cut| ==> cut[i] == listed[i];
    }
    NoRepeatsMultiset(cut);
    NoRepeatsMultiset(sorted);
    assert forall i :: 0 <= i < |r| ==> r[i] == sorted[i];
    forall i | 0 <= i < |r| ensures r[i] in expanded {
      assert r[i] in multiset(sorted);
      assert r[i] in cut;
      var j :| 0 <= j < |cut| && cut[j] == r[i];
      assert cut[j] == listed[j];
    }
    if 0 <= k && |listed| <= k {
      assert cut == listed && r == sorted;
      forall h | h in expanded ensures h in r {
        assert h in multiset(listed);
      }
    }
  }
}
