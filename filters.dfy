/**
 * Filtering retrieval results: each (id, score) pair is kept when its score
 * reaches the minimum, its id is a known record, and the record matches every
 * criterion that is set.
 */
module Filters {
  import opened Wrappers
  import opened LineageNodes
  import opened Text

  /** A retrieval result: a record id and its similarity score. */
  type Hit = (string, real)

  /** The filter criteria; an absent or empty string criterion restricts nothing. */
  datatype FilterConfig = FilterConfig(
    datasetVersion: Option<string>,
    sourceUri: Option<string>,
    sourceType: Option<string>,
    minScore: real)

  /** The configuration built with no arguments. */
  const DefaultConfig: FilterConfig := FilterConfig(None, None, None, 0.0)

  /** A string criterion restricts only when it is set and non-empty. */
  predicate Active(c: Option<string>) {
    c.Some? && c.value != ""
  }

  /** A value passes a criterion that is inactive, or that it equals exactly. */
  predicate Admits(c: Option<string>, actual: string) {
    !Active(c) || actual == c.value
  }

  /** A pair survives: a score not below the minimum, a known id, and a record every active criterion admits. */
  predicate Passes(f: FilterConfig, nodes: map<string, LineageNode>, h: Hit) {
    && !(h.1 < f.minScore)
    && h.0 in nodes
    && Admits(f.datasetVersion, nodes[h.0].datasetVersion)
    && Admits(f.sourceUri, nodes[h.0].source.uri)
    && Admits(f.sourceType, nodes[h.0].source.TypeTag())
  }

  /** The surviving pairs, in their original order. */
  function Filtered(results: seq<Hit>, nodes: map<string, LineageNode>, f: FilterConfig): seq<Hit>
    decreases |results|
  {
    if results == [] then []
    else
      var prev := Filtered(results[..|results| - 1], nodes, f);
      var h := results[|results| - 1];
      if Passes(f, nodes, h) then prev + [h] else prev
  }

  /** Filtering keeps an order-preserving subsequence of the pairs, each unchanged. */
  lemma {:induction false} FilteredSubsequence(results: seq<Hit>, nodes: map<string, LineageNode>, f: FilterConfig)
    ensures IsSubsequence(Filtered(results, nodes, f), results)
    decreases |results|
  {
    if results != [] {
      var init := results[..|results| - 1];
      FilteredSubsequence(init, nodes, f);
      var prev := Filtered(init, nodes, f);
      if Passes(f, nodes, results[|results| - 1]) {
        assert (prev + [results[|results| - 1]])[..|prev|] == prev;
      }
    }
  }

  /** A pair is in the output exactly when it is in the input and passes every active criterion. */
  lemma {:induction false} FilteredMembers(results: seq<Hit>, nodes: map<string, LineageNode>, f: FilterConfig)
    ensures forall h :: h in Filtered(results, nodes, f) <==> h in results && Passes(f, nodes, h)
    decreases |results|
  {
    if results != [] {
      var init := results[..|results| - 1];
      FilteredMembers(init, nodes, f);
      assert results == init + [results[|results| - 1]];
    }
  }

  /** Nothing is dropped exactly when every pair passes. */
  lemma {:induction false} FilteredKeepsAll(results: seq<Hit>, nodes: map<string, LineageNode>, f: FilterConfig)
    ensures Filtered(results, nodes, f) == results <==> forall i :: 0 <= i < |results| ==> Passes(f, nodes, results[i])
    decreases |results|
  {
    if results != [] {
      var init := results[..|results| - 1];
      var last := results[|results| - 1];
      FilteredKeepsAll(init, nodes, f);
      FilteredLength(init, nodes, f);
      assert results == init + [last];
      assert forall i :: 0 <= i < |init| ==> init[i] == results[i];
      if Passes(f, nodes, last) {
        var prev := Filtered(init, nodes, f);
        assert prev + [last] == init + [last] ==> prev == (prev + [last])[..|prev|];
      } else {
        assert |Filtered(results, nodes, f)| < |results|;
      }
    }
  }

  lemma {:induction false} FilteredLength(results: seq<Hit>, nodes: map<string, LineageNode>, f: FilterConfig)
    ensures |Filtered(results, nodes, f)| <= |results|
    decreases |results|
  {
    if results != [] {
      FilteredLength(results[..|results| - 1], nodes, f);
    }
  }

  /** With the default configuration, a pair survives exactly when its score is not negative and its id is known. */
  lemma DefaultConfigPasses(nodes: map<string, LineageNode>, h: Hit)
    ensures Passes(DefaultConfig, nodes, h) <==> h.1 >= 0.0 && h.0 in nodes
  {
  }

  /** `apply_filters`: one pass over the pairs, appending each that survives. */
  method ApplyFilters(results: seq<Hit>, nodes: map<string, LineageNode>, f: FilterConfig) returns (filtered: seq<Hit>)
    ensures filtered == Filtered(results, nodes, f)
  {
    filtered := [];
    for i := 0 to |results|
      invariant filtered == Filtered(results[..i], nodes, f)
    {
      assert results[..i + 1][..i] == results[..i];
      var (lnId, score) := results[i];
      if score < f.minScore {
        continue;
      }
      if lnId !in nodes {
        continue;
      }
      var ln := nodes[lnId];
      if Active(f.datasetVersion) && ln.datasetVersion != f.datasetVersion.value {
        continue;
      }
      if Active(f.sourceUri) && ln.source.uri != f.sourceUri.value {
        continue;
      }
      if Active(f.sourceType) && ln.source.TypeTag() != f.sourceType.value {
        continue;
      }
      filtered := filtered + [(lnId, score)];
    }
    assert results[..|results|] == results;
  }
}
