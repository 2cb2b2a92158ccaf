/**
 * The deduplication transform: a stateful filter that remembers the content
 * hashes it has let through and drops every later record carrying one of them.
 */
module Dedupe {
  import opened LineageNodes

  /** The stage name appended to `transform_chain`. */
  const StageName: string := "deduplicate"

  /** A record let through: unchanged except for the stage name at the end of its chain. */
  function Passed(ln: LineageNode): LineageNode {
    ln.(transformChain := ln.transformChain + [StageName])
  }

  /** The content hashes carried by a run of records. */
  function HashesOf(nodes: seq<LineageNode>): set<string> {
    set k | 0 <= k < |nodes| :: nodes[k].contentHash
  }

  /**
   * What one run through the filter yields, read record by record: a record
   * survives when its hash was neither remembered before the run nor carried by
   * an earlier record of the run.
   */
  function Survivors(seen: set<string>, nodes: seq<LineageNode>): seq<LineageNode>
    decreases |nodes|
  {
    if nodes == [] then []
    else
      var init := nodes[..|nodes| - 1];
      var last := nodes[|nodes| - 1];
      if last.contentHash in seen + HashesOf(init) then Survivors(seen, init)
      else Survivors(seen, init) + [Passed(last)]
  }

  /** Record `i` carries a hash that was not remembered and that no earlier record of the run carries. */
  ghost predicate FirstOfHash(seen: set<string>, nodes: seq<LineageNode>, i: int)
    requires 0 <= i < |nodes|
  {
    nodes[i].contentHash !in seen + HashesOf(nodes[..i])
  }

  lemma HashesOfSnoc(init: seq<LineageNode>, last: LineageNode)
    ensures HashesOf(init + [last]) == HashesOf(init) + {last.contentHash}
  {
    var s := init + [last];
    forall h | h in HashesOf(s) ensures h in HashesOf(init) + {last.contentHash} {
      var k :| 0 <= k < |s| && s[k].contentHash == h;
      if k < |init| {
        assert init[k] == s[k];
      }
    }
    forall h | h in HashesOf(init) ensures h in HashesOf(s) {
      var k :| 0 <= k < |init| && init[k].contentHash == h;
      assert s[k] == init[k];
    }
    assert s[|init|] == last;
  }

  /** Whether a record is first of its hash is the same in a run and in the run extended by one record. */
  lemma FirstOfHashSnoc(seen: set<string>, nodes: seq<LineageNode>)
    requires |nodes| >= 1
    ensures forall i :: 0 <= i < |nodes| - 1 ==>
              (FirstOfHash(seen, nodes, i) <==> FirstOfHash(seen, nodes[..|nodes| - 1], i))
    ensures (FirstOfHash(seen, nodes, |nodes| - 1)
             <==> nodes[|nodes| - 1].contentHash !in seen + HashesOf(nodes[..|nodes| - 1]))
  {
    var init := nodes[..|nodes| - 1];
    forall i | 0 <= i < |nodes| - 1
      ensures FirstOfHash(seen, nodes, i) <==> FirstOfHash(seen, init, i)
    {
      assert init[..i] == nodes[..i];
    }
  }

  /** `x` is the first record of its hash in the run, let through. */
  ghost predicate PassedFirst(seen: set<string>, nodes: seq<LineageNode>, x: LineageNode) {
    exists i :: 0 <= i < |nodes| && FirstOfHash(seen, nodes, i) && x == Passed(nodes[i])
  }

  /** A record first of its hash in a run stays first of its hash once the run is extended by one record. */
  lemma PassedFirstSnoc(seen: set<string>, nodes: seq<LineageNode>, x: LineageNode)
    requires |nodes| >= 1 && PassedFirst(seen, nodes[..|nodes| - 1], x)
    ensures PassedFirst(seen, nodes, x)
  {
    var init := nodes[..|nodes| - 1];
    var i :| 0 <= i < |init| && FirstOfHash(seen, init, i) && x == Passed(init[i]);
    FirstOfHashSnoc(seen, nodes);
    assert init[i] == nodes[i];
    assert FirstOfHash(seen, nodes, i);
  }

  /** Every survivor is the first record of its hash, let through. */
  lemma {:induction false} SurvivorsAreFirsts(seen: set<string>, nodes: seq<LineageNode>)
    ensures forall j :: 0 <= j < |Survivors(seen, nodes)| ==> PassedFirst(seen, nodes, Survivors(seen, nodes)[j])
    decreases |nodes|
  {
    if nodes != [] {
      var n := |nodes|;
      var init := nodes[..n - 1];
      var last := nodes[n - 1];
      SurvivorsAreFirsts(seen, init);
      var prev := Survivors(seen, init);
      var out := Survivors(seen, nodes);
      forall j | 0 <= j < |out| ensures PassedFirst(seen, nodes, out[j]) {
        if j < |prev| {
          assert out[j] == prev[j];
          PassedFirstSnoc(seen, nodes, prev[j]);
        } else {
          FirstOfHashSnoc(seen, nodes);
          assert out[j] == Passed(nodes[n - 1]) && FirstOfHash(seen, nodes, n - 1);
        }
      }
    }
  }

  /** The first record of every hash not remembered before the run is among the survivors. */
  lemma {:induction false} SurvivorsKeepFirsts(seen: set<string>, nodes: seq<LineageNode>)
    ensures forall i :: 0 <= i < |nodes| && FirstOfHash(seen, nodes, i) ==> Passed(nodes[i]) in Survivors(seen, nodes)
    decreases |nodes|
  {
    if nodes != [] {
      var n := |nodes|;
      var init := nodes[..n - 1];
      var last := nodes[n - 1];
      SurvivorsKeepFirsts(seen, init);
      FirstOfHashSnoc(seen, nodes);
      var prev := Survivors(seen, init);
      var out := Survivors(seen, nodes);
      assert forall x :: x in prev ==> x in out;
      forall i | 0 <= i < n - 1 && FirstOfHash(seen, nodes, i) ensures Passed(nodes[i]) in out {
        assert init[i] == nodes[i];
        assert FirstOfHash(seen, init, i);
      }
      if FirstOfHash(seen, nodes, n - 1) {
        assert out == prev + [Passed(last)];
      }
    }
  }

  /** Survivors carry hashes of the run that were not remembered before it. */
  lemma {:induction false} SurvivorsFresh(seen: set<string>, nodes: seq<LineageNode>)
    ensures forall j :: 0 <= j < |Survivors(seen, nodes)| ==> Survivors(seen, nodes)[j].contentHash in HashesOf(nodes) - seen
    decreases |nodes|
  {
    if nodes != [] {
      var n := |nodes|;
      var init := nodes[..n - 1];
      var last := nodes[n - 1];
      assert nodes == init + [last];
      HashesOfSnoc(init, last);
      SurvivorsFresh(seen, init);
      var prev := Survivors(seen, init);
      var out := Survivors(seen, nodes);
      forall j | 0 <= j < |out| ensures out[j].contentHash in HashesOf(nodes) - seen {
        if j < |prev| {
          assert out[j] == prev[j];
        } else {
          assert out[j] == Passed(last);
        }
      }
    }
  }

  /** No two survivors share a hash. */
  lemma {:induction false} SurvivorsDistinct(seen: set<string>, nodes: seq<LineageNode>)
    ensures forall j, k :: 0 <= j < k < |Survivors(seen, nodes)| ==>
              Survivors(seen, nodes)[j].contentHash != Survivors(seen, nodes)[k].contentHash
    decreases |nodes|
  {
    if nodes != [] {
      var n := |nodes|;
      var init := nodes[..n - 1];
      var last := nodes[n - 1];
      SurvivorsDistinct(seen, init);
      var prev := Survivors(seen, init);
      if last.contentHash !in seen + HashesOf(init) {
        SurvivorsFresh(seen, init);
        var out := prev + [Passed(last)];
        forall j, k | 0 <= j < k < |out| ensures out[j].contentHash != out[k].contentHash {
          assert out[j] == prev[j];
          if k < |prev| {
            assert out[k] == prev[k];
          } else {
            assert prev[j].contentHash in HashesOf(init);
          }
        }
      }
    }
  }

  /** Identical content keeps only its first record: a run whose records all share one new hash yields one record. */
  lemma {:induction false} SurvivorsSameHash(seen: set<string>, nodes: seq<LineageNode>)
    requires |nodes| >= 1 && nodes[0].contentHash !in seen
    requires forall i :: 0 <= i < |nodes| ==> nodes[i].contentHash == nodes[0].contentHash
    ensures Survivors(seen, nodes) == [Passed(nodes[0])]
    decreases |nodes|
  {
    var n := |nodes|;
    var init := nodes[..n - 1];
    if n == 1 {
      assert HashesOf(init) == {};
    } else {
      assert init[0] == nodes[0];
      SurvivorsSameHash(seen, init);
      assert init[0].contentHash == nodes[n - 1].contentHash;
      assert nodes[n - 1].contentHash in HashesOf(init);
    }
  }

  /** One record fed after a run survives exactly when its hash is new to both the memory and the run. */
  lemma SurvivorsSnoc(seen: set<string>, init: seq<LineageNode>, last: LineageNode)
    ensures Survivors(seen, init + [last]) ==
              if last.contentHash in seen + HashesOf(init) then Survivors(seen, init)
              else Survivors(seen, init) + [Passed(last)]
  {
    assert (init + [last])[..|init|] == init;
  }

  /** `SurvivorsSnoc` for a run made of two parts, with the run's hashes split by part. */
  lemma SurvivorsSnocSplit(seen: set<string>, a: seq<LineageNode>, b: seq<LineageNode>, last: LineageNode)
    ensures Survivors(seen, a + (b + [last])) ==
              if last.contentHash in (seen + HashesOf(a)) + HashesOf(b) then Survivors(seen, a + b)
              else Survivors(seen, a + b) + [Passed(last)]
  {
    assert a + (b + [last]) == (a + b) + [last];
    SurvivorsSnoc(seen, a + b, last);
    HashesOfAppend(a, b);
    assert seen + HashesOf(a + b) == (seen + HashesOf(a)) + HashesOf(b);
  }

  /**
   * Feeding a run in two parts to the same filter yields what the whole run
   * yields: the second part is filtered against everything the first part added.
   */
  lemma {:induction false} SurvivorsAppend(seen: set<string>, a: seq<LineageNode>, b: seq<LineageNode>)
    ensures Survivors(seen, a + b) == Survivors(seen, a) + Survivors(seen + HashesOf(a), b)
    decreases |b|
  {
    if b == [] {
      assert a + b == a;
    } else {
      var binit := b[..|b| - 1];
      var last := b[|b| - 1];
      var seen2 := seen + HashesOf(a);
      var sa, sb := Survivors(seen, a), Survivors(seen2, binit);
      var tail := if last.contentHash in seen2 + HashesOf(binit) then [] else [Passed(last)];
      calc {
        Survivors(seen, a + b);
        { assert b == binit + [last]; SurvivorsSnocSplit(seen, a, binit, last); }
        Survivors(seen, a + binit) + tail;
        { SurvivorsAppend(seen, a, binit); }
        (sa + sb) + tail;
        sa + (sb + tail);
        { assert b == binit + [last]; SurvivorsSnoc(seen2, binit, last); }
        sa + Survivors(seen2, b);
      }
    }
  }

  lemma {:induction false} HashesOfAppend(a: seq<LineageNode>, b: seq<LineageNode>)
    ensures HashesOf(a + b) == HashesOf(a) + HashesOf(b)
    decreases |b|
  {
    if b == [] {
      assert a + b == a;
    } else {
      var binit := b[..|b| - 1];
      var last := b[|b| - 1];
      assert b == binit + [last];
      assert a + b == (a + binit) + [last];
      HashesOfAppend(a, binit);
      HashesOfSnoc(a + binit, last);
      HashesOfSnoc(binit, last);
    }
  }

  /** The transform object: the set of hashes let through so far. */
  class DedupeTransform {
    var seenHashes: set<string>

    /** A new filter remembers nothing. */
    constructor ()
      ensures seenHashes == {}
    {
      seenHashes := {};
    }

    /**
     * `transform`: a record whose hash is remembered yields nothing; any other
     * yields itself let through, and its hash is remembered from then on.
     */
    method Transform(ln: LineageNode) returns (out: seq<LineageNode>)
      modifies this
      ensures ln.contentHash in old(seenHashes) ==> out == []
      ensures ln.contentHash !in old(seenHashes) ==> out == [Passed(ln)]
      ensures seenHashes == old(seenHashes) + {ln.contentHash}
    {
      if ln.contentHash in seenHashes {
        return [];
      }
      seenHashes := seenHashes + {ln.contentHash};
      out := [Passed(ln)];
    }

    /** `reset`: forgets every hash, so each passes once more. */
    method Reset()
      modifies this
      ensures seenHashes == {}
    {
      seenHashes := {};
    }

    /**
     * One pass of the filter over a run of records, one `transform` call per
     * record in order: it yields the run's survivors and remembers every hash of
     * the run.
     */
    method TransformAll(nodes: seq<LineageNode>) returns (out: seq<LineageNode>)
      modifies this
      ensures out == Survivors(old(seenHashes), nodes)
      ensures seenHashes == old(seenHashes) + HashesOf(nodes)
    {
      ghost var seen0 := seenHashes;
      out := [];
      for i := 0 to |nodes|
        invariant out == Survivors(seen0, nodes[..i])
        invariant seenHashes == seen0 + HashesOf(nodes[..i])
      {
        assert nodes[..i + 1][..i] == nodes[..i];
        HashesOfSnoc(nodes[..i], nodes[i]);
        assert nodes[..i + 1] == nodes[..i] + [nodes[i]];
        var passed := Transform(nodes[i]);
        out := out + passed;
      }
      assert nodes[..|nodes|] == nodes;
    }
  }
}
