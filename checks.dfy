/**
 * The three audit checks over an answer's lineage: whether its records come
 * from one dataset version, whether they are older than the current version,
 * and which risky transforms touched them.
 */
module Checks {
  import opened Wrappers
  import opened Text
  import opened AuditSchema

  // ---------------------------------------------------------------------------
  // Version consistency

  /** The distinct dataset versions of the lineage entries. */
  function VersionsOf(lineage: seq<LineageEntry>): set<string> {
    set i | 0 <= i < |lineage| :: lineage[i].datasetVersion
  }

  /** A set with one element besides `x`'s has more than one. */
  lemma TwoElements(s: set<string>, x: string, y: string)
    requires x in s && y in s && x != y
    ensures |s| > 1
  {
    assert {x, y} <= s;
    assert |{x, y}| == 2;
    SubsetCard({x, y}, s);
  }

  lemma SubsetCard(a: set<string>, b: set<string>)
    requires a <= b
    ensures |a| <= |b|
  {
    assert b == a + (b - a);
  }

  /**
   * `check_version_consistency`: unknown for an empty lineage; single_version
   * when every entry has the first entry's version; mixed_versions when two
   * entries differ.
   */
  function CheckVersionConsistency(answer: AnswerWithLineage): (r: VersionConsistency)
    ensures r == Unknown <==> answer.lineage == []
    ensures r == SingleVersion <==>
              answer.lineage != [] && forall i :: 0 <= i < |answer.lineage| ==>
                answer.lineage[i].datasetVersion == answer.lineage[0].datasetVersion
    ensures r == MixedVersions <==>
              exists i :: 0 <= i < |answer.lineage| && answer.lineage[i].datasetVersion != answer.lineage[0].datasetVersion
  {
    var l := answer.lineage;
    if l == [] then Unknown
    else
      var versions := VersionsOf(l);
      assert l[0].datasetVersion in versions;
      if |versions| == 1 then
        assert forall i :: 0 <= i < |l| ==> l[i].datasetVersion in versions;
        assert forall i :: 0 <= i < |l| ==> l[i].datasetVersion == l[0].datasetVersion by {
          forall i | 0 <= i < |l| ensures l[i].datasetVersion == l[0].datasetVersion {
            if l[i].datasetVersion != l[0].datasetVersion {
              TwoElements(versions, l[0].datasetVersion, l[i].datasetVersion);
            }
          }
        }
        SingleVersion
      else if |versions| > 1 then
        assert exists i :: 0 <= i < |l| && l[i].datasetVersion != l[0].datasetVersion by {
          if forall i :: 0 <= i < |l| ==> l[i].datasetVersion == l[0].datasetVersion {
            assert versions <= {l[0].datasetVersion};
            SubsetCard(versions, {l[0].datasetVersion});
          }
        }
        MixedVersions
      else
        Unknown
  }

  // ---------------------------------------------------------------------------
  // Staleness

  /** `v.replace("v", "")`: the version string with every `v` deleted. */
  function StripV(v: string): (r: string)
    ensures 'v' !in r
  {
    ReplaceRemovesChar(v, 'v', "");
    Replace(v, "v", "")
  }

  /**
   * The largest parsed version of the lineage, or None when some version does
   * not parse (`float` raising ValueError). `parse` is `float` on the stripped
   * string.
   */
  function MaxParsed(lineage: seq<LineageEntry>, parse: string -> Option<real>): (r: Option<real>)
    decreases |lineage|
  {
    if lineage == [] then None
    else
      var v := parse(StripV(lineage[|lineage| - 1].datasetVersion));
      if |lineage| == 1 then v
      else
        var m := MaxParsed(lineage[..|lineage| - 1], parse);
        if m.None? || v.None? then None
        else if v.value > m.value then v else m
  }

  /**
   * For a non-empty lineage: None exactly when some entry's version fails to
   * parse, and otherwise the largest parsed version, which some entry has.
   */
  lemma {:induction false} MaxParsedIsMax(lineage: seq<LineageEntry>, parse: string -> Option<real>)
    requires lineage != []
    ensures MaxParsed(lineage, parse).None? <==>
              exists i :: 0 <= i < |lineage| && parse(StripV(lineage[i].datasetVersion)).None?
    ensures MaxParsed(lineage, parse).Some? ==>
              && (forall i :: 0 <= i < |lineage| ==>
                    parse(StripV(lineage[i].datasetVersion)).value <= MaxParsed(lineage, parse).value)
              && (exists i :: 0 <= i < |lineage| && parse(StripV(lineage[i].datasetVersion)) == MaxParsed(lineage, parse))
    decreases |lineage|
  {
    if |lineage| > 1 {
      var init := lineage[..|lineage| - 1];
      MaxParsedIsMax(init, parse);
      assert forall i :: 0 <= i < |init| ==> init[i] == lineage[i];
    }
  }

  /**
   * `check_staleness`: warning for an empty lineage; pass when there is no
   * current version (None or empty), when it is among the answer's versions, or
   * when a version does not parse; otherwise the gap between the current
   * version and the newest one used decides: fail above 1.0, warning above 0.0,
   * pass otherwise.
   */
  function CheckStaleness(answer: AnswerWithLineage, currentVersion: Option<string>,
                          parse: string -> Option<real>): (r: Staleness)
    ensures answer.lineage == [] ==> r == Warning
    ensures answer.lineage != [] && (currentVersion.None? || currentVersion.value == "") ==> r == Pass
    ensures answer.lineage != [] && currentVersion.Some? && currentVersion.value in VersionsOf(answer.lineage) ==> r == Pass
    ensures r == Fail ==>
              && answer.lineage != [] && currentVersion.Some? && currentVersion.value !in VersionsOf(answer.lineage)
              && parse(StripV(currentVersion.value)).Some?
              && forall i :: 0 <= i < |answer.lineage| ==>
                   var p := parse(StripV(answer.lineage[i].datasetVersion));
                   p.Some? && parse(StripV(currentVersion.value)).value - p.value > 1.0
  {
    var l := answer.lineage;
    if l == [] then Warning
    else if currentVersion.Some? && currentVersion.value != "" && currentVersion.value !in VersionsOf(l) then
      var current := parse(StripV(currentVersion.value));
      var newest := MaxParsed(l, parse);
      MaxParsedIsMax(l, parse);
      if current.None? || newest.None? then Pass
      else if current.value - newest.value > 1.0 then Fail
      else if current.value - newest.value > 0.0 then Warning
      else Pass
    else Pass
  }

  /**
   * The verdict once neither the empty lineage nor the current version settles
   * it: pass on a parse failure, else fail, warning or pass by the gap to the
   * newest version used.
   */
  lemma StalenessByGap(answer: AnswerWithLineage, currentVersion: string, parse: string -> Option<real>)
    requires answer.lineage != [] && currentVersion != "" && currentVersion !in VersionsOf(answer.lineage)
    ensures var current := parse(StripV(currentVersion));
            var newest := MaxParsed(answer.lineage, parse);
            var r := CheckStaleness(answer, Some(currentVersion), parse);
            && (current.None? || newest.None? ==> r == Pass)
            && (current.Some? && newest.Some? ==>
                  && (r == Fail <==> current.value - newest.value > 1.0)
                  && (r == Warning <==> 0.0 < current.value - newest.value <= 1.0)
                  && (r == Pass <==> current.value - newest.value <= 0.0))
  {
  }

  /** One version behind at most is a warning, not a failure: "v2.0" against an answer built on "v1.5". */
  lemma StalenessExample(e: LineageEntry, parse: string -> Option<real>)
    requires e.datasetVersion == "v1.5" && parse("1.5") == Some(1.5) && parse("2.0") == Some(2.0)
    ensures CheckStaleness(AnswerWithLineage("q", "a", [e], map[]), Some("v2.0"), parse) == Warning
  {
    StripVExample();
    assert VersionsOf([e]) == {"v1.5"} by {
      assert [e][0] == e;
    }
  }

  lemma StripVExample()
    ensures StripV("v1.5") == "1.5" && StripV("v2.0") == "2.0"
  {
    assert Replace(".5", "v", "") == ".5";
    assert Replace(".0", "v", "") == ".0";
    assert Replace("1.5", "v", "") == "1.5";
    assert Replace("2.0", "v", "") == "2.0";
  }

  // ---------------------------------------------------------------------------
  // Transform risks

  /** The risky transforms and the message each raises; no other name raises one. */
  const RiskTable: map<string, string> := map[
    "normalize_aggressive" := "Aggressive normalization may lose information",
    "ocr" := "OCR may introduce errors",
    "translation" := "Translation may introduce semantic drift",
    "summarization" := "Summarization may lose important details"]

  /** Every transform name of the lineage, entry by entry, each chain in order. */
  function AllTransforms(lineage: seq<LineageEntry>): seq<string>
    decreases |lineage|
  {
    if lineage == [] then []
    else AllTransforms(lineage[..|lineage| - 1]) + lineage[|lineage| - 1].transformChain
  }

  /** The messages raised by a run of transform names, each once, in order of first raising. */
  function RiskFlags(ts: seq<string>): seq<string>
    decreases |ts|
  {
    if ts == [] then []
    else
      var prev := RiskFlags(ts[..|ts| - 1]);
      var t := ts[|ts| - 1];
      if t in RiskTable && RiskTable[t] !in prev then prev + [RiskTable[t]] else prev
  }

  /** No message twice, and a message exactly when some transform of the run raises it. */
  lemma {:induction false} RiskFlagsShape(ts: seq<string>)
    ensures Distinct(RiskFlags(ts))
    ensures forall m :: m in RiskFlags(ts) <==> exists i :: 0 <= i < |ts| && ts[i] in RiskTable && RiskTable[ts[i]] == m
    decreases |ts|
  {
    if ts != [] {
      var init := ts[..|ts| - 1];
      RiskFlagsShape(init);
      assert forall i :: 0 <= i < |init| ==> init[i] == ts[i];
      var prev := RiskFlags(init);
      var t := ts[|ts| - 1];
      if t in RiskTable && RiskTable[t] !in prev {
        var out := prev + [RiskTable[t]];
        assert forall i :: 0 <= i < |prev| ==> out[i] == prev[i];
      }
    }
  }

  /** The four risk messages. */
  const RiskMessages: set<string> := {
    "Aggressive normalization may lose information", "OCR may introduce errors",
    "Translation may introduce semantic drift", "Summarization may lose important details"}

  /** Only the four named transforms raise anything: at most four messages, each one of the table's. */
  lemma RiskFlagsBounded(ts: seq<string>)
    ensures forall m :: m in RiskFlags(ts) ==> m in RiskMessages
    ensures |RiskFlags(ts)| <= 4
  {
    RiskFlagsShape(ts);
    var flags := RiskFlags(ts);
    forall m | m in flags ensures m in RiskMessages {
      var i :| 0 <= i < |ts| && ts[i] in RiskTable && RiskTable[ts[i]] == m;
    }
    DistinctWithin(flags, RiskMessages);
  }

  /** A list without repeats drawn from a set is no longer than the set is large. */
  lemma {:induction false} DistinctWithin(s: seq<string>, within: set<string>)
    requires Distinct(s) && forall m :: m in s ==> m in within
    ensures |s| <= |within|
    decreases |s|
  {
    if s != [] {
      var init := s[..|s| - 1];
      var last := s[|s| - 1];
      assert forall m :: m in init ==> m in s && m != last;
      DistinctWithin(init, within - {last});
    }
  }

  /** One more transform name raises its message when it is risky and the message is new. */
  lemma RiskFlagsSnoc(ts: seq<string>, t: string)
    ensures RiskFlags(ts + [t]) == if t in RiskTable && RiskTable[t] !in RiskFlags(ts) then RiskFlags(ts) + [RiskTable[t]] else RiskFlags(ts)
  {
    assert (ts + [t])[..|ts|] == ts;
  }

  /** The inner loop of `check_transform_risks` over one chain. */
  method AddChainRisks(flags: seq<string>, ts: seq<string>, chain: seq<string>) returns (r: seq<string>)
    requires flags == RiskFlags(ts)
    ensures r == RiskFlags(ts + chain)
  {
    r := flags;
    assert ts + chain[..0] == ts;
    for j := 0 to |chain|
      invariant r == RiskFlags(ts + chain[..j])
    {
      var t := chain[j];
      assert ts + chain[..j + 1] == (ts + chain[..j]) + [t];
      RiskFlagsSnoc(ts + chain[..j], t);
      if t in RiskTable && RiskTable[t] !in r {
        r := r + [RiskTable[t]];
      }
    }
    assert chain[..|chain|] == chain;
  }

  /** `check_transform_risks`: walks every entry's chain and records each risk message the first time it is raised. */
  method CheckTransformRisks(answer: AnswerWithLineage) returns (flags: seq<string>)
    ensures flags == RiskFlags(AllTransforms(answer.lineage))
  {
    var l := answer.lineage;
    flags := [];
    for i := 0 to |l|
      invariant flags == RiskFlags(AllTransforms(l[..i]))
    {
      assert l[..i + 1][..i] == l[..i];
      flags := AddChainRisks(flags, AllTransforms(l[..i]), l[i].transformChain);
    }
    assert l[..|l|] == l;
  }
}
