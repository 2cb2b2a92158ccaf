/**
 * The auditor: one report per answer, combining the three checks, with the
 * staleness check run against the current version fixed when the auditor was
 * made.
 */
module Auditor {
  import opened Wrappers
  import opened LineageNodes
  import opened AuditSchema
  import opened Checks

  /** `parse` is `float` on a version string stripped of its `v`s; None where it raises. */
  datatype Auditor = Auditor(currentVersion: Option<string>, parse: string -> Option<real>) {
    /**
     * `audit`: no answer id and empty metadata; the three verdicts are those of
     * the checks on the same answer, staleness against this auditor's version.
     */
    function Audit(answer: AnswerWithLineage): (r: AuditReport)
      ensures r.answerId == None && r.metadata == map[]
      ensures r.versionConsistency == CheckVersionConsistency(answer)
      ensures r.stalenessCheck == CheckStaleness(answer, currentVersion, parse)
      ensures r.transformRiskFlags == RiskFlags(AllTransforms(answer.lineage))
    {
      AuditReport(
        answerId := None,
        stalenessCheck := CheckStaleness(answer, currentVersion, parse),
        versionConsistency := CheckVersionConsistency(answer),
        transformRiskFlags := RiskFlags(AllTransforms(answer.lineage)),
        metadata := map[])
    }
  }

  /** An answer with no lineage: consistency unknown, staleness warning, no risk flags. */
  lemma AuditEmptyLineage(a: Auditor, answer: AnswerWithLineage)
    requires answer.lineage == []
    ensures a.Audit(answer).versionConsistency == Unknown
    ensures a.Audit(answer).stalenessCheck == Warning
    ensures a.Audit(answer).transformRiskFlags == []
  {
  }

  /** An answer built entirely on the current version passes and is single-version. */
  lemma AuditAllCurrent(a: Auditor, answer: AnswerWithLineage)
    requires answer.lineage != [] && a.currentVersion.Some?
    requires forall i :: 0 <= i < |answer.lineage| ==> answer.lineage[i].datasetVersion == a.currentVersion.value
    ensures a.Audit(answer).versionConsistency == SingleVersion
    ensures a.Audit(answer).stalenessCheck == Pass
  {
    assert answer.lineage[0].datasetVersion in VersionsOf(answer.lineage);
  }

  /** Aggressively normalised records raise exactly the aggressive-normalisation message. */
  lemma AuditAggressiveOnly(a: Auditor, answer: AnswerWithLineage)
    requires answer.lineage != []
    requires forall i :: 0 <= i < |answer.lineage| ==> answer.lineage[i].transformChain == ["normalize_aggressive"]
    ensures a.Audit(answer).transformRiskFlags == ["Aggressive normalization may lose information"]
  {
    AggressiveChains(answer.lineage);
  }

  lemma {:induction false} AggressiveChains(lineage: seq<LineageEntry>)
    requires lineage != []
    requires forall i :: 0 <= i < |lineage| ==> lineage[i].transformChain == ["normalize_aggressive"]
    ensures RiskFlags(AllTransforms(lineage)) == ["Aggressive normalization may lose information"]
  {
    AllAggressive(lineage);
    RiskFlagsRepeated(AllTransforms(lineage), "normalize_aggressive");
  }

  lemma {:induction false} AllAggressive(lineage: seq<LineageEntry>)
    requires lineage != []
    requires forall i :: 0 <= i < |lineage| ==> lineage[i].transformChain == ["normalize_aggressive"]
    ensures AllTransforms(lineage) != []
    ensures forall k :: 0 <= k < |AllTransforms(lineage)| ==> AllTransforms(lineage)[k] == "normalize_aggressive"
    decreases |lineage|
  {
    var init := lineage[..|lineage| - 1];
    if init != [] {
      AllAggressive(init);
    }
  }

  /** A run of one risky name, however long, raises its message once. */
  lemma {:induction false} RiskFlagsRepeated(ts: seq<string>, t: string)
    requires ts != [] && t in RiskTable
    requires forall k :: 0 <= k < |ts| ==> ts[k] == t
    ensures RiskFlags(ts) == [RiskTable[t]]
    decreases |ts|
  {
    var init := ts[..|ts| - 1];
    if init == [] {
      assert RiskFlags(init) == [];
    } else {
      RiskFlagsRepeated(init, t);
    }
  }
}
