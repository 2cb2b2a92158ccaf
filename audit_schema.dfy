/**
 * Answers with their lineage and the audit report over them. The report's two
 * verdict fields are closed literal sets, written here as enumerations with their
 * literal spellings and the validation that accepts exactly those spellings.
 */
module AuditSchema {
  import opened Wrappers
  import opened LineageNodes

  /** One retrieved record behind an answer: its id, score and provenance. */
  datatype LineageEntry = LineageEntry(
    lnId: string,
    score: real,
    source: SourceRef,
    datasetVersion: string,
    transformChain: seq<string>)

  datatype AnswerWithLineage = AnswerWithLineage(
    question: string,
    answer: string,
    lineage: seq<LineageEntry>,
    metadata: Metadata)

  /** An answer built from its required fields: lineage and metadata default to empty. */
  function NewAnswer(question: string, answer: string): (a: AnswerWithLineage)
    ensures a.question == question && a.answer == answer
    ensures a.lineage == [] && a.metadata == map[]
  {
    AnswerWithLineage(question, answer, [], map[])
  }

  datatype Staleness = Pass | Fail | Warning {
    function Literal(): (s: string)
      ensures s in {"pass", "fail", "warning"}
    {
      match this
      case Pass => "pass"
      case Fail => "fail"
      case Warning => "warning"
    }
  }

  /** Validation of the `staleness_check` literal: exactly "pass", "fail" and "warning" are accepted. */
  function ParseStaleness(s: string): (r: Option<Staleness>)
    ensures r.Some? <==> s in {"pass", "fail", "warning"}
    ensures r.Some? ==> r.value.Literal() == s
  {
    if s == "pass" then Some(Pass)
    else if s == "fail" then Some(Fail)
    else if s == "warning" then Some(Warning)
    else None
  }

  lemma StalenessRoundTrip(v: Staleness)
    ensures ParseStaleness(v.Literal()) == Some(v)
  {
  }

  datatype VersionConsistency = SingleVersion | MixedVersions | Unknown {
    function Literal(): (s: string)
      ensures s in {"single_version", "mixed_versions", "unknown"}
    {
      match this
      case SingleVersion => "single_version"
      case MixedVersions => "mixed_versions"
      case Unknown => "unknown"
    }
  }

  /** Validation of the `version_consistency` literal. */
  function ParseVersionConsistency(s: string): (r: Option<VersionConsistency>)
    ensures r.Some? <==> s in {"single_version", "mixed_versions", "unknown"}
    ensures r.Some? ==> r.value.Literal() == s
  {
    if s == "single_version" then Some(SingleVersion)
    else if s == "mixed_versions" then Some(MixedVersions)
    else if s == "unknown" then Some(Unknown)
    else None
  }

  lemma VersionConsistencyRoundTrip(v: VersionConsistency)
    ensures ParseVersionConsistency(v.Literal()) == Some(v)
  {
  }

  datatype AuditReport = AuditReport(
    answerId: Option<string>,
    stalenessCheck: Staleness,
    versionConsistency: VersionConsistency,
    transformRiskFlags: seq<string>,
    metadata: Metadata)

  /** A report built from its required fields: no id, no risk flags, empty metadata. */
  function NewAuditReport(staleness: Staleness, consistency: VersionConsistency): (r: AuditReport)
    ensures r.stalenessCheck == staleness && r.versionConsistency == consistency
    ensures r.answerId == None && r.transformRiskFlags == [] && r.metadata == map[]
  {
    AuditReport(None, staleness, consistency, [], map[])
  }
}
