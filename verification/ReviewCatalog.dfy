/** The repository's own review checks: dependencies, blocking flags, dominance and order. */
module ReviewCatalog {
  import opened Sequences
  import opened CheckSpecs

  datatype CheckId =
    | CommitMessages | PrMetadata | DocsMaintenance | Markdownlint | TargetNaming | DocsAudit | Actionlint
    | Ruff | Mypy | Pyright | Pylint
    | RepoAgentSkills | StandardsGuards | DeliveryGuardrailsAudit | PrMetadataValidator | CommitMessageValidator
    | PreCommitHookTooling | QualityGatesTooling | AuditPrReview | RunPrReviewChecks | CiTooling
    | PytestFull | TestStressChecks | Build | VerifyWheel | CoverageHotspots

  const TARGETED_SUBSET_TEST_IDS: seq<CheckId> := [
    RepoAgentSkills, StandardsGuards, DeliveryGuardrailsAudit, PrMetadataValidator, CommitMessageValidator,
    PreCommitHookTooling, QualityGatesTooling, AuditPrReview, RunPrReviewChecks, CiTooling]

  const CHECK_ORDER: seq<CheckId> := [
    CommitMessages, PrMetadata, DocsMaintenance, Markdownlint, TargetNaming, DocsAudit, Actionlint,
    Ruff, Mypy, Pyright, Pylint,
    RepoAgentSkills, StandardsGuards, DeliveryGuardrailsAudit, PrMetadataValidator, CommitMessageValidator,
    PreCommitHookTooling, QualityGatesTooling, AuditPrReview, RunPrReviewChecks, CiTooling,
    PytestFull, TestStressChecks, Build, VerifyWheel, CoverageHotspots]

  function SpecOf(id: CheckId): CheckSpec<CheckId> {
    if id == PytestFull then CheckSpec([], true, TARGETED_SUBSET_TEST_IDS)
    else if id == VerifyWheel then CheckSpec([Build], true, [])
    else if id == CoverageHotspots then CheckSpec([PytestFull], false, [])
    else CheckSpec([], true, [])
  }

  const CHECK_SPECS: Catalog<CheckId> := map id: CheckId | true :: SpecOf(id)

  /** The place of a check in the order. */
  function Position(id: CheckId): (i: nat)
    ensures i < |CHECK_ORDER| && CHECK_ORDER[i] == id
  {
    match id
    case CommitMessages => 0 case PrMetadata => 1 case DocsMaintenance => 2 case Markdownlint => 3
    case TargetNaming => 4 case DocsAudit => 5 case Actionlint => 6 case Ruff => 7 case Mypy => 8
    case Pyright => 9 case Pylint => 10 case RepoAgentSkills => 11 case StandardsGuards => 12
    case DeliveryGuardrailsAudit => 13 case PrMetadataValidator => 14 case CommitMessageValidator => 15
    case PreCommitHookTooling => 16 case QualityGatesTooling => 17 case AuditPrReview => 18
    case RunPrReviewChecks => 19 case CiTooling => 20 case PytestFull => 21 case TestStressChecks => 22
    case Build => 23 case VerifyWheel => 24 case CoverageHotspots => 25
  }

  const RANK: map<CheckId, nat> := map id: CheckId | true :: Position(id)

  /** The order lists every check exactly once. */
  lemma OrderIsComplete()
    ensures forall id: CheckId :: id in CHECK_ORDER
    ensures forall i :: 0 <= i < |CHECK_ORDER| ==> Position(CHECK_ORDER[i]) == i
  {
    forall id: CheckId ensures id in CHECK_ORDER { assert CHECK_ORDER[Position(id)] == id; }
  }

  lemma OrderIsDistinct()
    ensures NoRepeats(CHECK_ORDER)
  {
    OrderIsComplete();
  }

  /** One check dominates others, nothing dominates itself, and the only dependencies are
      the wheel check's on the build and the coverage report's on the full test run. */
  lemma CatalogShape(id: CheckId)
    ensures id != PytestFull ==> SpecOf(id).dominanceIds == []
    ensures id !in SpecOf(id).dominanceIds
    ensures forall d :: d in SpecOf(id).dependencyIds <==>
              (id == VerifyWheel && d == Build) || (id == CoverageHotspots && d == PytestFull)
    ensures SpecOf(PytestFull).dominanceIds == TARGETED_SUBSET_TEST_IDS
    ensures SpecOf(id).blocking <==> id != CoverageHotspots
  {
  }

  lemma OnlyFullTestsDominate(id: CheckId)
    ensures id != PytestFull ==> SpecOf(id).dominanceIds == []
    ensures id !in SpecOf(id).dominanceIds
  {
    CatalogShape(id);
  }

  lemma DependenciesRankLower(id: CheckId, d: CheckId)
    requires d in SpecOf(id).dependencyIds
    ensures Position(d) < Position(id)
  {
    CatalogShape(id);
  }
}
