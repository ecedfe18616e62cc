/** The path tables of the review planner: which surfaces and checks a path concerns. */
module ReviewPaths {
  import opened ReviewCatalog
  import opened Policy
  import opened ReviewPlans

  predicate StartsWith(path: string, prefix: string) {
    prefix <= path
  }

  predicate EndsWith(path: string, suffix: string) {
    |suffix| <= |path| && path[|path| - |suffix|..] == suffix
  }

  predicate StartsWithAny(path: string, prefixes: seq<string>) {
    exists prefix | prefix in prefixes :: StartsWith(path, prefix)
  }

  // ----- surfaces -----

  const HUMAN_DOCS_PATHS: seq<string> := ["README.md", "CHANGELOG.md", "CONTRIBUTING.md", "CLA.md", "LICENSE", "LICENSE.docs"]

  const CONTROL_PLANE_EXACT_PATHS: seq<string> := [
    "AGENTS.md", "ROADMAP.md", "Makefile", ".gitmessage.txt", ".gitignore", ".vscode/settings.json",
    ".github/pull_request_template.md", ".github/CODEOWNERS", "tools/target_naming_catalog.yaml"]

  const CONTROL_PLANE_PREFIXES: seq<string> := [
    ".agents/skills/", ".claude/commands/", "docs/standards/", ".github/ISSUE_TEMPLATE/"]

  const CI_OR_RELEASE_EXACT_PATHS: seq<string> := [
    ".pre-commit-config.yaml", ".pylintrc", ".pylintrc-tests", "pyproject.toml", "pyrightconfig.json",
    "pyrightconfig.tests.json", "uv.lock", "tools/audit_delivery_guardrails.py", "tools/audit_pr_review.py",
    "tools/evaluate_review_results.py", "tools/install_git_hooks.py", "tools/message_standards.py",
    "tools/pre_commit_hook.py", "tools/pre_push_hook.py", "tools/run_pr_review_checks.py", "tools/run_quality_gates.py",
    "tools/run_review_check.py", "tools/validate_commit_message.py", "tools/validate_pr_metadata.py",
    "tools/verify_built_wheel.py"]

  const CI_OR_RELEASE_PREFIXES: seq<string> := [".github/actions/", ".github/workflows/"]

  predicate IsHumanDocs(path: string) {
    path in HUMAN_DOCS_PATHS || (StartsWith(path, "docs/") && !StartsWith(path, "docs/standards/"))
  }

  predicate IsControlPlaneText(path: string) {
    path in CONTROL_PLANE_EXACT_PATHS || StartsWithAny(path, CONTROL_PLANE_PREFIXES)
  }

  predicate IsRepoCodeOrTooling(path: string) {
    || path == "conftest.py"
    || StartsWithAny(path, ["src/", "tests/", "repo_support/"])
    || (StartsWith(path, "tools/") && EndsWith(path, ".py"))
  }

  predicate IsCiOrRelease(path: string) {
    path in CI_OR_RELEASE_EXACT_PATHS || StartsWithAny(path, CI_OR_RELEASE_PREFIXES)
  }

  function SurfaceGroupsOf(path: string): set<SurfaceGroup> {
    (if IsHumanDocs(path) then {HumanDocs} else {})
    + (if IsControlPlaneText(path) then {ControlPlaneText} else {})
    + (if IsRepoCodeOrTooling(path) then {RepoCodeOrTooling} else {})
    + (if IsCiOrRelease(path) then {CiOrRelease} else {})
  }

  // ----- path tests -----

  predicate IsPackagingSensitive(path: string) {
    || path in ["pyproject.toml", "uv.lock", "tools/verify_built_wheel.py"]
    || StartsWithAny(path, [".github/actions/", ".github/workflows/", "src/tallylot/interfaces/cli/"])
  }

  predicate IsProductionCode(path: string) {
    StartsWith(path, "src/tallylot/")
  }

  predicate IsSharedSubstrate(path: string) {
    || path in [
         "pyproject.toml", "uv.lock", "repo_support/quality_gates.py", "tools/audit_pr_review.py",
         "tools/evaluate_review_results.py", "tools/run_pr_review_checks.py", "tools/run_quality_gates.py",
         "tools/run_review_check.py", "tools/verify_built_wheel.py"]
    || StartsWith(path, "repo_support/review_verification/")
  }

  predicate IsStandardsGuard(path: string) {
    || path in ["AGENTS.md", "ROADMAP.md", "Makefile", ".gitmessage.txt", ".gitignore", ".vscode/settings.json"]
    || StartsWithAny(path, ["docs/standards/", ".claude/commands/", "tools/docs_maintenance/"])
  }

  predicate IsDocsAuditMarkdown(path: string) {
    StartsWith(path, "docs/") || path in ["README.md", "AGENTS.md", "ROADMAP.md"] || StartsWith(path, ".claude/commands/")
  }

  predicate IsDocsAuditSubstrate(path: string) {
    || path in [
         "README.md", "AGENTS.md", "ROADMAP.md", "src/tallylot/infrastructure/workspace/layout.py",
         "src/tallylot/domain/captures/provenance.py", "src/tallylot/ports/source_profiles.py",
         "src/tallylot/domain/transactions/classification.py", ".pylintrc", ".pylintrc-tests", "tools/audit_docs.py",
         "tools/message_standards.py", "tools/target_naming_catalog.yaml", "tools/validate_commit_message.py",
         "tools/validate_pr_metadata.py"]
    || StartsWithAny(path, [
         "docs/", ".claude/commands/", "repo_support/docs_audit/", "src/tallylot/interfaces/cli/", "tools/oracles/"])
  }

  predicate TargetsGuardrailsAudit(path: string) {
    || StartsWith(path, ".github/workflows/")
    || path in [".github/CODEOWNERS", "docs/standards/delivery-guardrails.md", "tools/audit_delivery_guardrails.py"]
  }

  predicate TargetsCiTooling(path: string) {
    || StartsWithAny(path, [".github/actions/", ".github/workflows/"])
    || path in ["tools/evaluate_review_results.py", "tools/run_review_check.py", "tools/verify_built_wheel.py"]
  }

  function ExactGroups(): seq<(CheckId, seq<string>)> {
    [ (PrMetadataValidator, [
         ".github/pull_request_template.md", "docs/standards/commits.md", "docs/standards/issues.md",
         "tools/message_standards.py", "tools/pre_push_hook.py", "tools/validate_pr_metadata.py"]),
      (CommitMessageValidator, [
         "docs/standards/commits.md", "tools/message_standards.py", "tools/validate_commit_message.py"]),
      (QualityGatesTooling, ["repo_support/quality_gates.py", "tools/run_quality_gates.py"]),
      (PreCommitHookTooling, [
         ".pre-commit-config.yaml", "repo_support/pytest_commands.py", "tools/pre_commit_hook.py",
         "tools/pre_push_hook.py", "tools/run_fast_pytest.py"]),
      (AuditPrReview, [
         "repo_support/review_verification/policy.py", "repo_support/review_verification/surfaces.py",
         "tools/audit_pr_review.py"]),
      (RunPrReviewChecks, [
         "repo_support/review_verification/policy.py", "repo_support/review_verification/catalog.py",
         "repo_support/review_verification/executor.py", "repo_support/review_verification/surfaces.py",
         "tools/run_pr_review_checks.py", ".github/workflows/pr-review.yml"])]
  }

  /** The part of the path after its last slash. */
  function LastName(path: string): (name: string)
    ensures '/' !in name
  {
    if path == "" then ""
    else if path[|path| - 1] == '/' then ""
    else LastName(path[..|path| - 1]) + [path[|path| - 1]]
  }

  /** Trailing slashes do not count as names. */
  function WithoutTrailingSlashes(path: string): string {
    if path != "" && path[|path| - 1] == '/' then WithoutTrailingSlashes(path[..|path| - 1]) else path
  }

  /** A name whose suffix, which a leading or trailing dot does not start, marks Markdown. */
  predicate IsMarkdown(path: string) {
    var name := LastName(WithoutTrailingSlashes(path));
    (EndsWith(name, ".md") && |name| > 3) || (EndsWith(name, ".mdx") && |name| > 4)
  }

  function TraitsOf(path: string, targetNaming: string -> bool): PathTraits {
    PathTraits(path, SurfaceGroupsOf(path),
      IsMarkdown(path), IsDocsAuditMarkdown(path), StartsWith(path, ".github/workflows/"),
      StartsWith(path, ".agents/skills/"), IsStandardsGuard(path), StartsWith(path, ".claude/commands/"),
      TargetsGuardrailsAudit(path),
      set group | group in ExactGroups() && path in group.1 :: group.0,
      targetNaming(path), IsDocsAuditSubstrate(path), TargetsCiTooling(path),
      IsPackagingSensitive(path), IsProductionCode(path), IsSharedSubstrate(path))
  }

  function TraitsOfAll(paths: seq<string>, targetNaming: string -> bool): (traits: seq<PathTraits>)
    ensures |traits| == |paths| && forall i :: 0 <= i < |paths| ==> traits[i] == TraitsOf(paths[i], targetNaming)
  {
    seq(|paths|, i requires 0 <= i < |paths| => TraitsOf(paths[i], targetNaming))
  }

  // ----- what certain paths always bring about -----

  lemma PathTraitsPresent(paths: seq<string>, targetNaming: string -> bool, path: string)
    requires path in paths
    ensures TraitsOf(path, targetNaming) in TraitsOfAll(paths, targetNaming)
  {
    var i :| 0 <= i < |paths| && paths[i] == path;
    assert TraitsOfAll(paths, targetNaming)[i] == TraitsOf(path, targetNaming);
  }

  lemma PlannedStays(traits: seq<PathTraits>, trigger: Trigger, id: CheckId)
    requires Selects(traits, id)
    ensures id in PlanOf(traits, trigger, Planned) || (id in TARGETED_SUBSET_TEST_IDS && PytestFull in PlanOf(traits, trigger, Planned))
  {
    SelectedIsCandidate(traits, trigger, id);
    SurvivorsExactly(traits, trigger, Planned, id);
    SurvivorsExactly(traits, trigger, Planned, PytestFull);
  }

  lemma FullTestsStay(traits: seq<PathTraits>, trigger: Trigger, mode: Mode)
    requires InGroup(traits, RepoCodeOrTooling)
    ensures PytestFull in PlanOf(traits, trigger, mode)
  {
    if mode == Full {
      FullRunsTests(traits, trigger);
    } else {
      SelectedIsCandidate(traits, trigger, PytestFull);
    }
    SurvivorsExactly(traits, trigger, mode, PytestFull);
  }

  /** A change to code or tooling always runs the full tests, whatever else changed. */
  lemma CodeChangesRunFullTests(paths: seq<string>, targetNaming: string -> bool, path: string, trigger: Trigger, mode: Mode)
    requires path in paths && IsRepoCodeOrTooling(path)
    ensures PytestFull in PlanOf(TraitsOfAll(paths, targetNaming), trigger, mode)
  {
    PathTraitsPresent(paths, targetNaming, path);
    assert RepoCodeOrTooling in TraitsOf(path, targetNaming).groups;
    FullTestsStay(TraitsOfAll(paths, targetNaming), trigger, mode);
  }

  lemma ProductionIsRepoCode(path: string)
    requires IsProductionCode(path)
    ensures IsRepoCodeOrTooling(path)
  {
    assert "src/" <= "src/tallylot/";
    assert StartsWith(path, "src/") && "src/" in ["src/", "tests/", "repo_support/"];
  }

  lemma WorkflowIsSensitive(path: string)
    requires StartsWith(path, ".github/workflows/")
    ensures IsPackagingSensitive(path) && TargetsCiTooling(path)
  {
    assert ".github/workflows/" in [".github/actions/", ".github/workflows/"];
    assert ".github/workflows/" in [".github/actions/", ".github/workflows/", "src/tallylot/interfaces/cli/"];
  }

  lemma ProductionTraits(path: string, targetNaming: string -> bool)
    requires IsProductionCode(path)
    ensures TraitsOf(path, targetNaming).productionCode
  {
  }

  lemma WorkflowTraits(path: string, targetNaming: string -> bool)
    requires StartsWith(path, ".github/workflows/") && IsPackagingSensitive(path) && TargetsCiTooling(path)
    ensures var t := TraitsOf(path, targetNaming); t.workflow && t.packagingSensitive && t.ciTooling
  {
  }

  lemma ProductionSelects(traits: seq<PathTraits>, t: PathTraits)
    requires t in traits && t.productionCode && RepoCodeOrTooling in t.groups
    ensures Selects(traits, CoverageHotspots)
  {
    assert InGroup(traits, RepoCodeOrTooling);
  }

  lemma WorkflowSelects(traits: seq<PathTraits>, t: PathTraits, id: CheckId)
    requires t in traits && t.workflow && t.packagingSensitive && t.ciTooling
    requires id in {Actionlint, Build, VerifyWheel, CiTooling}
    ensures Selects(traits, id)
  {
    if id in {Actionlint, CiTooling} {
      assert AsksFor(t, id);
    }
  }

  lemma GroupOfPath(path: string, targetNaming: string -> bool)
    requires IsRepoCodeOrTooling(path)
    ensures RepoCodeOrTooling in TraitsOf(path, targetNaming).groups
  {
  }

  /** A change to production code is planned with the coverage report as well. */
  lemma ProductionChangesReportCoverage(paths: seq<string>, targetNaming: string -> bool, path: string, trigger: Trigger)
    requires path in paths && IsProductionCode(path)
    ensures CoverageHotspots in PlanOf(TraitsOfAll(paths, targetNaming), trigger, Planned)
  {
    PathTraitsPresent(paths, targetNaming, path);
    ProductionIsRepoCode(path);
    GroupOfPath(path, targetNaming);
    ProductionTraits(path, targetNaming);
    ProductionSelects(TraitsOfAll(paths, targetNaming), TraitsOf(path, targetNaming));
    NotASubsetTest(CoverageHotspots);
    PlannedStays(TraitsOfAll(paths, targetNaming), trigger, CoverageHotspots);
  }

  /** A change to a workflow is linted and built, and the CI tooling is tested: by its own
      tests or by the full ones. */
  lemma WorkflowChangesBuild(paths: seq<string>, targetNaming: string -> bool, path: string, trigger: Trigger, id: CheckId)
    requires path in paths && StartsWith(path, ".github/workflows/")
    requires id in {Actionlint, Build, VerifyWheel, CiTooling}
    ensures var plan := PlanOf(TraitsOfAll(paths, targetNaming), trigger, Planned);
            id in plan || (id == CiTooling && PytestFull in plan)
  {
    PathTraitsPresent(paths, targetNaming, path);
    WorkflowIsSensitive(path);
    WorkflowTraits(path, targetNaming);
    WorkflowSelects(TraitsOfAll(paths, targetNaming), TraitsOf(path, targetNaming), id);
    PlannedStays(TraitsOfAll(paths, targetNaming), trigger, id);
    if id != CiTooling { NotASubsetTest(id); }
  }

  lemma NotASubsetTest(id: CheckId)
    requires id in {Actionlint, Build, VerifyWheel, CoverageHotspots}
    ensures id !in TARGETED_SUBSET_TEST_IDS
  {
  }
}
