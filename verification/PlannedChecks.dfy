/** Which checks end up in a plan, check by check. */
module PlannedChecks {
  import opened ReviewCatalog
  import opened Policy
  import opened ReviewPlans
  import opened ReviewPaths

  ghost predicate TouchesCode(traits: seq<PathTraits>) {
    exists t :: t in traits && (RepoCodeOrTooling in t.groups || t.sharedSubstrate)
  }

  /** When a planned review has the check. Tests of single tools give way to the full tests. */
  ghost predicate PlannedWhen(traits: seq<PathTraits>, trigger: Trigger, id: CheckId) {
    match id
    case CommitMessages | PrMetadata => trigger == PullRequest
    case DocsMaintenance => exists t :: t in traits && (HumanDocs in t.groups || ControlPlaneText in t.groups)
    case Markdownlint => exists t :: t in traits && t.markdown
    case TargetNaming => exists t :: t in traits && t.targetNaming
    case DocsAudit => exists t :: t in traits && (t.docsAuditMarkdown || t.claudeCommand || t.docsAuditSubstrate)
    case Actionlint => exists t :: t in traits && t.workflow
    case Ruff | Mypy | Pyright | Pylint | PytestFull | TestStressChecks => TouchesCode(traits)
    case RepoAgentSkills => !TouchesCode(traits) && exists t :: t in traits && t.agentSkill
    case StandardsGuards => !TouchesCode(traits) && exists t :: t in traits && t.standardsGuard
    case DeliveryGuardrailsAudit => !TouchesCode(traits) && exists t :: t in traits && t.guardrailsAudit
    case PrMetadataValidator | CommitMessageValidator | PreCommitHookTooling | QualityGatesTooling | AuditPrReview | RunPrReviewChecks =>
      !TouchesCode(traits) && exists t :: t in traits && id in t.exactChecks
    case CiTooling => !TouchesCode(traits) && exists t :: t in traits && (t.ciTooling || CiOrRelease in t.groups)
    case Build | VerifyWheel => exists t :: t in traits && (t.packagingSensitive || t.sharedSubstrate)
    case CoverageHotspots => TouchesCode(traits) && exists t :: t in traits && t.productionCode
  }

  lemma QualityIsCode(traits: seq<PathTraits>)
    ensures NeedsFullQuality(traits) <==> TouchesCode(traits)
  {
    if t :| t in traits && RepoCodeOrTooling in t.groups {}
    if t :| t in traits && t.sharedSubstrate {}
  }

  lemma CandidateExactly(traits: seq<PathTraits>, trigger: Trigger, id: CheckId)
    ensures id in Candidates(traits, trigger, Planned)
            <==> Selects(traits, id) || (trigger == PullRequest && id in {CommitMessages, PrMetadata})
  {}

  predicate IsSubsetTest(id: CheckId) {
    id in {RepoAgentSkills, StandardsGuards, DeliveryGuardrailsAudit, PrMetadataValidator, CommitMessageValidator,
           PreCommitHookTooling, QualityGatesTooling, AuditPrReview, RunPrReviewChecks, CiTooling}
  }

  lemma SubsetTests(id: CheckId)
    ensures id in TARGETED_SUBSET_TEST_IDS <==> IsSubsetTest(id)
  {}

  lemma SelectsByFlag(traits: seq<PathTraits>, trigger: Trigger, id: CheckId)
    requires id in {DocsMaintenance, Markdownlint, TargetNaming, DocsAudit, Actionlint, CommitMessages, PrMetadata}
    ensures Selects(traits, id) || (trigger == PullRequest && id in {CommitMessages, PrMetadata}) <==> PlannedWhen(traits, trigger, id)
  {}

  lemma SelectsByQuality(traits: seq<PathTraits>, trigger: Trigger, id: CheckId)
    requires id in {Ruff, Mypy, Pyright, Pylint, PytestFull, TestStressChecks}
    ensures Selects(traits, id) <==> PlannedWhen(traits, trigger, id)
  {
    QualityIsCode(traits);
  }

  lemma SelectsReport(traits: seq<PathTraits>, trigger: Trigger)
    ensures Selects(traits, CoverageHotspots) <==> PlannedWhen(traits, trigger, CoverageHotspots)
  {
    QualityIsCode(traits);
    NoPathAsksFor(traits, CoverageHotspots);
    SelectsByFlags(traits, CoverageHotspots);
  }

  lemma SelectsByPackaging(traits: seq<PathTraits>, trigger: Trigger, id: CheckId)
    requires id in {Build, VerifyWheel}
    ensures Selects(traits, id) <==> PlannedWhen(traits, trigger, id)
  {}

  /** What selects a check that is no test of a single tool. */
  lemma SelectsOther(traits: seq<PathTraits>, trigger: Trigger, id: CheckId)
    requires !IsSubsetTest(id)
    ensures Selects(traits, id) || (trigger == PullRequest && id in {CommitMessages, PrMetadata}) <==> PlannedWhen(traits, trigger, id)
  {
    if id in {DocsMaintenance, Markdownlint, TargetNaming, DocsAudit, Actionlint, CommitMessages, PrMetadata} {
      SelectsByFlag(traits, trigger, id);
    } else if id in {Build, VerifyWheel} {
      SelectsByPackaging(traits, trigger, id);
    } else if id == CoverageHotspots {
      SelectsReport(traits, trigger);
    } else {
      SelectsByQuality(traits, trigger, id);
    }
  }

  lemma SelectsSubsetTest(traits: seq<PathTraits>, trigger: Trigger, id: CheckId)
    requires IsSubsetTest(id)
    ensures Selects(traits, id) && !TouchesCode(traits) <==> PlannedWhen(traits, trigger, id)
  {
  }

  /** The plan of a planned review, exactly, whatever is dominated. */
  lemma PlannedExactly(traits: seq<PathTraits>, trigger: Trigger, id: CheckId)
    ensures id in PlanOf(traits, trigger, Planned) <==> PlannedWhen(traits, trigger, id)
  {
    SurvivorsExactly(traits, trigger, Planned, id);
    CandidateExactly(traits, trigger, id);
    CandidateExactly(traits, trigger, PytestFull);
    SelectsOther(traits, trigger, PytestFull);
    SubsetTests(id);
    if IsSubsetTest(id) {
      SelectsSubsetTest(traits, trigger, id);
    } else {
      SelectsOther(traits, trigger, id);
    }
  }

  /** A full review has every check but those of single tools, and on a pull request also
      those of its commits and its description. */
  lemma FullExactly(traits: seq<PathTraits>, trigger: Trigger, id: CheckId)
    ensures id in PlanOf(traits, trigger, Full)
            <==> !IsSubsetTest(id) && (trigger == PullRequest || id !in {CommitMessages, PrMetadata})
  {
    SurvivorsExactly(traits, trigger, Full, id);
    SubsetTests(id);
    FullCandidate(traits, trigger, id);
    FullCandidate(traits, trigger, PytestFull);
  }

  lemma FullCandidate(traits: seq<PathTraits>, trigger: Trigger, id: CheckId)
    ensures id in Candidates(traits, trigger, Full)
            <==> !IsSubsetTest(id) && (trigger == PullRequest || id !in {CommitMessages, PrMetadata})
  {}

  // ----- Markdown -----

  lemma {:induction false} LastNameOf(directory: string, name: string)
    requires (directory == "" || directory[|directory| - 1] == '/') && '/' !in name
    ensures LastName(directory + name) == name
  {
    var path := directory + name;
    if name == "" {
      assert path == directory;
    } else {
      var init, last := name[..|name| - 1], name[|name| - 1];
      assert path[..|path| - 1] == directory + init && path[|path| - 1] == last && last in name;
      assert forall c :: c in init ==> c in name;
      LastNameOf(directory, init);
    }
  }

  /** A file with a stem and one of the two endings is Markdown, in whatever directory. */
  lemma MarkdownByEnding(directory: string, stem: string, ending: string)
    requires directory == "" || directory[|directory| - 1] == '/'
    requires stem != "" && '/' !in stem && ending in [".md", ".mdx"]
    ensures IsMarkdown(directory + stem + ending)
  {
    var name := stem + ending;
    var path := directory + name;
    assert path == directory + stem + ending;
    assert ending == ".md" || ending == ".mdx";
    assert '/' !in ending && path[|path| - 1] == ending[|ending| - 1];
    assert WithoutTrailingSlashes(path) == path;
    LastNameOf(directory, name);
    assert name[|name| - |ending|..] == ending;
  }

  /** Every change to a Markdown file is linted. */
  lemma MarkdownIsLinted(paths: seq<string>, targetNaming: string -> bool, path: string, trigger: Trigger)
    requires path in paths && IsMarkdown(path)
    ensures Markdownlint in PlanOf(TraitsOfAll(paths, targetNaming), trigger, Planned)
  {
    PathTraitsPresent(paths, targetNaming, path);
    MarkdownTraits(path, targetNaming);
    MarkdownPlanned(TraitsOfAll(paths, targetNaming), TraitsOf(path, targetNaming), trigger);
    PlannedExactly(TraitsOfAll(paths, targetNaming), trigger, Markdownlint);
  }

  lemma MarkdownPlanned(traits: seq<PathTraits>, t: PathTraits, trigger: Trigger)
    requires t in traits && t.markdown
    ensures PlannedWhen(traits, trigger, Markdownlint)
  {}

  lemma MarkdownTraits(path: string, targetNaming: string -> bool)
    ensures TraitsOf(path, targetNaming).markdown == IsMarkdown(path)
  {}

  lemma {:induction false} LastNameEnds(path: string)
    ensures |LastName(path)| <= |path| && path[|path| - |LastName(path)|..] == LastName(path)
    decreases |path|
  {
    if path != "" && path[|path| - 1] != '/' {
      LastNameEnds(path[..|path| - 1]);
    }
  }

  /** And nothing else is Markdown. */
  lemma MarkdownEnds(path: string)
    requires IsMarkdown(path)
    ensures var file := WithoutTrailingSlashes(path);
            (|file| > 3 && file[|file| - 3..] == ".md") || (|file| > 4 && file[|file| - 4..] == ".mdx")
  {
    var file := WithoutTrailingSlashes(path);
    LastNameEnds(file);
    var name := LastName(file);
    if EndsWith(name, ".md") {
      assert file[|file| - 3..] == name[|name| - 3..];
    }
    if EndsWith(name, ".mdx") {
      assert file[|file| - 4..] == name[|name| - 4..];
    }
  }

  // ----- code -----

  lemma UnderAny(path: string, a: string, b: string, c: string)
    ensures StartsWithAny(path, [a, b, c]) <==> a <= path || b <= path || c <= path
  {
    assert a in [a, b, c] && b in [a, b, c] && c in [a, b, c];
  }

  /** Code is what lies under the three code directories, the tools written in Python, and the
      test configuration at the root. */
  lemma CodePathsExactly(path: string)
    ensures RepoCodeOrTooling in SurfaceGroupsOf(path)
            <==> || path == "conftest.py" || "src/" <= path || "tests/" <= path || "repo_support/" <= path
                 || ("tools/" <= path && |path| >= 3 && path[|path| - 3..] == ".py")
  {
    UnderAny(path, "src/", "tests/", "repo_support/");
  }

  lemma UnderOne(path: string, prefixes: seq<string>, k: nat, prefix: string)
    requires k < |prefixes| && prefixes[k] == prefix && prefix <= path
    ensures StartsWithAny(path, prefixes)
  {
    assert prefixes[k] in prefixes && StartsWith(path, prefixes[k]);
  }

  /** Directories whose files are control-plane text. */
  lemma ControlPlaneDirectories(path: string)
    requires ".agents/skills/" <= path || ".claude/commands/" <= path || "docs/standards/" <= path || ".github/ISSUE_TEMPLATE/" <= path
    ensures ControlPlaneText in SurfaceGroupsOf(path)
  {
    if ".agents/skills/" <= path {
      UnderOne(path, CONTROL_PLANE_PREFIXES, 0, ".agents/skills/");
    } else if ".claude/commands/" <= path {
      UnderOne(path, CONTROL_PLANE_PREFIXES, 1, ".claude/commands/");
    } else if "docs/standards/" <= path {
      UnderOne(path, CONTROL_PLANE_PREFIXES, 2, "docs/standards/");
    } else {
      UnderOne(path, CONTROL_PLANE_PREFIXES, 3, ".github/ISSUE_TEMPLATE/");
    }
  }

  /** And those whose files are delivery. */
  lemma DeliveryDirectories(path: string)
    requires ".github/actions/" <= path || ".github/workflows/" <= path
    ensures CiOrRelease in SurfaceGroupsOf(path)
  {
    if ".github/actions/" <= path {
      UnderOne(path, CI_OR_RELEASE_PREFIXES, 0, ".github/actions/");
    } else {
      UnderOne(path, CI_OR_RELEASE_PREFIXES, 1, ".github/workflows/");
    }
  }

  // ----- documentation -----

  /** None of the names begins with the letter. */
  predicate NoneBeginsWith(names: seq<string>, letter: char) {
    forall name | name in names :: name != "" && name[0] != letter
  }

  lemma Unlisted(path: string, names: seq<string>, letter: char)
    requires path != "" && path[0] == letter && NoneBeginsWith(names, letter)
    ensures path !in names
  {}

  lemma NotUnder(path: string, prefixes: seq<string>, letter: char)
    requires path != "" && path[0] == letter && NoneBeginsWith(prefixes, letter)
    ensures !StartsWithAny(path, prefixes)
  {
    forall prefix | prefix in prefixes ensures !StartsWith(path, prefix) {
      assert prefix[0] != path[0];
    }
  }

  lemma NoListBeginsWithD()
    ensures NoneBeginsWith(HUMAN_DOCS_PATHS, 'd') && NoneBeginsWith(CONTROL_PLANE_EXACT_PATHS, 'd')
    ensures NoneBeginsWith(CI_OR_RELEASE_EXACT_PATHS, 'd') && NoneBeginsWith(CI_OR_RELEASE_PREFIXES, 'd')
  {}

  lemma UnderControlPlane(path: string)
    requires "docs/" <= path
    ensures StartsWithAny(path, CONTROL_PLANE_PREFIXES) <==> "docs/standards/" <= path
  {
    assert path[0] == 'd';
    assert CONTROL_PLANE_PREFIXES[2] == "docs/standards/";
    assert "docs/standards/" <= path ==> StartsWith(path, CONTROL_PLANE_PREFIXES[2]);
    forall prefix | prefix in CONTROL_PLANE_PREFIXES && StartsWith(path, prefix) ensures prefix == "docs/standards/" {
      assert prefix[0] == 'd';
    }
  }

  /** Everything under the documentation directory is documentation, the standards being
      control-plane text, and belongs to no other surface. */
  lemma DocsPathsExactly(path: string)
    requires "docs/" <= path
    ensures SurfaceGroupsOf(path) == if "docs/standards/" <= path then {ControlPlaneText} else {HumanDocs}
  {
    assert path[0] == 'd';
    NoListBeginsWithD();
    Unlisted(path, HUMAN_DOCS_PATHS, 'd');
    Unlisted(path, CONTROL_PLANE_EXACT_PATHS, 'd');
    Unlisted(path, CI_OR_RELEASE_EXACT_PATHS, 'd');
    NotUnder(path, CI_OR_RELEASE_PREFIXES, 'd');
    UnderControlPlane(path);
    CodePathsExactly(path);
    assert path != "conftest.py";
  }

  lemma DocsTraits(path: string, targetNaming: string -> bool)
    requires "docs/" <= path
    ensures IsPlainDocs(TraitsOf(path, targetNaming))
  {
    assert path[0] == 'd';
    DocsPathsExactly(path);
    DocsAreNoSubstrate(path);
    DocsAreNotPackaged(path);
    assert !(".github/workflows/" <= path);
  }

  lemma DocsAreNoSubstrate(path: string)
    requires path != "" && path[0] == 'd'
    ensures !IsSharedSubstrate(path)
  {}

  lemma DocsAreNotPackaged(path: string)
    requires path != "" && path[0] == 'd'
    ensures !IsPackagingSensitive(path)
  {
    NotUnder(path, [".github/actions/", ".github/workflows/", "src/tallylot/interfaces/cli/"], 'd');
  }

  ghost predicate AllUnderDocs(paths: seq<string>) {
    forall path :: path in paths ==> "docs/" <= path
  }

  /** A path as documentation is classified. */
  predicate IsPlainDocs(t: PathTraits) {
    && !t.sharedSubstrate && !t.packagingSensitive && !t.workflow && t.docsAuditMarkdown
    && RepoCodeOrTooling !in t.groups && (HumanDocs in t.groups || ControlPlaneText in t.groups)
  }

  lemma DocsArePlain(paths: seq<string>, targetNaming: string -> bool)
    requires AllUnderDocs(paths)
    ensures forall t :: t in TraitsOfAll(paths, targetNaming) ==> IsPlainDocs(t)
  {
    var traits := TraitsOfAll(paths, targetNaming);
    forall t | t in traits ensures IsPlainDocs(t) {
      var i :| 0 <= i < |traits| && traits[i] == t;
      assert paths[i] in paths;
      DocsTraits(paths[i], targetNaming);
    }
  }

  lemma DocsNeedNoCode(traits: seq<PathTraits>, trigger: Trigger, id: CheckId)
    requires forall t :: t in traits ==> IsPlainDocs(t)
    requires id in {Ruff, Mypy, Pyright, Pylint, PytestFull, TestStressChecks, Build, VerifyWheel, CoverageHotspots, Actionlint}
    ensures !PlannedWhen(traits, trigger, id)
  {}

  lemma DocsNeedTheirOwn(traits: seq<PathTraits>, trigger: Trigger, id: CheckId)
    requires traits != [] && (forall t :: t in traits ==> IsPlainDocs(t)) && id in {DocsMaintenance, DocsAudit}
    ensures PlannedWhen(traits, trigger, id)
  {
    assert traits[0] in traits;
  }

  /** A change to documentation alone is planned with its two checks, and without the code
      checks, the full tests, a build or the coverage report. */
  lemma DocsOnlyChanges(paths: seq<string>, targetNaming: string -> bool, trigger: Trigger, id: CheckId)
    requires paths != [] && AllUnderDocs(paths)
    ensures var plan := PlanOf(TraitsOfAll(paths, targetNaming), trigger, Planned);
            && (id in {DocsMaintenance, DocsAudit} ==> id in plan)
            && (id in {Ruff, Mypy, Pyright, Pylint, PytestFull, TestStressChecks, Build, VerifyWheel, CoverageHotspots, Actionlint}
                ==> id !in plan)
  {
    var traits := TraitsOfAll(paths, targetNaming);
    DocsArePlain(paths, targetNaming);
    PlannedExactly(traits, trigger, id);
    if id in {DocsMaintenance, DocsAudit} {
      DocsNeedTheirOwn(traits, trigger, id);
    } else if id in {Ruff, Mypy, Pyright, Pylint, PytestFull, TestStressChecks, Build, VerifyWheel, CoverageHotspots, Actionlint} {
      DocsNeedNoCode(traits, trigger, id);
    }
  }
}
