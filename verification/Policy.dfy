/** From changed paths to the ordered list of review checks. */
module Policy {
  import opened ReviewCatalog
  import opened Dominance
  import opened OrderedPlans
  import Grouping
  import Sequences

  datatype Trigger = PullRequest | PushMain | Local
  datatype Mode = Planned | Full

  datatype SurfaceGroup = HumanDocs | ControlPlaneText | RepoCodeOrTooling | CiOrRelease

  const SURFACE_GROUP_ORDER: seq<SurfaceGroup> := [HumanDocs, ControlPlaneText, RepoCodeOrTooling, CiOrRelease]

  /** A path with everything the planner asks about it: its surface groups and the outcome
      of each path test. */
  datatype PathTraits = PathTraits(
    path: string, groups: set<SurfaceGroup>,
    markdown: bool, docsAuditMarkdown: bool, workflow: bool,
    agentSkill: bool, standardsGuard: bool, claudeCommand: bool, guardrailsAudit: bool,
    exactChecks: set<CheckId>,
    targetNaming: bool, docsAuditSubstrate: bool, ciTooling: bool,
    packagingSensitive: bool, productionCode: bool, sharedSubstrate: bool)

  const EXACT_GROUP_IDS: set<CheckId> := {
    PrMetadataValidator, CommitMessageValidator, QualityGatesTooling, PreCommitHookTooling, AuditPrReview, RunPrReviewChecks}

  const FULL_PR_CHECK_IDS: set<CheckId> := {
    CommitMessages, PrMetadata, DocsMaintenance, Markdownlint, TargetNaming, DocsAudit, Actionlint, Ruff, Mypy, Pyright,
    Pylint, PytestFull, TestStressChecks, Build, VerifyWheel, CoverageHotspots}
  const FULL_QUALITY_CHECK_IDS: set<CheckId> := {Ruff, Mypy, Pyright, Pylint, PytestFull, TestStressChecks}
  const FULL_LOCAL_CHECK_IDS: set<CheckId> := FULL_PR_CHECK_IDS - PLANNED_PR_CHECK_IDS
  const PLANNED_PR_CHECK_IDS: set<CheckId> := {CommitMessages, PrMetadata}

  /** What the changed paths touch, in the fixed group order. */
  datatype SurfaceReport = SurfaceReport(
    changedPaths: seq<string>, groupedPaths: seq<(SurfaceGroup, seq<string>)>, surfaceGroups: seq<SurfaceGroup>,
    reviewDomains: seq<string>, unmappedPaths: seq<string>)

  datatype VerificationPlan = VerificationPlan(
    surfaceReport: SurfaceReport, selectedCheckIds: seq<CheckId>, blockingCheckIds: seq<CheckId>, nonblockingCheckIds: seq<CheckId>,
    suppressedChecks: seq<SuppressedCheck<CheckId>>)

  function When(condition: bool, ids: set<CheckId>): set<CheckId> {
    if condition then ids else {}
  }

  /** The checks one path asks for on its own. */
  predicate AsksFor(t: PathTraits, id: CheckId) {
    || (id == Markdownlint && t.markdown)
    || (id == DocsAudit && (t.docsAuditMarkdown || t.claudeCommand || t.docsAuditSubstrate))
    || (id == Actionlint && t.workflow)
    || (id == RepoAgentSkills && t.agentSkill)
    || (id == StandardsGuards && t.standardsGuard)
    || (id == DeliveryGuardrailsAudit && t.guardrailsAudit)
    || (id == TargetNaming && t.targetNaming)
    || (id == CiTooling && t.ciTooling)
    || (id in EXACT_GROUP_IDS && id in t.exactChecks)
  }

  ghost predicate SomePathAsksFor(traits: seq<PathTraits>, id: CheckId) {
    exists t :: t in traits && AsksFor(t, id)
  }

  ghost predicate InGroup(traits: seq<PathTraits>, group: SurfaceGroup) {
    exists t :: t in traits && group in t.groups
  }

  ghost predicate NeedsFullQuality(traits: seq<PathTraits>) {
    InGroup(traits, RepoCodeOrTooling) || exists t :: t in traits && t.sharedSubstrate
  }

  /** When a planned run selects a check, before dominance. */
  ghost predicate Selects(traits: seq<PathTraits>, id: CheckId) {
    || SomePathAsksFor(traits, id)
    || (id == DocsMaintenance && (InGroup(traits, HumanDocs) || InGroup(traits, ControlPlaneText)))
    || (id in FULL_QUALITY_CHECK_IDS && NeedsFullQuality(traits))
    || (id == CiTooling && InGroup(traits, CiOrRelease))
    || (id in {Build, VerifyWheel} && exists t :: t in traits && (t.packagingSensitive || t.sharedSubstrate))
    || (id == CoverageHotspots && NeedsFullQuality(traits) && exists t :: t in traits && t.productionCode)
  }

  ghost function Candidates(traits: seq<PathTraits>, trigger: Trigger, mode: Mode): set<CheckId> {
    if trigger == PullRequest && mode == Full then FULL_PR_CHECK_IDS
    else if mode == Full then FULL_LOCAL_CHECK_IDS
    else (set id: CheckId | Selects(traits, id)) + When(trigger == PullRequest, PLANNED_PR_CHECK_IDS)
  }

  ghost function Survivors(traits: seq<PathTraits>, trigger: Trigger, mode: Mode): Selection<CheckId> {
    Dominate(CHECK_SPECS, CHECK_ORDER, Candidates(traits, trigger, mode))
  }

  // ----- the surface report -----

  function ReviewDomains(group: SurfaceGroup): seq<string> {
    match group
    case HumanDocs => ["factual accuracy", "metadata and link integrity", "audience and type placement"]
    case ControlPlaneText => [
      "policy correctness", "route-skill-standard alignment", "delivery behavior",
      "compaction and context-loss recovery", "issue and privacy handling"]
    case RepoCodeOrTooling => [
      "design and ownership", "correctness and behavior", "complexity and over-engineering",
      "tests and regression value", "naming and public terminology", "documentation and control-plane alignment"]
    case CiOrRelease => ["workflow correctness", "delivery enforcement", "metadata parity"]
  }

  function Names(traits: seq<PathTraits>): (r: seq<string>)
    ensures |r| == |traits| && forall i :: 0 <= i < |r| ==> r[i] == traits[i].path
  {
    seq(|traits|, i requires 0 <= i < |traits| => traits[i].path)
  }

  function Touches(group: SurfaceGroup): PathTraits -> bool {
    (t: PathTraits) => group in t.groups
  }

  function IsUnmapped(): PathTraits -> bool {
    (t: PathTraits) => t.groups == {}
  }

  function PathsIn(traits: seq<PathTraits>, group: SurfaceGroup): seq<string> {
    Names(Grouping.Filter(traits, Touches(group)))
  }

  /** One path's groups, in the fixed order. */
  function GroupsOf(t: PathTraits): seq<SurfaceGroup> {
    Grouping.Filter(SURFACE_GROUP_ORDER, (g: SurfaceGroup) => g in t.groups)
  }

  function DomainsOf(): PathTraits -> seq<string> {
    (t: PathTraits) => Grouping.Chain(GroupsOf(t), ReviewDomains)
  }

  function Itself(): string -> string {
    (d: string) => d
  }

  function IfAny(traits: seq<PathTraits>): SurfaceGroup -> seq<(SurfaceGroup, seq<string>)> {
    (g: SurfaceGroup) => if PathsIn(traits, g) == [] then [] else [(g, PathsIn(traits, g))]
  }

  function GroupedPaths(traits: seq<PathTraits>): seq<(SurfaceGroup, seq<string>)> {
    Grouping.Chain(SURFACE_GROUP_ORDER, IfAny(traits))
  }

  function FirstParts(grouped: seq<(SurfaceGroup, seq<string>)>): (r: seq<SurfaceGroup>)
    ensures |r| == |grouped| && forall i :: 0 <= i < |r| ==> r[i] == grouped[i].0
  {
    seq(|grouped|, i requires 0 <= i < |grouped| => grouped[i].0)
  }

  function SurfaceGroups(traits: seq<PathTraits>): seq<SurfaceGroup> {
    FirstParts(GroupedPaths(traits))
  }

  /** Paths by group in the fixed order, review domains in order of first need, and the
      paths of no group. */
  function ReportOf(traits: seq<PathTraits>): SurfaceReport {
    SurfaceReport(Names(traits), GroupedPaths(traits), SurfaceGroups(traits),
      Grouping.FirstSeen(Grouping.Chain(traits, DomainsOf()), Itself()),
      Names(Grouping.Filter(traits, IsUnmapped())))
  }

  lemma PathsInAny(traits: seq<PathTraits>, group: SurfaceGroup)
    ensures PathsIn(traits, group) != [] <==> InGroup(traits, group)
  {
    var inside := Grouping.Filter(traits, Touches(group));
    if t :| t in traits && group in t.groups {
      Grouping.FilterMembers(traits, Touches(group), t);
    }
    if inside != [] {
      Grouping.FilterMembers(traits, Touches(group), inside[0]);
    }
  }

  lemma GroupedExactly(traits: seq<PathTraits>, group: SurfaceGroup, paths: seq<string>)
    ensures (group, paths) in GroupedPaths(traits) <==> paths == PathsIn(traits, group) && paths != []
  {
    InOrder(group);
    Grouping.ChainMembers(SURFACE_GROUP_ORDER, IfAny(traits), (group, paths));
    if paths == PathsIn(traits, group) && paths != [] {
      assert (group, paths) in IfAny(traits)(group);
    }
  }

  /** A group is reported exactly when some path is in it. */
  lemma GroupReported(traits: seq<PathTraits>, group: SurfaceGroup)
    ensures group in SurfaceGroups(traits) <==> InGroup(traits, group)
  {
    var grouped := GroupedPaths(traits);
    PathsInAny(traits, group);
    GroupedExactly(traits, group, PathsIn(traits, group));
    if i :| 0 <= i < |grouped| && grouped[i].0 == group {
      assert grouped[i] == (group, grouped[i].1) && grouped[i] in grouped;
      GroupedExactly(traits, group, grouped[i].1);
    }
    if i :| 0 <= i < |grouped| && grouped[i] == (group, PathsIn(traits, group)) {
      assert SurfaceGroups(traits)[i] == group;
    }
  }

  lemma InOrder(group: SurfaceGroup)
    ensures group in SURFACE_GROUP_ORDER
  {
    assert SURFACE_GROUP_ORDER[0] == HumanDocs && SURFACE_GROUP_ORDER[1] == ControlPlaneText
        && SURFACE_GROUP_ORDER[2] == RepoCodeOrTooling && SURFACE_GROUP_ORDER[3] == CiOrRelease;
  }

  /** The paths gathered so far, by group. */
  ghost predicate Gathered(traits: seq<PathTraits>, byGroup: map<SurfaceGroup, seq<string>>) {
    forall g: SurfaceGroup :: g in byGroup && byGroup[g] == PathsIn(traits, g)
  }

  function WithPath(byGroup: map<SurfaceGroup, seq<string>>, t: PathTraits): map<SurfaceGroup, seq<string>> {
    map g: SurfaceGroup | g in byGroup :: if g in t.groups then byGroup[g] + [t.path] else byGroup[g]
  }

  lemma GatheredOneMore(traits: seq<PathTraits>, byGroup: map<SurfaceGroup, seq<string>>, t: PathTraits)
    requires Gathered(traits, byGroup)
    ensures Gathered(traits + [t], WithPath(byGroup, t))
    ensures t.groups == {} ==> WithPath(byGroup, t) == byGroup
  {
    forall g: SurfaceGroup ensures PathsIn(traits + [t], g) == if g in t.groups then PathsIn(traits, g) + [t.path] else PathsIn(traits, g) {
      Grouping.FilterOneMore(traits, t, Touches(g));
    }
  }

  /** Adds the path to the lists of its groups. */
  method AddToGroups(byGroup: map<SurfaceGroup, seq<string>>, t: PathTraits) returns (grown: map<SurfaceGroup, seq<string>>)
    requires forall g: SurfaceGroup :: g in byGroup
    ensures grown == WithPath(byGroup, t)
  {
    grown := byGroup;
    var groups := GroupsOf(t);
    GroupsListed(t);
    for i := 0 to |groups|
      invariant forall g: SurfaceGroup :: g in grown && grown[g] == if g in groups[..i] then byGroup[g] + [t.path] else byGroup[g]
    {
      assert groups[i] !in groups[..i];
      grown := grown[groups[i] := grown[groups[i]] + [t.path]];
    }
    assert groups[..|groups|] == groups;
  }

  lemma GroupsListed(t: PathTraits)
    ensures Sequences.NoRepeats(GroupsOf(t)) && forall g :: g in GroupsOf(t) <==> g in t.groups
  {
    var keep := (g: SurfaceGroup) => g in t.groups;
    forall g ensures g in GroupsOf(t) <==> g in t.groups {
      InOrder(g);
      Grouping.FilterMembers(SURFACE_GROUP_ORDER, keep, g);
    }
    Grouping.FilterNoRepeats(SURFACE_GROUP_ORDER, keep);
  }

  /** Appends the domains not yet listed. */
  method AddDomains(ghost before: seq<string>, listed: seq<string>, domains: seq<string>) returns (grown: seq<string>)
    requires listed == Grouping.FirstSeen(before, Itself())
    ensures grown == Grouping.FirstSeen(before + domains, Itself())
  {
    grown := listed;
    ghost var done := before;
    for i := 0 to |domains|
      invariant done == before + domains[..i] && grown == Grouping.FirstSeen(done, Itself())
    {
      Grouping.FirstSeenOneMore(done, domains[i], Itself());
      assert before + domains[..i + 1] == (before + domains[..i]) + [domains[i]];
      done := done + [domains[i]];
      if domains[i] !in grown {
        grown := grown + [domains[i]];
      }
    }
    assert domains[..|domains|] == domains;
  }

  method AddDomainsOf(ghost done: seq<PathTraits>, listed: seq<string>, t: PathTraits) returns (grown: seq<string>)
    requires listed == Grouping.FirstSeen(Grouping.Chain(done, DomainsOf()), Itself())
    ensures grown == Grouping.FirstSeen(Grouping.Chain(done + [t], DomainsOf()), Itself())
  {
    Grouping.ChainOneMore(done, t, DomainsOf());
    grown := AddDomains(Grouping.Chain(done, DomainsOf()), listed, Grouping.Chain(GroupsOf(t), ReviewDomains));
  }

  /** The pass over the changed paths. */
  ghost predicate Scanned(traits: seq<PathTraits>, byGroup: map<SurfaceGroup, seq<string>>, domains: seq<string>, unmapped: seq<string>) {
    && Gathered(traits, byGroup)
    && domains == Grouping.FirstSeen(Grouping.Chain(traits, DomainsOf()), Itself())
    && unmapped == Names(Grouping.Filter(traits, IsUnmapped()))
  }

  lemma UnmappedOneMore(traits: seq<PathTraits>, t: PathTraits)
    ensures Names(Grouping.Filter(traits + [t], IsUnmapped()))
         == Names(Grouping.Filter(traits, IsUnmapped())) + if t.groups == {} then [t.path] else []
  {
    Grouping.FilterOneMore(traits, t, IsUnmapped());
  }

  lemma SomeMember<T(!new)>(s: seq<T>)
    ensures s != [] ==> exists x :: x in s
  {
    if s != [] { assert s[0] in s; }
  }

  lemma NoGroupsNoDomains(t: PathTraits)
    requires t.groups == {}
    ensures DomainsOf()(t) == []
  {
    GroupsListed(t);
    SomeMember(GroupsOf(t));
  }

  method ScanPath(ghost done: seq<PathTraits>, byGroup: map<SurfaceGroup, seq<string>>, domains: seq<string>, unmapped: seq<string>,
                  t: PathTraits)
    returns (moreGroups: map<SurfaceGroup, seq<string>>, moreDomains: seq<string>, moreUnmapped: seq<string>)
    requires Scanned(done, byGroup, domains, unmapped)
    ensures Scanned(done + [t], moreGroups, moreDomains, moreUnmapped)
  {
    GatheredOneMore(done, byGroup, t);
    UnmappedOneMore(done, t);
    if t.groups == {} {
      NoGroupsNoDomains(t);
      Grouping.ChainOneMore(done, t, DomainsOf());
      assert Grouping.Chain(done, DomainsOf()) + [] == Grouping.Chain(done, DomainsOf());
      return byGroup, domains, unmapped + [t.path];
    }
    moreGroups := AddToGroups(byGroup, t);
    moreDomains := AddDomainsOf(done, domains, t);
    moreUnmapped := unmapped;
  }

  const NO_PATHS: map<SurfaceGroup, seq<string>> := map g: SurfaceGroup | true :: []

  lemma NothingScanned()
    ensures Scanned([], NO_PATHS, [], [])
  {
  }

  method ScanAll(traits: seq<PathTraits>)
    returns (byGroup: map<SurfaceGroup, seq<string>>, domains: seq<string>, unmapped: seq<string>)
    ensures Scanned(traits, byGroup, domains, unmapped)
  {
    byGroup, domains, unmapped := NO_PATHS, [], [];
    NothingScanned();
    ghost var done: seq<PathTraits> := [];
    for i := 0 to |traits|
      invariant done == traits[..i] && Scanned(done, byGroup, domains, unmapped)
    {
      byGroup, domains, unmapped := ScanPath(done, byGroup, domains, unmapped, traits[i]);
      Sequences.TakenOneMore(traits, i, done);
      done := done + [traits[i]];
    }
    Sequences.TakenAll(traits, done);
  }

  method ClassifyChangedPaths(traits: seq<PathTraits>) returns (report: SurfaceReport)
    ensures report == ReportOf(traits)
  {
    var byGroup, domains, unmapped := ScanAll(traits);
    var grouped: seq<(SurfaceGroup, seq<string>)> := [];
    for i := 0 to |SURFACE_GROUP_ORDER|
      invariant grouped == Grouping.Chain(SURFACE_GROUP_ORDER[..i], IfAny(traits))
    {
      var group := SURFACE_GROUP_ORDER[i];
      Grouping.ChainOneMore(SURFACE_GROUP_ORDER[..i], group, IfAny(traits));
      assert SURFACE_GROUP_ORDER[..i + 1] == SURFACE_GROUP_ORDER[..i] + [group];
      if byGroup[group] != [] {
        grouped := grouped + [(group, byGroup[group])];
      }
    }
    assert SURFACE_GROUP_ORDER[..|SURFACE_GROUP_ORDER|] == SURFACE_GROUP_ORDER;
    report := SurfaceReport(Names(traits), grouped, FirstParts(grouped), domains, unmapped);
  }

  // ----- the planner -----

  method PathTargetedCheckIds(t: PathTraits) returns (targeted: set<CheckId>)
    ensures forall id :: id in targeted <==> AsksFor(t, id) && (id == DocsAudit ==> t.claudeCommand || t.docsAuditSubstrate)
                                             && id !in {Markdownlint, Actionlint}
  {
    targeted := t.exactChecks * EXACT_GROUP_IDS;
    targeted := targeted + When(t.agentSkill, {RepoAgentSkills}) + When(t.standardsGuard, {StandardsGuards});
    targeted := targeted + When(t.claudeCommand, {DocsAudit}) + When(t.guardrailsAudit, {DeliveryGuardrailsAudit});
    targeted := targeted + When(t.targetNaming, {TargetNaming}) + When(t.docsAuditSubstrate, {DocsAudit});
    targeted := targeted + When(t.ciTooling, {CiTooling});
  }

  method UpdateSelectedChecksForPath(before: set<CheckId>, t: PathTraits) returns (selected: set<CheckId>)
    ensures forall id :: id in selected <==> id in before || AsksFor(t, id)
  {
    selected := before;
    if t.markdown { selected := selected + {Markdownlint}; }
    if t.docsAuditMarkdown { selected := selected + {DocsAudit}; }
    if t.workflow { selected := selected + {Actionlint}; }
    var targeted := PathTargetedCheckIds(t);
    selected := selected + targeted;
  }

  /** The pass over the changed paths: what they select and which flags they raise. */
  method ScanPaths(traits: seq<PathTraits>)
    returns (selected: set<CheckId>, hasProductionCode: bool, hasPackagingSensitive: bool, hasSharedSubstrate: bool)
    ensures forall id :: id in selected <==> SomePathAsksFor(traits, id)
    ensures hasProductionCode <==> exists t :: t in traits && t.productionCode
    ensures hasPackagingSensitive <==> exists t :: t in traits && t.packagingSensitive
    ensures hasSharedSubstrate <==> exists t :: t in traits && t.sharedSubstrate
  {
    selected, hasProductionCode, hasPackagingSensitive, hasSharedSubstrate := {}, false, false, false;
    for i := 0 to |traits|
      invariant forall id :: id in selected <==> SomePathAsksFor(traits[..i], id)
      invariant hasProductionCode <==> exists t :: t in traits[..i] && t.productionCode
      invariant hasPackagingSensitive <==> exists t :: t in traits[..i] && t.packagingSensitive
      invariant hasSharedSubstrate <==> exists t :: t in traits[..i] && t.sharedSubstrate
    {
      assert forall t :: t in traits[..i + 1] <==> t in traits[..i] || t == traits[i];
      selected := UpdateSelectedChecksForPath(selected, traits[i]);
      if traits[i].packagingSensitive { hasPackagingSensitive := true; }
      if traits[i].productionCode { hasProductionCode := true; }
      if traits[i].sharedSubstrate { hasSharedSubstrate := true; }
    }
    assert traits[..|traits|] == traits;
  }

  /** The planned selection from what the paths select and the flags they raise. */
  method AddGroupChecks(pathChecks: set<CheckId>, docs: bool, quality: bool, ci: bool, packaging: bool, production: bool)
    returns (selected: set<CheckId>)
    requires PytestFull !in pathChecks
    ensures forall id :: id in selected <==>
              || id in pathChecks || (docs && id == DocsMaintenance) || (quality && id in FULL_QUALITY_CHECK_IDS)
              || (ci && id == CiTooling) || (packaging && id in {Build, VerifyWheel})
              || (quality && production && id == CoverageHotspots)
  {
    selected := pathChecks;
    if docs {
      selected := selected + {DocsMaintenance};
    }
    if quality {
      selected := selected + FULL_QUALITY_CHECK_IDS;
    }
    if ci {
      selected := selected + {CiTooling};
    }
    if packaging {
      selected := selected + {Build, VerifyWheel};
    }
    if PytestFull in selected && production {
      selected := selected + {CoverageHotspots};
    }
  }

  lemma SelectsByFlags(traits: seq<PathTraits>, id: CheckId)
    ensures Selects(traits, id) <==>
              || SomePathAsksFor(traits, id)
              || ((InGroup(traits, HumanDocs) || InGroup(traits, ControlPlaneText)) && id == DocsMaintenance)
              || (NeedsFullQuality(traits) && id in FULL_QUALITY_CHECK_IDS)
              || (InGroup(traits, CiOrRelease) && id == CiTooling)
              || (((exists t :: t in traits && t.packagingSensitive) || (exists t :: t in traits && t.sharedSubstrate))
                  && id in {Build, VerifyWheel})
              || (NeedsFullQuality(traits) && (exists t :: t in traits && t.productionCode) && id == CoverageHotspots)
  {
  }

  lemma NoPathAsksForFullTests(traits: seq<PathTraits>)
    ensures !SomePathAsksFor(traits, PytestFull)
  {
  }

  method PlannedCheckIds(traits: seq<PathTraits>, surfaceGroups: seq<SurfaceGroup>) returns (selected: set<CheckId>)
    requires surfaceGroups == SurfaceGroups(traits)
    ensures forall id :: id in selected <==> Selects(traits, id)
  {
    forall g ensures g in surfaceGroups <==> InGroup(traits, g) {
      GroupReported(traits, g);
    }
    var docs := HumanDocs in surfaceGroups || ControlPlaneText in surfaceGroups;
    var pathChecks, hasProductionCode, hasPackagingSensitive, hasSharedSubstrate := ScanPaths(traits);
    NoPathAsksForFullTests(traits);
    selected := AddGroupChecks(pathChecks, docs, RepoCodeOrTooling in surfaceGroups || hasSharedSubstrate,
                               CiOrRelease in surfaceGroups, hasPackagingSensitive || hasSharedSubstrate, hasProductionCode);
    forall id ensures id in selected <==> Selects(traits, id) {
      SelectsByFlags(traits, id);
    }
  }

  function IsBlocking(): CheckId -> bool {
    (id: CheckId) => SpecOf(id).blocking
  }

  function IsNonblocking(): CheckId -> bool {
    (id: CheckId) => !SpecOf(id).blocking
  }

  /** The candidates before dominance, by trigger and mode. */
  method SelectedCheckIds(traits: seq<PathTraits>, surfaceGroups: seq<SurfaceGroup>, trigger: Trigger, mode: Mode)
    returns (selected: set<CheckId>)
    requires surfaceGroups == SurfaceGroups(traits)
    ensures selected == Candidates(traits, trigger, mode)
  {
    if trigger == PullRequest && mode == Full {
      return FULL_PR_CHECK_IDS;
    }
    selected := PlannedCheckIds(traits, surfaceGroups);
    if trigger == PullRequest {
      selected := selected + PLANNED_PR_CHECK_IDS;
    }
    if mode == Full {
      selected := FULL_LOCAL_CHECK_IDS;
    }
  }

  method BuildVerificationPlan(traits: seq<PathTraits>, trigger: Trigger, mode: Mode) returns (plan: VerificationPlan)
    ensures plan.surfaceReport == ReportOf(traits)
    ensures var survivors := Survivors(traits, trigger, mode);
            && plan.selectedCheckIds == Ordered(CHECK_ORDER, survivors.selected)
            && plan.suppressedChecks == survivors.suppressed
    ensures plan.blockingCheckIds == Grouping.Filter(plan.selectedCheckIds, IsBlocking())
    ensures plan.nonblockingCheckIds == Grouping.Filter(plan.selectedCheckIds, IsNonblocking())
    ensures forall id :: id in plan.blockingCheckIds <==> id in plan.selectedCheckIds && id != CoverageHotspots
    ensures forall id :: id in plan.nonblockingCheckIds <==> id in plan.selectedCheckIds && id == CoverageHotspots
  {
    var report := ClassifyChangedPaths(traits);
    var selected := SelectedCheckIds(traits, report.surfaceGroups, trigger, mode);
    var result := ApplyDominance(CHECK_SPECS, CHECK_ORDER, selected);
    var ordered := Ordered(CHECK_ORDER, result.selected);
    plan := VerificationPlan(report, ordered, Grouping.Filter(ordered, IsBlocking()), Grouping.Filter(ordered, IsNonblocking()),
                             result.suppressed);
    forall id
      ensures id in plan.blockingCheckIds <==> id in ordered && id != CoverageHotspots
      ensures id in plan.nonblockingCheckIds <==> id in ordered && id == CoverageHotspots
    {
      BlockingOrNot(ordered, id);
    }
  }

  /** The coverage report alone is nonblocking. */
  lemma BlockingOrNot(ids: seq<CheckId>, id: CheckId)
    ensures id in Grouping.Filter(ids, IsBlocking()) <==> id in ids && id != CoverageHotspots
    ensures id in Grouping.Filter(ids, IsNonblocking()) <==> id in ids && id == CoverageHotspots
  {
    Grouping.FilterMembers(ids, IsBlocking(), id);
    Grouping.FilterMembers(ids, IsNonblocking(), id);
    CatalogShape(id);
  }
}
