/** What every plan the planner builds guarantees to the executor. */
module ReviewPlans {
  import opened Wrappers
  import opened Sequences
  import Grouping
  import opened CheckSpecs
  import opened ReviewCatalog
  import opened Dominance
  import opened Settlement
  import opened FailureCauses
  import opened SchedulingInvariants
  import opened Scheduling
  import opened Executor
  import opened OrderedPlans
  import opened Policy

  ghost function PlanOf(traits: seq<PathTraits>, trigger: Trigger, mode: Mode): seq<CheckId> {
    Ordered(CHECK_ORDER, Survivors(traits, trigger, mode).selected)
  }

  lemma OrderKeepsAll(ids: set<CheckId>)
    ensures forall id: CheckId :: id in Ordered(CHECK_ORDER, ids) <==> id in ids
  {
    OrderIsComplete();
  }

  lemma DominanceFits()
    ensures Irreflexive(CHECK_SPECS)
    ensures forall id :: id in CHECK_SPECS && id != PytestFull ==> CHECK_SPECS[id].dominanceIds == []
    ensures CHECK_SPECS[PytestFull].dominanceIds == TARGETED_SUBSET_TEST_IDS
  {
    forall id: CheckId ensures id !in SpecOf(id).dominanceIds && (id != PytestFull ==> SpecOf(id).dominanceIds == []) {
      OnlyFullTestsDominate(id);
    }
  }

  /** A candidate survives unless it is a targeted subset test beside the full test run. */
  lemma Survives(candidates: set<CheckId>, id: CheckId)
    ensures id in Dominate(CHECK_SPECS, CHECK_ORDER, candidates).selected <==>
              id in candidates && !(id in TARGETED_SUBSET_TEST_IDS && PytestFull in candidates)
  {
    OrderIsComplete();
    DominanceFits();
    SingleDominator(CHECK_SPECS, CHECK_ORDER, candidates, PytestFull);
  }

  /** With the real catalog, dominance removes exactly the targeted subset tests, and only
      in favour of a full test run that stays selected. */
  lemma SurvivorsExactly(traits: seq<PathTraits>, trigger: Trigger, mode: Mode, id: CheckId)
    ensures id in PlanOf(traits, trigger, mode) <==>
              && id in Candidates(traits, trigger, mode)
              && !(id in TARGETED_SUBSET_TEST_IDS && PytestFull in Candidates(traits, trigger, mode))
  {
    Survives(Candidates(traits, trigger, mode), id);
    OrderKeepsAll(Survivors(traits, trigger, mode).selected);
  }

  lemma OrderAscends()
    ensures Ascending(RANK, CHECK_ORDER)
  {
    OrderIsComplete();
  }

  lemma OrderFits()
    ensures Fits(CHECK_SPECS, CHECK_ORDER, RANK)
  {
    OrderAscends();
    OrderIsComplete();
    forall id, d | d in SpecOf(id).dependencyIds { DependenciesRankLower(id, d); }
  }

  lemma ClosedAfterDominance(candidates: set<CheckId>)
    requires (VerifyWheel in candidates ==> Build in candidates) && (CoverageHotspots in candidates ==> PytestFull in candidates)
    ensures SelfContained(CHECK_SPECS, Dominate(CHECK_SPECS, CHECK_ORDER, candidates).selected)
  {
    var ids := Dominate(CHECK_SPECS, CHECK_ORDER, candidates).selected;
    forall id, d | id in ids && d in SpecOf(id).dependencyIds ensures d in ids {
      CatalogShape(id);
      Survives(candidates, id);
      Survives(candidates, d);
    }
  }

  lemma NoPathAsksFor(traits: seq<PathTraits>, id: CheckId)
    requires id in {Build, VerifyWheel, CoverageHotspots, PytestFull}
    ensures !SomePathAsksFor(traits, id)
  {
  }

  lemma SelectsClosed(traits: seq<PathTraits>)
    ensures Selects(traits, VerifyWheel) ==> Selects(traits, Build)
    ensures Selects(traits, CoverageHotspots) ==> Selects(traits, PytestFull)
  {
    NoPathAsksFor(traits, VerifyWheel);
    NoPathAsksFor(traits, CoverageHotspots);
  }

  lemma CandidatesClosed(traits: seq<PathTraits>, trigger: Trigger, mode: Mode)
    ensures VerifyWheel in Candidates(traits, trigger, mode) ==> Build in Candidates(traits, trigger, mode)
    ensures CoverageHotspots in Candidates(traits, trigger, mode) ==> PytestFull in Candidates(traits, trigger, mode)
  {
    if mode == Planned {
      SelectsClosed(traits);
    }
  }

  /** Every built plan is duplicate-free, dependency-closed after dominance, acyclic, and
      lists every dependency before its dependents. */
  lemma PlanIsExecutable(traits: seq<PathTraits>, trigger: Trigger, mode: Mode)
    ensures var plan := PlanOf(traits, trigger, mode);
            NoRepeats(plan) && Ranked(CHECK_SPECS, plan, RANK) && Topological(CHECK_SPECS, plan)
  {
    CandidatesClosed(traits, trigger, mode);
    ClosedAfterDominance(Candidates(traits, trigger, mode));
    OrderFits();
    OrderedIsExecutable(CHECK_SPECS, RANK, CHECK_ORDER, Survivors(traits, trigger, mode).selected);
  }

  function PlanSetup(plan: seq<CheckId>, failing: set<CheckId>): Setup<CheckId> {
    Setup(CHECK_SPECS, plan, failing)
  }

  /** Some selected blocking check waits, directly or not, for a check whose command fails,
      or its own command does. */
  ghost predicate ReviewFails(plan: seq<CheckId>, failing: set<CheckId>) {
    exists id :: id in plan && SpecOf(id).blocking && ReachesFailing(CHECK_SPECS, failing, id)
  }

  /** Only the coverage report does not block. So a closed plan fails exactly when the command
      of one of its other checks does. */
  lemma FailsByAnyOther(plan: seq<CheckId>, failing: set<CheckId>)
    requires Ranked(CHECK_SPECS, plan, RANK)
    ensures ReviewFails(plan, failing) <==> exists id :: id in plan && id in failing && id != CoverageHotspots
  {
    if id :| id in plan && id in failing && id != CoverageHotspots {
      CatalogShape(id);
      ReachesItself(CHECK_SPECS, id);
    }
    if id :| id in plan && SpecOf(id).blocking && ReachesFailing(CHECK_SPECS, failing, id) {
      var to :| to in failing && Reaches(CHECK_SPECS, id, to);
      CatalogShape(id);
      ReachesWithin(plan, id, to);
    }
  }

  /** A check other than the coverage report waits for nothing but checks of the plan that
      are not the coverage report either. */
  lemma ReachesWithin(plan: seq<CheckId>, id: CheckId, to: CheckId)
    requires Ranked(CHECK_SPECS, plan, RANK) && id in plan && id != CoverageHotspots && Reaches(CHECK_SPECS, id, to)
    ensures to in plan && to != CoverageHotspots
    decreases RANK[id]
  {
    if to != id {
      FirstStep(CHECK_SPECS, id, to);
      var d :| d in CHECK_SPECS[id].dependencyIds && Reaches(CHECK_SPECS, d, to);
      CatalogShape(id);
      ReachesWithin(plan, d, to);
    }
  }

  lemma NeverStuck(plan: seq<CheckId>, failing: set<CheckId>)
    requires Ranked(CHECK_SPECS, plan, RANK)
    ensures forall id :: id in plan ==> !Unsettled(PlanSetup(plan, failing), id)
  {
    forall id | id in plan ensures !Unsettled(PlanSetup(plan, failing), id) {
      RankedNeverStuck(PlanSetup(plan, failing), RANK, id);
    }
  }

  /** Runs a built plan: it always finishes, keeps everything a run keeps, and fails exactly
      when some selected blocking check does. */
  method RunBuiltPlan(plan: seq<CheckId>, failing: set<CheckId>, failFast: bool, parallel: bool)
    returns (results: seq<CheckResult<CheckId>>, failed: bool, ghost lastBatch: nat, ghost ran: nat)
    requires Ranked(CHECK_SPECS, plan, RANK)
    ensures RunKeeps(PlanSetup(plan, failing), failFast, parallel, results, lastBatch, ran)
    ensures failed <==> ReviewFails(plan, failing)
  {
    var s := PlanSetup(plan, failing);
    NeverStuck(plan, failing);
    var run;
    run, lastBatch, ran := RunPlan(s, failFast, parallel);
    results := run.results;
    VerdictOfRun(s, failFast, parallel, results, lastBatch, ran);
    PlanFailsByCauses(s);
    IdsMember(results);
    forall r | r in results ensures r.checkId in CHECK_SPECS { assert r.checkId in Ids(results); }
    failed := HasBlockingFailures(CHECK_SPECS, results);
  }

  /** Planning a diff and running the plan: one result per selected check, in plan order when
      serial, cut short only by fail-fast, and without it each with its recursive verdict. */
  method ReviewChanges(traits: seq<PathTraits>, trigger: Trigger, mode: Mode, failing: set<CheckId>,
                       failFast: bool, parallel: bool)
    returns (plan: VerificationPlan, results: seq<CheckResult<CheckId>>, failed: bool, ghost lastBatch: nat, ghost ran: nat)
    ensures plan.surfaceReport == ReportOf(traits) && plan.selectedCheckIds == PlanOf(traits, trigger, mode)
    ensures Ranked(CHECK_SPECS, plan.selectedCheckIds, RANK)
    ensures RunKeeps(PlanSetup(plan.selectedCheckIds, failing), failFast, parallel, results, lastBatch, ran)
    ensures multiset(Ids(results)) == multiset(plan.selectedCheckIds)
    ensures !parallel ==> ExecutedInPlanOrder(plan.selectedCheckIds, results)
    ensures !failFast ==> forall r :: r in results ==>
              && r.checkId in plan.selectedCheckIds
              && r.status == Verdict(PlanSetup(plan.selectedCheckIds, failing), RANK, r.checkId)
              && Explained(CHECK_SPECS, failing, r.checkId, r.status)
    ensures failed <==> ReviewFails(plan.selectedCheckIds, failing)
  {
    plan := BuildVerificationPlan(traits, trigger, mode);
    PlanIsExecutable(traits, trigger, mode);
    results, failed, lastBatch, ran := RunBuiltPlan(plan.selectedCheckIds, failing, failFast, parallel);
    SameMembersRearranged(Ids(results), plan.selectedCheckIds);
    if !failFast {
      ScheduleIndependence(PlanSetup(plan.selectedCheckIds, failing), RANK, parallel, results, lastBatch, ran);
      forall r | r in results ensures Explained(CHECK_SPECS, failing, r.checkId, r.status) {
        VerdictSettles(PlanSetup(plan.selectedCheckIds, failing), RANK, r.checkId);
        SettledIsExplained(PlanSetup(plan.selectedCheckIds, failing), r.checkId, r.status);
      }
    }
  }

  /** Whether a mapped path is among those changed. */
  ghost predicate SomeMapped(traits: seq<PathTraits>) {
    exists t :: t in traits && t.groups != {}
  }

  lemma MappedSelects(traits: seq<PathTraits>)
    requires SomeMapped(traits)
    ensures Selects(traits, PytestFull) || Selects(traits, DocsMaintenance) || Selects(traits, CiTooling)
  {
    var t :| t in traits && t.groups != {};
    AnyGroup(t);
    assert InGroup(traits, HumanDocs) || InGroup(traits, ControlPlaneText) || InGroup(traits, RepoCodeOrTooling) || InGroup(traits, CiOrRelease);
  }

  lemma SelectedIsCandidate(traits: seq<PathTraits>, trigger: Trigger, id: CheckId)
    requires Selects(traits, id)
    ensures id in Candidates(traits, trigger, Planned)
  {
    var selected := set other: CheckId | Selects(traits, other);
    assert id in selected;
    assert Candidates(traits, trigger, Planned) == selected + When(trigger == PullRequest, PLANNED_PR_CHECK_IDS);
  }

  lemma FullRunsTests(traits: seq<PathTraits>, trigger: Trigger)
    ensures PytestFull in Candidates(traits, trigger, Full)
  {
  }

  lemma MappedCandidate(traits: seq<PathTraits>, trigger: Trigger, mode: Mode) returns (id: CheckId)
    requires SomeMapped(traits)
    ensures id in {PytestFull, DocsMaintenance, CiTooling} && id in Candidates(traits, trigger, mode)
  {
    if mode == Full {
      id := PytestFull;
      FullRunsTests(traits, trigger);
    } else {
      MappedSelects(traits);
      id := if Selects(traits, PytestFull) then PytestFull else if Selects(traits, DocsMaintenance) then DocsMaintenance else CiTooling;
      SelectedIsCandidate(traits, trigger, id);
    }
  }

  /** Changes to mapped paths are never waved through: some check is selected. */
  lemma MappedChangesAreChecked(traits: seq<PathTraits>, trigger: Trigger, mode: Mode)
    requires SomeMapped(traits)
    ensures PlanOf(traits, trigger, mode) != []
  {
    var id := MappedCandidate(traits, trigger, mode);
    SurvivorsExactly(traits, trigger, mode, id);
    SurvivorsExactly(traits, trigger, mode, PytestFull);
  }

  lemma AnyGroup(t: PathTraits)
    requires t.groups != {}
    ensures HumanDocs in t.groups || ControlPlaneText in t.groups || RepoCodeOrTooling in t.groups || CiOrRelease in t.groups
  {
    var g :| g in t.groups;
    assert g == HumanDocs || g == ControlPlaneText || g == RepoCodeOrTooling || g == CiOrRelease;
  }

  lemma UnmappedExactly(traits: seq<PathTraits>)
    ensures ReportOf(traits).unmappedPaths == [] <==> forall t :: t in traits ==> t.groups != {}
  {
    var unmapped := Grouping.Filter(traits, IsUnmapped());
    if t :| t in traits && t.groups == {} {
      Grouping.FilterMembers(traits, IsUnmapped(), t);
    }
    if unmapped != [] {
      Grouping.FilterMembers(traits, IsUnmapped(), unmapped[0]);
    }
  }

  /** The review command: 2 for a half-given diff range, 1 for unmapped paths, 0 for an empty
      diff, the status of a failed autofix, and otherwise 1 exactly when a selected blocking
      check does not pass. Only then are checks run, and then at least one is selected. */
  method ReviewCommand(baseGiven: bool, headGiven: bool, traits: seq<PathTraits>, trigger: Trigger, mode: Mode,
                       autofix: Option<int>, failing: set<CheckId>, failFast: bool)
    returns (exit: int, results: Option<seq<CheckResult<CheckId>>>)
    ensures baseGiven != headGiven ==> exit == 2 && results == None
    ensures baseGiven == headGiven && (exists t :: t in traits && t.groups == {}) ==> exit == 1 && results == None
    ensures baseGiven == headGiven && traits == [] ==> exit == 0 && results == None
    ensures baseGiven == headGiven && traits != [] && (forall t :: t in traits ==> t.groups != {}) ==>
              if autofix.Some? && autofix.value != 0 then exit == autofix.value && results == None
              else
                && PlanOf(traits, trigger, mode) != [] && Ranked(CHECK_SPECS, PlanOf(traits, trigger, mode), RANK)
                && results.Some? && multiset(Ids(results.value)) == multiset(PlanOf(traits, trigger, mode))
                && exit == (if ReviewFails(PlanOf(traits, trigger, mode), failing) then 1 else 0)
                && (exit == 1 <==> exists id :: id in PlanOf(traits, trigger, mode) && id in failing && id != CoverageHotspots)
  {
    if baseGiven != headGiven {
      return 2, None;
    }
    var plan := BuildVerificationPlan(traits, trigger, mode);
    PlanIsExecutable(traits, trigger, mode);
    UnmappedExactly(traits);
    if plan.surfaceReport.unmappedPaths != [] {
      return 1, None;
    }
    if plan.surfaceReport.changedPaths == [] {
      return 0, None;
    }
    assert traits[0] in traits;
    MappedChangesAreChecked(traits, trigger, mode);
    if autofix.Some? && autofix.value != 0 {
      return autofix.value, None;
    }
    var done, failed; ghost var lastBatch, ran;
    done, failed, lastBatch, ran := RunBuiltPlan(plan.selectedCheckIds, failing, failFast, false);
    SameMembersRearranged(Ids(done), plan.selectedCheckIds);
    FailsByAnyOther(plan.selectedCheckIds, failing);
    return if failed then 1 else 0, Some(done);
  }

  lemma PlanFailsByCauses(s: Setup<CheckId>)
    requires s.catalog == CHECK_SPECS && InCatalog(s) && Ranked(s.catalog, s.plan, RANK)
    ensures PlanFails(s) <==> ReviewFails(s.plan, s.failing)
  {
    forall id | id in s.plan
      ensures (Settles(s, id, Failed) || Settles(s, id, Blocked)) <==> ReachesFailing(CHECK_SPECS, s.failing, id)
    {
      VerdictSettles(s, RANK, id);
      SettledIsExplained(s, id, Verdict(s, RANK, id));
      forall status | Settles(s, id, status) ensures status == Verdict(s, RANK, id) {
        SettlesOnce(s, id, status, Verdict(s, RANK, id));
      }
    }
  }

  /** A larger diff never loses a check, except to a selected check that dominates it. */
  lemma GrowingDiffKeepsChecks(small: seq<PathTraits>, large: seq<PathTraits>, trigger: Trigger, mode: Mode, id: CheckId)
    requires forall t :: t in small ==> t in large
    requires id in PlanOf(small, trigger, mode)
    ensures || id in PlanOf(large, trigger, mode)
            || exists dom :: dom in PlanOf(large, trigger, mode) && id in SpecOf(dom).dominanceIds
  {
    CandidatesGrow(small, large, trigger, mode);
    GrowingSelection(Candidates(small, trigger, mode), Candidates(large, trigger, mode), id);
  }

  lemma GrowingSelection(small: set<CheckId>, large: set<CheckId>, id: CheckId)
    requires small <= large
    requires id in Ordered(CHECK_ORDER, Dominate(CHECK_SPECS, CHECK_ORDER, small).selected)
    ensures var plan := Ordered(CHECK_ORDER, Dominate(CHECK_SPECS, CHECK_ORDER, large).selected);
            id in plan || exists dom :: dom in plan && id in SpecOf(dom).dominanceIds
  {
    Survives(small, id);
    Survives(large, id);
    Survives(large, PytestFull);
    OrderKeepsAll(Dominate(CHECK_SPECS, CHECK_ORDER, small).selected);
    OrderKeepsAll(Dominate(CHECK_SPECS, CHECK_ORDER, large).selected);
    assert SpecOf(PytestFull).dominanceIds == TARGETED_SUBSET_TEST_IDS;
  }

  lemma CandidatesGrow(small: seq<PathTraits>, large: seq<PathTraits>, trigger: Trigger, mode: Mode)
    requires forall t :: t in small ==> t in large
    ensures Candidates(small, trigger, mode) <= Candidates(large, trigger, mode)
  {
    forall id | Selects(small, id) ensures Selects(large, id) {}
  }

  /** Listing the same paths in another order, or more than once, changes nothing. */
  lemma SamePathsSamePlan(a: seq<PathTraits>, b: seq<PathTraits>, trigger: Trigger, mode: Mode)
    requires forall t :: t in a <==> t in b
    ensures PlanOf(a, trigger, mode) == PlanOf(b, trigger, mode)
    ensures Survivors(a, trigger, mode) == Survivors(b, trigger, mode)
  {
    forall id: CheckId ensures Selects(a, id) <==> Selects(b, id) {}
    assert Candidates(a, trigger, mode) == Candidates(b, trigger, mode);
  }
}
