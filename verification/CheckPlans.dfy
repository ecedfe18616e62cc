/** The balance check of one source: its plan, the references it resolves, and the cache it leaves. */
module CheckPlans {
  import opened Wrappers
  import opened Ordering
  import opened Grouping
  import opened BalanceModels
  import opened BalanceLedger
  import opened BalanceReferences
  import opened ReferenceCache
  import opened CheckTargets

  /** What is on file for a source; the snapshot rows are absent when their file is. */
  datatype SourceFiles = SourceFiles(facts: seq<Fact>, rows: Option<seq<BalanceSnapshot>>, references: seq<BalanceReference>)

  datatype InputMode = FactBacked | ManualOnly | Empty

  datatype SourceInputs = SourceInputs(mode: InputMode, targets: seq<BalanceTarget>, snapshots: seq<BalanceSnapshot>)

  datatype Plan =
    | NotRunnable
    | NoBalanceTargets
    | Check(targets: seq<BalanceTarget>, snapshots: seq<BalanceSnapshot>, issues: seq<Issue>)

  /** The orders by which a check sorts, its time zone, and the times requested of it. */
  datatype Setup = Setup(
    targetOrder: (BalanceTarget, BalanceTarget) -> bool,
    holdingOrder: (Holding, Holding) -> bool,
    cacheOrder: (CacheKey, CacheKey) -> bool,
    calendar: Calendar,
    request: seq<AsOf>)

  ghost predicate Sound(setup: Setup) {
    TotalOrder(setup.targetOrder) && TotalOrder(setup.holdingOrder) && TotalPreorder(setup.cacheOrder)
  }

  function ModeOf(source: SourceFiles): InputMode {
    if source.facts != [] then FactBacked else if source.rows.Some? then ManualOnly else Empty
  }

  // ----- the targets of a check -----

  function Times(setup: Setup): (r: seq<int>)
    ensures |r| == |setup.request|
  {
    Mapped(setup.request, (v: AsOf) => TimeOf(setup.calendar, v))
  }

  /** The targets on file that the check wants. */
  function OnFile(setup: Setup, references: seq<BalanceReference>): seq<BalanceTarget> {
    ReferenceTargets(setup.targetOrder, setup.calendar, references, setup.request)
  }

  /** The targets the facts give: the latest of each holding, or each holding at each requested time. */
  function FromFacts(setup: Setup, facts: seq<Fact>): seq<BalanceTarget> {
    if setup.request == [] then LatestOf(setup.holdingOrder, facts)
    else TargetsAt(setup.holdingOrder, facts, Times(setup))
  }

  function RowTarget(): BalanceSnapshot -> BalanceTarget {
    (s: BalanceSnapshot) => s.target
  }

  function FromRows(setup: Setup, rows: seq<BalanceSnapshot>): seq<BalanceTarget> {
    var all := Mapped(rows, RowTarget());
    if setup.request == [] then all else Filter(all, AtSomeOf(Times(setup)))
  }

  /** With facts, the targets on file if there are any, else those the facts give; without, those of the rows. */
  function Targets(setup: Setup, source: SourceFiles): seq<BalanceTarget> {
    match ModeOf(source)
    case FactBacked =>
      var filed := OnFile(setup, source.references);
      if filed != [] then filed else FromFacts(setup, source.facts)
    case ManualOnly => FromRows(setup, source.rows.value)
    case Empty => []
  }

  // ----- the plan of a check -----

  function AmongTargets(targets: seq<BalanceTarget>): BalanceSnapshot -> bool {
    (s: BalanceSnapshot) => s.target in targets
  }

  function SnapshotsFor(setup: Setup, source: SourceFiles): seq<BalanceSnapshot> {
    match ModeOf(source)
    case FactBacked => SnapshotsOf(source.facts, Targets(setup, source))
    case ManualOnly =>
      if setup.request == [] then source.rows.value else Filter(source.rows.value, AmongTargets(Targets(setup, source)))
    case Empty => []
  }

  /** Missing facts are reported for requested times, missing coverage for targets on file. */
  function GapsFor(setup: Setup, source: SourceFiles): seq<Issue> {
    if ModeOf(source) != FactBacked then []
    else
      var targets := Targets(setup, source);
      (if setup.request == [] then [] else IssuesWhere(targets, NoFacts(source.facts), MissingFacts))
      + if OnFile(setup, source.references) == [] then [] else IssuesWhere(targets, Uncovered(source.facts), MissingFactCoverage)
  }

  function PlanOf(setup: Setup, source: SourceFiles): Plan {
    if ModeOf(source).Empty? then NotRunnable
    else if setup.request != [] && Targets(setup, source) == [] then NoBalanceTargets
    else Check(Targets(setup, source), SnapshotsFor(setup, source), GapsFor(setup, source))
  }

  /** A gap is reported exactly in these cases, all with facts: of a target at a requested time,
      that its source has none; of a target on file, that none counts towards it. */
  lemma GapsExactly(setup: Setup, source: SourceFiles, issue: Issue)
    ensures issue in GapsFor(setup, source)
            <==> && source.facts != [] && issue.target in Targets(setup, source)
                 && ((issue.kind == MissingFacts && setup.request != [] && forall f :: f in source.facts ==> f.source != issue.target.source)
                     || (issue.kind == MissingFactCoverage && OnFile(setup, source.references) != []
                         && forall e :: e in Entries(source.facts) ==> !IsCounted(issue.target, e)))
  {
    var targets := Targets(setup, source);
    SourcesMatch(source.facts, issue.target.source);
    IssuesWhereExactly(targets, NoFacts(source.facts), MissingFacts, issue);
    IssuesWhereExactly(targets, Uncovered(source.facts), MissingFactCoverage, issue);
    NoneOfSource(source.facts, issue.target.source);
  }

  lemma NoneOfSource(facts: seq<Fact>, name: string)
    ensures OfSource(facts, name) == [] <==> forall f :: f in facts ==> f.source != name
  {
    SourcesMatch(facts, name);
    if OfSource(facts, name) != [] {
      assert OfSource(facts, name)[0] in OfSource(facts, name);
    }
  }

  /** Each snapshot of a check with facts holds the cutoff balance of its target; without facts
      the snapshots are the rows of the targets. */
  lemma SnapshotsExactly(setup: Setup, source: SourceFiles, s: BalanceSnapshot)
    ensures s in SnapshotsFor(setup, source)
            <==> s.target in Targets(setup, source)
                 && if source.facts != [] then s.quantity == CutoffBalance(source.facts, s.target)
                    else source.rows.Some? && s in source.rows.value
  {
    if source.facts != [] {
      SnapshotsMembers(source.facts, Targets(setup, source), s);
    } else if source.rows.Some? {
      RowsMembers(setup, source.rows.value, s);
    }
  }

  lemma {:induction false} SnapshotsMembers(facts: seq<Fact>, targets: seq<BalanceTarget>, s: BalanceSnapshot)
    ensures s in SnapshotsOf(facts, targets) <==> s.target in targets && s.quantity == CutoffBalance(facts, s.target)
  {
    if targets != [] {
      assert targets == targets[..|targets| - 1] + [targets[|targets| - 1]];
      SnapshotsMembers(facts, targets[..|targets| - 1], s);
    }
  }

  lemma RowsMembers(setup: Setup, rows: seq<BalanceSnapshot>, s: BalanceSnapshot)
    ensures s in (if setup.request == [] then rows else Filter(rows, AmongTargets(FromRows(setup, rows))))
            <==> s.target in FromRows(setup, rows) && s in rows
  {
    FilterMembers(rows, AmongTargets(FromRows(setup, rows)), s);
    if s in rows {
      var i :| 0 <= i < |rows| && rows[i] == s;
      assert Mapped(rows, RowTarget())[i] == s.target;
    }
  }

  /** What is wanted of no references, or of all. */
  lemma OnFileExactly(setup: Setup, references: seq<BalanceReference>)
    requires Sound(setup)
    ensures OnFile(setup, references) != []
            <==> exists r :: r in references && Wants(setup.calendar, setup.request, r.target.at)
  {
    ReferenceTargetsExactly(setup.targetOrder, setup.calendar, references, setup.request);
    var filed := OnFile(setup, references);
    if filed != [] {
      assert filed[0] in filed;
    }
    if r :| r in references && Wants(setup.calendar, setup.request, r.target.at) {
      assert r.target in filed;
    }
  }

  /** The inputs of the source as they are read, before any time is requested. */
  ghost predicate InputsOf(setup: Setup, source: SourceFiles, inputs: SourceInputs) {
    && inputs.mode == ModeOf(source)
    && inputs.targets == Targets(setup.(request := []), source)
    && inputs.snapshots == SnapshotsFor(setup.(request := []), source)
  }

  method RowTargets(rows: seq<BalanceSnapshot>) returns (targets: seq<BalanceTarget>)
    ensures targets == Mapped(rows, RowTarget())
  {
    targets := [];
    for i := 0 to |rows|
      invariant targets == Mapped(rows[..i], RowTarget())
    {
      targets := targets + [rows[i].target];
    }
    assert rows[..|rows|] == rows;
  }

  method BuildBalanceSourceInputs(setup: Setup, source: SourceFiles) returns (inputs: SourceInputs)
    requires Sound(setup)
    ensures InputsOf(setup, source, inputs)
  {
    if source.facts != [] {
      var targets;
      if source.references != [] {
        targets := AllReferenceTargets(setup.targetOrder, setup.calendar, source.references);
      } else {
        targets := LatestBalanceTargets(setup.holdingOrder, source.facts);
        LatestTargetsUnique(setup.holdingOrder, source.facts, targets);
      }
      AnyOnFile(setup, source);
      var snapshots, _ := DeriveBalanceSnapshots(source.facts, targets);
      return SourceInputs(FactBacked, targets, snapshots);
    }
    if source.rows.Some? {
      var targets := RowTargets(source.rows.value);
      return SourceInputs(ManualOnly, targets, source.rows.value);
    }
    return SourceInputs(Empty, [], []);
  }

  lemma AnyOnFile(setup: Setup, source: SourceFiles)
    requires Sound(setup)
    ensures OnFile(setup.(request := []), source.references) == [] <==> source.references == []
  {
    OnFileExactly(setup.(request := []), source.references);
    if source.references != [] {
      assert source.references[0] in source.references;
    }
  }

  method FactBackedCheckPlan(setup: Setup, source: SourceFiles) returns (plan: Plan)
    requires Sound(setup) && ModeOf(source).FactBacked? && setup.request != []
    ensures plan == PlanOf(setup, source)
  {
    var filed := SelectReferenceTargets(setup.targetOrder, setup.calendar, source.references, setup.request);
    var targets := filed;
    if filed == [] {
      targets := TargetsForAsOfValues(setup.holdingOrder, source.facts, Times(setup));
    }
    if targets == [] {
      return NoBalanceTargets;
    }
    var snapshots, issues := DeriveBalanceSnapshots(source.facts, targets);
    if filed == [] {
      return Check(targets, snapshots, issues);
    }
    var uncovered := MissingFactCoverageIssues(source.facts, targets);
    return Check(targets, snapshots, issues + uncovered);
  }

  method SnapshotsAmong(rows: seq<BalanceSnapshot>, targets: seq<BalanceTarget>) returns (snapshots: seq<BalanceSnapshot>)
    ensures snapshots == Filter(rows, AmongTargets(targets))
  {
    snapshots := [];
    for i := 0 to |rows|
      invariant snapshots == Filter(rows[..i], AmongTargets(targets))
    {
      assert rows[..i + 1] == rows[..i] + [rows[i]];
      FilterOneMore(rows[..i], rows[i], AmongTargets(targets));
      if rows[i].target in targets {
        snapshots := snapshots + [rows[i]];
      }
    }
    assert rows[..|rows|] == rows;
  }

  /** The plan of a check, from the inputs as they were read. */
  method BuildCheckPlan(setup: Setup, source: SourceFiles, inputs: SourceInputs) returns (plan: Plan)
    requires Sound(setup) && InputsOf(setup, source, inputs)
    ensures plan == PlanOf(setup, source)
  {
    if inputs.mode.Empty? {
      return NotRunnable;
    }
    if setup.request == [] {
      assert setup.(request := []) == setup;
      var issues := [];
      AnyOnFile(setup, source);
      if inputs.mode.FactBacked? && source.references != [] {
        issues := MissingFactCoverageIssues(source.facts, inputs.targets);
      }
      return Check(inputs.targets, inputs.snapshots, issues);
    }
    if inputs.mode.FactBacked? {
      plan := FactBackedCheckPlan(setup, source);
      return;
    }
    var targets := SelectTargetsForRequestedTimes(inputs.targets, Times(setup));
    if targets == [] {
      return NoBalanceTargets;
    }
    var snapshots := SnapshotsAmong(inputs.snapshots, targets);
    return Check(targets, snapshots, []);
  }

  // ----- the check of a source -----

  /** One run: whether it hydrates, and from which providers. */
  datatype Run<!P> = Run(hydrate: bool, providers: Option<Providers<P>>)

  /** The references a run resolves, and the issues the resolver raises. */
  function Resolution<P(==)>(setup: Setup, source: SourceFiles, run: Run<P>): (seq<BalanceReference>, seq<Issue>) {
    Resolved(source.references, Targets(setup, source), run.hydrate, run.providers)
  }

  /** What is on file after a run; a plan without targets touches nothing. */
  function AfterRun<P(==)>(setup: Setup, source: SourceFiles, run: Run<P>): SourceFiles {
    if PlanOf(setup, source).Check?
    then source.(references := Written(setup.cacheOrder, source.references + Resolution(setup, source, run).0))
    else source
  }

  function AfterRuns<P(==)>(setup: Setup, source: SourceFiles, runs: seq<Run<P>>): SourceFiles {
    if runs == [] then source
    else AfterRun(setup, AfterRuns(setup, source, runs[..|runs| - 1]), runs[|runs| - 1])
  }

  /** Plans, resolves and stores; the issues are those of the plan, then those of the resolver. */
  method CheckSource<P(==,!new)>(setup: Setup, source: SourceFiles, run: Run<P>)
    returns (plan: Plan, resolved: seq<BalanceReference>, issues: seq<Issue>, after: SourceFiles)
    requires Sound(setup)
    ensures plan == PlanOf(setup, source) && after == AfterRun(setup, source, run)
    ensures plan.Check? ==> (resolved, issues) == (Resolution(setup, source, run).0, plan.issues + Resolution(setup, source, run).1)
    ensures !plan.Check? ==> resolved == [] && issues == []
  {
    var inputs := BuildBalanceSourceInputs(setup, source);
    plan := BuildCheckPlan(setup, source, inputs);
    if !plan.Check? {
      return plan, [], [], source;
    }
    var found, missing := Resolve(source.references, plan.targets, run.hydrate, run.providers);
    var stored, _ := PersistBalanceReferenceCache(setup.cacheOrder, source.references, found, missing);
    return plan, found, plan.issues + missing, source.(references := stored);
  }
}
