/** Cutoff balances from ledger facts: which targets, which quantities, which gaps. */
module BalanceLedger {
  import opened Sequences
  import opened Ordering
  import opened BalanceModels

  // ----- the ledger as a list of entries -----

  /** One leg with the source, place and time its fact gives it. */
  datatype Entry = Entry(source: string, location: string, instrument: string, at: int, quantity: real)

  datatype Holding = Holding(source: string, location: string, instrument: string)

  function EntryOf(fact: Fact, leg: Leg): Entry {
    Entry(fact.source, if leg.location.Some? && leg.location.value != "" then leg.location.value else fact.location,
          leg.instrument, fact.timestamp, leg.quantity)
  }

  function HoldingOf(e: Entry): Holding {
    Holding(e.source, e.location, e.instrument)
  }

  function LegEntries(fact: Fact, n: nat): seq<Entry>
    requires n <= |fact.legs|
  {
    if n == 0 then [] else LegEntries(fact, n - 1) + [EntryOf(fact, fact.legs[n - 1])]
  }

  function FactEntries(fact: Fact): seq<Entry> {
    LegEntries(fact, |fact.legs|)
  }

  function Entries(facts: seq<Fact>): seq<Entry> {
    if facts == [] then [] else Entries(facts[..|facts| - 1]) + FactEntries(facts[|facts| - 1])
  }

  /** The total quantity of the entries that pass the test. */
  function Total(entries: seq<Entry>, test: Entry -> bool): real {
    if entries == [] then 0.0
    else Total(entries[..|entries| - 1], test) + if test(entries[|entries| - 1]) then entries[|entries| - 1].quantity else 0.0
  }

  /** The entries a target counts: its own holding, up to its instant. */
  predicate IsCounted(t: BalanceTarget, e: Entry) {
    e.source == t.source && e.location == t.location && e.instrument == t.instrument && e.at <= t.at
  }

  function Counts(t: BalanceTarget): Entry -> bool {
    (e: Entry) => IsCounted(t, e)
  }

  function CutoffBalance(facts: seq<Fact>, t: BalanceTarget): real {
    Total(Entries(facts), Counts(t))
  }

  lemma {:induction false} TotalConcat(a: seq<Entry>, b: seq<Entry>, test: Entry -> bool)
    ensures Total(a + b, test) == Total(a, test) + Total(b, test)
  {
    if b == [] {
      assert a + b == a;
    } else {
      assert (a + b)[..|a + b| - 1] == a + b[..|b| - 1];
      TotalConcat(a, b[..|b| - 1], test);
    }
  }

  /** Disjoint tests add up. */
  lemma {:induction false} TotalSplits(entries: seq<Entry>, all: Entry -> bool, one: Entry -> bool, other: Entry -> bool)
    requires forall e :: e in entries ==> (all(e) <==> one(e) || other(e)) && !(one(e) && other(e))
    ensures Total(entries, all) == Total(entries, one) + Total(entries, other)
  {
    if entries != [] {
      assert entries[|entries| - 1] in entries;
      TotalSplits(entries[..|entries| - 1], all, one, other);
    }
  }

  lemma {:induction false} TotalSame(entries: seq<Entry>, one: Entry -> bool, other: Entry -> bool)
    requires forall e :: e in entries ==> (one(e) <==> other(e))
    ensures Total(entries, one) == Total(entries, other)
  {
    if entries != [] {
      assert entries[|entries| - 1] in entries;
      TotalSame(entries[..|entries| - 1], one, other);
    }
  }

  lemma {:induction false} TotalOfNone(entries: seq<Entry>, test: Entry -> bool)
    requires forall e :: e in entries ==> !test(e)
    ensures Total(entries, test) == 0.0
  {
    if entries != [] {
      assert entries[|entries| - 1] in entries;
      TotalOfNone(entries[..|entries| - 1], test);
    }
  }

  lemma EntriesOneMore(facts: seq<Fact>, last: Fact)
    ensures Entries(facts + [last]) == Entries(facts) + FactEntries(last)
  {
    assert (facts + [last])[..|facts|] == facts;
  }

  lemma {:induction false} EntriesConcat(a: seq<Fact>, b: seq<Fact>)
    ensures Entries(a + b) == Entries(a) + Entries(b)
  {
    if b == [] {
      assert a + b == a;
    } else {
      var init, last := b[..|b| - 1], b[|b| - 1];
      assert a + b == (a + init) + [last] && b == init + [last];
      EntriesOneMore(a + init, last);
      EntriesOneMore(init, last);
      EntriesConcat(a, init);
      Associates(Entries(a), Entries(init), FactEntries(last));
    }
  }

  /** What one more fact adds to a total. */
  lemma TotalOneMore(facts: seq<Fact>, last: Fact, test: Entry -> bool)
    ensures Total(Entries(facts + [last]), test) == Total(Entries(facts), test) + Total(FactEntries(last), test)
  {
    EntriesOneMore(facts, last);
    TotalConcat(Entries(facts), FactEntries(last), test);
  }

  lemma {:induction false} EntriesComeFromLegs(facts: seq<Fact>, e: Entry)
    ensures e in Entries(facts) <==>
            exists i, j :: 0 <= i < |facts| && 0 <= j < |facts[i].legs| && EntryOf(facts[i], facts[i].legs[j]) == e
  {
    if facts != [] {
      var init, last := facts[..|facts| - 1], facts[|facts| - 1];
      assert facts == init + [last];
      EntriesComeFromLegs(init, e);
      LegEntriesComeFromLegs(last, |last.legs|, e);
      if i, j :| 0 <= i < |facts| && 0 <= j < |facts[i].legs| && EntryOf(facts[i], facts[i].legs[j]) == e {
        if i < |init| { assert init[i] == facts[i]; }
      }
      if i, j :| 0 <= i < |init| && 0 <= j < |init[i].legs| && EntryOf(init[i], init[i].legs[j]) == e {
        assert init[i] == facts[i];
      }
    }
  }

  lemma {:induction false} LegEntriesComeFromLegs(fact: Fact, n: nat, e: Entry)
    requires n <= |fact.legs|
    ensures e in LegEntries(fact, n) <==> exists j :: 0 <= j < n && EntryOf(fact, fact.legs[j]) == e
  {
    if n > 0 { LegEntriesComeFromLegs(fact, n - 1, e); }
  }

  // ----- deriving snapshots -----

  function OfSource(facts: seq<Fact>, source: string): seq<Fact> {
    if facts == [] then []
    else OfSource(facts[..|facts| - 1], source) + if facts[|facts| - 1].source == source then [facts[|facts| - 1]] else []
  }

  lemma {:induction false} OtherSourcesDoNotCount(facts: seq<Fact>, t: BalanceTarget)
    ensures CutoffBalance(OfSource(facts, t.source), t) == CutoffBalance(facts, t)
  {
    if facts != [] {
      var init, last := facts[..|facts| - 1], facts[|facts| - 1];
      var kept := OfSource(init, t.source);
      OtherSourcesDoNotCount(init, t);
      TotalConcat(Entries(init), FactEntries(last), Counts(t));
      if last.source == t.source {
        assert (kept + [last])[..|kept|] == kept;
        TotalConcat(Entries(kept), FactEntries(last), Counts(t));
      } else {
        NotCounted(last, t);
        assert kept + [] == kept;
      }
    }
  }

  lemma NotCounted(fact: Fact, t: BalanceTarget)
    requires fact.source != t.source || fact.timestamp > t.at
    ensures Total(FactEntries(fact), Counts(t)) == 0.0
  {
    forall e | e in FactEntries(fact) ensures !IsCounted(t, e) {
      LegEntriesComeFromLegs(fact, |fact.legs|, e);
    }
    TotalOfNone(FactEntries(fact), Counts(t));
  }

  method GroupBySource(facts: seq<Fact>) returns (grouped: map<string, seq<Fact>>)
    ensures forall source :: OfSource(facts, source) == if source in grouped then grouped[source] else []
  {
    grouped := map[];
    for i := 0 to |facts|
      invariant forall source :: OfSource(facts[..i], source) == if source in grouped then grouped[source] else []
    {
      assert facts[..i + 1][..i] == facts[..i];
      var source := facts[i].source;
      grouped := grouped[source := (if source in grouped then grouped[source] else []) + [facts[i]]];
    }
    assert facts[..|facts|] == facts;
  }

  method LegsAt(fact: Fact, t: BalanceTarget) returns (quantity: real)
    requires fact.source == t.source && fact.timestamp <= t.at
    ensures quantity == Total(FactEntries(fact), Counts(t))
  {
    quantity := 0.0;
    for j := 0 to |fact.legs|
      invariant quantity == Total(LegEntries(fact, j), Counts(t))
    {
      var leg := fact.legs[j];
      var location := if leg.location.Some? && leg.location.value != "" then leg.location.value else fact.location;
      LegAdds(fact, j, Counts(t));
      if location == t.location && leg.instrument == t.instrument {
        quantity := quantity + leg.quantity;
      }
    }
  }

  lemma LegAdds(fact: Fact, j: nat, test: Entry -> bool)
    requires j < |fact.legs|
    ensures Total(LegEntries(fact, j + 1), test)
         == Total(LegEntries(fact, j), test) + if test(EntryOf(fact, fact.legs[j])) then fact.legs[j].quantity else 0.0
  {
    assert (LegEntries(fact, j) + [EntryOf(fact, fact.legs[j])])[..|LegEntries(fact, j)|] == LegEntries(fact, j);
  }

  method QuantityAt(facts: seq<Fact>, t: BalanceTarget) returns (quantity: real)
    requires forall i :: 0 <= i < |facts| ==> facts[i].source == t.source
    ensures quantity == CutoffBalance(facts, t)
  {
    quantity := 0.0;
    for i := 0 to |facts|
      invariant quantity == CutoffBalance(facts[..i], t)
    {
      assert facts[..i + 1] == facts[..i] + [facts[i]];
      TotalOneMore(facts[..i], facts[i], Counts(t));
      if facts[i].timestamp > t.at {
        NotCounted(facts[i], t);
        continue;
      }
      var added := LegsAt(facts[i], t);
      quantity := quantity + added;
    }
    assert facts[..|facts|] == facts;
  }

  /** The issues raised for the targets with a gap, in target order. */
  function IssuesWhere(targets: seq<BalanceTarget>, gap: BalanceTarget -> bool, kind: IssueKind): seq<Issue> {
    if targets == [] then []
    else
      IssuesWhere(targets[..|targets| - 1], gap, kind)
      + if gap(targets[|targets| - 1]) then [Issue(targets[|targets| - 1], kind)] else []
  }

  lemma {:induction false} IssuesWhereExactly(targets: seq<BalanceTarget>, gap: BalanceTarget -> bool, kind: IssueKind, issue: Issue)
    ensures issue in IssuesWhere(targets, gap, kind) <==> issue.kind == kind && issue.target in targets && gap(issue.target)
  {
    if targets != [] {
      assert targets == targets[..|targets| - 1] + [targets[|targets| - 1]];
      IssuesWhereExactly(targets[..|targets| - 1], gap, kind, issue);
    }
  }

  function NoFacts(facts: seq<Fact>): BalanceTarget -> bool {
    (t: BalanceTarget) => OfSource(facts, t.source) == []
  }

  function SnapshotsOf(facts: seq<Fact>, targets: seq<BalanceTarget>): seq<BalanceSnapshot> {
    if targets == [] then []
    else
      SnapshotsOf(facts, targets[..|targets| - 1])
      + [BalanceSnapshot(targets[|targets| - 1], CutoffBalance(facts, targets[|targets| - 1]))]
  }

  /** One snapshot per target, holding its cutoff balance; one issue per target whose
      source has no facts at all. */
  method DeriveBalanceSnapshots(facts: seq<Fact>, targets: seq<BalanceTarget>)
    returns (snapshots: seq<BalanceSnapshot>, issues: seq<Issue>)
    ensures snapshots == SnapshotsOf(facts, targets)
    ensures issues == IssuesWhere(targets, NoFacts(facts), MissingFacts)
  {
    var grouped := GroupBySource(facts);
    snapshots, issues := [], [];
    for k := 0 to |targets|
      invariant snapshots == SnapshotsOf(facts, targets[..k])
      invariant issues == IssuesWhere(targets[..k], NoFacts(facts), MissingFacts)
    {
      assert targets[..k + 1][..k] == targets[..k];
      var sourceFacts := if targets[k].source in grouped then grouped[targets[k].source] else [];
      SourcesMatch(facts, targets[k].source);
      OtherSourcesDoNotCount(facts, targets[k]);
      var quantity := QuantityAt(sourceFacts, targets[k]);
      snapshots := snapshots + [BalanceSnapshot(targets[k], quantity)];
      if sourceFacts == [] {
        issues := issues + [Issue(targets[k], MissingFacts)];
      }
    }
    assert targets[..|targets|] == targets;
  }

  lemma {:induction false} SourcesMatch(facts: seq<Fact>, source: string)
    ensures forall f :: f in OfSource(facts, source) <==> f in facts && f.source == source
  {
    if facts != [] {
      assert facts == facts[..|facts| - 1] + [facts[|facts| - 1]];
      SourcesMatch(facts[..|facts| - 1], source);
    }
  }

  // ----- fact coverage -----

  /** Whether a leg of a fact in reach counts for the target. */
  method HasLegForTarget(fact: Fact, target: BalanceTarget) returns (found: bool)
    requires fact.source == target.source && fact.timestamp <= target.at
    ensures found <==> exists e :: e in FactEntries(fact) && IsCounted(target, e)
  {
    for j := 0 to |fact.legs|
      invariant forall e :: e in LegEntries(fact, j) ==> !IsCounted(target, e)
    {
      var leg := fact.legs[j];
      var location := if leg.location.Some? && leg.location.value != "" then leg.location.value else fact.location;
      if location == target.location && leg.instrument == target.instrument {
        LegEntriesComeFromLegs(fact, |fact.legs|, EntryOf(fact, leg));
        assert IsCounted(target, EntryOf(fact, leg));
        return true;
      }
    }
    return false;
  }

  lemma OutOfReach(fact: Fact, target: BalanceTarget)
    requires fact.source != target.source || fact.timestamp > target.at
    ensures forall e :: e in FactEntries(fact) ==> !IsCounted(target, e)
  {
    forall e | e in FactEntries(fact) ensures !IsCounted(target, e) {
      LegEntriesComeFromLegs(fact, |fact.legs|, e);
    }
  }

  method HasFactCoverageForTarget(facts: seq<Fact>, target: BalanceTarget) returns (covered: bool)
    ensures covered <==> exists e :: e in Entries(facts) && IsCounted(target, e)
  {
    for i := 0 to |facts|
      invariant forall e :: e in Entries(facts[..i]) ==> !IsCounted(target, e)
    {
      assert facts[..i + 1] == facts[..i] + [facts[i]];
      EntriesOneMore(facts[..i], facts[i]);
      if facts[i].source != target.source || facts[i].timestamp > target.at {
        OutOfReach(facts[i], target);
        continue;
      }
      var found := HasLegForTarget(facts[i], target);
      if found {
        FactEntriesIncluded(facts, i);
        return true;
      }
    }
    assert facts[..|facts|] == facts;
    return false;
  }

  lemma FactEntriesIncluded(facts: seq<Fact>, i: nat)
    requires i < |facts|
    ensures forall e :: e in FactEntries(facts[i]) ==> e in Entries(facts)
  {
    forall e | e in FactEntries(facts[i]) ensures e in Entries(facts) {
      LegEntriesComeFromLegs(facts[i], |facts[i].legs|, e);
      EntriesComeFromLegs(facts, e);
    }
  }

  function Uncovered(facts: seq<Fact>): BalanceTarget -> bool {
    (t: BalanceTarget) => forall e :: e in Entries(facts) ==> !IsCounted(t, e)
  }

  method MissingFactCoverageIssues(facts: seq<Fact>, targets: seq<BalanceTarget>) returns (issues: seq<Issue>)
    ensures issues == IssuesWhere(targets, Uncovered(facts), MissingFactCoverage)
  {
    issues := [];
    for k := 0 to |targets|
      invariant issues == IssuesWhere(targets[..k], Uncovered(facts), MissingFactCoverage)
    {
      assert targets[..k + 1][..k] == targets[..k];
      var covered := HasFactCoverageForTarget(facts, targets[k]);
      if covered {
        continue;
      }
      issues := issues + [Issue(targets[k], MissingFactCoverage)];
    }
    assert targets[..|targets|] == targets;
  }

  /** A target flagged for coverage has balance zero, and whatever is flagged for missing
      facts is flagged for coverage too. */
  lemma GapsAreZero(facts: seq<Fact>, targets: seq<BalanceTarget>, t: BalanceTarget)
    ensures Issue(t, MissingFactCoverage) in IssuesWhere(targets, Uncovered(facts), MissingFactCoverage)
            ==> CutoffBalance(facts, t) == 0.0
    ensures Issue(t, MissingFacts) in IssuesWhere(targets, NoFacts(facts), MissingFacts)
            ==> Issue(t, MissingFactCoverage) in IssuesWhere(targets, Uncovered(facts), MissingFactCoverage)
  {
    IssuesWhereExactly(targets, Uncovered(facts), MissingFactCoverage, Issue(t, MissingFactCoverage));
    IssuesWhereExactly(targets, NoFacts(facts), MissingFacts, Issue(t, MissingFacts));
    if Uncovered(facts)(t) {
      TotalOfNone(Entries(facts), Counts(t));
    }
    if NoFacts(facts)(t) {
      SourcesMatch(facts, t.source);
      forall e | e in Entries(facts) ensures !IsCounted(t, e) {
        EntriesComeFromLegs(facts, e);
      }
    }
  }

  // ----- moving the cutoff, reordering the facts -----

  function CountsBetween(t: BalanceTarget, after: int): Entry -> bool {
    (e: Entry) => IsCounted(t, e) && e.at > after
  }

  /** Moving the cutoff forward adds exactly the entries in between. */
  lemma CutoffAdds(facts: seq<Fact>, earlier: BalanceTarget, later: BalanceTarget)
    requires earlier.at <= later.at
    requires earlier.source == later.source && earlier.location == later.location && earlier.instrument == later.instrument
    ensures CutoffBalance(facts, later)
         == CutoffBalance(facts, earlier) + Total(Entries(facts), CountsBetween(later, earlier.at))
  {
    TotalSplits(Entries(facts), Counts(later), Counts(earlier), CountsBetween(later, earlier.at));
  }

  lemma Extract(front: seq<Fact>, fact: Fact, back: seq<Fact>, test: Entry -> bool)
    ensures Total(Entries((front + [fact]) + back), test)
         == Total(Entries(front + back), test) + Total(FactEntries(fact), test)
  {
    TotalOneMore(front, fact, test);
    EntriesConcat(front + [fact], back);
    TotalConcat(Entries(front + [fact]), Entries(back), test);
    EntriesConcat(front, back);
    TotalConcat(Entries(front), Entries(back), test);
  }

  lemma {:induction false} TotalPermutes(a: seq<Fact>, b: seq<Fact>, test: Entry -> bool)
    requires multiset(a) == multiset(b)
    ensures Total(Entries(a), test) == Total(Entries(b), test)
  {
    if a == [] {
      assert |multiset(b)| == 0;
    } else {
      var init, last := a[..|a| - 1], a[|a| - 1];
      assert a == init + [last];
      assert last in multiset(b);
      var k :| 0 <= k < |b| && b[k] == last;
      assert b == (b[..k] + [last]) + b[k + 1..];
      assert multiset(init) == multiset(a) - multiset{last};
      assert multiset(b[..k] + b[k + 1..]) == multiset(b) - multiset{last};
      TotalPermutes(init, b[..k] + b[k + 1..], test);
      TotalOneMore(init, last, test);
      Extract(b[..k], last, b[k + 1..], test);
    }
  }

  /** The order in which facts are recorded does not matter. */
  lemma CutoffIgnoresOrder(a: seq<Fact>, b: seq<Fact>, t: BalanceTarget)
    requires multiset(a) == multiset(b)
    ensures CutoffBalance(a, t) == CutoffBalance(b, t)
  {
    TotalPermutes(a, b, Counts(t));
  }

  // ----- targets at the latest fact -----

  function TargetFor(h: Holding, at: int): BalanceTarget {
    BalanceTarget(h.source, h.location, h.instrument, "available", at, Timestamp)
  }

  function HoldingsOf(targets: seq<BalanceTarget>): (r: seq<Holding>)
    ensures |r| == |targets|
    ensures forall i :: 0 <= i < |targets| ==> r[i] == Holding(targets[i].source, targets[i].location, targets[i].instrument)
  {
    seq(|targets|, i requires 0 <= i < |targets| => Holding(targets[i].source, targets[i].location, targets[i].instrument))
  }

  /** `at` is the latest instant at which the holding has an entry. */
  ghost predicate LatestAt(entries: seq<Entry>, h: Holding, at: int) {
    && (exists e :: e in entries && HoldingOf(e) == h && e.at == at)
    && (forall e :: e in entries && HoldingOf(e) == h ==> e.at <= at)
  }

  ghost predicate LatestMap(entries: seq<Entry>, latest: map<Holding, int>) {
    && (forall e :: e in entries ==> HoldingOf(e) in latest)
    && (forall h :: h in latest ==> LatestAt(entries, h, latest[h]))
  }

  /** One target per holding with an entry, in order of holdings, at its latest entry. */
  ghost predicate LatestTargets(leq: (Holding, Holding) -> bool, facts: seq<Fact>, targets: seq<BalanceTarget>) {
    && Ascending(leq, HoldingsOf(targets))
    && (forall e :: e in Entries(facts) ==> HoldingOf(e) in HoldingsOf(targets))
    && (forall k :: 0 <= k < |targets| ==>
          && targets[k] == TargetFor(HoldingsOf(targets)[k], targets[k].at)
          && LatestAt(Entries(facts), HoldingsOf(targets)[k], targets[k].at))
  }

  function Later(latest: map<Holding, int>, h: Holding, at: int): map<Holding, int> {
    latest[h := if h !in latest || at > latest[h] then at else latest[h]]
  }

  lemma LatestMapGrows(entries: seq<Entry>, latest: map<Holding, int>, e: Entry)
    requires LatestMap(entries, latest)
    ensures LatestMap(entries + [e], Later(latest, HoldingOf(e), e.at))
  {
    var h := HoldingOf(e);
    var grown := Later(latest, h, e.at);
    forall x | x in entries + [e] ensures HoldingOf(x) in grown {
      assert x in entries || x == e;
    }
    forall g | g in grown ensures LatestAt(entries + [e], g, grown[g]) {
      if g == h && grown[h] == e.at {
        assert e in entries + [e];
      } else {
        assert LatestAt(entries, g, latest[g]);
        var x :| x in entries && HoldingOf(x) == g && x.at == latest[g];
        assert x in entries + [e];
      }
    }
  }

  lemma LegGrows(fact: Fact, j: nat, before: seq<Entry>, latest: map<Holding, int>)
    requires j < |fact.legs| && LatestMap(before + LegEntries(fact, j), latest)
    ensures LatestMap(before + LegEntries(fact, j + 1),
                      Later(latest, HoldingOf(EntryOf(fact, fact.legs[j])), fact.timestamp))
  {
    LatestMapGrows(before + LegEntries(fact, j), latest, EntryOf(fact, fact.legs[j]));
    Associates(before, LegEntries(fact, j), [EntryOf(fact, fact.legs[j])]);
  }

  method LatestByKey(facts: seq<Fact>) returns (latest: map<Holding, int>)
    ensures LatestMap(Entries(facts), latest)
  {
    latest := map[];
    for i := 0 to |facts|
      invariant LatestMap(Entries(facts[..i]), latest)
    {
      assert facts[..i + 1] == facts[..i] + [facts[i]];
      EntriesOneMore(facts[..i], facts[i]);
      assert Entries(facts[..i]) + [] == Entries(facts[..i]);
      latest := LatestWithLegs(facts[i], Entries(facts[..i]), latest);
    }
    assert facts[..|facts|] == facts;
  }

  method LatestWithLegs(fact: Fact, ghost before: seq<Entry>, latest: map<Holding, int>) returns (grown: map<Holding, int>)
    requires LatestMap(before + LegEntries(fact, 0), latest)
    ensures LatestMap(before + FactEntries(fact), grown)
  {
    grown := latest;
    for j := 0 to |fact.legs|
      invariant LatestMap(before + LegEntries(fact, j), grown)
    {
      LegGrows(fact, j, before, grown);
      grown := Later(grown, HoldingOf(EntryOf(fact, fact.legs[j])), fact.timestamp);
    }
  }

  method LatestBalanceTargets(leq: (Holding, Holding) -> bool, facts: seq<Fact>) returns (targets: seq<BalanceTarget>)
    requires TotalOrder(leq)
    ensures LatestTargets(leq, facts, targets)
  {
    var latest := LatestByKey(facts);
    var keys := SortedKeys(leq, latest.Keys);
    targets := seq(|keys|, i requires 0 <= i < |keys| && keys[i] in latest => TargetFor(keys[i], latest[keys[i]]));
    assert HoldingsOf(targets) == keys;
  }

  // ----- conservation -----

  function OfAsset(source: string, instrument: string): Entry -> bool {
    (e: Entry) => e.source == source && e.instrument == instrument
  }

  /** The snapshot quantities of one source and instrument, added up. */
  function SnapshotSum(snapshots: seq<BalanceSnapshot>, source: string, instrument: string): real {
    if snapshots == [] then 0.0
    else
      var last := snapshots[|snapshots| - 1];
      SnapshotSum(snapshots[..|snapshots| - 1], source, instrument)
      + if last.target.source == source && last.target.instrument == instrument then last.quantity else 0.0
  }

  /** Entries of the asset that some target counts. */
  function CountedBySome(targets: seq<BalanceTarget>, source: string, instrument: string): Entry -> bool {
    (e: Entry) => OfAsset(source, instrument)(e) && exists t :: t in targets && IsCounted(t, e)
  }

  lemma CountedByOneMore(init: seq<BalanceTarget>, last: BalanceTarget, source: string, instrument: string, e: Entry)
    ensures CountedBySome(init + [last], source, instrument)(e)
            <==> CountedBySome(init, source, instrument)(e) || (OfAsset(source, instrument)(e) && IsCounted(last, e))
  {
    assert forall t :: t in init + [last] <==> t in init || t == last;
    assert last in init + [last];
  }

  lemma CountedElsewhere(init: seq<BalanceTarget>, last: BalanceTarget, source: string, instrument: string, e: Entry)
    requires Holding(last.source, last.location, last.instrument) !in HoldingsOf(init)
    ensures !(CountedBySome(init, source, instrument)(e) && IsCounted(last, e))
  {
    if CountedBySome(init, source, instrument)(e) {
      var t :| t in init && IsCounted(t, e);
      var i :| 0 <= i < |init| && init[i] == t;
      assert IsCounted(t, e) && HoldingsOf(init)[i].source == HoldingOf(e).source;
      assert HoldingsOf(init)[i] == HoldingOf(e);
    }
  }

  ghost predicate DistinctHoldings(targets: seq<BalanceTarget>) {
    forall i, j :: 0 <= i < j < |targets| ==> HoldingsOf(targets)[i] != HoldingsOf(targets)[j]
  }

  lemma DistinctBefore(init: seq<BalanceTarget>, last: BalanceTarget)
    requires DistinctHoldings(init + [last])
    ensures DistinctHoldings(init) && Holding(last.source, last.location, last.instrument) !in HoldingsOf(init)
  {
    assert forall i :: 0 <= i < |init| ==> HoldingsOf(init)[i] == HoldingsOf(init + [last])[i];
    assert HoldingsOf(init + [last])[|init|] == Holding(last.source, last.location, last.instrument);
  }

  lemma SumOneMore(facts: seq<Fact>, init: seq<BalanceTarget>, last: BalanceTarget, source: string, instrument: string)
    requires DistinctHoldings(init + [last])
    ensures Total(Entries(facts), CountedBySome(init + [last], source, instrument))
         == Total(Entries(facts), CountedBySome(init, source, instrument))
            + if last.source == source && last.instrument == instrument then CutoffBalance(facts, last) else 0.0
  {
    var whole, part := CountedBySome(init + [last], source, instrument), CountedBySome(init, source, instrument);
    DistinctBefore(init, last);
    forall e: Entry
      ensures whole(e) <==> part(e) || (OfAsset(source, instrument)(e) && IsCounted(last, e))
      ensures !(part(e) && IsCounted(last, e))
    {
      CountedByOneMore(init, last, source, instrument, e);
      CountedElsewhere(init, last, source, instrument, e);
    }
    if last.source == source && last.instrument == instrument {
      TotalSplits(Entries(facts), whole, part, Counts(last));
    } else {
      TotalSame(Entries(facts), whole, part);
    }
  }

  lemma {:induction false} SumOverTargets(facts: seq<Fact>, targets: seq<BalanceTarget>, source: string, instrument: string)
    requires DistinctHoldings(targets)
    ensures SnapshotSum(SnapshotsOf(facts, targets), source, instrument)
         == Total(Entries(facts), CountedBySome(targets, source, instrument))
  {
    if targets == [] {
      TotalOfNone(Entries(facts), CountedBySome(targets, source, instrument));
    } else {
      var init, last := targets[..|targets| - 1], targets[|targets| - 1];
      assert targets == init + [last];
      DistinctBefore(init, last);
      SumOverTargets(facts, init, source, instrument);
      SumOneMore(facts, init, last, source, instrument);
      var snapshots := SnapshotsOf(facts, targets);
      assert snapshots[..|snapshots| - 1] == SnapshotsOf(facts, init);
    }
  }

  ghost predicate OnlyCounter(targets: seq<BalanceTarget>, k: nat, e: Entry)
    requires k < |targets|
  {
    IsCounted(targets[k], e) && forall m :: 0 <= m < |targets| && IsCounted(targets[m], e) ==> m == k
  }

  /** Each entry is counted by exactly one target. */
  lemma CountedOnce(leq: (Holding, Holding) -> bool, facts: seq<Fact>, targets: seq<BalanceTarget>, e: Entry)
    requires LatestTargets(leq, facts, targets) && e in Entries(facts)
    ensures exists k :: 0 <= k < |targets| && OnlyCounter(targets, k, e)
  {
    var k :| 0 <= k < |targets| && HoldingsOf(targets)[k] == HoldingOf(e);
    assert OnlyCounter(targets, k, e) by {
      forall m | 0 <= m < |targets| && IsCounted(targets[m], e) ensures m == k {
        assert HoldingsOf(targets)[m] == HoldingOf(e);
      }
    }
  }

  /** The snapshots at the latest targets hold everything the ledger holds, and no target
      lacks facts or coverage. */
  lemma LedgerConserved(leq: (Holding, Holding) -> bool, facts: seq<Fact>, targets: seq<BalanceTarget>, source: string, instrument: string)
    requires LatestTargets(leq, facts, targets)
    ensures SnapshotSum(SnapshotsOf(facts, targets), source, instrument) == Total(Entries(facts), OfAsset(source, instrument))
  {
    SumOverTargets(facts, targets, source, instrument);
    forall e | e in Entries(facts) ensures exists t :: t in targets && IsCounted(t, e) {
      CountedOnce(leq, facts, targets, e);
    }
    TotalSame(Entries(facts), CountedBySome(targets, source, instrument), OfAsset(source, instrument));
  }

  lemma LatestTargetsHaveFacts(leq: (Holding, Holding) -> bool, facts: seq<Fact>, targets: seq<BalanceTarget>)
    requires LatestTargets(leq, facts, targets)
    ensures IssuesWhere(targets, NoFacts(facts), MissingFacts) == []
    ensures IssuesWhere(targets, Uncovered(facts), MissingFactCoverage) == []
  {
    forall t | t in targets ensures !Uncovered(facts)(t) {
      var k :| 0 <= k < |targets| && targets[k] == t;
      assert LatestAt(Entries(facts), HoldingsOf(targets)[k], t.at);
      var e :| e in Entries(facts) && HoldingOf(e) == HoldingsOf(targets)[k] && e.at == t.at;
      assert IsCounted(t, e);
    }
    var gaps, issues := IssuesWhere(targets, Uncovered(facts), MissingFactCoverage), IssuesWhere(targets, NoFacts(facts), MissingFacts);
    if gaps != [] {
      IssuesWhereExactly(targets, Uncovered(facts), MissingFactCoverage, gaps[0]);
    }
    if issues != [] {
      IssuesWhereExactly(targets, NoFacts(facts), MissingFacts, issues[0]);
      GapsAreZero(facts, targets, issues[0].target);
      IssuesWhereExactly(targets, Uncovered(facts), MissingFactCoverage, Issue(issues[0].target, MissingFactCoverage));
    }
  }

  /** The whole ledger check: latest targets, their snapshots, and no gap. */
  method LatestSnapshots(leq: (Holding, Holding) -> bool, facts: seq<Fact>)
    returns (targets: seq<BalanceTarget>, snapshots: seq<BalanceSnapshot>)
    requires TotalOrder(leq)
    ensures forall source, instrument ::
              SnapshotSum(snapshots, source, instrument) == Total(Entries(facts), OfAsset(source, instrument))
    ensures IssuesWhere(targets, Uncovered(facts), MissingFactCoverage) == []
  {
    targets := LatestBalanceTargets(leq, facts);
    var issues;
    snapshots, issues := DeriveBalanceSnapshots(facts, targets);
    LatestTargetsHaveFacts(leq, facts, targets);
    assert issues == [];
    forall source, instrument
      ensures SnapshotSum(snapshots, source, instrument) == Total(Entries(facts), OfAsset(source, instrument))
    {
      LedgerConserved(leq, facts, targets, source, instrument);
    }
  }
}
