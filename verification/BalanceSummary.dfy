/** The portfolio summary: clean dates across sources, and what blocks them. */
module BalanceSummary {
  import opened Wrappers
  import opened Grouping

  datatype Readiness = Ready | MissingReferences | NoBalanceTargets | NoBalanceInputs

  datatype InspectRecord = InspectRecord(source: string, offlineReady: Readiness, supersededOutputs: nat)

  datatype CheckStatus = Clean | Issues | Failed | NoTargets | NotRunnable

  /** One source's check; a missing date is blank in the record. */
  datatype CheckRecord = CheckRecord(
    source: string, hydrated: bool, status: CheckStatus,
    minDate: Option<int>, maxDate: Option<int>, cleanDate: Option<int>, resolvedDate: Option<int>,
    issueKinds: seq<(string, nat)>, error: string)

  // ----- extremes -----

  function Greatest(dates: seq<int>): int
    requires dates != []
  {
    if |dates| == 1 then dates[0]
    else
      var rest := Greatest(dates[1..]);
      if dates[0] > rest then dates[0] else rest
  }

  function Least(dates: seq<int>): int
    requires dates != []
  {
    if |dates| == 1 then dates[0]
    else
      var rest := Least(dates[1..]);
      if dates[0] < rest then dates[0] else rest
  }

  function Latest(dates: seq<int>): Option<int> {
    if dates == [] then None else Some(Greatest(dates))
  }

  function Earliest(dates: seq<int>): Option<int> {
    if dates == [] then None else Some(Least(dates))
  }

  lemma {:induction false} GreatestBounds(dates: seq<int>)
    requires dates != []
    ensures Greatest(dates) in dates && forall i :: 0 <= i < |dates| ==> dates[i] <= Greatest(dates)
  {
    if |dates| > 1 {
      GreatestBounds(dates[1..]);
      forall i | 0 < i < |dates| ensures dates[i] <= Greatest(dates[1..]) {
        assert dates[i] == dates[1..][i - 1];
      }
    }
  }

  lemma {:induction false} LeastBounds(dates: seq<int>)
    requires dates != []
    ensures Least(dates) in dates && forall i :: 0 <= i < |dates| ==> Least(dates) <= dates[i]
  {
    if |dates| > 1 {
      LeastBounds(dates[1..]);
      forall i | 0 < i < |dates| ensures Least(dates[1..]) <= dates[i] {
        assert dates[i] == dates[1..][i - 1];
      }
    }
  }

  lemma LatestIsGreatest(dates: seq<int>)
    ensures Latest(dates).None? <==> dates == []
    ensures Latest(dates).Some? ==> Latest(dates).value in dates && forall d :: d in dates ==> d <= Latest(dates).value
  {
    if dates != [] { GreatestBounds(dates); }
  }

  lemma EarliestIsLeast(dates: seq<int>)
    ensures Earliest(dates).None? <==> dates == []
    ensures Earliest(dates).Some? ==> Earliest(dates).value in dates && forall d :: d in dates ==> Earliest(dates).value <= d
  {
    if dates != [] { LeastBounds(dates); }
  }

  function Present(date: Option<int>): seq<int> {
    match date case None => [] case Some(d) => [d]
  }

  // ----- one source's check -----

  datatype AssertionRow = AssertionRow(matched: bool, target: Option<int>, observed: Option<int>)

  function AllDates(rows: seq<AssertionRow>): seq<int> {
    Chain(rows, (row: AssertionRow) => Present(row.target) + Present(row.observed))
  }

  function MatchedDates(rows: seq<AssertionRow>): seq<int> {
    Chain(rows, (row: AssertionRow) => if row.matched then Present(row.target) else [])
  }

  /** The record of a check that ran: clean exactly when no issue was raised. */
  function CheckedRecord(source: string, hydrated: bool, rows: seq<AssertionRow>, issueCount: nat, issueKinds: seq<(string, nat)>): CheckRecord {
    var matched := Latest(MatchedDates(rows));
    CheckRecord(source, hydrated, if issueCount == 0 then Clean else Issues,
      Earliest(AllDates(rows)), Latest(AllDates(rows)),
      if issueCount == 0 then matched else None, matched, issueKinds, "")
  }

  /** The record of a check that could not run. */
  function UncheckedRecord(source: string, hydrated: bool, status: CheckStatus, error: string): CheckRecord {
    CheckRecord(source, hydrated, status, None, None, None, None, [], error)
  }

  ghost predicate Produced(record: CheckRecord) {
    || (exists rows, issueCount :: record == CheckedRecord(record.source, record.hydrated, rows, issueCount, record.issueKinds))
    || (record.status in {Failed, NoTargets, NotRunnable}
        && record == UncheckedRecord(record.source, record.hydrated, record.status, record.error))
  }

  /** A produced record's clean date is its resolved date when it is clean, and no matched
      date lies outside the asserted dates. */
  lemma ProducedDates(record: CheckRecord)
    requires Produced(record)
    ensures record.cleanDate == if record.status == Clean then record.resolvedDate else None
    ensures record.resolvedDate.Some? ==>
              && record.minDate.Some? && record.maxDate.Some?
              && record.minDate.value <= record.resolvedDate.value <= record.maxDate.value
  {
    if record.status in {Clean, Issues} {
      var rows, issueCount :| record == CheckedRecord(record.source, record.hydrated, rows, issueCount, record.issueKinds);
      LatestIsGreatest(MatchedDates(rows));
      LatestIsGreatest(AllDates(rows));
      EarliestIsLeast(AllDates(rows));
      if record.resolvedDate.Some? {
        MatchedAreAsserted(rows, record.resolvedDate.value);
      }
    }
  }

  /** `date` is the latest, respectively the earliest, of those that pass the test; there is
      none only if nothing does. */
  ghost predicate IsLatest(date: Option<int>, passes: int -> bool) {
    match date
    case None => forall d :: !passes(d)
    case Some(latest) => passes(latest) && forall d :: passes(d) ==> d <= latest
  }

  ghost predicate IsEarliest(date: Option<int>, passes: int -> bool) {
    match date
    case None => forall d :: !passes(d)
    case Some(earliest) => passes(earliest) && forall d :: passes(d) ==> earliest <= d
  }

  predicate MatchedOn(rows: seq<AssertionRow>, date: int) {
    exists row | row in rows :: row.matched && row.target == Some(date)
  }

  predicate AssertedOn(rows: seq<AssertionRow>, date: int) {
    exists row | row in rows :: row.target == Some(date) || row.observed == Some(date)
  }

  lemma MatchedDatesExactly(rows: seq<AssertionRow>, date: int)
    ensures date in MatchedDates(rows) <==> MatchedOn(rows, date)
  {
    ChainMembers(rows, (row: AssertionRow) => if row.matched then Present(row.target) else [], date);
  }

  lemma AllDatesExactly(rows: seq<AssertionRow>, date: int)
    ensures date in AllDates(rows) <==> AssertedOn(rows, date)
  {
    ChainMembers(rows, (row: AssertionRow) => Present(row.target) + Present(row.observed), date);
  }

  lemma LatestOfThose(dates: seq<int>, passes: int -> bool)
    requires forall d :: d in dates <==> passes(d)
    ensures IsLatest(Latest(dates), passes) && IsEarliest(Earliest(dates), passes)
  {
    LatestIsGreatest(dates);
    EarliestIsLeast(dates);
    if dates != [] { assert dates[0] in dates; }
  }

  /** The dates of a record: the resolved one is the latest target date matched, the clean one
      the same if no issue was raised, and the others bound all dates asserted. */
  lemma CheckedDates(source: string, hydrated: bool, rows: seq<AssertionRow>, issueCount: nat, issueKinds: seq<(string, nat)>)
    ensures var record := CheckedRecord(source, hydrated, rows, issueCount, issueKinds);
            && IsLatest(record.resolvedDate, (d: int) => MatchedOn(rows, d))
            && record.cleanDate == (if issueCount == 0 then record.resolvedDate else None)
            && (record.status == Clean <==> issueCount == 0) && record.status in {Clean, Issues}
            && IsLatest(record.maxDate, (d: int) => AssertedOn(rows, d))
            && IsEarliest(record.minDate, (d: int) => AssertedOn(rows, d))
  {
    forall d ensures (d in MatchedDates(rows) <==> MatchedOn(rows, d)) && (d in AllDates(rows) <==> AssertedOn(rows, d)) {
      MatchedDatesExactly(rows, d);
      AllDatesExactly(rows, d);
    }
    LatestOfThose(MatchedDates(rows), (d: int) => MatchedOn(rows, d));
    LatestOfThose(AllDates(rows), (d: int) => AssertedOn(rows, d));
  }

  lemma MatchedAreAsserted(rows: seq<AssertionRow>, date: int)
    ensures date in MatchedDates(rows) ==> date in AllDates(rows)
  {
    ChainMembers(rows, (row: AssertionRow) => if row.matched then Present(row.target) else [], date);
    ChainMembers(rows, (row: AssertionRow) => Present(row.target) + Present(row.observed), date);
  }

  // ----- the payload -----

  /** The check on record for a source: the last one. */
  function CheckOf(checks: seq<CheckRecord>, source: string): Option<CheckRecord> {
    if checks == [] then None
    else if checks[|checks| - 1].source == source then Some(checks[|checks| - 1])
    else CheckOf(checks[..|checks| - 1], source)
  }

  type DateOf = CheckRecord -> Option<int>

  function CleanDate(): DateOf {
    (record: CheckRecord) => record.cleanDate
  }

  function ResolvedDate(): DateOf {
    (record: CheckRecord) => record.resolvedDate
  }

  /** The date a ready source contributes: that of its clean check. */
  function SourceDate(checks: seq<CheckRecord>, dateOf: DateOf, source: string): Option<int> {
    match CheckOf(checks, source)
    case None => None
    case Some(record) => if record.status == Clean then dateOf(record) else None
  }

  predicate AllDated(inspects: seq<InspectRecord>, checks: seq<CheckRecord>, dateOf: DateOf) {
    && inspects != []
    && forall r :: r in inspects ==> r.offlineReady == Ready && SourceDate(checks, dateOf, r.source).Some?
  }

  function SourceDates(inspects: seq<InspectRecord>, checks: seq<CheckRecord>, dateOf: DateOf): seq<int> {
    Chain(inspects, (r: InspectRecord) => Present(SourceDate(checks, dateOf, r.source)))
  }

  function PortfolioDate(inspects: seq<InspectRecord>, checks: seq<CheckRecord>, dateOf: DateOf): Option<int> {
    if AllDated(inspects, checks, dateOf) then Earliest(SourceDates(inspects, checks, dateOf)) else None
  }

  function CleanPiece(dateOf: DateOf): CheckRecord -> seq<int> {
    (record: CheckRecord) => if record.status == Clean then Present(dateOf(record)) else []
  }

  /** The latest date of any clean check. */
  function LatestDate(checks: seq<CheckRecord>, dateOf: DateOf): Option<int> {
    Latest(Chain(checks, CleanPiece(dateOf)))
  }

  datatype Payload = Payload(
    sourceCount: nat, cleanSources: nat, issueSources: nat, failedSources: nat,
    portfolioClean: Option<int>, portfolioResolved: Option<int>,
    latestClean: Option<int>, latestResolved: Option<int>, latestObserved: Option<int>)

  function WithStatus(checks: seq<CheckRecord>, status: CheckStatus): nat {
    |Filter(checks, (record: CheckRecord) => record.status == status)|
  }

  function SummaryPayload(inspects: seq<InspectRecord>, checks: seq<CheckRecord>): Payload {
    Payload(|inspects|, WithStatus(checks, Clean), WithStatus(checks, Issues), WithStatus(checks, Failed),
      PortfolioDate(inspects, checks, CleanDate()), PortfolioDate(inspects, checks, ResolvedDate()),
      LatestDate(checks, CleanDate()), LatestDate(checks, ResolvedDate()),
      Latest(Chain(checks, (record: CheckRecord) => Present(record.maxDate))))
  }

  /** Each check counts towards its own status and no other. */
  lemma StatusCounts(checks: seq<CheckRecord>, record: CheckRecord, status: CheckStatus)
    ensures WithStatus([], status) == 0
    ensures WithStatus(checks + [record], status) == WithStatus(checks, status) + if record.status == status then 1 else 0
  {
    FilterOneMore(checks, record, (c: CheckRecord) => c.status == status);
  }

  // ----- what the portfolio date means -----

  lemma SourceDatesMembers(inspects: seq<InspectRecord>, checks: seq<CheckRecord>, dateOf: DateOf, date: int)
    ensures date in SourceDates(inspects, checks, dateOf)
            <==> exists r :: r in inspects && SourceDate(checks, dateOf, r.source) == Some(date)
  {
    ChainMembers(inspects, (r: InspectRecord) => Present(SourceDate(checks, dateOf, r.source)), date);
  }

  /** `date` is not later than what any source contributes. */
  ghost predicate NotLater(inspects: seq<InspectRecord>, checks: seq<CheckRecord>, dateOf: DateOf, date: int) {
    forall r :: r in inspects ==> SourceDate(checks, dateOf, r.source).Some? && date <= SourceDate(checks, dateOf, r.source).value
  }

  /** The portfolio has a date exactly when there are sources and all are ready, clean and
      dated; the date is then the greatest not later than any source's. */
  lemma PortfolioDateExactly(inspects: seq<InspectRecord>, checks: seq<CheckRecord>, dateOf: DateOf)
    ensures PortfolioDate(inspects, checks, dateOf).Some? <==> AllDated(inspects, checks, dateOf)
    ensures PortfolioDate(inspects, checks, dateOf).Some? ==>
              forall date :: NotLater(inspects, checks, dateOf, date) <==> date <= PortfolioDate(inspects, checks, dateOf).value
  {
    if AllDated(inspects, checks, dateOf) {
      var dates := SourceDates(inspects, checks, dateOf);
      EarliestIsLeast(dates);
      SourceDatesMembers(inspects, checks, dateOf, SourceDate(checks, dateOf, inspects[0].source).value);
      assert inspects[0] in inspects;
      var least := Earliest(dates).value;
      SourceDatesMembers(inspects, checks, dateOf, least);
      forall r | r in inspects ensures least <= SourceDate(checks, dateOf, r.source).value {
        SourceDatesMembers(inspects, checks, dateOf, SourceDate(checks, dateOf, r.source).value);
      }
    }
  }

  lemma {:induction false} CheckOfMember(checks: seq<CheckRecord>, source: string)
    ensures CheckOf(checks, source).Some? ==> CheckOf(checks, source).value in checks && CheckOf(checks, source).value.source == source
    ensures CheckOf(checks, source).None? ==> forall record :: record in checks ==> record.source != source
  {
    if checks != [] {
      assert checks == checks[..|checks| - 1] + [checks[|checks| - 1]];
      CheckOfMember(checks[..|checks| - 1], source);
    }
  }

  /** The check on record is the last one of its source. */
  lemma {:induction false} CheckOfIsLast(checks: seq<CheckRecord>, source: string, record: CheckRecord)
    ensures CheckOf(checks, source) == Some(record)
            <==> exists i :: 0 <= i < |checks| && checks[i] == record && record.source == source
                             && forall j :: i < j < |checks| ==> checks[j].source != source
    decreases |checks|
  {
    if checks != [] {
      var init, last := checks[..|checks| - 1], checks[|checks| - 1];
      CheckOfIsLast(init, source, record);
      if last.source != source {
        if i :| 0 <= i < |checks| && checks[i] == record && record.source == source
                && forall j :: i < j < |checks| ==> checks[j].source != source {
          assert init[i] == record;
          assert forall j :: i < j < |init| ==> init[j] == checks[j];
        }
        if i :| 0 <= i < |init| && init[i] == record && record.source == source
                && forall j :: i < j < |init| ==> init[j].source != source {
          assert checks[i] == record;
          assert forall j :: i < j < |checks| ==> j == |init| || checks[j] == init[j];
        }
      } else {
        assert checks[|checks| - 1].source == source;
      }
    }
  }

  predicate CleanOn(checks: seq<CheckRecord>, dateOf: DateOf, date: int) {
    exists record | record in checks :: record.status == Clean && dateOf(record) == Some(date)
  }

  /** The latest date is that of a clean check. */
  lemma LatestDateExactly(checks: seq<CheckRecord>, dateOf: DateOf)
    ensures IsLatest(LatestDate(checks, dateOf), (d: int) => CleanOn(checks, dateOf, d))
  {
    var dates := Chain(checks, CleanPiece(dateOf));
    forall d ensures d in dates <==> CleanOn(checks, dateOf, d) {
      ChainMembers(checks, CleanPiece(dateOf), d);
    }
    LatestOfThose(dates, (d: int) => CleanOn(checks, dateOf, d));
  }

  /** No portfolio date is later than the latest date of a clean source. */
  lemma PortfolioBeforeLatest(inspects: seq<InspectRecord>, checks: seq<CheckRecord>, dateOf: DateOf)
    requires PortfolioDate(inspects, checks, dateOf).Some?
    ensures LatestDate(checks, dateOf).Some? && PortfolioDate(inspects, checks, dateOf).value <= LatestDate(checks, dateOf).value
  {
    PortfolioDateExactly(inspects, checks, dateOf);
    var r, date := inspects[0], PortfolioDate(inspects, checks, dateOf).value;
    assert NotLater(inspects, checks, dateOf, date);
    CheckOfMember(checks, r.source);
    var record := CheckOf(checks, r.source).value;
    ChainMembers(checks, CleanPiece(dateOf), dateOf(record).value);
    LatestIsGreatest(Chain(checks, CleanPiece(dateOf)));
  }

  /** For records as the check produces them, clean and resolved dates agree everywhere. */
  lemma ResolvedAgreesWithClean(inspects: seq<InspectRecord>, checks: seq<CheckRecord>)
    requires forall record :: record in checks ==> Produced(record)
    ensures SummaryPayload(inspects, checks).portfolioClean == SummaryPayload(inspects, checks).portfolioResolved
    ensures SummaryPayload(inspects, checks).latestClean == SummaryPayload(inspects, checks).latestResolved
  {
    forall source ensures SourceDate(checks, CleanDate(), source) == SourceDate(checks, ResolvedDate(), source) {
      CheckOfMember(checks, source);
      if CheckOf(checks, source).Some? {
        ProducedDates(CheckOf(checks, source).value);
      }
    }
    SamePieces(inspects,
      (r: InspectRecord) => Present(SourceDate(checks, CleanDate(), r.source)),
      (r: InspectRecord) => Present(SourceDate(checks, ResolvedDate(), r.source)));
    forall record | record in checks ensures CleanPiece(CleanDate())(record) == CleanPiece(ResolvedDate())(record) {
      ProducedDates(record);
    }
    SamePieces(checks, CleanPiece(CleanDate()), CleanPiece(ResolvedDate()));
  }

  lemma {:induction false} SamePieces<A, B>(items: seq<A>, f: A -> seq<B>, g: A -> seq<B>)
    requires forall a :: a in items ==> f(a) == g(a)
    ensures Chain(items, f) == Chain(items, g)
  {
    if items != [] {
      assert items[|items| - 1] in items;
      SamePieces(items[..|items| - 1], f, g);
    }
  }
}
