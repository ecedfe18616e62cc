/** Comparing a replayed workspace with its reference, and the verdict on it. */
module ReplayParity {
  import opened Sequences
  import opened Wrappers
  import opened Ordering

  datatype SourceMetrics = SourceMetrics(facts: int, snapshots: int, references: int, issues: int, reviews: int)

  datatype RegistryRow = RegistryRow(
    source: string, status: string, fileCount: string, fingerprint: string,
    periodStart: string, periodEnd: string, rootPresent: bool)

  datatype Workspace = Workspace(
    signatures: map<string, seq<string>>, registry: map<string, RegistryRow>,
    sources: map<string, SourceMetrics>, counts: map<string, map<string, int>>)

  datatype ExpectedDifference = ExpectedDifference(source: string, issues: int, reviews: int, reason: string)

  datatype RowStatus = Match | PermittedDrift | Mismatch

  type TextOrder = (string, string) -> bool

  // ----- counting rows -----

  /** One row per key, in the order of the keys. */
  function RowsFor<K>(keys: seq<K>, status: K -> RowStatus): (r: seq<(K, RowStatus)>)
    ensures |r| == |keys| && forall i :: 0 <= i < |r| ==> r[i] == (keys[i], status(keys[i]))
  {
    seq(|keys|, i requires 0 <= i < |keys| => (keys[i], status(keys[i])))
  }

  function CountWith<K>(keys: seq<K>, status: K -> RowStatus, wanted: RowStatus): nat {
    if keys == [] then 0
    else CountWith(keys[..|keys| - 1], status, wanted) + if status(keys[|keys| - 1]) == wanted then 1 else 0
  }

  lemma CountOneMore<K>(keys: seq<K>, k: K, status: K -> RowStatus, wanted: RowStatus)
    ensures CountWith(keys + [k], status, wanted) == CountWith(keys, status, wanted) + if status(k) == wanted then 1 else 0
  {
    assert (keys + [k])[..|keys|] == keys;
  }

  /** Counting along a listing without repeats gives the size of the set counted. */
  lemma {:induction false} CountIsSize<K(!new)>(keys: seq<K>, status: K -> RowStatus, wanted: RowStatus, counted: set<K>)
    requires NoRepeats(keys)
    requires forall k :: k in counted <==> k in keys && status(k) == wanted
    ensures CountWith(keys, status, wanted) == |counted|
  {
    if keys == [] {
      assert counted == {};
    } else {
      var init, last := keys[..|keys| - 1], keys[|keys| - 1];
      assert keys == init + [last];
      NoRepeatsOneMore(init, last);
      CountIsSize(init, status, wanted, counted - {last});
    }
  }

  // ----- the comparisons -----

  function At<V>(m: map<string, V>, key: string): Option<V> {
    if key in m then Some(m[key]) else None
  }

  function SignaturesAt(w: Workspace, key: string): set<string> {
    if key in w.signatures then (set s | s in w.signatures[key]) else {}
  }

  function Join(parts: seq<string>): string {
    if parts == [] then ""
    else if |parts| == 1 then parts[0]
    else Join(parts[..|parts| - 1]) + "," + parts[|parts| - 1]
  }

  /** Nothing to report: the joined listing is blank. */
  predicate Unremarkable(difference: set<string>) {
    difference <= {""}
  }

  function CaptureStatus(reference: Workspace, candidate: Workspace): string -> RowStatus {
    (key: string) =>
      var r, c := SignaturesAt(reference, key), SignaturesAt(candidate, key);
      if Unremarkable(r - c) && Unremarkable(c - r) then Match else Mismatch
  }

  function RegistryStatus(reference: Workspace, candidate: Workspace): string -> RowStatus {
    (key: string) =>
      if key in reference.registry && At(reference.registry, key) == At(candidate.registry, key) then Match else Mismatch
  }

  function CountDelta(reference: Option<SourceMetrics>, candidate: Option<SourceMetrics>, field: SourceMetrics -> int): Option<int> {
    if reference.None? || candidate.None? then None else Some(field(candidate.value) - field(reference.value))
  }

  function CountStatus(actual: Option<int>, expected: int): RowStatus {
    if actual.None? then Mismatch
    else if actual.value == 0 && expected == 0 then Match
    else if actual.value == expected then PermittedDrift
    else Mismatch
  }

  function ExpectedIssues(expected: map<string, ExpectedDifference>, source: string): int {
    if source in expected then expected[source].issues else 0
  }

  function ExpectedReviews(expected: map<string, ExpectedDifference>, source: string): int {
    if source in expected then expected[source].reviews else 0
  }

  predicate HardMetricsMatch(reference: Option<SourceMetrics>, candidate: Option<SourceMetrics>) {
    && reference.Some? && candidate.Some?
    && reference.value.facts == candidate.value.facts
    && reference.value.snapshots == candidate.value.snapshots
    && reference.value.references == candidate.value.references
  }

  /** The status of a source row; drift is what the source calls an expected difference. */
  function SourceMetricStatus(hard: bool, issues: RowStatus, reviews: RowStatus): RowStatus {
    if !hard || issues == Mismatch || reviews == Mismatch then Mismatch
    else if issues == PermittedDrift || reviews == PermittedDrift then PermittedDrift
    else Match
  }

  function SourceStatus(reference: Workspace, candidate: Workspace, expected: map<string, ExpectedDifference>): string -> RowStatus {
    (source: string) =>
      var r, c := At(reference.sources, source), At(candidate.sources, source);
      SourceMetricStatus(
        HardMetricsMatch(r, c),
        CountStatus(CountDelta(r, c, (m: SourceMetrics) => m.issues), ExpectedIssues(expected, source)),
        CountStatus(CountDelta(r, c, (m: SourceMetrics) => m.reviews), ExpectedReviews(expected, source)))
  }

  function GroupAt(w: Workspace, group: string): map<string, int> {
    if group in w.counts then w.counts[group] else map[]
  }

  function ValueAt(group: map<string, int>, metric: string): int {
    if metric in group then group[metric] else 0
  }

  function MetricStatus(reference: Workspace, candidate: Workspace): ((string, string)) -> RowStatus {
    (metric: (string, string)) =>
      if ValueAt(GroupAt(reference, metric.0), metric.1) == ValueAt(GroupAt(candidate, metric.0), metric.1) then Match else Mismatch
  }

  // ----- what is compared, and what differs -----

  function Captures(reference: Workspace, candidate: Workspace): set<string> {
    reference.signatures.Keys + candidate.signatures.Keys
  }

  function RegistryKeys(reference: Workspace, candidate: Workspace): set<string> {
    reference.registry.Keys + candidate.registry.Keys
  }

  function Sources(reference: Workspace, candidate: Workspace, expected: map<string, ExpectedDifference>): set<string> {
    reference.sources.Keys + candidate.sources.Keys + expected.Keys
  }

  function Metrics(reference: Workspace, candidate: Workspace, group: string): set<string> {
    GroupAt(reference, group).Keys + GroupAt(candidate, group).Keys
  }

  function GroupNames(reference: Workspace, candidate: Workspace): set<string> {
    reference.counts.Keys + candidate.counts.Keys
  }

  function AllMetrics(reference: Workspace, candidate: Workspace): set<(string, string)> {
    set group, metric | group in GroupNames(reference, candidate) && metric in Metrics(reference, candidate, group) :: (group, metric)
  }

  function Those<K>(keys: set<K>, status: K -> RowStatus, wanted: RowStatus): set<K> {
    set k | k in keys && status(k) == wanted
  }

  function BadCaptures(reference: Workspace, candidate: Workspace): set<string> {
    Those(Captures(reference, candidate), CaptureStatus(reference, candidate), Mismatch)
  }

  function BadRegistry(reference: Workspace, candidate: Workspace): set<string> {
    Those(RegistryKeys(reference, candidate), RegistryStatus(reference, candidate), Mismatch)
  }

  function BadSources(reference: Workspace, candidate: Workspace, expected: map<string, ExpectedDifference>): set<string> {
    Those(Sources(reference, candidate, expected), SourceStatus(reference, candidate, expected), Mismatch)
  }

  function BadMetrics(reference: Workspace, candidate: Workspace): set<(string, string)> {
    Those(AllMetrics(reference, candidate), MetricStatus(reference, candidate), Mismatch)
  }

  function Drifting(reference: Workspace, candidate: Workspace, expected: map<string, ExpectedDifference>): set<string> {
    Those(Sources(reference, candidate, expected), SourceStatus(reference, candidate, expected), PermittedDrift)
  }

  /** Everything that differs, over all four comparisons. */
  function Mismatches(reference: Workspace, candidate: Workspace, expected: map<string, ExpectedDifference>): nat {
    |BadCaptures(reference, candidate)| + |BadRegistry(reference, candidate)|
    + |BadSources(reference, candidate, expected)| + |BadMetrics(reference, candidate)|
  }

  // ----- the four loops -----

  function KeysOf<K>(rows: seq<(K, RowStatus)>): (r: seq<K>)
    ensures |r| == |rows| && forall i :: 0 <= i < |r| ==> r[i] == rows[i].0
  {
    seq(|rows|, i requires 0 <= i < |rows| => rows[i].0)
  }

  /** One row for each key, with its status. */
  ghost predicate Lists<K(!new)>(rows: seq<(K, RowStatus)>, keys: set<K>, status: K -> RowStatus) {
    NoRepeats(KeysOf(rows)) && (forall k :: k in KeysOf(rows) <==> k in keys) && rows == RowsFor(KeysOf(rows), status)
  }

  lemma {:induction false} JoinBlank(parts: seq<string>)
    ensures Join(parts) == "" <==> parts == [] || parts == [""]
  {
    if |parts| > 1 {
      assert Join(parts)[|Join(parts[..|parts| - 1])|] == ',';
    }
  }

  method CompareSignatures(leq: TextOrder, reference: set<string>, candidate: set<string>)
    returns (missing: string, extra: string)
    requires TotalOrder(leq)
    ensures missing == "" <==> Unremarkable(reference - candidate)
    ensures extra == "" <==> Unremarkable(candidate - reference)
  {
    missing := JoinSorted(leq, reference - candidate);
    extra := JoinSorted(leq, candidate - reference);
  }

  method JoinSorted(leq: TextOrder, difference: set<string>) returns (text: string)
    requires TotalOrder(leq)
    ensures text == "" <==> Unremarkable(difference)
  {
    var parts := SortedKeys(leq, difference);
    JoinBlank(parts);
    BlankListing(leq, parts, difference);
    text := Join(parts);
  }

  lemma BlankListing(leq: TextOrder, parts: seq<string>, difference: set<string>)
    requires Ascending(leq, parts) && forall s :: s in parts <==> s in difference
    ensures (parts == [] || parts == [""]) <==> Unremarkable(difference)
  {
    if Unremarkable(difference) && parts != [] {
      forall i | 0 <= i < |parts| ensures parts[i] == "" {
        assert parts[i] in parts;
      }
      FirstTwoDiffer(leq, parts);
    }
  }

  lemma FirstTwoDiffer<T>(leq: (T, T) -> bool, s: seq<T>)
    requires Ascending(leq, s)
    ensures |s| > 1 ==> s[0] != s[1]
  {}

  method CompareCaptures(leq: TextOrder, reference: Workspace, candidate: Workspace, keys: seq<string>)
    returns (rows: seq<(string, RowStatus)>, mismatches: nat)
    requires TotalOrder(leq)
    ensures rows == RowsFor(keys, CaptureStatus(reference, candidate))
    ensures mismatches == CountWith(keys, CaptureStatus(reference, candidate), Mismatch)
  {
    rows, mismatches := [], 0;
    for i := 0 to |keys|
      invariant rows == RowsFor(keys[..i], CaptureStatus(reference, candidate))
      invariant mismatches == CountWith(keys[..i], CaptureStatus(reference, candidate), Mismatch)
    {
      var missing, extra := CompareSignatures(leq, SignaturesAt(reference, keys[i]), SignaturesAt(candidate, keys[i]));
      var status := if missing == "" && extra == "" then Match else Mismatch;
      CountOneMore(keys[..i], keys[i], CaptureStatus(reference, candidate), Mismatch);
      assert keys[..i + 1] == keys[..i] + [keys[i]];
      rows := rows + [(keys[i], status)];
      mismatches := mismatches + if status == Mismatch then 1 else 0;
    }
    assert keys[..|keys|] == keys;
  }

  method CompareRegistries(reference: Workspace, candidate: Workspace, keys: seq<string>)
    returns (rows: seq<(string, RowStatus)>, mismatches: nat)
    ensures rows == RowsFor(keys, RegistryStatus(reference, candidate))
    ensures mismatches == CountWith(keys, RegistryStatus(reference, candidate), Mismatch)
  {
    rows, mismatches := [], 0;
    for i := 0 to |keys|
      invariant rows == RowsFor(keys[..i], RegistryStatus(reference, candidate))
      invariant mismatches == CountWith(keys[..i], RegistryStatus(reference, candidate), Mismatch)
    {
      var referenceRow, candidateRow := At(reference.registry, keys[i]), At(candidate.registry, keys[i]);
      var status := if referenceRow == candidateRow && referenceRow.Some? then Match else Mismatch;
      CountOneMore(keys[..i], keys[i], RegistryStatus(reference, candidate), Mismatch);
      assert keys[..i + 1] == keys[..i] + [keys[i]];
      rows := rows + [(keys[i], status)];
      mismatches := mismatches + if status == Mismatch then 1 else 0;
    }
    assert keys[..|keys|] == keys;
  }

  method CompareSources(reference: Workspace, candidate: Workspace, expected: map<string, ExpectedDifference>, keys: seq<string>)
    returns (rows: seq<(string, RowStatus)>, mismatches: nat, drifts: nat)
    ensures rows == RowsFor(keys, SourceStatus(reference, candidate, expected))
    ensures mismatches == CountWith(keys, SourceStatus(reference, candidate, expected), Mismatch)
    ensures drifts == CountWith(keys, SourceStatus(reference, candidate, expected), PermittedDrift)
  {
    rows, mismatches, drifts := [], 0, 0;
    for i := 0 to |keys|
      invariant rows == RowsFor(keys[..i], SourceStatus(reference, candidate, expected))
      invariant mismatches == CountWith(keys[..i], SourceStatus(reference, candidate, expected), Mismatch)
      invariant drifts == CountWith(keys[..i], SourceStatus(reference, candidate, expected), PermittedDrift)
    {
      var status := SourceStatus(reference, candidate, expected)(keys[i]);
      CountOneMore(keys[..i], keys[i], SourceStatus(reference, candidate, expected), Mismatch);
      CountOneMore(keys[..i], keys[i], SourceStatus(reference, candidate, expected), PermittedDrift);
      assert keys[..i + 1] == keys[..i] + [keys[i]];
      rows := rows + [(keys[i], status)];
      mismatches := mismatches + if status == Mismatch then 1 else 0;
      drifts := drifts + if status == PermittedDrift then 1 else 0;
    }
    assert keys[..|keys|] == keys;
  }

  function Tagged(group: string, metrics: seq<string>): (r: seq<(string, string)>)
    ensures |r| == |metrics| && forall i :: 0 <= i < |r| ==> r[i] == (group, metrics[i])
  {
    seq(|metrics|, i requires 0 <= i < |metrics| => (group, metrics[i]))
  }

  method CompareGroup(reference: Workspace, candidate: Workspace, group: string, metrics: seq<string>)
    returns (rows: seq<((string, string), RowStatus)>, mismatches: nat)
    ensures MetricRows(reference, candidate, Tagged(group, metrics), rows, mismatches)
  {
    rows, mismatches := [], 0;
    ghost var done: seq<(string, string)> := [];
    for i := 0 to |metrics|
      invariant done == Tagged(group, metrics)[..i]
      invariant MetricRows(reference, candidate, done, rows, mismatches)
    {
      var referenceValue := ValueAt(GroupAt(reference, group), metrics[i]);
      var candidateValue := ValueAt(GroupAt(candidate, group), metrics[i]);
      var status := if referenceValue == candidateValue then Match else Mismatch;
      MetricRowsOneMore(reference, candidate, done, rows, mismatches, (group, metrics[i]));
      done := done + [(group, metrics[i])];
      rows := rows + [((group, metrics[i]), status)];
      mismatches := mismatches + if status == Mismatch then 1 else 0;
    }
    assert done == Tagged(group, metrics);
  }

  lemma MetricRowsOneMore(reference: Workspace, candidate: Workspace, order: seq<(string, string)>,
                          rows: seq<((string, string), RowStatus)>, mismatches: nat, metric: (string, string))
    requires MetricRows(reference, candidate, order, rows, mismatches)
    ensures var status := MetricStatus(reference, candidate)(metric);
            MetricRows(reference, candidate, order + [metric], rows + [(metric, status)], mismatches + if status == Mismatch then 1 else 0)
  {
    CountOneMore(order, metric, MetricStatus(reference, candidate), Mismatch);
  }

  lemma {:induction false} CountConcat<K>(a: seq<K>, b: seq<K>, status: K -> RowStatus, wanted: RowStatus)
    ensures CountWith(a + b, status, wanted) == CountWith(a, status, wanted) + CountWith(b, status, wanted)
  {
    if b == [] {
      assert a + b == a;
    } else {
      assert (a + b)[..|a + b| - 1] == a + b[..|b| - 1];
      CountConcat(a, b[..|b| - 1], status, wanted);
    }
  }

  /** `order` lists every metric of the listed groups once. */
  ghost predicate ListsMetrics(reference: Workspace, candidate: Workspace, groups: seq<string>, order: seq<(string, string)>) {
    && NoRepeats(order)
    && forall group, metric :: (group, metric) in order <==> group in groups && metric in Metrics(reference, candidate, group)
  }

  lemma GroupListed(reference: Workspace, candidate: Workspace, groups: seq<string>, order: seq<(string, string)>,
                    group: string, metrics: seq<string>)
    requires ListsMetrics(reference, candidate, groups, order) && group !in groups
    requires NoRepeats(metrics) && forall m :: m in metrics <==> m in Metrics(reference, candidate, group)
    ensures ListsMetrics(reference, candidate, groups + [group], order + Tagged(group, metrics))
  {
    var tagged := Tagged(group, metrics);
    forall p | p in tagged ensures p.0 == group && p.1 in metrics && p !in order {
      assert (p.0, p.1) == p;
    }
    forall m | m in metrics ensures (group, m) in tagged {
      var i :| 0 <= i < |metrics| && metrics[i] == m;
      assert tagged[i] == (group, m);
    }
    NoRepeatsConcat(order, tagged);
  }

  lemma AscendingHasNoRepeats<T>(leq: (T, T) -> bool, s: seq<T>)
    requires Ascending(leq, s)
    ensures NoRepeats(s)
  {}

  ghost predicate MetricRows(reference: Workspace, candidate: Workspace, order: seq<(string, string)>,
                             rows: seq<((string, string), RowStatus)>, mismatches: nat) {
    && rows == RowsFor(order, MetricStatus(reference, candidate))
    && mismatches == CountWith(order, MetricStatus(reference, candidate), Mismatch)
  }

  lemma MetricRowsGrow(reference: Workspace, candidate: Workspace, order: seq<(string, string)>, rows: seq<((string, string), RowStatus)>,
                       mismatches: nat, more: seq<(string, string)>, moreRows: seq<((string, string), RowStatus)>, moreMismatches: nat)
    requires MetricRows(reference, candidate, order, rows, mismatches)
    requires MetricRows(reference, candidate, more, moreRows, moreMismatches)
    ensures MetricRows(reference, candidate, order + more, rows + moreRows, mismatches + moreMismatches)
  {
    CountConcat(order, more, MetricStatus(reference, candidate), Mismatch);
  }

  /** By group, and within a group by metric. */
  function GroupThenMetric(leq: TextOrder): ((string, string), (string, string)) -> bool {
    (a: (string, string), b: (string, string)) => if a.0 == b.0 then leq(a.1, b.1) else leq(a.0, b.0)
  }

  lemma GroupAscends(leq: TextOrder, groups: seq<string>, order: seq<(string, string)>, group: string, metrics: seq<string>)
    requires Ascending(leq, groups + [group]) && Ascending(leq, metrics)
    requires Ascending(GroupThenMetric(leq), order) && forall p :: p in order ==> p.0 in groups
    ensures Ascending(GroupThenMetric(leq), order + Tagged(group, metrics))
  {
    var both := order + Tagged(group, metrics);
    forall g | g in groups ensures leq(g, group) && g != group {
      var i :| 0 <= i < |groups| && groups[i] == g;
      assert (groups + [group])[i] == g && (groups + [group])[|groups|] == group;
    }
    forall i, j | 0 <= i < j < |both| ensures GroupThenMetric(leq)(both[i], both[j]) && both[i] != both[j] {
      assert i < |order| ==> both[i] == order[i] && order[i] in order;
    }
  }

  lemma AscendingPrefix<T>(leq: (T, T) -> bool, s: seq<T>, i: nat)
    requires Ascending(leq, s) && i <= |s|
    ensures Ascending(leq, s[..i])
  {}

  method MetricsOf(leq: TextOrder, reference: Workspace, candidate: Workspace, group: string) returns (metrics: seq<string>)
    requires TotalOrder(leq)
    ensures Ascending(leq, metrics) && NoRepeats(metrics) && forall m :: m in metrics <==> m in Metrics(reference, candidate, group)
  {
    metrics := SortedKeys(leq, Metrics(reference, candidate, group));
    AscendingHasNoRepeats(leq, metrics);
  }

  /** The metrics of one more group, listed after those before. */
  lemma ListingGrows(leq: TextOrder, reference: Workspace, candidate: Workspace, groups: seq<string>, order: seq<(string, string)>,
                     group: string, metrics: seq<string>)
    requires Ascending(leq, groups + [group]) && Ascending(leq, metrics)
    requires ListsMetrics(reference, candidate, groups, order) && Ascending(GroupThenMetric(leq), order)
    requires forall m :: m in metrics <==> m in Metrics(reference, candidate, group)
    ensures ListsMetrics(reference, candidate, groups + [group], order + Tagged(group, metrics))
    ensures Ascending(GroupThenMetric(leq), order + Tagged(group, metrics))
  {
    AscendingHasNoRepeats(leq, groups + [group]);
    NoRepeatsOneMore(groups, group);
    AscendingHasNoRepeats(leq, metrics);
    forall p | p in order ensures p.0 in groups {
      assert (p.0, p.1) == p;
    }
    GroupListed(reference, candidate, groups, order, group, metrics);
    GroupAscends(leq, groups, order, group, metrics);
  }

  method CompareMetrics(leq: TextOrder, reference: Workspace, candidate: Workspace, groups: seq<string>)
    returns (rows: seq<((string, string), RowStatus)>, mismatches: nat, ghost order: seq<(string, string)>)
    requires TotalOrder(leq) && Ascending(leq, groups)
    ensures ListsMetrics(reference, candidate, groups, order) && Ascending(GroupThenMetric(leq), order)
    ensures MetricRows(reference, candidate, order, rows, mismatches)
  {
    rows, mismatches, order := [], 0, [];
    ghost var done: seq<string> := [];
    for i := 0 to |groups|
      invariant done == groups[..i]
      invariant ListsMetrics(reference, candidate, done, order) && Ascending(GroupThenMetric(leq), order)
      invariant MetricRows(reference, candidate, order, rows, mismatches)
    {
      var metrics := MetricsOf(leq, reference, candidate, groups[i]);
      var groupRows, groupMismatches := CompareGroup(reference, candidate, groups[i], metrics);
      TakenOneMore(groups, i, done);
      AscendingPrefix(leq, groups, i + 1);
      ListingGrows(leq, reference, candidate, done, order, groups[i], metrics);
      MetricRowsGrow(reference, candidate, order, rows, mismatches, Tagged(groups[i], metrics), groupRows, groupMismatches);
      done := done + [groups[i]];
      order := order + Tagged(groups[i], metrics);
      rows := rows + groupRows;
      mismatches := mismatches + groupMismatches;
    }
    TakenAll(groups, done);
  }

  // ----- the report -----

  datatype Verdict = Failed | Clean | PassedWithExpectedDifferences

  datatype Report = Report(
    captures: seq<(string, RowStatus)>, registry: seq<(string, RowStatus)>,
    sources: seq<(string, RowStatus)>, metrics: seq<((string, string), RowStatus)>,
    mismatchCount: nat, expectedDifferenceCount: nat, verdict: Verdict)

  lemma Listed<K(!new)>(keys: seq<K>, rows: seq<(K, RowStatus)>, all: set<K>, status: K -> RowStatus)
    requires NoRepeats(keys) && (forall k :: k in keys <==> k in all) && rows == RowsFor(keys, status)
    ensures Lists(rows, all, status)
    ensures forall wanted :: CountWith(keys, status, wanted) == |Those(all, status, wanted)|
  {
    assert KeysOf(rows) == keys;
    forall wanted ensures CountWith(keys, status, wanted) == |Those(all, status, wanted)| {
      CountIsSize(keys, status, wanted, Those(all, status, wanted));
    }
  }

  ghost predicate CapturesReported(reference: Workspace, candidate: Workspace, rows: seq<(string, RowStatus)>, mismatches: nat) {
    && Lists(rows, Captures(reference, candidate), CaptureStatus(reference, candidate))
    && mismatches == |BadCaptures(reference, candidate)|
  }

  ghost predicate RegistryReported(reference: Workspace, candidate: Workspace, rows: seq<(string, RowStatus)>, mismatches: nat) {
    && Lists(rows, RegistryKeys(reference, candidate), RegistryStatus(reference, candidate))
    && mismatches == |BadRegistry(reference, candidate)|
  }

  ghost predicate SourcesReported(reference: Workspace, candidate: Workspace, expected: map<string, ExpectedDifference>,
                                  rows: seq<(string, RowStatus)>, mismatches: nat, drifts: nat) {
    && Lists(rows, Sources(reference, candidate, expected), SourceStatus(reference, candidate, expected))
    && mismatches == |BadSources(reference, candidate, expected)|
    && drifts == |Drifting(reference, candidate, expected)|
  }

  ghost predicate MetricsReported(reference: Workspace, candidate: Workspace, rows: seq<((string, string), RowStatus)>, mismatches: nat) {
    && Lists(rows, AllMetrics(reference, candidate), MetricStatus(reference, candidate))
    && mismatches == |BadMetrics(reference, candidate)|
  }

  method CapturesReport(leq: TextOrder, reference: Workspace, candidate: Workspace)
    returns (rows: seq<(string, RowStatus)>, mismatches: nat)
    requires TotalOrder(leq)
    ensures Ascending(leq, KeysOf(rows))
    ensures CapturesReported(reference, candidate, rows, mismatches)
  {
    var keys := SortedKeys(leq, Captures(reference, candidate));
    AscendingHasNoRepeats(leq, keys);
    rows, mismatches := CompareCaptures(leq, reference, candidate, keys);
    assert KeysOf(rows) == keys;
    Listed(keys, rows, Captures(reference, candidate), CaptureStatus(reference, candidate));
  }

  method RegistryReport(leq: TextOrder, reference: Workspace, candidate: Workspace)
    returns (rows: seq<(string, RowStatus)>, mismatches: nat)
    requires TotalOrder(leq)
    ensures Ascending(leq, KeysOf(rows))
    ensures RegistryReported(reference, candidate, rows, mismatches)
  {
    var keys := SortedKeys(leq, RegistryKeys(reference, candidate));
    AscendingHasNoRepeats(leq, keys);
    rows, mismatches := CompareRegistries(reference, candidate, keys);
    assert KeysOf(rows) == keys;
    Listed(keys, rows, RegistryKeys(reference, candidate), RegistryStatus(reference, candidate));
  }

  method SourcesReport(leq: TextOrder, reference: Workspace, candidate: Workspace, expected: map<string, ExpectedDifference>)
    returns (rows: seq<(string, RowStatus)>, mismatches: nat, drifts: nat)
    requires TotalOrder(leq)
    ensures Ascending(leq, KeysOf(rows))
    ensures SourcesReported(reference, candidate, expected, rows, mismatches, drifts)
  {
    var keys := SortedKeys(leq, Sources(reference, candidate, expected));
    AscendingHasNoRepeats(leq, keys);
    rows, mismatches, drifts := CompareSources(reference, candidate, expected, keys);
    assert KeysOf(rows) == keys;
    Listed(keys, rows, Sources(reference, candidate, expected), SourceStatus(reference, candidate, expected));
  }

  method MetricsReport(leq: TextOrder, reference: Workspace, candidate: Workspace)
    returns (rows: seq<((string, string), RowStatus)>, mismatches: nat)
    requires TotalOrder(leq)
    ensures Ascending(GroupThenMetric(leq), KeysOf(rows))
    ensures MetricsReported(reference, candidate, rows, mismatches)
  {
    var groups := SortedKeys(leq, GroupNames(reference, candidate));
    ghost var order;
    rows, mismatches, order := CompareMetrics(leq, reference, candidate, groups);
    forall p ensures p in order <==> p in AllMetrics(reference, candidate) {
      assert p == (p.0, p.1);
    }
    assert KeysOf(rows) == order;
    Listed(order, rows, AllMetrics(reference, candidate), MetricStatus(reference, candidate));
  }

  /** Every comparison lists each of its keys once, in order, and the counters count exactly
      what differs and what differs as declared. */
  ghost predicate Reports(leq: TextOrder, reference: Workspace, candidate: Workspace, expected: map<string, ExpectedDifference>, report: Report) {
    && Ascending(leq, KeysOf(report.captures)) && Ascending(leq, KeysOf(report.registry)) && Ascending(leq, KeysOf(report.sources))
    && Ascending(GroupThenMetric(leq), KeysOf(report.metrics))
    && exists captures: nat, registry: nat, sources: nat, metrics: nat ::
      && CapturesReported(reference, candidate, report.captures, captures)
      && RegistryReported(reference, candidate, report.registry, registry)
      && SourcesReported(reference, candidate, expected, report.sources, sources, report.expectedDifferenceCount)
      && MetricsReported(reference, candidate, report.metrics, metrics)
      && report.mismatchCount == captures + registry + sources + metrics
  }

  method WriteParityReport(leq: TextOrder, reference: Workspace, candidate: Workspace, expected: map<string, ExpectedDifference>)
    returns (report: Report)
    requires TotalOrder(leq)
    ensures Reports(leq, reference, candidate, expected, report)
    ensures report.verdict == if report.mismatchCount > 0 then Failed
                              else if report.expectedDifferenceCount > 0 then PassedWithExpectedDifferences
                              else Clean
  {
    var captures, captureMismatches := CapturesReport(leq, reference, candidate);
    var registry, registryMismatches := RegistryReport(leq, reference, candidate);
    var sources, sourceMismatches, drifts := SourcesReport(leq, reference, candidate, expected);
    var metrics, metricMismatches := MetricsReport(leq, reference, candidate);
    var mismatchCount := captureMismatches + registryMismatches + sourceMismatches + metricMismatches;
    var verdict := if mismatchCount > 0 then Failed else if drifts > 0 then PassedWithExpectedDifferences else Clean;
    report := Report(captures, registry, sources, metrics, mismatchCount, drifts, verdict);
  }

  lemma ReportCounts(leq: TextOrder, reference: Workspace, candidate: Workspace, expected: map<string, ExpectedDifference>, report: Report)
    requires Reports(leq, reference, candidate, expected, report)
    ensures report.mismatchCount == Mismatches(reference, candidate, expected)
    ensures report.expectedDifferenceCount == |Drifting(reference, candidate, expected)|
  {}

  // ----- the verdict -----

  ghost predicate SignaturesAgree(reference: Workspace, candidate: Workspace) {
    forall key :: SignaturesAt(reference, key) == SignaturesAt(candidate, key)
  }

  /** Agreement as the comparison sees it: a blank signature does not show. */
  ghost predicate SignaturesAgreeButBlank(reference: Workspace, candidate: Workspace) {
    forall key :: SignaturesAt(reference, key) - {""} == SignaturesAt(candidate, key) - {""}
  }

  /** Signatures join a path, a digest and a size, so they are never blank. */
  ghost predicate NoBlankSignatures(w: Workspace) {
    forall key :: "" !in SignaturesAt(w, key)
  }

  ghost predicate SourceAgrees(reference: Workspace, candidate: Workspace, expected: map<string, ExpectedDifference>, source: string) {
    && source in reference.sources && source in candidate.sources
    && var r, c := reference.sources[source], candidate.sources[source];
      && r.facts == c.facts && r.snapshots == c.snapshots && r.references == c.references
      && c.issues == r.issues + ExpectedIssues(expected, source)
      && c.reviews == r.reviews + ExpectedReviews(expected, source)
  }

  ghost predicate SourcesAgree(reference: Workspace, candidate: Workspace, expected: map<string, ExpectedDifference>) {
    forall source :: source in Sources(reference, candidate, expected) ==> SourceAgrees(reference, candidate, expected, source)
  }

  ghost predicate CountsAgree(reference: Workspace, candidate: Workspace) {
    forall group, metric :: ValueAt(GroupAt(reference, group), metric) == ValueAt(GroupAt(candidate, group), metric)
  }

  lemma NoneLeft<K(!new)>(all: set<K>, status: K -> RowStatus, bad: set<K>)
    requires bad == Those(all, status, Mismatch)
    ensures |bad| == 0 <==> forall k :: k in all ==> status(k) != Mismatch
  {
    if k :| k in all && status(k) == Mismatch {
      assert k in bad;
    }
  }

  lemma BlankAside(r: set<string>, c: set<string>)
    ensures Unremarkable(r - c) && Unremarkable(c - r) <==> r - {""} == c - {""}
  {
    if Unremarkable(r - c) && Unremarkable(c - r) {
      assert forall s :: s in r - {""} ==> s !in r - c;
      assert forall s :: s in c - {""} ==> s !in c - r;
    }
    if r - {""} == c - {""} {
      forall s | s in r - c ensures s == "" {
        assert s in r - {""} <==> s in c - {""};
      }
      forall s | s in c - r ensures s == "" {
        assert s in r - {""} <==> s in c - {""};
      }
    }
  }

  lemma CapturesVerdict(reference: Workspace, candidate: Workspace)
    ensures |BadCaptures(reference, candidate)| == 0 <==> SignaturesAgreeButBlank(reference, candidate)
  {
    NoneLeft(Captures(reference, candidate), CaptureStatus(reference, candidate), BadCaptures(reference, candidate));
    forall key ensures CaptureStatus(reference, candidate)(key) != Mismatch
                       <==> SignaturesAt(reference, key) - {""} == SignaturesAt(candidate, key) - {""} {
      BlankAside(SignaturesAt(reference, key), SignaturesAt(candidate, key));
    }
  }

  lemma RegistryVerdict(reference: Workspace, candidate: Workspace)
    ensures |BadRegistry(reference, candidate)| == 0 <==> reference.registry == candidate.registry
  {
    NoneLeft(RegistryKeys(reference, candidate), RegistryStatus(reference, candidate), BadRegistry(reference, candidate));
    if |BadRegistry(reference, candidate)| == 0 {
      forall key | key in RegistryKeys(reference, candidate)
        ensures key in reference.registry && key in candidate.registry && reference.registry[key] == candidate.registry[key]
      {
        assert RegistryStatus(reference, candidate)(key) != Mismatch;
      }
    }
  }

  lemma SourceVerdict(reference: Workspace, candidate: Workspace, expected: map<string, ExpectedDifference>, source: string)
    ensures SourceStatus(reference, candidate, expected)(source) != Mismatch
            <==> SourceAgrees(reference, candidate, expected, source)
  {}

  lemma SourcesVerdict(reference: Workspace, candidate: Workspace, expected: map<string, ExpectedDifference>)
    ensures |BadSources(reference, candidate, expected)| == 0 <==> SourcesAgree(reference, candidate, expected)
  {
    NoneLeft(Sources(reference, candidate, expected), SourceStatus(reference, candidate, expected), BadSources(reference, candidate, expected));
    forall source ensures SourceStatus(reference, candidate, expected)(source) != Mismatch
                          <==> SourceAgrees(reference, candidate, expected, source) {
      SourceVerdict(reference, candidate, expected, source);
    }
  }

  lemma MetricsVerdict(reference: Workspace, candidate: Workspace)
    ensures |BadMetrics(reference, candidate)| == 0 <==> CountsAgree(reference, candidate)
  {
    NoneLeft(AllMetrics(reference, candidate), MetricStatus(reference, candidate), BadMetrics(reference, candidate));
    if CountsAgree(reference, candidate) {
      forall p | p in AllMetrics(reference, candidate) ensures MetricStatus(reference, candidate)(p) != Mismatch {
        assert ValueAt(GroupAt(reference, p.0), p.1) == ValueAt(GroupAt(candidate, p.0), p.1);
      }
    } else {
      var group, metric :| ValueAt(GroupAt(reference, group), metric) != ValueAt(GroupAt(candidate, group), metric);
      assert (group, metric) in AllMetrics(reference, candidate);
      assert MetricStatus(reference, candidate)((group, metric)) == Mismatch;
    }
  }

  /** The mismatch count is zero exactly when everything agrees, blank signatures aside. */
  lemma PassesExactly(reference: Workspace, candidate: Workspace, expected: map<string, ExpectedDifference>)
    ensures Mismatches(reference, candidate, expected) == 0
            <==> && SignaturesAgreeButBlank(reference, candidate)
                 && reference.registry == candidate.registry
                 && SourcesAgree(reference, candidate, expected)
                 && CountsAgree(reference, candidate)
  {
    var sizes := (|BadCaptures(reference, candidate)|, |BadRegistry(reference, candidate)|,
                  |BadSources(reference, candidate, expected)|, |BadMetrics(reference, candidate)|);
    CapturesVerdict(reference, candidate);
    RegistryVerdict(reference, candidate);
    SourcesVerdict(reference, candidate, expected);
    MetricsVerdict(reference, candidate);
    assert Mismatches(reference, candidate, expected) == sizes.0 + sizes.1 + sizes.2 + sizes.3;
  }

  lemma BlanksDoNotOccur(reference: Workspace, candidate: Workspace)
    requires NoBlankSignatures(reference) && NoBlankSignatures(candidate)
    ensures SignaturesAgreeButBlank(reference, candidate) <==> SignaturesAgree(reference, candidate)
  {
    forall key ensures SignaturesAt(reference, key) - {""} == SignaturesAt(reference, key)
                    && SignaturesAt(candidate, key) - {""} == SignaturesAt(candidate, key) {
    }
  }

  /** So with the signatures there are, it is zero exactly when everything agrees outright. */
  lemma PassesExactlyOutright(reference: Workspace, candidate: Workspace, expected: map<string, ExpectedDifference>)
    requires NoBlankSignatures(reference) && NoBlankSignatures(candidate)
    ensures Mismatches(reference, candidate, expected) == 0
            <==> && SignaturesAgree(reference, candidate)
                 && reference.registry == candidate.registry
                 && SourcesAgree(reference, candidate, expected)
                 && CountsAgree(reference, candidate)
  {
    PassesExactly(reference, candidate, expected);
    BlanksDoNotOccur(reference, candidate);
  }

  predicate DeclaresDifference(expected: map<string, ExpectedDifference>, source: string) {
    ExpectedIssues(expected, source) != 0 || ExpectedReviews(expected, source) != 0
  }

  lemma AgreeingDrift(reference: Workspace, candidate: Workspace, expected: map<string, ExpectedDifference>, source: string)
    requires SourceAgrees(reference, candidate, expected, source)
    ensures SourceStatus(reference, candidate, expected)(source) == PermittedDrift <==> DeclaresDifference(expected, source)
  {}

  /** In a passing report the expected differences counted are the sources that declare one. */
  lemma PassingCountsDeclared(reference: Workspace, candidate: Workspace, expected: map<string, ExpectedDifference>)
    requires Mismatches(reference, candidate, expected) == 0
    ensures Drifting(reference, candidate, expected) == set source | source in expected && DeclaresDifference(expected, source)
  {
    PassesExactly(reference, candidate, expected);
    forall source | source in Sources(reference, candidate, expected)
      ensures SourceStatus(reference, candidate, expected)(source) == PermittedDrift <==> DeclaresDifference(expected, source)
    {
      AgreeingDrift(reference, candidate, expected, source);
    }
  }
}
