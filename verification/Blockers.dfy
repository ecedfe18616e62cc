/** What keeps a portfolio from being clean, one record per source and kind. */
module Blockers {
  import opened Wrappers
  import opened Ordering
  import opened Grouping
  import opened Decimals
  import opened BalanceSummary

  datatype BlockerKind = ReferencesMissing | TargetsMissing | InputsMissing | CheckFailed | UnsupportedHydration

  datatype BlockerKey = BlockerKey(source: string, kind: BlockerKind)

  datatype Blocker = Blocker(key: BlockerKey, count: nat, notes: string)

  /** One reason a record gives for a blocker. */
  datatype Reason = Reason(key: BlockerKey, notes: string)

  function InspectBlockerKind(r: InspectRecord): Option<BlockerKind> {
    match r.offlineReady
    case MissingReferences => Some(ReferencesMissing)
    case NoBalanceTargets => Some(TargetsMissing)
    case NoBalanceInputs => Some(InputsMissing)
    case Ready => None
  }

  function InspectBlockerNotes(r: InspectRecord): string {
    if r.offlineReady == NoBalanceInputs && r.supersededOutputs > 0
    then "unexpected superseded outputs present: " + Digits(r.supersededOutputs)
    else ""
  }

  function CountIssueKind(counts: seq<(string, nat)>, kind: string): nat {
    if counts == [] then 0 else if counts[0].0 == kind then counts[0].1 else CountIssueKind(counts[1..], kind)
  }

  /** The first count listed for the kind, or none. */
  lemma {:induction false} CountExactly(counts: seq<(string, nat)>, kind: string, n: nat)
    requires n > 0
    ensures CountIssueKind(counts, kind) == n
            <==> exists i :: 0 <= i < |counts| && counts[i] == (kind, n) && forall j :: 0 <= j < i ==> counts[j].0 != kind
    decreases |counts|
  {
    if counts != [] && counts[0].0 != kind {
      var rest := counts[1..];
      CountExactly(rest, kind, n);
      if i :| 0 <= i < |counts| && counts[i] == (kind, n) && forall j :: 0 <= j < i ==> counts[j].0 != kind {
        assert rest[i - 1] == (kind, n) && forall j :: 0 <= j < i - 1 ==> rest[j] == counts[j + 1];
      }
      if i :| 0 <= i < |rest| && rest[i] == (kind, n) && forall j :: 0 <= j < i ==> rest[j].0 != kind {
        assert counts[i + 1] == (kind, n);
        assert forall j :: 0 <= j < i + 1 ==> j == 0 || counts[j] == rest[j - 1];
      }
    }
  }

  predicate HydrationUnsupported(record: CheckRecord) {
    record.status == Issues && record.hydrated && CountIssueKind(record.issueKinds, "unsupported_balance_provider") > 0
  }

  function CheckBlockerKind(record: CheckRecord): Option<BlockerKind> {
    if record.status == Failed then Some(CheckFailed)
    else if record.status == NotRunnable then Some(InputsMissing)
    else if record.status == NoTargets then Some(TargetsMissing)
    else if HydrationUnsupported(record) then Some(UnsupportedHydration)
    else None
  }

  function CheckBlockerNotes(record: CheckRecord): string {
    if record.status == Failed then record.error else ""
  }

  function InspectReason(): InspectRecord -> seq<Reason> {
    (r: InspectRecord) =>
      match InspectBlockerKind(r)
      case None => []
      case Some(kind) => [Reason(BlockerKey(r.source, kind), InspectBlockerNotes(r))]
  }

  function CheckReason(): CheckRecord -> seq<Reason> {
    (record: CheckRecord) =>
      match CheckBlockerKind(record)
      case None => []
      case Some(kind) => [Reason(BlockerKey(record.source, kind), CheckBlockerNotes(record))]
  }

  /** All reasons, those of the inspection first. */
  function Reasons(inspects: seq<InspectRecord>, checks: seq<CheckRecord>): seq<Reason> {
    Chain(inspects, InspectReason()) + Chain(checks, CheckReason())
  }

  // ----- merging -----

  predicate Given(reasons: seq<Reason>, key: BlockerKey) {
    exists r | r in reasons :: r.key == key
  }

  /** The first note given for a key that is not blank. */
  function FirstNote(reasons: seq<Reason>, key: BlockerKey): string {
    if reasons == [] then ""
    else if reasons[0].key == key && reasons[0].notes != "" then reasons[0].notes
    else FirstNote(reasons[1..], key)
  }

  ghost predicate Merged(reasons: seq<Reason>, blockers: map<BlockerKey, Blocker>) {
    && (forall key :: key in blockers <==> Given(reasons, key))
    && (forall key :: key in blockers ==> blockers[key] == Blocker(key, 1, FirstNote(reasons, key)))
  }

  function MergeBlocker(blockers: map<BlockerKey, Blocker>, reason: Reason): map<BlockerKey, Blocker> {
    if reason.key !in blockers then blockers[reason.key := Blocker(reason.key, 1, reason.notes)]
    else
      var existing := blockers[reason.key];
      if reason.notes != "" && existing.notes == ""
      then blockers[reason.key := Blocker(existing.key, existing.count, reason.notes)]
      else blockers
  }

  lemma {:induction false} FirstNoteOneMore(reasons: seq<Reason>, r: Reason, key: BlockerKey)
    ensures FirstNote(reasons + [r], key)
         == if FirstNote(reasons, key) != "" then FirstNote(reasons, key)
            else if r.key == key then r.notes else ""
  {
    if reasons == [] {
      assert reasons + [r] == [r];
    } else {
      assert (reasons + [r])[1..] == reasons[1..] + [r];
      FirstNoteOneMore(reasons[1..], r, key);
    }
  }

  lemma {:induction false} NoNote(reasons: seq<Reason>, key: BlockerKey)
    requires !Given(reasons, key)
    ensures FirstNote(reasons, key) == ""
  {
    if reasons != [] {
      assert reasons[0] in reasons;
      NoNote(reasons[1..], key);
    }
  }

  lemma MergedOneMore(reasons: seq<Reason>, blockers: map<BlockerKey, Blocker>, r: Reason)
    requires Merged(reasons, blockers)
    ensures Merged(reasons + [r], MergeBlocker(blockers, r))
  {
    var grown := MergeBlocker(blockers, r);
    assert r in reasons + [r];
    assert forall x :: x in reasons + [r] <==> x in reasons || x == r;
    forall key ensures key in grown <==> Given(reasons + [r], key) {
      if key == r.key { assert Given(reasons + [r], key); }
    }
    forall key | key in grown ensures grown[key] == Blocker(key, 1, FirstNote(reasons + [r], key)) {
      FirstNoteOneMore(reasons, r, key);
      if key !in blockers { NoNote(reasons, key); }
    }
  }

  method MergeInspections(inspects: seq<InspectRecord>) returns (blockers: map<BlockerKey, Blocker>)
    ensures Merged(Chain(inspects, InspectReason()), blockers)
  {
    blockers := map[];
    for i := 0 to |inspects|
      invariant Merged(Chain(inspects[..i], InspectReason()), blockers)
    {
      ghost var before := Chain(inspects[..i], InspectReason());
      assert inspects[..i + 1] == inspects[..i] + [inspects[i]];
      ChainOneMore(inspects[..i], inspects[i], InspectReason());
      var kind := InspectBlockerKind(inspects[i]);
      if kind.None? {
        assert before + [] == before;
        continue;
      }
      var reason := Reason(BlockerKey(inspects[i].source, kind.value), InspectBlockerNotes(inspects[i]));
      MergedOneMore(before, blockers, reason);
      blockers := MergeBlocker(blockers, reason);
    }
    assert inspects[..|inspects|] == inspects;
  }

  method MergeChecks(ghost before: seq<Reason>, held: map<BlockerKey, Blocker>, checks: seq<CheckRecord>)
    returns (blockers: map<BlockerKey, Blocker>)
    requires Merged(before, held)
    ensures Merged(before + Chain(checks, CheckReason()), blockers)
  {
    blockers := held;
    assert before + [] == before;
    for i := 0 to |checks|
      invariant Merged(before + Chain(checks[..i], CheckReason()), blockers)
    {
      ghost var done := Chain(checks[..i], CheckReason());
      assert checks[..i + 1] == checks[..i] + [checks[i]];
      ChainOneMore(checks[..i], checks[i], CheckReason());
      var kind := CheckBlockerKind(checks[i]);
      if kind.None? {
        assert done + [] == done;
        continue;
      }
      var reason := Reason(BlockerKey(checks[i].source, kind.value), CheckBlockerNotes(checks[i]));
      MergedOneMore(before + done, blockers, reason);
      assert (before + done) + [reason] == before + (done + [reason]);
      blockers := MergeBlocker(blockers, reason);
    }
    assert checks[..|checks|] == checks;
  }

  function KeysOf(blockers: seq<Blocker>): (r: seq<BlockerKey>)
    ensures |r| == |blockers| && forall i :: 0 <= i < |r| ==> r[i] == blockers[i].key
  {
    seq(|blockers|, i requires 0 <= i < |blockers| => blockers[i].key)
  }

  /** One blocker per key that has a reason, in key order, with the first note given. */
  ghost predicate Listed(leq: (BlockerKey, BlockerKey) -> bool, reasons: seq<Reason>, blockers: seq<Blocker>) {
    && Ascending(leq, KeysOf(blockers))
    && (forall key :: key in KeysOf(blockers) <==> Given(reasons, key))
    && (forall b :: b in blockers ==> b == Blocker(b.key, 1, FirstNote(reasons, b.key)))
  }

  method BuildBlockers(leq: (BlockerKey, BlockerKey) -> bool, inspects: seq<InspectRecord>, checks: seq<CheckRecord>)
    returns (blockers: seq<Blocker>)
    requires TotalOrder(leq)
    ensures Listed(leq, Reasons(inspects, checks), blockers)
  {
    var inspected := MergeInspections(inspects);
    var merged := MergeChecks(Chain(inspects, InspectReason()), inspected, checks);
    var keys := SortedKeys(leq, merged.Keys);
    blockers := seq(|keys|, i requires 0 <= i < |keys| && keys[i] in merged => merged[keys[i]]);
    assert KeysOf(blockers) == keys;
  }

  /** What an inspection says that is listed as this kind. */
  predicate InspectionSays(r: InspectRecord, kind: BlockerKind) {
    match r.offlineReady
    case MissingReferences => kind == ReferencesMissing
    case NoBalanceTargets => kind == TargetsMissing
    case NoBalanceInputs => kind == InputsMissing
    case Ready => false
  }

  /** What a check says that is. */
  predicate CheckSays(c: CheckRecord, kind: BlockerKind) {
    match c.status
    case Failed => kind == CheckFailed
    case NotRunnable => kind == InputsMissing
    case NoTargets => kind == TargetsMissing
    case Issues => kind == UnsupportedHydration && c.hydrated && CountIssueKind(c.issueKinds, "unsupported_balance_provider") > 0
    case Clean => false
  }

  /** When a source is listed with a kind: for what its inspection or one of its checks says. */
  ghost predicate Warranted(inspects: seq<InspectRecord>, checks: seq<CheckRecord>, source: string, kind: BlockerKind) {
    || (exists r :: r in inspects && r.source == source && InspectionSays(r, kind))
    || (exists c :: c in checks && c.source == source && CheckSays(c, kind))
  }

  lemma InspectionGives(inspects: seq<InspectRecord>, key: BlockerKey)
    ensures Given(Chain(inspects, InspectReason()), key)
            <==> exists r :: r in inspects && r.source == key.source && InspectBlockerKind(r) == Some(key.kind)
  {
    if r :| r in inspects && r.source == key.source && InspectBlockerKind(r) == Some(key.kind) {
      var reason := Reason(key, InspectBlockerNotes(r));
      ChainMembers(inspects, InspectReason(), reason);
      assert reason in InspectReason()(r);
    }
    if reason :| reason in Chain(inspects, InspectReason()) && reason.key == key {
      ChainMembers(inspects, InspectReason(), reason);
    }
  }

  lemma CheckGives(checks: seq<CheckRecord>, key: BlockerKey)
    ensures Given(Chain(checks, CheckReason()), key)
            <==> exists c :: c in checks && c.source == key.source && CheckBlockerKind(c) == Some(key.kind)
  {
    if c :| c in checks && c.source == key.source && CheckBlockerKind(c) == Some(key.kind) {
      var reason := Reason(key, CheckBlockerNotes(c));
      ChainMembers(checks, CheckReason(), reason);
      assert reason in CheckReason()(c);
    }
    if reason :| reason in Chain(checks, CheckReason()) && reason.key == key {
      ChainMembers(checks, CheckReason(), reason);
    }
  }

  lemma InspectionSaysSo(inspects: seq<InspectRecord>, key: BlockerKey)
    ensures Given(Chain(inspects, InspectReason()), key)
            <==> exists r :: r in inspects && r.source == key.source && InspectionSays(r, key.kind)
  {
    InspectionGives(inspects, key);
    assert forall r: InspectRecord :: InspectBlockerKind(r) == Some(key.kind) <==> InspectionSays(r, key.kind);
  }

  lemma CheckSaysSo(checks: seq<CheckRecord>, key: BlockerKey)
    ensures Given(Chain(checks, CheckReason()), key)
            <==> exists c :: c in checks && c.source == key.source && CheckSays(c, key.kind)
  {
    CheckGives(checks, key);
    assert forall c: CheckRecord :: CheckBlockerKind(c) == Some(key.kind) <==> CheckSays(c, key.kind);
  }

  lemma GivenEither(a: seq<Reason>, b: seq<Reason>, key: BlockerKey)
    ensures Given(a + b, key) <==> Given(a, key) || Given(b, key)
  {
    assert forall reason :: reason in a + b <==> reason in a || reason in b;
  }

  /** A source is listed with a kind exactly when that is warranted. */
  lemma BlockersExactly(leq: (BlockerKey, BlockerKey) -> bool, inspects: seq<InspectRecord>, checks: seq<CheckRecord>,
                        blockers: seq<Blocker>, key: BlockerKey)
    requires Listed(leq, Reasons(inspects, checks), blockers)
    ensures key in KeysOf(blockers) <==> Warranted(inspects, checks, key.source, key.kind)
  {
    InspectionSaysSo(inspects, key);
    CheckSaysSo(checks, key);
    GivenEither(Chain(inspects, InspectReason()), Chain(checks, CheckReason()), key);
  }

  // ----- the note of a failure -----

  /** The first error given by a failed check of the source that is not blank. */
  function FirstError(checks: seq<CheckRecord>, source: string): string {
    if checks == [] then ""
    else if checks[0].source == source && checks[0].status == Failed && checks[0].error != "" then checks[0].error
    else FirstError(checks[1..], source)
  }

  lemma {:induction false} FirstNoteConcat(a: seq<Reason>, b: seq<Reason>, key: BlockerKey)
    ensures FirstNote(a + b, key) == if FirstNote(a, key) != "" then FirstNote(a, key) else FirstNote(b, key)
    decreases |a|
  {
    if a == [] {
      assert a + b == b;
    } else {
      assert (a + b)[1..] == a[1..] + b;
      FirstNoteConcat(a[1..], b, key);
    }
  }

  lemma OneReasonNote(record: CheckRecord, source: string)
    ensures FirstNote(CheckReason()(record), BlockerKey(source, CheckFailed))
         == if record.source == source && record.status == Failed then record.error else ""
  {
    var reasons := CheckReason()(record);
    assert reasons != [] ==> reasons[1..] == [];
    NoNote([], BlockerKey(source, CheckFailed));
  }

  lemma ChainFirst<A, B>(items: seq<A>, piece: A -> seq<B>)
    requires items != []
    ensures Chain(items, piece) == piece(items[0]) + Chain(items[1..], piece)
  {
    assert items == [items[0]] + items[1..];
    ChainConcat([items[0]], items[1..], piece);
    assert [items[0]][..0] == [] && Chain([items[0]], piece) == piece(items[0]);
  }

  lemma {:induction false} NotesOfFailures(checks: seq<CheckRecord>, source: string)
    ensures FirstNote(Chain(checks, CheckReason()), BlockerKey(source, CheckFailed)) == FirstError(checks, source)
    decreases |checks|
  {
    if checks != [] {
      NotesOfFailures(checks[1..], source);
      ChainFirst(checks, CheckReason());
      OneReasonNote(checks[0], source);
      FirstNoteConcat(CheckReason()(checks[0]), Chain(checks[1..], CheckReason()), BlockerKey(source, CheckFailed));
    }
  }

  /** The blocker of a source whose check failed carries its first error. */
  lemma FailureIsNoted(leq: (BlockerKey, BlockerKey) -> bool, inspects: seq<InspectRecord>, checks: seq<CheckRecord>,
                       blockers: seq<Blocker>, b: Blocker)
    requires Listed(leq, Reasons(inspects, checks), blockers) && b in blockers && b.key.kind == CheckFailed
    ensures b.notes == FirstError(checks, b.key.source)
  {
    var key := BlockerKey(b.key.source, CheckFailed);
    InspectionGives(inspects, key);
    NoNote(Chain(inspects, InspectReason()), key);
    FirstNoteConcat(Chain(inspects, InspectReason()), Chain(checks, CheckReason()), key);
    NotesOfFailures(checks, b.key.source);
  }

  /** The note of the first inspection without inputs that found superseded outputs. */
  function FirstSuperseded(inspects: seq<InspectRecord>, source: string): string {
    if inspects == [] then ""
    else if inspects[0].source == source && inspects[0].offlineReady == NoBalanceInputs && inspects[0].supersededOutputs > 0
    then "unexpected superseded outputs present: " + Digits(inspects[0].supersededOutputs)
    else FirstSuperseded(inspects[1..], source)
  }

  lemma OneInspectionNote(r: InspectRecord, source: string)
    ensures FirstNote(InspectReason()(r), BlockerKey(source, InputsMissing)) == FirstSuperseded([r], source)
  {
    var reasons := InspectReason()(r);
    assert reasons != [] ==> reasons[1..] == [];
    assert [r][1..] == [];
    NoNote([], BlockerKey(source, InputsMissing));
  }

  lemma {:induction false} NotesOfInspections(inspects: seq<InspectRecord>, source: string)
    ensures FirstNote(Chain(inspects, InspectReason()), BlockerKey(source, InputsMissing)) == FirstSuperseded(inspects, source)
    decreases |inspects|
  {
    if inspects != [] {
      NotesOfInspections(inspects[1..], source);
      ChainFirst(inspects, InspectReason());
      OneInspectionNote(inspects[0], source);
      assert [inspects[0]][1..] == [];
      FirstNoteConcat(InspectReason()(inspects[0]), Chain(inspects[1..], InspectReason()), BlockerKey(source, InputsMissing));
    }
  }

  lemma {:induction false} ChecksNoteFailuresOnly(checks: seq<CheckRecord>, source: string)
    ensures FirstNote(Chain(checks, CheckReason()), BlockerKey(source, InputsMissing)) == ""
    decreases |checks|
  {
    if checks != [] {
      ChecksNoteFailuresOnly(checks[1..], source);
      ChainFirst(checks, CheckReason());
      var reasons := CheckReason()(checks[0]);
      assert reasons != [] ==> reasons[1..] == [];
      FirstNoteConcat(reasons, Chain(checks[1..], CheckReason()), BlockerKey(source, InputsMissing));
    }
  }

  /** The blocker of a source without inputs tells of superseded outputs when there are any. */
  lemma SupersededIsNoted(leq: (BlockerKey, BlockerKey) -> bool, inspects: seq<InspectRecord>, checks: seq<CheckRecord>,
                          blockers: seq<Blocker>, b: Blocker)
    requires Listed(leq, Reasons(inspects, checks), blockers) && b in blockers && b.key.kind == InputsMissing
    ensures b.notes == FirstSuperseded(inspects, b.key.source)
  {
    var key := BlockerKey(b.key.source, InputsMissing);
    FirstNoteConcat(Chain(inspects, InspectReason()), Chain(checks, CheckReason()), key);
    NotesOfInspections(inspects, b.key.source);
    ChecksNoteFailuresOnly(checks, b.key.source);
  }

  // ----- no blockers -----

  /** There is nothing to list exactly when every source is ready and no check failed, could
      not run, had no targets, or hydrated without a provider. */
  lemma NoBlockersExactly(leq: (BlockerKey, BlockerKey) -> bool, inspects: seq<InspectRecord>, checks: seq<CheckRecord>, blockers: seq<Blocker>)
    requires Listed(leq, Reasons(inspects, checks), blockers)
    ensures blockers == []
            <==> && (forall r :: r in inspects ==> r.offlineReady == Ready)
                 && (forall c :: c in checks ==> c.status in {Clean, Issues} && !HydrationUnsupported(c))
  {
    var reasons := Reasons(inspects, checks);
    forall r | r in inspects ensures r.offlineReady == Ready <==> InspectReason()(r) == [] {}
    forall c | c in checks ensures (c.status in {Clean, Issues} && !HydrationUnsupported(c)) <==> CheckReason()(c) == [] {}
    NothingChained(inspects, InspectReason());
    NothingChained(checks, CheckReason());
    if blockers == [] && reasons != [] {
      assert reasons[0] in reasons;
      assert Given(reasons, reasons[0].key);
    }
    if blockers != [] {
      assert KeysOf(blockers)[0] in KeysOf(blockers);
    }
  }

  lemma {:induction false} NothingChained<A, B>(items: seq<A>, piece: A -> seq<B>)
    ensures Chain(items, piece) == [] <==> forall a :: a in items ==> piece(a) == []
  {
    if items != [] {
      var init, last := items[..|items| - 1], items[|items| - 1];
      assert items == init + [last];
      NothingChained(init, piece);
      assert last in items;
      assert forall a :: a in init ==> a in items;
    }
  }

  /** The check is the one on record for a source that was inspected. */
  ghost predicate OnRecord(inspects: seq<InspectRecord>, checks: seq<CheckRecord>, c: CheckRecord) {
    CheckOf(checks, c.source) == Some(c) && exists r :: r in inspects && r.source == c.source
  }

  lemma OnRecordDoesNotBlock(inspects: seq<InspectRecord>, checks: seq<CheckRecord>, c: CheckRecord)
    requires PortfolioDate(inspects, checks, CleanDate()).Some? && OnRecord(inspects, checks, c)
    ensures c.status == Clean
  {
    PortfolioDateExactly(inspects, checks, CleanDate());
    var r :| r in inspects && r.source == c.source;
    assert SourceDate(checks, CleanDate(), r.source).Some?;
  }

  /** Under a portfolio clean date the blockers are empty exactly when no check that is not
      on record for an inspected source, being superseded or of no such source, blocks. */
  lemma PortfolioDateBlockersExactly(leq: (BlockerKey, BlockerKey) -> bool, inspects: seq<InspectRecord>, checks: seq<CheckRecord>,
                                     blockers: seq<Blocker>)
    requires Listed(leq, Reasons(inspects, checks), blockers) && PortfolioDate(inspects, checks, CleanDate()).Some?
    ensures blockers == [] <==> forall c :: c in checks && !OnRecord(inspects, checks, c) ==> CheckBlockerKind(c) == None
  {
    NoBlockersExactly(leq, inspects, checks, blockers);
    PortfolioDateExactly(inspects, checks, CleanDate());
    forall c | c in checks && OnRecord(inspects, checks, c) ensures CheckBlockerKind(c) == None {
      OnRecordDoesNotBlock(inspects, checks, c);
    }
    forall c | c in checks
      ensures CheckBlockerKind(c) == None <==> c.status in {Clean, Issues} && !HydrationUnsupported(c)
    {
    }
  }

  /** In particular when every check is the one on record for an inspected source. */
  lemma PortfolioDateMeansNoBlockers(leq: (BlockerKey, BlockerKey) -> bool, inspects: seq<InspectRecord>, checks: seq<CheckRecord>,
                                     blockers: seq<Blocker>)
    requires Listed(leq, Reasons(inspects, checks), blockers)
    requires forall c :: c in checks ==> OnRecord(inspects, checks, c)
    ensures PortfolioDate(inspects, checks, CleanDate()).Some? ==> blockers == []
  {
    if PortfolioDate(inspects, checks, CleanDate()).Some? {
      PortfolioDateBlockersExactly(leq, inspects, checks, blockers);
    }
  }

  lemma OneReadySource(inspect: InspectRecord, checks: seq<CheckRecord>, clean: CheckRecord)
    requires inspect.offlineReady == Ready
    requires CheckOf(checks, inspect.source) == Some(clean) && clean.status == Clean && clean.cleanDate.Some?
    ensures PortfolioDate([inspect], checks, CleanDate()).Some?
  {
    PortfolioDateExactly([inspect], checks, CleanDate());
  }

  lemma FailureBlocks(leq: (BlockerKey, BlockerKey) -> bool, inspects: seq<InspectRecord>, checks: seq<CheckRecord>,
                      failed: CheckRecord, blockers: seq<Blocker>)
    requires failed in checks && failed.status == Failed && Listed(leq, Reasons(inspects, checks), blockers)
    ensures blockers != []
  {
    NoBlockersExactly(leq, inspects, checks, blockers);
  }

  /** A later clean check can hide an earlier failed one of the same source:
      the portfolio has a date and yet a blocker. */
  lemma HiddenFailureKeepsBlocker(leq: (BlockerKey, BlockerKey) -> bool, inspect: InspectRecord, checks: seq<CheckRecord>,
                                  failed: CheckRecord, clean: CheckRecord, blockers: seq<Blocker>)
    requires inspect.offlineReady == Ready && failed in checks && failed.status == Failed
    requires CheckOf(checks, inspect.source) == Some(clean) && clean.status == Clean && clean.cleanDate.Some?
    requires Listed(leq, Reasons([inspect], checks), blockers)
    ensures PortfolioDate([inspect], checks, CleanDate()).Some? && blockers != []
  {
    OneReadySource(inspect, checks, clean);
    FailureBlocks(leq, [inspect], checks, failed, blockers);
  }
}
