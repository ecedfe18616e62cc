/** The review-check executor: a loop that runs what is ready, records what is
    blocked, stops early on request and gives up when nothing can move. */
module Executor {
  import opened Sequences
  import opened CheckSpecs
  import opened Settlement
  import opened FailureCauses
  import opened ParallelWork
  import opened Scheduling
  import opened SchedulingInvariants

  predicate BlockingFailure<K(==)>(catalog: Catalog<K>, r: CheckResult<K>) {
    r.checkId in catalog && catalog[r.checkId].blocking && r.status == Failed
  }

  /** The skipped results that follow a result for `previous`. */
  function Skips<K>(previous: K, pending: seq<K>): (skips: seq<CheckResult<K>>)
    ensures |skips| == |pending| && Ids(skips) == pending
    ensures forall i :: 0 <= i < |skips| ==>
              skips[i] == CheckResult(pending[i], Skipped, FailFastAfter(if i == 0 then previous else pending[i - 1]))
  {
    seq(|pending|, i requires 0 <= i < |pending| =>
      CheckResult(pending[i], Skipped, FailFastAfter(if i == 0 then previous else pending[i - 1])))
  }

  /** The first `ran` results carry the settled statuses; the rest are skipped, each
      naming the result recorded just before it. Every check of the plan is recorded. */
  ghost predicate Completed<K(!new)>(s: Setup<K>, results: seq<CheckResult<K>>, ran: nat)
    requires InCatalog(s)
  {
    && ran <= |results|
    && (forall i :: 0 <= i < ran ==> results[i].status != Skipped && Settles(s, results[i].checkId, results[i].status))
    && (ran < |results| ==> 0 < ran && results[ran..] == Skips(results[ran - 1].checkId, Ids(results[ran..])))
    && (forall id :: id in s.plan <==> id in Ids(results))
    && (NoRepeats(s.plan) ==> NoRepeats(Ids(results)))
    && (forall i: nat :: i < |results| ==> Justified(s.catalog, results, i))
  }

  /** `lastBatch` is where the last batch starts. Blocking failures occur only there and
      only fail-fast cuts the run short; everything in a failing batch was ready when it
      started, and a serial batch holds one check. */
  ghost predicate StopsAfterFirstFailure<K>(catalog: Catalog<K>, failFast: bool, parallel: bool,
                                            results: seq<CheckResult<K>>, lastBatch: nat, ran: nat)
  {
    && lastBatch <= ran <= |results|
    && (failFast ==> forall i :: 0 <= i < lastBatch ==> !BlockingFailure(catalog, results[i]))
    && (ran < |results| ==> failFast && exists i :: lastBatch <= i < ran && BlockingFailure(catalog, results[i]))
    && (failFast && (exists i :: lastBatch <= i < ran && BlockingFailure(catalog, results[i])) ==>
          && (!parallel ==> ran == lastBatch + 1)
          && forall j :: lastBatch <= j < ran ==>
               && Executed(results[j]) && results[j].checkId in catalog
               && forall d :: d in catalog[results[j].checkId].dependencyIds ==> d in Ids(results[..lastBatch]))
  }

  method SkipRest<K>(results: seq<CheckResult<K>>, pending: seq<K>) returns (all: seq<CheckResult<K>>)
    requires results != []
    ensures all == results + Skips(results[|results| - 1].checkId, pending)
  {
    all := results;
    for i := 0 to |pending|
      invariant all == results + Skips(results[|results| - 1].checkId, pending)[..i]
    {
      all := all + [CheckResult(pending[i], Skipped, FailFastAfter(all[|all| - 1].checkId))];
    }
  }

  lemma ConsistentCompletes<K(!new)>(s: Setup<K>, results: seq<CheckResult<K>>, done: Recorded<K>)
    requires InCatalog(s) && Consistent(s, results, done, [])
    ensures Completed(s, results, |results|)
  {
    IdsMember(results);
    forall i | 0 <= i < |results| ensures results[i].status != Skipped && Settles(s, results[i].checkId, results[i].status) {
      assert results[i] in results;
    }
  }

  lemma SkippingCompletes<K(!new)>(s: Setup<K>, results: seq<CheckResult<K>>, done: Recorded<K>, pending: seq<K>)
    requires InCatalog(s) && Consistent(s, results, done, pending) && results != []
    ensures Completed(s, results + Skips(results[|results| - 1].checkId, pending), |results|)
  {
    var skips := Skips(results[|results| - 1].checkId, pending);
    var all := results + skips;
    assert Ids(all) == Ids(results) + pending;
    IdsMember(results);
    forall i | 0 <= i < |results|
      ensures all[i].status != Skipped && Settles(s, all[i].checkId, all[i].status)
    {
      assert all[i] == results[i] && results[i] in results;
    }
    forall i: nat | i < |all| ensures Justified(s.catalog, all, i) {
      if i < |results| {
        JustifiedExtends(s.catalog, results, skips, i);
      } else {
        assert all[i] == skips[i - |results|] && pending[i - |results|] in pending;
      }
    }
  }

  lemma SkippingInOrder<K>(plan: seq<K>, results: seq<CheckResult<K>>, skips: seq<CheckResult<K>>)
    requires ExecutedInPlanOrder(plan, results)
    requires forall r :: r in skips ==> !Executed(r)
    ensures ExecutedInPlanOrder(plan, results + skips)
  {
    var all := results + skips;
    forall i, j | 0 <= i < j < |all| && Executed(all[i]) && Executed(all[j])
      ensures Before(plan, all[i].checkId, all[j].checkId)
    {
      assert forall k :: |results| <= k < |all| ==> all[k] in skips;
      assert all[i] == results[i] && all[j] == results[j];
    }
  }

  ghost predicate LoopKeeps<K(!new)>(s: Setup<K>, failFast: bool, parallel: bool, results: seq<CheckResult<K>>,
                                     done: Recorded<K>, pending: seq<K>, lastBatch: nat)
    requires InCatalog(s)
  {
    && Consistent(s, results, done, pending)
    && StopsAfterFirstFailure(s.catalog, failFast, parallel, results, lastBatch, |results|)
    && (!parallel && Topological(s.catalog, s.plan) ==> PassedOver(s, results, pending))
  }

  ghost predicate FailureSince<K>(catalog: Catalog<K>, results: seq<CheckResult<K>>, start: nat) {
    exists i :: start <= i < |results| && BlockingFailure(catalog, results[i])
  }

  lemma ReadyBatchStops<K>(catalog: Catalog<K>, failing: set<K>, failFast: bool, parallel: bool,
                           results: seq<CheckResult<K>>, lastBatch: nat, ids: seq<K>, batch: seq<CheckResult<K>>)
    requires StopsAfterFirstFailure(catalog, failFast, parallel, results, lastBatch, |results|)
    requires !(failFast && FailureSince(catalog, results, lastBatch))
    requires !parallel ==> |ids| == 1
    requires forall id :: id in ids ==> id in catalog && forall d :: d in catalog[id].dependencyIds ==> d in Ids(results)
    requires |batch| == |ids| && forall i :: 0 <= i < |ids| ==> batch[i] == RunCheck(failing, ids[i])
    ensures StopsAfterFirstFailure(catalog, failFast, parallel, results + batch, |results|, |results + batch|)
  {
    var all := results + batch;
    assert all[..|results|] == results;
    forall j | |results| <= j < |all|
      ensures Executed(all[j]) && all[j].checkId in catalog
      ensures forall d :: d in catalog[all[j].checkId].dependencyIds ==> d in Ids(all[..|results|])
    {
      assert all[j] == batch[j - |results|] && ids[j - |results|] in ids;
    }
    forall i | 0 <= i < |results| ensures failFast ==> !BlockingFailure(catalog, all[i]) {
      assert all[i] == results[i];
    }
  }

  lemma BlockedBatchStops<K>(catalog: Catalog<K>, failFast: bool, parallel: bool,
                             results: seq<CheckResult<K>>, lastBatch: nat, batch: seq<CheckResult<K>>)
    requires StopsAfterFirstFailure(catalog, failFast, parallel, results, lastBatch, |results|)
    requires !(failFast && FailureSince(catalog, results, lastBatch))
    requires forall i :: 0 <= i < |batch| ==> batch[i].status == Blocked
    ensures StopsAfterFirstFailure(catalog, failFast, parallel, results + batch, |results|, |results + batch|)
    ensures !FailureSince(catalog, results + batch, |results|)
  {
    var all := results + batch;
    forall i | |results| <= i < |all| ensures !BlockingFailure(catalog, all[i]) {
      assert all[i] == batch[i - |results|];
    }
    forall i | 0 <= i < |results| ensures failFast ==> !BlockingFailure(catalog, all[i]) {
      assert all[i] == results[i];
    }
  }

  lemma DependenciesRecorded<K(!new)>(s: Setup<K>, results: seq<CheckResult<K>>, done: Recorded<K>, pending: seq<K>, id: K)
    requires InCatalog(s) && Consistent(s, results, done, pending)
    requires id in s.catalog && IsReady(s.catalog, done, id)
    ensures forall d :: d in s.catalog[id].dependencyIds ==> d in Ids(results)
  {
    IdsMember(results);
  }

  lemma DependenciesOfReady<K(!new)>(s: Setup<K>, results: seq<CheckResult<K>>, done: Recorded<K>, pending: seq<K>, ids: seq<K>)
    requires InCatalog(s) && Consistent(s, results, done, pending)
    requires forall id :: id in ids ==> id in ReadyIds(s.catalog, done, pending)
    ensures forall id :: id in ids ==> id in s.catalog && forall d :: d in s.catalog[id].dependencyIds ==> d in Ids(results)
  {
    forall id | id in ids
      ensures id in s.catalog && forall d :: d in s.catalog[id].dependencyIds ==> d in Ids(results)
    {
      DependenciesRecorded(s, results, done, pending, id);
    }
  }

  lemma SerialBatchInOrder<K(!new)>(s: Setup<K>, results: seq<CheckResult<K>>, done: Recorded<K>, pending: seq<K>,
                                    ids: seq<K>, batch: seq<CheckResult<K>>)
    requires InCatalog(s) && Topological(s.catalog, s.plan)
    requires Consistent(s, results, done, pending) && PassedOver(s, results, pending)
    requires ReadyIds(s.catalog, done, pending) != []
    requires ids == [ReadyIds(s.catalog, done, pending)[0]] && batch == InOrder(ids, id => RunCheck(s.failing, id))
    ensures PassedOver(s, results + batch, Without(pending, ids))
  {
    assert batch == [RunCheck(s.failing, ids[0])];
    assert Ids(batch) == ids;
    SerialStepInOrder(s, results, done, pending, batch[0]);
  }

  lemma ReadyStepKeeps<K(!new)>(s: Setup<K>, failFast: bool, parallel: bool, results: seq<CheckResult<K>>,
                                done: Recorded<K>, pending: seq<K>, lastBatch: nat,
                                ids: seq<K>, batch: seq<CheckResult<K>>)
    requires InCatalog(s) && LoopKeeps(s, failFast, parallel, results, done, pending, lastBatch)
    requires !(failFast && FailureSince(s.catalog, results, lastBatch))
    requires ReadyIds(s.catalog, done, pending) != []
    requires ids == if parallel then ReadyIds(s.catalog, done, pending) else [ReadyIds(s.catalog, done, pending)[0]]
    requires batch == InOrder(ids, id => RunCheck(s.failing, id))
    ensures Ids(batch) == ids
    ensures LoopKeeps(s, failFast, parallel, results + batch, Record(done, batch), Without(pending, ids), |results|)
  {
    assert Ids(batch) == ids;
    ReadyAppendable(s, results, done, pending, ids, batch);
    AppendKeeps(s, results, done, pending, batch);
    if !parallel && Topological(s.catalog, s.plan) {
      SerialBatchInOrder(s, results, done, pending, ids, batch);
    }
    DependenciesOfReady(s, results, done, pending, ids);
    ReadyBatchStops(s.catalog, s.failing, failFast, parallel, results, lastBatch, ids, batch);
  }

  lemma FailureOfBatch<K>(catalog: Catalog<K>, results: seq<CheckResult<K>>, batch: seq<CheckResult<K>>)
    ensures FailureSince(catalog, results + batch, |results|) <==> exists r :: r in batch && BlockingFailure(catalog, r)
  {
    var all := results + batch;
    if r :| r in batch && BlockingFailure(catalog, r) {
      var i :| 0 <= i < |batch| && batch[i] == r;
      assert all[|results| + i] == r;
    }
  }

  lemma BlockedStepKeeps<K(!new)>(s: Setup<K>, failFast: bool, parallel: bool, results: seq<CheckResult<K>>,
                                  done: Recorded<K>, pending: seq<K>, lastBatch: nat, batch: seq<CheckResult<K>>)
    requires InCatalog(s) && LoopKeeps(s, failFast, parallel, results, done, pending, lastBatch)
    requires !(failFast && FailureSince(s.catalog, results, lastBatch))
    requires Appendable(s, done, pending, batch)
    requires forall i :: 0 <= i < |batch| ==> batch[i].status == Blocked
    ensures LoopKeeps(s, failFast, parallel, results + batch, Record(done, batch), Without(pending, Ids(batch)), |results|)
    ensures !FailureSince(s.catalog, results + batch, |results|)
  {
    BlockedBatchStops(s.catalog, failFast, parallel, results, lastBatch, batch);
    if !parallel && Topological(s.catalog, s.plan) {
      BlockedStepInOrder(s, results, pending, batch);
    }
    AppendKeeps(s, results, done, pending, batch);
  }

  lemma FailurePersists<K>(catalog: Catalog<K>, failFast: bool, parallel: bool, results: seq<CheckResult<K>>,
                           lastBatch: nat, skips: seq<CheckResult<K>>)
    requires StopsAfterFirstFailure(catalog, failFast, parallel, results, lastBatch, |results|)
    requires failFast && FailureSince(catalog, results, lastBatch)
    ensures StopsAfterFirstFailure(catalog, failFast, parallel, results + skips, lastBatch, |results|)
  {
    var all := results + skips;
    assert forall i :: 0 <= i < |results| ==> all[i] == results[i];
    assert all[..lastBatch] == results[..lastBatch];
    var i :| lastBatch <= i < |results| && BlockingFailure(catalog, results[i]);
    assert BlockingFailure(catalog, all[i]);
  }

  /** What a finished run guarantees. */
  ghost predicate RunKeeps<K(!new)>(s: Setup<K>, failFast: bool, parallel: bool, results: seq<CheckResult<K>>,
                                    lastBatch: nat, ran: nat)
    requires InCatalog(s)
  {
    && Completed(s, results, ran)
    && StopsAfterFirstFailure(s.catalog, failFast, parallel, results, lastBatch, ran)
    && (!parallel && Topological(s.catalog, s.plan) ==> ExecutedInPlanOrder(s.plan, results))
  }

  lemma SkippingKeeps<K(!new)>(s: Setup<K>, failFast: bool, parallel: bool, results: seq<CheckResult<K>>,
                               done: Recorded<K>, pending: seq<K>, lastBatch: nat)
    requires InCatalog(s) && LoopKeeps(s, failFast, parallel, results, done, pending, lastBatch)
    requires failFast && FailureSince(s.catalog, results, lastBatch)
    ensures results != []
    ensures RunKeeps(s, failFast, parallel, results + Skips(results[|results| - 1].checkId, pending), lastBatch, |results|)
  {
    var skips := Skips(results[|results| - 1].checkId, pending);
    FailurePersists(s.catalog, failFast, parallel, results, lastBatch, skips);
    if !parallel && Topological(s.catalog, s.plan) {
      SkippingInOrder(s.plan, results, skips);
    }
    SkippingCompletes(s, results, done, pending);
  }

  method RunBatch<K(==,!new)>(s: Setup<K>, failFast: bool, parallel: bool, results: seq<CheckResult<K>>,
                              done: Recorded<K>, pending: seq<K>, ready: seq<K>, ghost lastBatch: nat)
    returns (results': seq<CheckResult<K>>, done': Recorded<K>, pending': seq<K>, stopAfterFailure: bool)
    requires InCatalog(s) && LoopKeeps(s, failFast, parallel, results, done, pending, lastBatch)
    requires !(failFast && FailureSince(s.catalog, results, lastBatch))
    requires ready == ReadyIds(s.catalog, done, pending) && ready != []
    ensures LoopKeeps(s, failFast, parallel, results', done', pending', |results|)
    ensures stopAfterFailure <==> failFast && FailureSince(s.catalog, results', |results|)
    ensures |pending'| < |pending|
  {
    var batch := if parallel then ready else [ready[0]];
    var batchResults := RunReadyChecks(s.failing, batch, parallel);
    ReadyStepKeeps(s, failFast, parallel, results, done, pending, lastBatch, batch, batchResults);
    FailureOfBatch(s.catalog, results, batchResults);
    results', done' := Append(results, done, batchResults);
    assert batch[0] in batch && batch[0] in pending;
    pending' := Without(pending, batch);
    stopAfterFailure := failFast && exists r :: r in batchResults && BlockingFailure(s.catalog, r);
  }

  lemma BlockedProgress<K(!new)>(catalog: Catalog<K>, done: Recorded<K>, pending: seq<K>)
    requires forall id :: id in pending ==> id in catalog
    requires BlockedIds(catalog, done, pending) != []
    ensures |Without(pending, Ids(BlockedResults(BlockedIds(catalog, done, pending))))| < |pending|
  {
    var blocked := BlockedIds(catalog, done, pending);
    assert blocked[0] in blocked && Ids(BlockedResults(blocked))[0] == blocked[0].0;
  }

  method RecordBlocked<K(==,!new)>(s: Setup<K>, ghost failFast: bool, ghost parallel: bool, results: seq<CheckResult<K>>,
                                   done: Recorded<K>, pending: seq<K>, blocked: seq<(K, K)>, ghost lastBatch: nat)
    returns (results': seq<CheckResult<K>>, done': Recorded<K>, pending': seq<K>)
    requires InCatalog(s) && LoopKeeps(s, failFast, parallel, results, done, pending, lastBatch)
    requires !(failFast && FailureSince(s.catalog, results, lastBatch))
    requires blocked == BlockedIds(s.catalog, done, pending) && blocked != []
    ensures LoopKeeps(s, failFast, parallel, results', done', pending', |results|)
    ensures !FailureSince(s.catalog, results', |results|)
    ensures |pending'| < |pending|
  {
    var batchResults := BlockedResults(blocked);
    BlockedAppendable(s, results, done, pending);
    BlockedStepKeeps(s, failFast, parallel, results, done, pending, lastBatch, batchResults);
    results', done' := Append(results, done, batchResults);
    BlockedProgress(s.catalog, done, pending);
    pending' := Without(pending, Ids(batchResults));
  }

  /** Each of the first `ran` statuses is explained by the commands that fail on the dependency
      paths of its check; all others are skips. */
  ghost predicate AllExplained<K(!new)>(s: Setup<K>, results: seq<CheckResult<K>>, ran: nat) {
    forall i :: 0 <= i < |results| ==>
      if i < ran then Explained(s.catalog, s.failing, results[i].checkId, results[i].status) else results[i].status == Skipped
  }

  lemma ResultsExplained<K(!new)>(s: Setup<K>, failFast: bool, parallel: bool, results: seq<CheckResult<K>>, lastBatch: nat, ran: nat)
    requires InCatalog(s) && RunKeeps(s, failFast, parallel, results, lastBatch, ran)
    ensures AllExplained(s, results, ran)
  {
    forall i | 0 <= i < |results|
      ensures if i < ran then Explained(s.catalog, s.failing, results[i].checkId, results[i].status) else results[i].status == Skipped
    {
      if i < ran {
        SettledIsExplained(s, results[i].checkId, results[i].status);
      } else {
        assert results[i] == results[ran..][i - ran];
      }
    }
  }

  method RunPlan<K(==,!new)>(s: Setup<K>, failFast: bool, parallel: bool)
    returns (run: Run<K>, ghost lastBatch: nat, ghost ran: nat)
    requires InCatalog(s)
    ensures run.Stuck? ==> exists id :: id in s.plan && Unsettled(s, id)
    ensures run.Finished? ==> RunKeeps(s, failFast, parallel, run.results, lastBatch, ran)
    ensures run.Finished? ==> AllExplained(s, run.results, ran)
  {
    var results: seq<CheckResult<K>>, done: Recorded<K> := [], map[];
    var stopAfterFailure := false;
    var pending := s.plan;
    lastBatch := 0;
    while pending != []
      invariant LoopKeeps(s, failFast, parallel, results, done, pending, lastBatch)
      invariant stopAfterFailure <==> failFast && FailureSince(s.catalog, results, lastBatch)
      decreases |pending|
    {
      if stopAfterFailure {
        SkippingKeeps(s, failFast, parallel, results, done, pending, lastBatch);
        ran := |results|;
        results := SkipRest(results, pending);
        ResultsExplained(s, failFast, parallel, results, lastBatch, ran);
        return Finished(results), lastBatch, ran;
      }
      var ready, blocked := SortPending(s.catalog, done, pending);
      ghost var start := |results|;
      if ready != [] {
        results, done, pending, stopAfterFailure :=
          RunBatch(s, failFast, parallel, results, done, pending, ready, lastBatch);
      } else if blocked != [] {
        results, done, pending := RecordBlocked(s, failFast, parallel, results, done, pending, blocked, lastBatch);
      } else {
        StuckUnsettled(s, results, done, pending, pending[0]);
        return Stuck, lastBatch, |results|;
      }
      lastBatch := start;
    }
    ConsistentCompletes(s, results, done);
    run, ran := Finished(results), |results|;
    ResultsExplained(s, failFast, parallel, results, lastBatch, ran);
  }

  /** The summary's verdict over the recorded results. */
  method HasBlockingFailures<K(==)>(catalog: Catalog<K>, results: seq<CheckResult<K>>) returns (failed: bool)
    requires forall r :: r in results ==> r.checkId in catalog
    ensures failed <==> Fails(catalog, results)
  {
    for i := 0 to |results|
      invariant !Fails(catalog, results[..i])
    {
      if catalog[results[i].checkId].blocking && results[i].status in {Failed, Blocked} {
        assert results[i] in results;
        return true;
      }
      assert forall r :: r in results[..i + 1] <==> r in results[..i] || r == results[i];
    }
    assert results[..|results|] == results;
    return false;
  }

  ghost predicate Fails<K>(catalog: Catalog<K>, results: seq<CheckResult<K>>) {
    exists r :: r in results && r.checkId in catalog && catalog[r.checkId].blocking && r.status in {Failed, Blocked}
  }

  // ----- results about whole runs -----

  ghost predicate PlanFails<K(!new)>(s: Setup<K>)
    requires InCatalog(s)
  {
    exists id :: id in s.plan && s.catalog[id].blocking && (Settles(s, id, Failed) || Settles(s, id, Blocked))
  }

  /** In every mode the verdict of a finished run is that of the settled statuses;
      fail-fast cannot turn a failing plan green, nor a green one red. */
  lemma VerdictOfRun<K(!new)>(s: Setup<K>, failFast: bool, parallel: bool, results: seq<CheckResult<K>>,
                              lastBatch: nat, ran: nat)
    requires InCatalog(s) && RunKeeps(s, failFast, parallel, results, lastBatch, ran)
    ensures Fails(s.catalog, results) <==> PlanFails(s)
  {
    IdsMember(results);
    forall i | ran <= i < |results| ensures results[i].status == Skipped {
      assert results[i] == results[ran..][i - ran];
    }
    if Fails(s.catalog, results) {
      var i :| 0 <= i < |results| && results[i].checkId in s.catalog && s.catalog[results[i].checkId].blocking
               && results[i].status in {Failed, Blocked};
      assert results[i] in results;
    }
    if PlanFails(s) {
      if ran < |results| {
        var i :| lastBatch <= i < ran && BlockingFailure(s.catalog, results[i]);
        assert results[i] in results;
      } else {
        var id, status :| id in s.plan && s.catalog[id].blocking && status in {Failed, Blocked} && Settles(s, id, status);
        var i :| 0 <= i < |results| && results[i].checkId == id;
        SettlesOnce(s, id, results[i].status, status);
        assert results[i] in results;
      }
    }
  }

  /** A skip names the result recorded just before it. */
  ghost predicate NamesPrevious<K>(results: seq<CheckResult<K>>, j: nat)
    requires j < |results|
  {
    j > 0 && results[j].reason == FailFastAfter(results[j - 1].checkId)
  }

  /** Fail-fast skips everything after a blocking check whose command failed, but for the
      rest of its parallel batch; nothing is skipped for any other reason. */
  lemma FailFastStops<K(!new)>(s: Setup<K>, failFast: bool, parallel: bool, results: seq<CheckResult<K>>,
                               lastBatch: nat, ran: nat)
    requires InCatalog(s) && RunKeeps(s, failFast, parallel, results, lastBatch, ran)
    ensures failFast ==>
              forall i, j :: 0 <= i < j < |results| && results[i].status == Failed && results[i].checkId in s.catalog
                             && s.catalog[results[i].checkId].blocking ==>
                results[j].status == Skipped || (parallel && lastBatch <= i && j < ran)
    ensures forall j: nat :: j < |results| && results[j].status == Skipped ==> NamesPrevious(results, j)
    ensures (exists j :: 0 <= j < |results| && results[j].status == Skipped) ==>
              failFast && exists i :: 0 <= i < ran && results[i].status == Failed && results[i].checkId in s.catalog
                                      && s.catalog[results[i].checkId].blocking
  {
    forall j: nat | ran <= j < |results| ensures results[j].status == Skipped && NamesPrevious(results, j) {
      assert results[j] == results[ran..][j - ran];
      if j > ran {
        assert Ids(results[ran..])[j - 1 - ran] == results[j - 1].checkId;
      }
    }
  }

  lemma FailFastKeepsVerdict<K(!new)>(s: Setup<K>, quick: seq<CheckResult<K>>, full: seq<CheckResult<K>>,
                                      parallel: bool, parallel': bool, lastBatch: nat, lastBatch': nat, ran: nat, ran': nat)
    requires InCatalog(s)
    requires RunKeeps(s, true, parallel, quick, lastBatch, ran)
    requires RunKeeps(s, false, parallel', full, lastBatch', ran')
    ensures Fails(s.catalog, quick) <==> Fails(s.catalog, full)
    ensures |full| == ran' && forall q, f :: q in quick[..ran] && f in full && q.checkId == f.checkId ==> q.status == f.status
  {
    VerdictOfRun(s, true, parallel, quick, lastBatch, ran);
    VerdictOfRun(s, false, parallel', full, lastBatch', ran');
    forall q, f | q in quick[..ran] && f in full && q.checkId == f.checkId ensures q.status == f.status {
      SettlesOnce(s, q.checkId, q.status, f.status);
    }
  }

  /** On a closed acyclic plan every run without fail-fast, serial or parallel and under
      any completion order, gives each check exactly the recursive verdict. */
  lemma ScheduleIndependence<K(!new)>(s: Setup<K>, rank: map<K, nat>, parallel: bool, results: seq<CheckResult<K>>,
                                      lastBatch: nat, ran: nat)
    requires Ranked(s.catalog, s.plan, rank) && InCatalog(s)
    requires RunKeeps(s, false, parallel, results, lastBatch, ran)
    ensures forall r :: r in results ==> r.checkId in s.plan && r.status == Verdict(s, rank, r.checkId)
    ensures forall id :: id in s.plan ==> exists r :: r in results && r.checkId == id
    ensures NoRepeats(s.plan) ==> multiset(Ids(results)) == multiset(s.plan)
  {
    IdsMember(results);
    forall r | r in results ensures r.checkId in s.plan && r.status == Verdict(s, rank, r.checkId) {
      assert r.checkId in Ids(results);
      VerdictSettles(s, rank, r.checkId);
      SettlesOnce(s, r.checkId, r.status, Verdict(s, rank, r.checkId));
    }
    if NoRepeats(s.plan) {
      SameMembersRearranged(s.plan, Ids(results));
    }
  }

  /** No closed acyclic plan ever reaches the scheduler's cycle error. */
  lemma RankedNeverStuck<K(!new)>(s: Setup<K>, rank: map<K, nat>, id: K)
    requires Ranked(s.catalog, s.plan, rank) && InCatalog(s) && id in s.plan
    ensures !Unsettled(s, id)
  {
    VerdictSettles(s, rank, id);
  }

  /** Without fail-fast the cycle error is raised exactly when some selected check cannot
      be settled: a finished run has settled all of them. */
  lemma FinishedSettlesAll<K(!new)>(s: Setup<K>, parallel: bool, results: seq<CheckResult<K>>, lastBatch: nat, ran: nat, id: K)
    requires InCatalog(s) && RunKeeps(s, false, parallel, results, lastBatch, ran) && id in s.plan
    ensures !Unsettled(s, id)
  {
    IdsMember(results);
    var i :| 0 <= i < |results| && results[i].checkId == id;
    assert Settles(s, id, results[i].status);
  }
}
