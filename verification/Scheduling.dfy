/** One pass of the review-check scheduler over its pending checks: which are
    ready, which are blocked and by what, and how a batch is run and recorded. */
module Scheduling {
  import opened Sequences
  import opened Wrappers
  import opened CheckSpecs
  import opened Settlement
  import opened ParallelWork

  datatype Reason<K> = NoReason | DependencyDidNotPass(dependency: K) | FailFastAfter(check: K)

  datatype CheckResult<K> = CheckResult(checkId: K, status: Status, reason: Reason<K>)

  /** `Stuck` is the error raised when checks remain that are neither ready nor blocked. */
  datatype Run<K> = Finished(results: seq<CheckResult<K>>) | Stuck

  type Recorded<K> = map<K, CheckResult<K>>

  // ----- one pass over the pending checks -----

  function RunCheck<K>(failing: set<K>, id: K): CheckResult<K> {
    CheckResult(id, Outcome(failing, id), NoReason)
  }

  function Ids<K>(results: seq<CheckResult<K>>): seq<K> {
    seq(|results|, i requires 0 <= i < |results| => results[i].checkId)
  }

  /** The first listed dependency that is recorded with a status other than passed. */
  function BlockingDependency<K>(done: Recorded<K>, deps: seq<K>): (d: Option<K>)
    ensures d.Some? ==> d.value in deps && d.value in done && done[d.value].status != Passed
    ensures d.None? ==> forall x :: x in deps && x in done ==> done[x].status == Passed
  {
    if deps == [] then None
    else if deps[0] in done && done[deps[0]].status != Passed then Some(deps[0])
    else BlockingDependency(done, deps[1..])
  }

  lemma {:induction false} FirstIsNamed<K>(done: Recorded<K>, deps: seq<K>)
    ensures BlockingDependency(done, deps).Some? ==>
              exists i :: 0 <= i < |deps| && deps[i] == BlockingDependency(done, deps).value
                          && forall j :: 0 <= j < i && deps[j] in done ==> done[deps[j]].status == Passed
  {
    if deps != [] && !(deps[0] in done && done[deps[0]].status != Passed) && BlockingDependency(done, deps).Some? {
      FirstIsNamed(done, deps[1..]);
      var i :| 0 <= i < |deps[1..]| && deps[1..][i] == BlockingDependency(done, deps).value
               && forall j :: 0 <= j < i && deps[1..][j] in done ==> done[deps[1..][j]].status == Passed;
      forall j | 0 <= j < i + 1 && deps[j] in done ensures done[deps[j]].status == Passed {
        if j > 0 { assert deps[1..][j - 1] == deps[j]; }
      }
      assert deps[i + 1] == BlockingDependency(done, deps).value;
    }
  }

  predicate IsReady<K>(catalog: Catalog<K>, done: Recorded<K>, id: K)
    requires id in catalog
  {
    && BlockingDependency(done, catalog[id].dependencyIds).None?
    && forall d :: d in catalog[id].dependencyIds ==> d in done
  }

  function ReadyIds<K(!new)>(catalog: Catalog<K>, done: Recorded<K>, pending: seq<K>): (ready: seq<K>)
    requires forall id :: id in pending ==> id in catalog
    ensures forall id :: id in ready <==> id in pending && IsReady(catalog, done, id)
    ensures NoRepeats(pending) ==> NoRepeats(ready)
    ensures ready != [] ==>
              exists i :: 0 <= i < |pending| && pending[i] == ready[0]
                          && forall j :: 0 <= j < i ==> !IsReady(catalog, done, pending[j])
  {
    if pending == [] then []
    else
      var last := pending[|pending| - 1];
      var ready := ReadyIds(catalog, done, pending[..|pending| - 1]);
      assert pending == pending[..|pending| - 1] + [last];
      if IsReady(catalog, done, last) then ready + [last] else ready
  }

  /** The blocked checks, each with the dependency that is named in its reason. */
  function BlockedIds<K(!new)>(catalog: Catalog<K>, done: Recorded<K>, pending: seq<K>): (blocked: seq<(K, K)>)
    requires forall id :: id in pending ==> id in catalog
    ensures forall b :: b in blocked <==>
              b.0 in pending && BlockingDependency(done, catalog[b.0].dependencyIds) == Some(b.1)
    ensures NoRepeats(pending) ==> forall i, j :: 0 <= i < j < |blocked| ==> blocked[i].0 != blocked[j].0
  {
    if pending == [] then []
    else
      var last := pending[|pending| - 1];
      var blocked := BlockedIds(catalog, done, pending[..|pending| - 1]);
      assert pending == pending[..|pending| - 1] + [last];
      match BlockingDependency(done, catalog[last].dependencyIds)
      case Some(d) => blocked + [(last, d)]
      case None => blocked
  }

  function Without<K(==,!new)>(pending: seq<K>, batch: seq<K>): (rest: seq<K>)
    ensures forall id :: id in rest <==> id in pending && id !in batch
    ensures NoRepeats(pending) ==> NoRepeats(rest)
    ensures |rest| <= |pending|
    ensures (exists id :: id in pending && id in batch) ==> |rest| < |pending|
  {
    if pending == [] then []
    else
      var last := pending[|pending| - 1];
      var rest := Without(pending[..|pending| - 1], batch);
      assert pending == pending[..|pending| - 1] + [last];
      if last in batch then rest else rest + [last]
  }

  predicate Executed<K>(r: CheckResult<K>) {
    r.status == Passed || r.status == Failed
  }

  function BlockedResults<K>(blocked: seq<(K, K)>): seq<CheckResult<K>> {
    seq(|blocked|, i requires 0 <= i < |blocked| =>
      CheckResult(blocked[i].0, Blocked, DependencyDidNotPass(blocked[i].1)))
  }

  lemma ReadyStep<K(!new)>(catalog: Catalog<K>, done: Recorded<K>, pending: seq<K>, i: nat)
    requires i < |pending| && forall id :: id in pending ==> id in catalog
    ensures ReadyIds(catalog, done, pending[..i + 1])
            == ReadyIds(catalog, done, pending[..i]) + if IsReady(catalog, done, pending[i]) then [pending[i]] else []
  {
    assert pending[..i + 1][..i] == pending[..i];
  }

  lemma BlockedStep<K(!new)>(catalog: Catalog<K>, done: Recorded<K>, pending: seq<K>, i: nat)
    requires i < |pending| && forall id :: id in pending ==> id in catalog
    ensures BlockedIds(catalog, done, pending[..i + 1])
            == BlockedIds(catalog, done, pending[..i])
               + match BlockingDependency(done, catalog[pending[i]].dependencyIds) case Some(d) => [(pending[i], d)] case None => []
  {
    assert pending[..i + 1][..i] == pending[..i];
  }

  method SortPending<K(==,!new)>(catalog: Catalog<K>, done: Recorded<K>, pending: seq<K>)
    returns (ready: seq<K>, blocked: seq<(K, K)>)
    requires forall id :: id in pending ==> id in catalog
    ensures ready == ReadyIds(catalog, done, pending)
    ensures blocked == BlockedIds(catalog, done, pending)
  {
    ready, blocked := [], [];
    for i := 0 to |pending|
      invariant ready == ReadyIds(catalog, done, pending[..i])
      invariant blocked == BlockedIds(catalog, done, pending[..i])
    {
      ReadyStep(catalog, done, pending, i);
      BlockedStep(catalog, done, pending, i);
      var deps := catalog[pending[i]].dependencyIds;
      match BlockingDependency(done, deps)
      case Some(d) => blocked := blocked + [(pending[i], d)];
      case None =>
        if forall d :: d in deps ==> d in done {
          ready := ready + [pending[i]];
        }
    }
    assert pending[..|pending|] == pending;
  }

  method RunReadyChecks<K(==,!new)>(failing: set<K>, ready: seq<K>, parallel: bool) returns (results: seq<CheckResult<K>>)
    ensures results == InOrder(ready, id => RunCheck(failing, id))
  {
    if !parallel {
      results := InOrder(ready, id => RunCheck(failing, id));
    } else {
      results := RunParallelBatch(ready, id => RunCheck(failing, id));
    }
  }

  function Record<K(!new)>(done: Recorded<K>, batch: seq<CheckResult<K>>): (after: Recorded<K>)
    ensures forall id :: id in after <==> id in done || exists r :: r in batch && r.checkId == id
    ensures forall id :: id in after ==>
              if exists r :: r in batch && r.checkId == id then after[id] in batch && after[id].checkId == id
              else after[id] == done[id]
  {
    if batch == [] then done
    else
      var last := batch[|batch| - 1];
      assert batch == batch[..|batch| - 1] + [last];
      Record(done, batch[..|batch| - 1])[last.checkId := last]
  }

  method Append<K(==,!new)>(results: seq<CheckResult<K>>, done: Recorded<K>, batch: seq<CheckResult<K>>)
    returns (results': seq<CheckResult<K>>, done': Recorded<K>)
    ensures results' == results + batch && done' == Record(done, batch)
  {
    results', done' := results, done;
    for i := 0 to |batch|
      invariant results' == results + batch[..i] && done' == Record(done, batch[..i])
    {
      assert batch[..i + 1][..i] == batch[..i];
      results' := results' + [batch[i]];
      done' := done'[batch[i].checkId := batch[i]];
    }
    assert batch[..|batch|] == batch;
  }
}
