/** What every pass of the scheduler loop keeps, whichever batch it appends. */
module SchedulingInvariants {
  import opened Sequences
  import opened Wrappers
  import opened CheckSpecs
  import opened Settlement
  import opened ParallelWork
  import opened Scheduling

  // ----- what the loop keeps -----

  ghost predicate ResultBefore<K>(results: seq<CheckResult<K>>, i: nat, id: K, passed: bool) {
    exists j :: 0 <= j < i && j < |results| && results[j].checkId == id && (results[j].status == Passed) == passed
  }

  /** Run only after all dependencies passed; blocked only after the named one did not. */
  ghost predicate Justified<K>(catalog: Catalog<K>, results: seq<CheckResult<K>>, i: nat)
    requires i < |results|
  {
    && results[i].checkId in catalog
    && var deps := catalog[results[i].checkId].dependencyIds;
    && (Executed(results[i]) ==> forall d :: d in deps ==> ResultBefore(results, i, d, true))
    && (results[i].status == Blocked ==>
          && results[i].reason.DependencyDidNotPass?
          && results[i].reason.dependency in deps
          && ResultBefore(results, i, results[i].reason.dependency, false))
  }

  ghost predicate Consistent<K(!new)>(s: Setup<K>, results: seq<CheckResult<K>>, done: Recorded<K>, pending: seq<K>)
    requires InCatalog(s)
  {
    && (forall id :: id in s.plan <==> id in pending || id in done)
    && (forall id :: id in pending ==> id !in done)
    && (forall r :: r in results ==> r.checkId in done && done[r.checkId].status == r.status)
    && (forall id :: id in done ==> done[id].checkId == id && done[id] in results)
    && (forall id :: id in done ==> done[id].status != Skipped && Settles(s, id, done[id].status))
    && (NoRepeats(s.plan) ==> NoRepeats(pending) && NoRepeats(Ids(results)))
    && (forall i: nat :: i < |results| ==> Justified(s.catalog, results, i))
  }

  /** A batch that may be appended: fresh, settled and already justified by what is recorded. */
  ghost predicate Appendable<K(!new)>(s: Setup<K>, done: Recorded<K>, pending: seq<K>, batch: seq<CheckResult<K>>)
    requires InCatalog(s)
  {
    && (NoRepeats(pending) ==> NoRepeats(Ids(batch)))
    && forall r :: r in batch ==>
      && r.checkId in pending && r.checkId in s.catalog
      && r.status != Skipped && Settles(s, r.checkId, r.status)
      && var deps := s.catalog[r.checkId].dependencyIds;
      && (Executed(r) ==> forall d :: d in deps ==> d in done && done[d].status == Passed)
      && (r.status == Blocked ==>
            && r.reason.DependencyDidNotPass? && r.reason.dependency in deps
            && r.reason.dependency in done && done[r.reason.dependency].status != Passed)
  }

  lemma RecordedBefore<K(!new)>(s: Setup<K>, results: seq<CheckResult<K>>, done: Recorded<K>, pending: seq<K>, id: K)
    requires InCatalog(s) && Consistent(s, results, done, pending) && id in done
    ensures ResultBefore(results, |results|, id, done[id].status == Passed)
  {
    var j :| 0 <= j < |results| && results[j] == done[id];
  }

  lemma JustifiedExtends<K>(catalog: Catalog<K>, results: seq<CheckResult<K>>, more: seq<CheckResult<K>>, i: nat)
    requires i < |results| && Justified(catalog, results, i)
    ensures Justified(catalog, results + more, i)
  {
    forall id, passed | ResultBefore(results, i, id, passed) ensures ResultBefore(results + more, i, id, passed) {
      var j :| 0 <= j < i && results[j].checkId == id && (results[j].status == Passed) == passed;
      assert (results + more)[j] == results[j];
    }
  }

  lemma AppendJustified<K(!new)>(s: Setup<K>, results: seq<CheckResult<K>>, done: Recorded<K>, pending: seq<K>,
                                 batch: seq<CheckResult<K>>, i: nat)
    requires InCatalog(s) && Consistent(s, results, done, pending) && Appendable(s, done, pending, batch)
    requires i < |results + batch|
    ensures Justified(s.catalog, results + batch, i)
  {
    if i < |results| {
      JustifiedExtends(s.catalog, results, batch, i);
    } else {
      var r := batch[i - |results|];
      assert r in batch && (results + batch)[i] == r;
      forall id | id in done ensures ResultBefore(results + batch, i, id, done[id].status == Passed) {
        RecordedBefore(s, results, done, pending, id);
        var j :| 0 <= j < |results| && results[j].checkId == id
                 && (results[j].status == Passed) == (done[id].status == Passed);
        assert (results + batch)[j] == results[j];
      }
    }
  }

  lemma IdsMember<K>(results: seq<CheckResult<K>>)
    ensures forall id :: id in Ids(results) <==> exists r :: r in results && r.checkId == id
  {
    forall i | 0 <= i < |results| ensures results[i].checkId in Ids(results) {
      assert Ids(results)[i] == results[i].checkId;
    }
  }

  lemma AppendStatuses<K(!new)>(s: Setup<K>, results: seq<CheckResult<K>>, done: Recorded<K>, pending: seq<K>,
                                batch: seq<CheckResult<K>>)
    requires InCatalog(s) && Consistent(s, results, done, pending) && Appendable(s, done, pending, batch)
    ensures var after := Record(done, batch);
            && (forall r :: r in results + batch ==> r.checkId in after && after[r.checkId].status == r.status)
            && (forall id :: id in after ==> after[id].checkId == id && after[id] in results + batch)
            && (forall id :: id in after ==> after[id].status != Skipped && Settles(s, id, after[id].status))
  {
    var after := Record(done, batch);
    forall r | r in results + batch ensures r.checkId in after && after[r.checkId].status == r.status {
      if r in batch {
        assert after[r.checkId] in batch;
        SettlesOnce(s, r.checkId, after[r.checkId].status, r.status);
      } else {
        assert r.checkId !in pending;
      }
    }
  }

  lemma AppendDistinct<K(!new)>(s: Setup<K>, results: seq<CheckResult<K>>, done: Recorded<K>, pending: seq<K>,
                                batch: seq<CheckResult<K>>)
    requires InCatalog(s) && Consistent(s, results, done, pending) && Appendable(s, done, pending, batch)
    requires NoRepeats(s.plan)
    ensures NoRepeats(Ids(results + batch))
  {
    var ids := Ids(results + batch);
    forall i, j | 0 <= i < j < |ids| ensures ids[i] != ids[j] {
      if j < |results| {
        assert ids[i] == Ids(results)[i] && ids[j] == Ids(results)[j];
      } else if |results| <= i {
        assert ids[i] == Ids(batch)[i - |results|] && ids[j] == Ids(batch)[j - |results|];
      } else {
        assert results[i] in results && batch[j - |results|] in batch;
      }
    }
  }

  lemma AppendKeeps<K(!new)>(s: Setup<K>, results: seq<CheckResult<K>>, done: Recorded<K>, pending: seq<K>,
                             batch: seq<CheckResult<K>>)
    requires InCatalog(s) && Consistent(s, results, done, pending) && Appendable(s, done, pending, batch)
    ensures Consistent(s, results + batch, Record(done, batch), Without(pending, Ids(batch)))
  {
    IdsMember(batch);
    AppendStatuses(s, results, done, pending, batch);
    forall i: nat | i < |results + batch| ensures Justified(s.catalog, results + batch, i) {
      AppendJustified(s, results, done, pending, batch, i);
    }
    if NoRepeats(s.plan) {
      AppendDistinct(s, results, done, pending, batch);
    }
    var after, rest := Record(done, batch), Without(pending, Ids(batch));
    forall id ensures id in s.plan <==> id in rest || id in after {}
  }

  // ----- the two kinds of batch -----

  lemma ReadyAppendable<K(!new)>(s: Setup<K>, results: seq<CheckResult<K>>, done: Recorded<K>, pending: seq<K>,
                                 ids: seq<K>, batch: seq<CheckResult<K>>)
    requires InCatalog(s) && Consistent(s, results, done, pending)
    requires forall id :: id in ids ==> id in pending && IsReady(s.catalog, done, id)
    requires NoRepeats(pending) ==> NoRepeats(ids)
    requires batch == InOrder(ids, id => RunCheck(s.failing, id))
    ensures Ids(batch) == ids && Appendable(s, done, pending, batch)
  {
    forall r | r in batch ensures r.checkId in ids && Settles(s, r.checkId, r.status) {
      var i :| 0 <= i < |batch| && batch[i] == r;
      assert r.checkId == ids[i];
      SettlesOutcome(s, ids[i]);
    }
  }

  lemma BlockedAppendable<K(!new)>(s: Setup<K>, results: seq<CheckResult<K>>, done: Recorded<K>, pending: seq<K>)
    requires InCatalog(s) && Consistent(s, results, done, pending)
    ensures Appendable(s, done, pending, BlockedResults(BlockedIds(s.catalog, done, pending)))
  {
    var blocked := BlockedIds(s.catalog, done, pending);
    forall r | r in BlockedResults(blocked)
      ensures r.checkId in pending && r.status == Blocked && r.reason.DependencyDidNotPass?
      ensures BlockingDependency(done, s.catalog[r.checkId].dependencyIds) == Some(r.reason.dependency)
      ensures Settles(s, r.checkId, Blocked)
    {
      var i :| 0 <= i < |blocked| && r == BlockedResults(blocked)[i];
      assert blocked[i] in blocked;
      SettlesBlocked(s, r.checkId, blocked[i].1, done[blocked[i].1].status);
    }
  }

  // ----- being stuck -----

  ghost predicate Unsettled<K(!new)>(s: Setup<K>, id: K)
    requires InCatalog(s)
  {
    forall status :: !Settles(s, id, status)
  }

  lemma StuckWaits<K(!new)>(catalog: Catalog<K>, done: Recorded<K>, pending: seq<K>, id: K)
    requires forall x :: x in pending ==> x in catalog
    requires ReadyIds(catalog, done, pending) == [] && BlockedIds(catalog, done, pending) == []
    requires id in pending
    ensures forall d :: d in catalog[id].dependencyIds && d in done ==> done[d].status == Passed
    ensures exists d :: d in catalog[id].dependencyIds && d !in done
  {
    var blocked, named := BlockedIds(catalog, done, pending), BlockingDependency(done, catalog[id].dependencyIds);
    assert forall d :: (id, d) in blocked <==> named == Some(d);
    assert id !in ReadyIds(catalog, done, pending);
  }

  lemma {:induction false} StuckRounds<K(!new)>(s: Setup<K>, results: seq<CheckResult<K>>, done: Recorded<K>,
                                                pending: seq<K>, rounds: nat, id: K)
    requires InCatalog(s) && Consistent(s, results, done, pending)
    requires ReadyIds(s.catalog, done, pending) == [] && BlockedIds(s.catalog, done, pending) == []
    requires id in pending
    ensures SettledBy(s, rounds, id) == None
    decreases rounds
  {
    if rounds > 0 {
      var deps, before := s.catalog[id].dependencyIds, rounds - 1;
      StuckWaits(s.catalog, done, pending, id);
      forall d | d in deps
        ensures SettledBy(s, before, d) in {None, Some(Passed)} && (d !in done ==> SettledBy(s, before, d) == None)
      {
        if d in pending {
          StuckRounds(s, results, done, pending, before, d);
        } else if d in done && SettledBy(s, before, d).Some? {
          assert Settles(s, d, SettledBy(s, before, d).value);
          SettlesOnce(s, d, SettledBy(s, before, d).value, done[d].status);
        }
      }
    }
  }

  lemma StuckUnsettled<K(!new)>(s: Setup<K>, results: seq<CheckResult<K>>, done: Recorded<K>, pending: seq<K>, id: K)
    requires InCatalog(s) && Consistent(s, results, done, pending)
    requires ReadyIds(s.catalog, done, pending) == [] && BlockedIds(s.catalog, done, pending) == []
    requires id in pending
    ensures Unsettled(s, id)
  {
    forall rounds: nat ensures SettledBy(s, rounds, id) == None {
      StuckRounds(s, results, done, pending, rounds, id);
    }
  }

  // ----- serial runs follow the plan -----

  ghost predicate Before<K>(plan: seq<K>, a: K, b: K) {
    exists i, j :: 0 <= i < j < |plan| && plan[i] == a && plan[j] == b
  }

  /** Duplicate-free, and every dependency stands earlier in the plan. */
  ghost predicate Topological<K>(catalog: Catalog<K>, plan: seq<K>) {
    && NoRepeats(plan)
    && forall i :: 0 <= i < |plan| ==> plan[i] in catalog && forall d :: d in catalog[plan[i]].dependencyIds ==> d in plan[..i]
  }

  ghost predicate InPlanOrder<K>(plan: seq<K>, xs: seq<K>) {
    forall i, j :: 0 <= i < j < |xs| ==> Before(plan, xs[i], xs[j])
  }

  ghost predicate ExecutedInPlanOrder<K>(plan: seq<K>, results: seq<CheckResult<K>>) {
    forall i, j :: 0 <= i < j < |results| && Executed(results[i]) && Executed(results[j]) ==>
      Before(plan, results[i].checkId, results[j].checkId)
  }

  /** Nothing that is still pending could be executed before something already executed. */
  ghost predicate PassedOver<K(!new)>(s: Setup<K>, results: seq<CheckResult<K>>, pending: seq<K>)
    requires InCatalog(s)
  {
    && InPlanOrder(s.plan, pending)
    && ExecutedInPlanOrder(s.plan, results)
    && forall q, r :: q in pending && r in results && Executed(r) && Before(s.plan, q, r.checkId) ==> Settles(s, q, Blocked)
  }

  lemma {:induction false} SkippedOver<K(!new)>(s: Setup<K>, results: seq<CheckResult<K>>, done: Recorded<K>,
                                                pending: seq<K>, first: nat, i: nat)
    requires InCatalog(s) && Topological(s.catalog, s.plan) && Consistent(s, results, done, pending)
    requires first < |s.plan| && i < first && s.plan[i] in pending
    requires forall j :: 0 <= j < first && s.plan[j] in pending ==> !IsReady(s.catalog, done, s.plan[j])
    ensures Settles(s, s.plan[i], Blocked)
    decreases i
  {
    var id := s.plan[i];
    match BlockingDependency(done, s.catalog[id].dependencyIds)
    case Some(d) =>
      SettlesBlocked(s, id, d, done[d].status);
    case None =>
      var d :| d in s.catalog[id].dependencyIds && d !in done;
      var j :| 0 <= j < i && s.plan[j] == d;
      SkippedOver(s, results, done, pending, first, j);
      SettlesBlocked(s, id, d, Blocked);
  }

  lemma WithoutInOrder<K(!new)>(plan: seq<K>, pending: seq<K>, batch: seq<K>)
    requires InPlanOrder(plan, pending)
    ensures InPlanOrder(plan, Without(pending, batch))
  {
    if pending != [] {
      var init, last := pending[..|pending| - 1], pending[|pending| - 1];
      WithoutInOrder(plan, init, batch);
      forall id | id in Without(init, batch) ensures Before(plan, id, last) {
        var i :| 0 <= i < |init| && init[i] == id;
        assert Before(plan, pending[i], last);
      }
    }
  }

  lemma NotReadyBefore<K>(plan: seq<K>, pending: seq<K>, k: nat, first: nat, j: nat)
    requires NoRepeats(plan) && InPlanOrder(plan, pending)
    requires j < first < |plan| && k < |pending| && pending[k] == plan[first] && plan[j] in pending
    ensures exists m :: 0 <= m < k && pending[m] == plan[j]
  {
    var m :| 0 <= m < |pending| && pending[m] == plan[j];
    assert k < m ==> Before(plan, pending[k], pending[m]);
  }

  lemma FirstReadyPassesOver<K(!new)>(s: Setup<K>, results: seq<CheckResult<K>>, done: Recorded<K>, pending: seq<K>, q: K)
    requires InCatalog(s) && Topological(s.catalog, s.plan)
    requires Consistent(s, results, done, pending) && InPlanOrder(s.plan, pending)
    requires ReadyIds(s.catalog, done, pending) != []
    requires q in pending && Before(s.plan, q, ReadyIds(s.catalog, done, pending)[0])
    ensures Settles(s, q, Blocked)
  {
    var x := ReadyIds(s.catalog, done, pending)[0];
    var k :| 0 <= k < |pending| && pending[k] == x && forall j :: 0 <= j < k ==> !IsReady(s.catalog, done, pending[j]);
    var i, first :| 0 <= i < first < |s.plan| && s.plan[i] == q && s.plan[first] == x;
    forall j | 0 <= j < first && s.plan[j] in pending ensures !IsReady(s.catalog, done, s.plan[j]) {
      NotReadyBefore(s.plan, pending, k, first, j);
    }
    SkippedOver(s, results, done, pending, first, i);
  }

  lemma ExecutedPrecede<K(!new)>(s: Setup<K>, results: seq<CheckResult<K>>, done: Recorded<K>, pending: seq<K>, x: K)
    requires InCatalog(s) && Topological(s.catalog, s.plan)
    requires Consistent(s, results, done, pending) && PassedOver(s, results, pending)
    requires x in pending && Settles(s, x, Outcome(s.failing, x))
    ensures forall r :: r in results && Executed(r) ==> Before(s.plan, r.checkId, x)
  {
    forall r | r in results && Executed(r) ensures Before(s.plan, r.checkId, x) {
      assert r.checkId in done;
      var i :| 0 <= i < |s.plan| && s.plan[i] == r.checkId;
      var j :| 0 <= j < |s.plan| && s.plan[j] == x;
      assert j < i ==> Before(s.plan, x, r.checkId);
      if j < i {
        SettlesOnce(s, x, Blocked, Outcome(s.failing, x));
      }
    }
  }

  lemma AppendInOrder<K>(plan: seq<K>, results: seq<CheckResult<K>>, r: CheckResult<K>)
    requires ExecutedInPlanOrder(plan, results)
    requires Executed(r) ==> forall e :: e in results && Executed(e) ==> Before(plan, e.checkId, r.checkId)
    ensures ExecutedInPlanOrder(plan, results + [r])
  {
    var all := results + [r];
    forall i, j | 0 <= i < j < |all| && Executed(all[i]) && Executed(all[j])
      ensures Before(plan, all[i].checkId, all[j].checkId)
    {
      assert all[i] == results[i] && results[i] in results;
      if j < |results| { assert all[j] == results[j]; }
    }
  }

  lemma BlockedInOrder<K>(plan: seq<K>, results: seq<CheckResult<K>>, batch: seq<CheckResult<K>>)
    requires ExecutedInPlanOrder(plan, results)
    requires forall r :: r in batch ==> r.status == Blocked
    ensures ExecutedInPlanOrder(plan, results + batch)
  {
    var all := results + batch;
    forall i, j | 0 <= i < j < |all| && Executed(all[i]) && Executed(all[j])
      ensures Before(plan, all[i].checkId, all[j].checkId)
    {
      assert forall k :: |results| <= k < |all| ==> all[k] in batch;
      assert all[i] == results[i] && all[j] == results[j];
    }
  }

  lemma BlockedStepInOrder<K(!new)>(s: Setup<K>, results: seq<CheckResult<K>>, pending: seq<K>, batch: seq<CheckResult<K>>)
    requires InCatalog(s) && PassedOver(s, results, pending)
    requires forall r :: r in batch ==> r.status == Blocked
    ensures PassedOver(s, results + batch, Without(pending, Ids(batch)))
  {
    WithoutInOrder(s.plan, pending, Ids(batch));
    BlockedInOrder(s.plan, results, batch);
  }

  lemma SerialStepInOrder<K(!new)>(s: Setup<K>, results: seq<CheckResult<K>>, done: Recorded<K>, pending: seq<K>,
                                   r: CheckResult<K>)
    requires InCatalog(s) && Topological(s.catalog, s.plan)
    requires Consistent(s, results, done, pending) && PassedOver(s, results, pending)
    requires ReadyIds(s.catalog, done, pending) != []
    requires r == RunCheck(s.failing, ReadyIds(s.catalog, done, pending)[0])
    ensures PassedOver(s, results + [r], Without(pending, Ids([r])))
  {
    var x := ReadyIds(s.catalog, done, pending)[0];
    SettlesOutcome(s, x);
    ExecutedPrecede(s, results, done, pending, x);
    WithoutInOrder(s.plan, pending, Ids([r]));
    AppendInOrder(s.plan, results, r);
    forall q, e | q in Without(pending, Ids([r])) && e in results + [r] && Executed(e) && Before(s.plan, q, e.checkId)
      ensures Settles(s, q, Blocked)
    {
      if e == r {
        FirstReadyPassesOver(s, results, done, pending, q);
      }
    }
  }
}
