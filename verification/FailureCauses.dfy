/** Why a check has the status it has, told by dependency paths and failing commands alone. */
module FailureCauses {
  import opened Wrappers
  import opened CheckSpecs
  import opened Settlement

  /** Each check on the path waits for the next one. */
  ghost predicate DependencyPath<K>(catalog: Catalog<K>, path: seq<K>) {
    && path != []
    && forall i :: 0 <= i < |path| - 1 ==> path[i] in catalog && path[i + 1] in catalog[path[i]].dependencyIds
  }

  /** `to` is the check itself, or one it waits for, directly or not. */
  ghost predicate Reaches<K(!new)>(catalog: Catalog<K>, id: K, to: K) {
    exists path :: DependencyPath(catalog, path) && path[0] == id && path[|path| - 1] == to
  }

  ghost predicate ReachesFailing<K(!new)>(catalog: Catalog<K>, failing: set<K>, id: K) {
    exists to :: to in failing && Reaches(catalog, id, to)
  }

  /** What a status says about the commands: none on the way failed; only the check's own
      did; or some other one on the way did. */
  ghost predicate Explained<K(!new)>(catalog: Catalog<K>, failing: set<K>, id: K, status: Status) {
    && (status == Passed <==> !ReachesFailing(catalog, failing, id))
    && (status == Failed <==> id in failing && forall to :: to in failing && Reaches(catalog, id, to) ==> to == id)
    && (status == Blocked <==> exists to :: to in failing && to != id && Reaches(catalog, id, to))
  }

  lemma ReachesItself<K(!new)>(catalog: Catalog<K>, id: K)
    ensures Reaches(catalog, id, id)
  {
    var path := [id];
    assert DependencyPath(catalog, path) && path[0] == id && path[|path| - 1] == id;
  }

  lemma ReachesThrough<K(!new)>(catalog: Catalog<K>, id: K, d: K, to: K)
    requires id in catalog && d in catalog[id].dependencyIds && Reaches(catalog, d, to)
    ensures Reaches(catalog, id, to)
  {
    var path :| DependencyPath(catalog, path) && path[0] == d && path[|path| - 1] == to;
    var longer := [id] + path;
    forall i | 0 <= i < |longer| - 1
      ensures longer[i] in catalog && longer[i + 1] in catalog[longer[i]].dependencyIds
    {
      if i > 0 {
        assert longer[i] == path[i - 1] && longer[i + 1] == path[i];
      }
    }
    assert DependencyPath(catalog, longer) && longer[0] == id && longer[|longer| - 1] == to;
  }

  /** What is reached is the check itself or is reached from one of its dependencies. */
  lemma FirstStep<K(!new)>(catalog: Catalog<K>, id: K, to: K)
    requires Reaches(catalog, id, to) && to != id
    ensures id in catalog && exists d :: d in catalog[id].dependencyIds && Reaches(catalog, d, to)
  {
    var path :| DependencyPath(catalog, path) && path[0] == id && path[|path| - 1] == to;
    var rest := path[1..];
    assert DependencyPath(catalog, rest) && rest[|rest| - 1] == to;
    assert Reaches(catalog, rest[0], to);
  }

  /** Behind a passed check no command failed. */
  lemma {:induction false} PassedReachesNone<K(!new)>(s: Setup<K>, rounds: nat, id: K, to: K)
    requires InCatalog(s) && SettledBy(s, rounds, id) == Some(Passed) && Reaches(s.catalog, id, to)
    ensures to !in s.failing
    decreases rounds
  {
    if to != id {
      FirstStep(s.catalog, id, to);
      var d :| d in s.catalog[id].dependencyIds && Reaches(s.catalog, d, to);
      PassedReachesNone(s, rounds - 1, d, to);
    }
  }

  /** Behind any other settled check some command failed that had to run. */
  lemma {:induction false} NotPassedReachesFailed<K(!new)>(s: Setup<K>, rounds: nat, id: K) returns (to: K)
    requires InCatalog(s) && SettledBy(s, rounds, id).Some? && SettledBy(s, rounds, id) != Some(Passed)
    ensures to in s.failing && Reaches(s.catalog, id, to) && Settles(s, to, Failed)
    decreases rounds
  {
    if SettledBy(s, rounds, id) == Some(Blocked) {
      var d :| d in s.catalog[id].dependencyIds && SettledBy(s, rounds - 1, d) !in {None, Some(Passed)};
      to := NotPassedReachesFailed(s, rounds - 1, d);
      ReachesThrough(s.catalog, id, d, to);
    } else {
      to := id;
      ReachesItself(s.catalog, id);
    }
  }

  /** A failed check failed by itself: behind its dependencies nothing did. */
  lemma FailedReachesItselfOnly<K(!new)>(s: Setup<K>, id: K, to: K)
    requires InCatalog(s) && Settles(s, id, Failed) && to in s.failing && Reaches(s.catalog, id, to)
    ensures to == id
  {
    var rounds: nat :| SettledBy(s, rounds, id) == Some(Failed);
    if to != id {
      FirstStep(s.catalog, id, to);
      var d :| d in s.catalog[id].dependencyIds && Reaches(s.catalog, d, to);
      PassedReachesNone(s, rounds - 1, d, to);
    }
  }

  /** A blocked check is blocked by another one. */
  lemma BlockedReachesAnother<K(!new)>(s: Setup<K>, id: K) returns (to: K)
    requires InCatalog(s) && Settles(s, id, Blocked)
    ensures to in s.failing && to != id && Reaches(s.catalog, id, to)
  {
    var rounds: nat :| SettledBy(s, rounds, id) == Some(Blocked);
    to := NotPassedReachesFailed(s, rounds, id);
    if to == id {
      SettlesOnce(s, id, Blocked, Failed);
    }
  }

  /** Every settled status, in any catalog and any plan, cyclic ones too, is explained by the
      commands that fail on the check's dependency paths. */
  lemma SettledIsExplained<K(!new)>(s: Setup<K>, id: K, status: Status)
    requires InCatalog(s) && Settles(s, id, status)
    ensures status != Skipped && Explained(s.catalog, s.failing, id, status)
  {
    var rounds: nat :| SettledBy(s, rounds, id) == Some(status);
    ReachesItself(s.catalog, id);
    match status {
      case Passed =>
        forall to | Reaches(s.catalog, id, to) ensures to !in s.failing {
          PassedReachesNone(s, rounds, id, to);
        }
      case Failed =>
        forall to | to in s.failing && Reaches(s.catalog, id, to) ensures to == id {
          FailedReachesItselfOnly(s, id, to);
        }
        var to := NotPassedReachesFailed(s, rounds, id);
      case Blocked =>
        var to := BlockedReachesAnother(s, id);
      case Skipped =>
        assert false;
    }
  }
}
