/** What a check's status has to be, said without any scheduler.
    A check settles as blocked as soon as one of its dependencies settles as
    anything but passed, and as its own outcome once all of them passed. */
module Settlement {
  import opened Wrappers
  import opened CheckSpecs

  datatype Status = Passed | Failed | Skipped | Blocked

  /** A catalog, a selection of its checks, and the checks whose command fails. */
  datatype Setup<K> = Setup(catalog: Catalog<K>, plan: seq<K>, failing: set<K>)

  ghost predicate InCatalog<K>(s: Setup<K>) {
    forall id :: id in s.plan ==> id in s.catalog
  }

  function Outcome<K>(failing: set<K>, id: K): Status {
    if id in failing then Failed else Passed
  }

  /** The status of `id` as far as `rounds` rounds of propagation determine it. */
  ghost function SettledBy<K(!new)>(s: Setup<K>, rounds: nat, id: K): Option<Status>
    requires InCatalog(s)
    decreases rounds
  {
    if rounds == 0 || id !in s.plan then None
    else
      var deps := s.catalog[id].dependencyIds;
      if exists d :: d in deps && SettledBy(s, rounds - 1, d) !in {None, Some(Passed)} then Some(Blocked)
      else if forall d :: d in deps ==> SettledBy(s, rounds - 1, d) == Some(Passed) then Some(Outcome(s.failing, id))
      else None
  }

  ghost predicate Settles<K(!new)>(s: Setup<K>, id: K, status: Status)
    requires InCatalog(s)
  {
    exists rounds: nat :: SettledBy(s, rounds, id) == Some(status)
  }

  lemma {:induction false} SettledByKeeps<K(!new)>(s: Setup<K>, less: nat, more: nat, id: K)
    requires InCatalog(s)
    requires less <= more && SettledBy(s, less, id).Some?
    ensures SettledBy(s, more, id) == SettledBy(s, less, id)
    decreases less
  {
    forall d | d in s.catalog[id].dependencyIds && SettledBy(s, less - 1, d).Some?
      ensures SettledBy(s, more - 1, d) == SettledBy(s, less - 1, d)
    {
      SettledByKeeps(s, less - 1, more - 1, d);
    }
  }

  lemma SettlesOnce<K(!new)>(s: Setup<K>, id: K, a: Status, b: Status)
    requires InCatalog(s)
    requires Settles(s, id, a) && Settles(s, id, b)
    ensures a == b
  {
    var m: nat :| SettledBy(s, m, id) == Some(a);
    var n: nat :| SettledBy(s, n, id) == Some(b);
    if m <= n { SettledByKeeps(s, m, n, id); } else { SettledByKeeps(s, n, m, id); }
  }

  lemma SettlesBlocked<K(!new)>(s: Setup<K>, id: K, d: K, status: Status)
    requires InCatalog(s) && id in s.plan
    requires d in s.catalog[id].dependencyIds && Settles(s, d, status) && status != Passed
    ensures Settles(s, id, Blocked)
  {
    var n: nat :| SettledBy(s, n, d) == Some(status);
    assert SettledBy(s, n + 1, id) == Some(Blocked);
  }

  lemma {:induction false} CommonRound<K(!new)>(s: Setup<K>, deps: seq<K>) returns (rounds: nat)
    requires InCatalog(s)
    requires forall d :: d in deps ==> Settles(s, d, Passed)
    ensures forall d :: d in deps ==> SettledBy(s, rounds, d) == Some(Passed)
  {
    if deps == [] { return 0; }
    var before := CommonRound(s, deps[1..]);
    assert Settles(s, deps[0], Passed);
    var first: nat :| SettledBy(s, first, deps[0]) == Some(Passed);
    rounds := if before < first then first else before;
    forall d | d in deps ensures SettledBy(s, rounds, d) == Some(Passed) {
      SettledByKeeps(s, if d == deps[0] then first else before, rounds, d);
    }
  }

  lemma SettlesOutcome<K(!new)>(s: Setup<K>, id: K)
    requires InCatalog(s) && id in s.plan
    requires forall d :: d in s.catalog[id].dependencyIds ==> Settles(s, d, Passed)
    ensures Settles(s, id, Outcome(s.failing, id))
  {
    var n := CommonRound(s, s.catalog[id].dependencyIds);
    assert SettledBy(s, n + 1, id) == Some(Outcome(s.failing, id));
  }

  /** The defining equation: a status settles exactly for the reason it should. */
  lemma SettlesExactly<K(!new)>(s: Setup<K>, id: K, status: Status)
    requires InCatalog(s)
    ensures Settles(s, id, status) <==>
      && id in s.plan
      && var deps := s.catalog[id].dependencyIds;
         if exists d, t :: d in deps && t != Passed && Settles(s, d, t) then status == Blocked
         else status == Outcome(s.failing, id) && forall d :: d in deps ==> Settles(s, d, Passed)
  {
    if Settles(s, id, status) {
      var n: nat :| SettledBy(s, n, id) == Some(status);
      if exists d, t :: d in s.catalog[id].dependencyIds && t != Passed && Settles(s, d, t) {
        var d, t :| d in s.catalog[id].dependencyIds && t != Passed && Settles(s, d, t);
        SettlesBlocked(s, id, d, t);
        SettlesOnce(s, id, Blocked, status);
      } else {
        var before: nat := n - 1;
        forall d | SettledBy(s, before, d).Some? ensures Settles(s, d, SettledBy(s, before, d).value) {}
        assert forall d :: d in s.catalog[id].dependencyIds ==> SettledBy(s, before, d) == Some(Passed);
      }
    } else if id in s.plan {
      var deps := s.catalog[id].dependencyIds;
      if exists d, t :: d in deps && t != Passed && Settles(s, d, t) {
        var d, t :| d in deps && t != Passed && Settles(s, d, t);
        SettlesBlocked(s, id, d, t);
      } else if forall d :: d in deps ==> Settles(s, d, Passed) {
        SettlesOutcome(s, id);
      }
    }
  }

  /** The recursive reading, available on closed acyclic plans: blocked if some
      dependency did not pass, else the check's own outcome. */
  ghost function Verdict<K(!new)>(s: Setup<K>, rank: map<K, nat>, id: K): Status
    requires Ranked(s.catalog, s.plan, rank) && id in s.plan
    decreases rank[id]
  {
    if exists d :: d in s.catalog[id].dependencyIds && Verdict(s, rank, d) != Passed then Blocked
    else Outcome(s.failing, id)
  }

  lemma {:induction false} VerdictSettles<K(!new)>(s: Setup<K>, rank: map<K, nat>, id: K)
    requires InCatalog(s) && Ranked(s.catalog, s.plan, rank) && id in s.plan
    ensures Settles(s, id, Verdict(s, rank, id))
    decreases rank[id]
  {
    forall d | d in s.catalog[id].dependencyIds ensures Settles(s, d, Verdict(s, rank, d)) {
      VerdictSettles(s, rank, d);
    }
    if d :| d in s.catalog[id].dependencyIds && Verdict(s, rank, d) != Passed {
      SettlesBlocked(s, id, d, Verdict(s, rank, d));
    } else {
      SettlesOutcome(s, id);
    }
  }
}
