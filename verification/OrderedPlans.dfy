/** Listing a selection in a fixed order, over any catalog. */
module OrderedPlans {
  import opened Sequences
  import opened CheckSpecs
  import opened SchedulingInvariants

  function OrderedFirst<K(!new)>(order: seq<K>, turns: nat, ids: set<K>): (ordered: seq<K>)
    requires turns <= |order|
    ensures forall id :: id in ordered <==> id in order[..turns] && id in ids
    ensures NoRepeats(order) ==> NoRepeats(ordered)
    decreases turns
  {
    if turns == 0 then []
    else
      var ordered := OrderedFirst(order, turns - 1, ids);
      assert order[..turns] == order[..turns - 1] + [order[turns - 1]];
      if order[turns - 1] in ids then ordered + [order[turns - 1]] else ordered
  }

  /** Keeps exactly the given ids, in catalog order. */
  function Ordered<K(!new)>(order: seq<K>, ids: set<K>): (ordered: seq<K>)
    ensures forall id :: id in ordered <==> id in order && id in ids
    ensures NoRepeats(order) ==> NoRepeats(ordered)
  {
    assert order[..|order|] == order;
    OrderedFirst(order, |order|, ids)
  }

  ghost predicate Ascending<K>(rank: map<K, nat>, s: seq<K>) {
    && (forall x :: x in s ==> x in rank)
    && forall i, j :: 0 <= i < j < |s| ==> rank[s[i]] < rank[s[j]]
  }

  lemma AscendingOneMore<K>(rank: map<K, nat>, s: seq<K>, x: K)
    requires Ascending(rank, s) && x in rank && forall y :: y in s ==> rank[y] < rank[x]
    ensures Ascending(rank, s + [x])
  {
    forall i | 0 <= i < |s| ensures rank[s[i]] < rank[x] {
      assert s[i] in s;
    }
  }

  lemma {:induction false} OrderedAscends<K(!new)>(rank: map<K, nat>, order: seq<K>, turns: nat, ids: set<K>)
    requires Ascending(rank, order) && turns <= |order|
    ensures Ascending(rank, OrderedFirst(order, turns, ids))
    decreases turns
  {
    if turns > 0 {
      OrderedAscends(rank, order, turns - 1, ids);
      var before, last := OrderedFirst(order, turns - 1, ids), order[turns - 1];
      forall x | x in before ensures rank[x] < rank[last] {
        var i :| 0 <= i < turns - 1 && order[i] == x;
      }
      AscendingOneMore(rank, before, last);
    }
  }

  lemma LowerRankIsEarlier<K>(rank: map<K, nat>, plan: seq<K>, d: K, i: nat)
    requires Ascending(rank, plan) && i < |plan| && d in plan && rank[d] < rank[plan[i]]
    ensures d in plan[..i]
  {
    var j :| 0 <= j < |plan| && plan[j] == d;
  }

  /** The order lists the catalog, by rank, and every dependency ranks below its dependents. */
  ghost predicate Fits<K(!new)>(catalog: Catalog<K>, order: seq<K>, rank: map<K, nat>) {
    && Ascending(rank, order)
    && (forall id :: id in order <==> id in catalog)
    && (forall id :: id in catalog ==> id in rank)
    && forall id, d :: id in catalog && d in catalog[id].dependencyIds ==> d in catalog && rank[d] < rank[id]
  }

  ghost predicate SelfContained<K(!new)>(catalog: Catalog<K>, ids: set<K>) {
    forall id, d :: id in ids && id in catalog && d in catalog[id].dependencyIds ==> d in ids
  }

  /** A closed selection listed in an order that puts dependencies first is a plan
      the executor can always finish, in plan order when it runs serially. */
  lemma OrderedIsExecutable<K(!new)>(catalog: Catalog<K>, rank: map<K, nat>, order: seq<K>, ids: set<K>)
    requires Fits(catalog, order, rank) && SelfContained(catalog, ids)
    ensures var plan := Ordered(order, ids);
            NoRepeats(plan) && Ranked(catalog, plan, rank) && Topological(catalog, plan)
  {
    var plan := Ordered(order, ids);
    OrderedAscends(rank, order, |order|, ids);
    forall i, d | 0 <= i < |plan| && d in catalog[plan[i]].dependencyIds ensures d in plan[..i] {
      assert plan[i] in plan && d in plan;
      LowerRankIsEarlier(rank, plan, d, i);
    }
  }
}
