/** Removing checks that a broader selected check already covers. */
module Dominance {
  import opened CheckSpecs

  datatype SuppressedCheck<K> = SuppressedCheck(checkId: K, dominator: K)

  datatype Selection<K> = Selection(selected: set<K>, suppressed: seq<SuppressedCheck<K>>)

  function SuppressBy<K>(dominator: K, dominated: seq<K>, before: Selection<K>): Selection<K> {
    if dominated == [] then before
    else
      var last := dominated[|dominated| - 1];
      var earlier := SuppressBy(dominator, dominated[..|dominated| - 1], before);
      if last !in earlier.selected then earlier
      else Selection(earlier.selected - {last}, earlier.suppressed + [SuppressedCheck(last, dominator)])
  }

  /** The selection left after the first `turns` checks of `order` had their turn. */
  function DominateFirst<K>(catalog: Catalog<K>, order: seq<K>, turns: nat, checkIds: set<K>): Selection<K>
    requires turns <= |order| && forall id :: id in order ==> id in catalog
    decreases turns
  {
    if turns == 0 then Selection(checkIds, [])
    else
      var earlier := DominateFirst(catalog, order, turns - 1, checkIds);
      var checkId := order[turns - 1];
      if checkId !in earlier.selected then earlier
      else SuppressBy(checkId, catalog[checkId].dominanceIds, earlier)
  }

  function Dominate<K>(catalog: Catalog<K>, order: seq<K>, checkIds: set<K>): Selection<K>
    requires forall id :: id in order ==> id in catalog
  {
    DominateFirst(catalog, order, |order|, checkIds)
  }

  method ApplyDominance<K(==)>(catalog: Catalog<K>, order: seq<K>, checkIds: set<K>) returns (result: Selection<K>)
    requires forall id :: id in order ==> id in catalog
    ensures result == Dominate(catalog, order, checkIds)
  {
    var suppressed: seq<SuppressedCheck<K>> := [];
    var selected := checkIds;
    for i := 0 to |order|
      invariant Selection(selected, suppressed) == DominateFirst(catalog, order, i, checkIds)
    {
      var checkId := order[i];
      if checkId !in selected {
        continue;
      }
      var dominance := catalog[checkId].dominanceIds;
      ghost var before := Selection(selected, suppressed);
      for j := 0 to |dominance|
        invariant Selection(selected, suppressed) == SuppressBy(checkId, dominance[..j], before)
      {
        assert dominance[..j + 1][..j] == dominance[..j];
        if dominance[j] !in selected {
          continue;
        }
        selected := selected - {dominance[j]};
        suppressed := suppressed + [SuppressedCheck(dominance[j], checkId)];
      }
      assert dominance[..|dominance|] == dominance;
    }
    result := Selection(selected, suppressed);
  }

  ghost predicate Irreflexive<K>(catalog: Catalog<K>) {
    forall id :: id in catalog ==> id !in catalog[id].dominanceIds
  }

  ghost predicate Suppresses<K>(s: Selection<K>, id: K) {
    exists i :: 0 <= i < |s.suppressed| && s.suppressed[i].checkId == id
  }

  /** Each suppression is by a catalog dominator that survives or is itself suppressed later. */
  ghost predicate Traced<K>(catalog: Catalog<K>, s: Selection<K>, i: nat)
    requires i < |s.suppressed|
  {
    var x := s.suppressed[i];
    && x.dominator in catalog && x.checkId in catalog[x.dominator].dominanceIds
    && (x.dominator in s.selected || exists j :: i < j < |s.suppressed| && s.suppressed[j].checkId == x.dominator)
  }

  ghost predicate Sound<K(!new)>(catalog: Catalog<K>, checkIds: set<K>, s: Selection<K>) {
    && (forall id :: id in checkIds <==> id in s.selected || Suppresses(s, id))
    && (forall id :: id in s.selected ==> !Suppresses(s, id))
    && (forall i, j :: 0 <= i < j < |s.suppressed| ==> s.suppressed[i].checkId != s.suppressed[j].checkId)
    && (forall i: nat :: i < |s.suppressed| ==> Traced(catalog, s, i))
  }

  lemma RemoveKeepsSound<K(!new)>(catalog: Catalog<K>, checkIds: set<K>, s: Selection<K>, id: K, dominator: K)
    requires Sound(catalog, checkIds, s)
    requires id in s.selected && dominator in s.selected && id != dominator
    requires dominator in catalog && id in catalog[dominator].dominanceIds
    ensures Sound(catalog, checkIds, Selection(s.selected - {id}, s.suppressed + [SuppressedCheck(id, dominator)]))
  {
    var s' := Selection(s.selected - {id}, s.suppressed + [SuppressedCheck(id, dominator)]);
    assert s'.suppressed[|s.suppressed|].checkId == id;
    assert forall i :: 0 <= i < |s.suppressed| ==> s'.suppressed[i] == s.suppressed[i];
    forall x ensures Suppresses(s', x) <==> Suppresses(s, x) || x == id {}
    forall i: nat | i < |s'.suppressed| ensures Traced(catalog, s', i) {
      if i < |s.suppressed| { assert Traced(catalog, s, i); }
    }
  }

  lemma {:induction false} SuppressByKeeps<K(!new)>(catalog: Catalog<K>, checkIds: set<K>, s: Selection<K>,
                                                    dominator: K, dominated: seq<K>)
    requires Sound(catalog, checkIds, s) && dominator in s.selected && dominator in catalog
    requires forall d :: d in dominated ==> d in catalog[dominator].dominanceIds && d != dominator
    ensures var s' := SuppressBy(dominator, dominated, s);
            && Sound(catalog, checkIds, s') && dominator in s'.selected && s'.selected <= s.selected
            && forall d :: d in dominated ==> d !in s'.selected
  {
    if dominated != [] {
      var init, last := dominated[..|dominated| - 1], dominated[|dominated| - 1];
      assert dominated == init + [last];
      assert forall d :: d in init ==> d in dominated;
      SuppressByKeeps(catalog, checkIds, s, dominator, init);
      var earlier := SuppressBy(dominator, init, s);
      assert last in dominated;
      if last in earlier.selected {
        RemoveKeepsSound(catalog, checkIds, earlier, last, dominator);
      }
    }
  }

  lemma {:induction false} DominateFirstSound<K(!new)>(catalog: Catalog<K>, order: seq<K>, turns: nat, checkIds: set<K>)
    requires Irreflexive(catalog) && turns <= |order| && forall id :: id in order ==> id in catalog
    ensures var s := DominateFirst(catalog, order, turns, checkIds);
            && Sound(catalog, checkIds, s)
            && forall i, b :: 0 <= i < turns && order[i] in s.selected && b in catalog[order[i]].dominanceIds ==> b !in s.selected
    decreases turns
  {
    if turns > 0 {
      DominateFirstSound(catalog, order, turns - 1, checkIds);
      var earlier, id := DominateFirst(catalog, order, turns - 1, checkIds), order[turns - 1];
      if id in earlier.selected {
        SuppressByKeeps(catalog, checkIds, earlier, id, catalog[id].dominanceIds);
      }
    }
  }

  /** Selected and suppressed partition the input, and no survivor that had its turn
      dominates another survivor. */
  lemma DominateSound<K(!new)>(catalog: Catalog<K>, order: seq<K>, checkIds: set<K>)
    requires Irreflexive(catalog) && forall id :: id in order ==> id in catalog
    ensures var s := Dominate(catalog, order, checkIds);
            && Sound(catalog, checkIds, s)
            && forall a, b :: a in s.selected && a in order && b in catalog[a].dominanceIds ==> b !in s.selected
  {
    DominateFirstSound(catalog, order, |order|, checkIds);
  }

  /** A path of dominance edges. */
  ghost predicate Chain<K>(catalog: Catalog<K>, path: seq<K>) {
    forall i :: 0 <= i < |path| - 1 ==> path[i] in catalog && path[i + 1] in catalog[path[i]].dominanceIds
  }

  lemma {:induction false} SuppressedReachedAt<K(!new)>(catalog: Catalog<K>, checkIds: set<K>, s: Selection<K>, i: nat)
    returns (path: seq<K>)
    requires Sound(catalog, checkIds, s) && i < |s.suppressed|
    ensures |path| >= 2 && Chain(catalog, path) && path[0] in s.selected && path[|path| - 1] == s.suppressed[i].checkId
    decreases |s.suppressed| - i
  {
    var x := s.suppressed[i];
    assert Traced(catalog, s, i);
    if x.dominator in s.selected {
      path := [x.dominator, x.checkId];
    } else {
      var j :| i < j < |s.suppressed| && s.suppressed[j].checkId == x.dominator;
      var rest := SuppressedReachedAt(catalog, checkIds, s, j);
      path := rest + [x.checkId];
      forall k | 0 <= k < |path| - 1
        ensures path[k] in catalog && path[k + 1] in catalog[path[k]].dominanceIds
      {
        if k < |rest| - 1 { assert path[k] == rest[k] && path[k + 1] == rest[k + 1]; }
      }
    }
  }

  /** Every suppressed check is reached from some survivor by dominance edges. */
  lemma SuppressedReached<K(!new)>(catalog: Catalog<K>, order: seq<K>, checkIds: set<K>, id: K) returns (path: seq<K>)
    requires Irreflexive(catalog) && forall x :: x in order ==> x in catalog
    requires id in checkIds && id !in Dominate(catalog, order, checkIds).selected
    ensures |path| >= 2 && Chain(catalog, path) && path[|path| - 1] == id
    ensures path[0] in Dominate(catalog, order, checkIds).selected
  {
    DominateSound(catalog, order, checkIds);
    var s := Dominate(catalog, order, checkIds);
    assert Suppresses(s, id);
    var i: nat :| i < |s.suppressed| && s.suppressed[i].checkId == id;
    path := SuppressedReachedAt(catalog, checkIds, s, i);
  }

  /** When only one check dominates anything, dominance removes exactly what it covers. */
  lemma SingleDominator<K(!new)>(catalog: Catalog<K>, order: seq<K>, checkIds: set<K>, top: K)
    requires Irreflexive(catalog) && (forall id :: id in order ==> id in catalog) && top in order
    requires forall id :: id in catalog && id != top ==> catalog[id].dominanceIds == []
    ensures forall id :: id in Dominate(catalog, order, checkIds).selected <==>
              id in checkIds && !(top in checkIds && id in catalog[top].dominanceIds)
  {
    DominateSound(catalog, order, checkIds);
    var s := Dominate(catalog, order, checkIds);
    forall x | Suppresses(s, x) ensures x in catalog[top].dominanceIds && top in s.selected {
      var i: nat :| i < |s.suppressed| && s.suppressed[i].checkId == x;
      assert Traced(catalog, s, i);
      forall j: nat | j < |s.suppressed| ensures s.suppressed[j].checkId != top {
        assert Traced(catalog, s, j);
      }
    }
  }
}
