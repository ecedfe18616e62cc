/** The shape of one catalog entry: what a check waits for, whether its failure
    blocks, and which checks it makes redundant. */
module CheckSpecs {

  datatype CheckSpec<K> = CheckSpec(dependencyIds: seq<K>, blocking: bool, dominanceIds: seq<K>)

  type Catalog<K> = map<K, CheckSpec<K>>

  /** Every dependency of a selected check is itself selected and ranks lower:
      the plan is dependency-closed and has no cycle. */
  ghost predicate Ranked<K>(catalog: Catalog<K>, plan: seq<K>, rank: map<K, nat>) {
    forall id :: id in plan ==>
      && id in catalog
      && id in rank
      && forall d :: d in catalog[id].dependencyIds ==> d in plan && d in rank && rank[d] < rank[id]
  }
}
