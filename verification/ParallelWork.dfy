/** Running a batch concurrently and collecting the results in submission order. */
module ParallelWork {
  import opened Wrappers

  function InOrder<T, R>(items: seq<T>, runner: T -> R): (results: seq<R>)
    ensures |results| == |items|
    ensures forall i :: 0 <= i < |items| ==> results[i] == runner(items[i])
  {
    seq(|items|, i requires 0 <= i < |items| => runner(items[i]))
  }

  /** Each future completes once, in any order: the pick below is unconstrained
      among the unfinished ones, so the contract holds for every interleaving. */
  method RunParallelBatch<T, R>(items: seq<T>, runner: T -> R) returns (results: seq<R>)
    ensures results == InOrder(items, runner)
  {
    if |items| <= 1 {
      return InOrder(items, runner);
    }
    var futures := new Option<R>[|items|](_ => None);
    ghost var unfinished := set i | 0 <= i < |items| && futures[i].None?;
    while exists i :: 0 <= i < |items| && futures[i].None?
      invariant fresh(futures) && futures.Length == |items|
      invariant forall i :: i in unfinished <==> 0 <= i < |items| && futures[i].None?
      invariant forall i :: 0 <= i < |items| && futures[i].Some? ==> futures[i].value == runner(items[i])
      decreases unfinished
    {
      var finished :| 0 <= finished < |items| && futures[finished].None?;
      futures[finished] := Some(runner(items[finished]));
      unfinished := unfinished - {finished};
    }
    results := [];
    for next := 0 to |items|
      invariant results == InOrder(items, runner)[..next]
    {
      results := results + [futures[next].value];
    }
  }
}
