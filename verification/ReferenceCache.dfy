/** The persistent reference cache, and how runs over it agree with one another. */
module ReferenceCache {
  import opened Sequences
  import opened Wrappers
  import opened Ordering
  import opened BalanceModels
  import opened BalanceReferences

  datatype CacheKey = CacheKey(target: BalanceTarget, kind: string, observedAt: int, observedPrecision: Precision, supportRef: string)

  function CacheKeyOf(r: BalanceReference): CacheKey {
    CacheKey(r.target, r.kind, r.observedAt, r.observedPrecision, r.supportRef)
  }

  /** Two references have one key exactly when they differ in quantity at most. */
  lemma CacheKeysExactly(a: BalanceReference, b: BalanceReference)
    ensures CacheKeyOf(a) == CacheKeyOf(b) <==> a.(quantity := b.quantity) == b
  {}

  function KeysOf(references: seq<BalanceReference>): (r: seq<CacheKey>)
    ensures |r| == |references| && forall i :: 0 <= i < |r| ==> r[i] == CacheKeyOf(references[i])
  {
    seq(|references|, i requires 0 <= i < |references| => CacheKeyOf(references[i]))
  }

  // ----- last wins -----

  /** Stores `r` at the place its key already has, or else at the end. */
  function Put(cache: seq<BalanceReference>, r: BalanceReference): (result: seq<BalanceReference>)
    ensures CacheKeyOf(r) in KeysOf(cache) ==>
              |result| == |cache|
              && forall i :: 0 <= i < |cache| ==> result[i] == if CacheKeyOf(cache[i]) == CacheKeyOf(r) then r else cache[i]
  {
    if CacheKeyOf(r) in KeysOf(cache)
    then seq(|cache|, i requires 0 <= i < |cache| => if CacheKeyOf(cache[i]) == CacheKeyOf(r) then r else cache[i])
    else cache + [r]
  }

  function PutAll(cache: seq<BalanceReference>, references: seq<BalanceReference>): seq<BalanceReference> {
    if references == [] then cache
    else Put(PutAll(cache, references[..|references| - 1]), references[|references| - 1])
  }

  /** The last of the references with this key, or the default. */
  function LastOr(references: seq<BalanceReference>, key: CacheKey, default: BalanceReference): BalanceReference {
    if references == [] then default
    else if CacheKeyOf(references[|references| - 1]) == key then references[|references| - 1]
    else LastOr(references[..|references| - 1], key, default)
  }

  ghost predicate DistinctKeys(cache: seq<BalanceReference>) {
    NoRepeats(KeysOf(cache))
  }

  /** `cache` holds exactly one reference per key of `references`: the last one. */
  ghost predicate HoldsLast(references: seq<BalanceReference>, cache: seq<BalanceReference>) {
    && DistinctKeys(cache)
    && (forall key :: key in KeysOf(cache) <==> key in KeysOf(references))
    && (forall i :: 0 <= i < |cache| ==> cache[i] == LastOr(references, CacheKeyOf(cache[i]), cache[i]))
  }

  lemma PutKeys(cache: seq<BalanceReference>, r: BalanceReference)
    ensures KeysOf(Put(cache, r)) == if CacheKeyOf(r) in KeysOf(cache) then KeysOf(cache) else KeysOf(cache) + [CacheKeyOf(r)]
  {}

  lemma PutHoldsLast(references: seq<BalanceReference>, cache: seq<BalanceReference>, r: BalanceReference)
    requires HoldsLast(references, cache)
    ensures HoldsLast(references + [r], Put(cache, r))
  {
    var grown := Put(cache, r);
    assert (references + [r])[..|references|] == references;
    PutKeys(cache, r);
    assert KeysOf(references + [r]) == KeysOf(references) + [CacheKeyOf(r)];
    forall i | 0 <= i < |grown| ensures grown[i] == LastOr(references + [r], CacheKeyOf(grown[i]), grown[i]) {
      assert KeysOf(grown)[i] == CacheKeyOf(grown[i]);
    }
  }

  lemma {:induction false} PutAllHoldsLast(references: seq<BalanceReference>)
    ensures HoldsLast(references, PutAll([], references))
  {
    if references != [] {
      var init, last := references[..|references| - 1], references[|references| - 1];
      assert references == init + [last];
      PutAllHoldsLast(init);
      PutHoldsLast(init, PutAll([], init), last);
    }
  }

  lemma {:induction false} PutAllConcat(cache: seq<BalanceReference>, a: seq<BalanceReference>, b: seq<BalanceReference>)
    ensures PutAll(cache, a + b) == PutAll(PutAll(cache, a), b)
  {
    if b == [] {
      assert a + b == a;
    } else {
      assert (a + b)[..|a + b| - 1] == a + b[..|b| - 1];
      PutAllConcat(cache, a, b[..|b| - 1]);
    }
  }

  /** Storing references whose keys are all present replaces each by the last of its key. */
  lemma {:induction false} PutKnown(cache: seq<BalanceReference>, references: seq<BalanceReference>)
    requires forall r :: r in references ==> CacheKeyOf(r) in KeysOf(cache)
    ensures |PutAll(cache, references)| == |cache| && KeysOf(PutAll(cache, references)) == KeysOf(cache)
    ensures forall i :: 0 <= i < |cache| ==> PutAll(cache, references)[i] == LastOr(references, CacheKeyOf(cache[i]), cache[i])
  {
    if references != [] {
      var init, last := references[..|references| - 1], references[|references| - 1];
      assert references == init + [last];
      PutKnown(cache, init);
      var before := PutAll(cache, init);
      PutKeys(before, last);
      assert last in references;
      forall i | 0 <= i < |cache| ensures CacheKeyOf(before[i]) == CacheKeyOf(cache[i]) {
        assert KeysOf(before)[i] == KeysOf(cache)[i];
      }
    }
  }

  lemma {:induction false} LastOfMatching(references: seq<BalanceReference>, target: MatchKey, key: CacheKey, default: BalanceReference)
    ensures LastOr(Matching(references, target), key, default)
         == if KeyOf(key.target) == target then LastOr(references, key, default) else default
  {
    if references != [] {
      var init, last := references[..|references| - 1], references[|references| - 1];
      LastOfMatching(init, target, key, default);
      assert (Matching(init, target) + [last])[..|Matching(init, target)|] == Matching(init, target);
      assert Matching(init, target) + [] == Matching(init, target);
    }
  }

  /** A cache absorbs what was matched from the references it was built from. */
  lemma {:induction false} MatchedIsAbsorbed(references: seq<BalanceReference>, cache: seq<BalanceReference>, targets: seq<BalanceTarget>)
    requires HoldsLast(references, cache)
    ensures PutAll(cache, Matched(references, targets)) == cache
  {
    if targets != [] {
      var init, group := targets[..|targets| - 1], Matching(references, KeyOf(targets[|targets| - 1]));
      MatchedIsAbsorbed(references, cache, init);
      PutAllConcat(cache, Matched(references, init), group);
      MatchingIsAbsorbed(references, cache, KeyOf(targets[|targets| - 1]));
    }
  }

  lemma MatchingIsAbsorbed(references: seq<BalanceReference>, cache: seq<BalanceReference>, target: MatchKey)
    requires HoldsLast(references, cache)
    ensures PutAll(cache, Matching(references, target)) == cache
  {
    var group := Matching(references, target);
    forall r | r in group ensures CacheKeyOf(r) in KeysOf(cache) {
      MatchingExactly(references, target, r);
      KeyPresent(references, r);
    }
    PutKnown(cache, group);
    forall i | 0 <= i < |cache| ensures LastOr(group, CacheKeyOf(cache[i]), cache[i]) == cache[i] {
      LastOfMatching(references, target, CacheKeyOf(cache[i]), cache[i]);
    }
  }

  lemma KeyPresent(references: seq<BalanceReference>, r: BalanceReference)
    requires r in references
    ensures CacheKeyOf(r) in KeysOf(references)
  {
    var i :| 0 <= i < |references| && references[i] == r;
    assert KeysOf(references)[i] == CacheKeyOf(r);
  }

  lemma {:induction false} LastIsMember(references: seq<BalanceReference>, key: CacheKey, default: BalanceReference)
    ensures key in KeysOf(references) ==>
              LastOr(references, key, default) in references && CacheKeyOf(LastOr(references, key, default)) == key
    ensures key !in KeysOf(references) ==> LastOr(references, key, default) == default
  {
    if references != [] {
      var init, last := references[..|references| - 1], references[|references| - 1];
      assert references == init + [last];
      assert KeysOf(references) == KeysOf(init) + [CacheKeyOf(last)];
      LastIsMember(init, key, default);
    }
  }

  lemma {:induction false} DistinctStays(cache: seq<BalanceReference>)
    requires DistinctKeys(cache)
    ensures PutAll([], cache) == cache
  {
    if cache != [] {
      var init, last := cache[..|cache| - 1], cache[|cache| - 1];
      assert cache == init + [last];
      assert KeysOf(cache) == KeysOf(init) + [CacheKeyOf(last)];
      NoRepeatsOneMore(KeysOf(init), CacheKeyOf(last));
      DistinctStays(init);
      assert Put(init, last) == init + [last];
    }
  }

  // ----- writing the cache -----

  /** The order in which references are written, from an order on their keys. */
  function ByKey(leq: (CacheKey, CacheKey) -> bool): (BalanceReference, BalanceReference) -> bool {
    (a: BalanceReference, b: BalanceReference) => leq(CacheKeyOf(a), CacheKeyOf(b))
  }

  /** What the cache file holds after these references are written. */
  function Written(leq: (CacheKey, CacheKey) -> bool, references: seq<BalanceReference>): seq<BalanceReference> {
    Sort(ByKey(leq), PutAll([], references))
  }

  ghost predicate Dict(cache: seq<BalanceReference>, keys: seq<CacheKey>, values: map<CacheKey, BalanceReference>) {
    && keys == KeysOf(cache)
    && (forall key :: key in values <==> key in keys)
    && (forall i :: 0 <= i < |cache| ==> keys[i] in values && values[keys[i]] == cache[i])
  }

  lemma DictGrows(cache: seq<BalanceReference>, keys: seq<CacheKey>, values: map<CacheKey, BalanceReference>, r: BalanceReference)
    requires Dict(cache, keys, values)
    ensures Dict(Put(cache, r), if CacheKeyOf(r) in values then keys else keys + [CacheKeyOf(r)], values[CacheKeyOf(r) := r])
  {
    PutKeys(cache, r);
    var grown := Put(cache, r);
    forall i | 0 <= i < |grown| ensures KeysOf(grown)[i] in values[CacheKeyOf(r) := r]
                                     && values[CacheKeyOf(r) := r][KeysOf(grown)[i]] == grown[i]
    {
      if i < |cache| {
        assert keys[i] == CacheKeyOf(cache[i]) && keys[i] in values;
      }
    }
  }

  method CollectCache(references: seq<BalanceReference>) returns (keys: seq<CacheKey>, values: map<CacheKey, BalanceReference>)
    ensures Dict(PutAll([], references), keys, values)
  {
    keys, values := [], map[];
    for i := 0 to |references|
      invariant Dict(PutAll([], references[..i]), keys, values)
    {
      assert references[..i + 1][..i] == references[..i];
      DictGrows(PutAll([], references[..i]), keys, values, references[i]);
      if CacheKeyOf(references[i]) !in values {
        keys := keys + [CacheKeyOf(references[i])];
      }
      values := values[CacheKeyOf(references[i]) := references[i]];
    }
    assert references[..|references|] == references;
  }

  lemma {:induction false} InsertMaps(leq: (CacheKey, CacheKey) -> bool, s: seq<BalanceReference>, r: BalanceReference)
    ensures KeysOf(Insert(ByKey(leq), s, r)) == Insert(leq, KeysOf(s), CacheKeyOf(r))
  {
    if s != [] {
      assert KeysOf(s)[..|s| - 1] == KeysOf(s[..|s| - 1]);
      InsertMaps(leq, s[..|s| - 1], r);
    }
  }

  /** Sorting references by key and sorting their keys are the same. */
  lemma {:induction false} SortMaps(leq: (CacheKey, CacheKey) -> bool, s: seq<BalanceReference>)
    ensures KeysOf(Sort(ByKey(leq), s)) == Sort(leq, KeysOf(s))
  {
    if s != [] {
      assert KeysOf(s)[..|s| - 1] == KeysOf(s[..|s| - 1]);
      SortMaps(leq, s[..|s| - 1]);
      InsertMaps(leq, Sort(ByKey(leq), s[..|s| - 1]), s[|s| - 1]);
    }
  }

  lemma ByKeyIsOrder(leq: (CacheKey, CacheKey) -> bool)
    requires TotalPreorder(leq)
    ensures TotalPreorder(ByKey(leq))
  {
    var order := ByKey(leq);
    assert forall a, b: BalanceReference :: order(a, b) == leq(CacheKeyOf(a), CacheKeyOf(b));
  }

  /** Looking up the sorted keys gives the sorted references. */
  lemma LookupSorted(leq: (CacheKey, CacheKey) -> bool, cache: seq<BalanceReference>, keys: seq<CacheKey>,
                     values: map<CacheKey, BalanceReference>, i: nat)
    requires TotalPreorder(leq) && Dict(cache, keys, values) && i < |cache|
    ensures var key := Sort(leq, keys)[i]; key in values && values[key] == Sort(ByKey(leq), cache)[i]
  {
    ByKeyIsOrder(leq);
    SortMaps(leq, cache);
    MembersOfSort(ByKey(leq), cache);
    var r := Sort(ByKey(leq), cache)[i];
    assert r in cache;
    var j :| 0 <= j < |cache| && cache[j] == r;
    assert keys[j] == CacheKeyOf(r);
  }

  /** Merges existing and resolved references and writes them in key order. The issue file
      holds this run's issues; when there are none it is gone. */
  method PersistBalanceReferenceCache(leq: (CacheKey, CacheKey) -> bool, existing: seq<BalanceReference>, resolved: seq<BalanceReference>,
                                      issues: seq<Issue>)
    returns (stored: seq<BalanceReference>, issueFile: Option<seq<Issue>>)
    requires TotalPreorder(leq)
    ensures stored == Written(leq, existing + resolved)
    ensures issueFile == if issues == [] then None else Some(issues)
  {
    var keys, values := CollectCache(existing + resolved);
    var ordered := Sort(leq, keys);
    forall i: nat | i < |ordered|
      ensures ordered[i] in values && values[ordered[i]] == Written(leq, existing + resolved)[i]
    {
      LookupSorted(leq, PutAll([], existing + resolved), keys, values, i);
    }
    stored := seq(|ordered|, i requires 0 <= i < |ordered| && ordered[i] in values => values[ordered[i]]);
    issueFile := if issues == [] then None else Some(issues);
  }

  // ----- reruns -----

  lemma WrittenKeepsDistinct(leq: (CacheKey, CacheKey) -> bool, references: seq<BalanceReference>)
    requires TotalPreorder(leq)
    ensures DistinctKeys(Written(leq, references)) && Sorted(ByKey(leq), Written(leq, references))
    ensures forall r :: r in Written(leq, references) <==> r in PutAll([], references)
  {
    var cache, written := PutAll([], references), Written(leq, references);
    ByKeyIsOrder(leq);
    SortSorts(ByKey(leq), cache);
    MembersOfSort(ByKey(leq), cache);
    PutAllHoldsLast(references);
    forall i, j | 0 <= i < j < |cache| ensures cache[i] != cache[j] {
      assert KeysOf(cache)[i] != KeysOf(cache)[j];
    }
    RearrangedNoRepeats(cache, written);
    forall i, j | 0 <= i < j < |written| ensures KeysOf(written)[i] != KeysOf(written)[j] {
      if KeysOf(written)[i] == KeysOf(written)[j] {
        SameKeySameEntry(cache, written[i], written[j]);
      }
    }
  }

  lemma SameKeySameEntry(cache: seq<BalanceReference>, a: BalanceReference, b: BalanceReference)
    requires DistinctKeys(cache) && a in cache && b in cache && CacheKeyOf(a) == CacheKeyOf(b)
    ensures a == b
  {
    var i :| 0 <= i < |cache| && cache[i] == a;
    var j :| 0 <= j < |cache| && cache[j] == b;
    assert KeysOf(cache)[i] == KeysOf(cache)[j];
  }

  /** Writing a written cache again changes nothing. */
  lemma RewriteIsIdentity(leq: (CacheKey, CacheKey) -> bool, references: seq<BalanceReference>)
    requires TotalPreorder(leq)
    ensures Written(leq, Written(leq, references)) == Written(leq, references)
  {
    WrittenKeepsDistinct(leq, references);
    DistinctStays(Written(leq, references));
    SortedStays(ByKey(leq), Written(leq, references));
  }

  /** An offline run writes back what it read: duplicates of a key collapse to the last
      one, nothing else changes, and the next offline run changes nothing at all. */
  lemma OfflineRunOnlyDeduplicates<P(!new)>(leq: (CacheKey, CacheKey) -> bool, existing: seq<BalanceReference>, targets: seq<BalanceTarget>,
                                            again: seq<BalanceTarget>, providers: Option<Providers<P>>)
    requires TotalPreorder(leq)
    ensures var (references, _) := Resolved(existing, targets, false, providers);
            var stored := Written(leq, existing + references);
            && stored == Written(leq, existing)
            && Written(leq, stored + Resolved(stored, again, false, providers).0) == stored
  {
    OfflineRun(leq, existing, targets);
    OfflineRun(leq, Written(leq, existing), again);
    RewriteIsIdentity(leq, existing);
  }

  lemma OfflineRun(leq: (CacheKey, CacheKey) -> bool, existing: seq<BalanceReference>, targets: seq<BalanceTarget>)
    ensures Written(leq, existing + Matched(existing, targets)) == Written(leq, existing)
  {
    PutAllHoldsLast(existing);
    PutAllConcat([], existing, Matched(existing, targets));
    MatchedIsAbsorbed(existing, PutAll([], existing), targets);
  }

  /** Writing keeps exactly the match keys on record. */
  lemma WrittenKeepsRecord(leq: (CacheKey, CacheKey) -> bool, references: seq<BalanceReference>, key: MatchKey)
    requires TotalPreorder(leq)
    ensures OnRecord(Written(leq, references), key) <==> OnRecord(references, key)
  {
    var cache := PutAll([], references);
    WrittenKeepsDistinct(leq, references);
    PutAllHoldsLast(references);
    if r :| r in references && KeyOf(r.target) == key {
      KeyPresent(references, r);
      var i :| 0 <= i < |cache| && KeysOf(cache)[i] == CacheKeyOf(r);
      assert cache[i] in cache && KeyOf(cache[i].target) == key;
    }
    if c :| c in cache && KeyOf(c.target) == key {
      KeyPresent(cache, c);
      LastIsMember(references, CacheKeyOf(c), c);
      var r := LastOr(references, CacheKeyOf(c), c);
      assert r in references && CacheKeyOf(r) == CacheKeyOf(c);
    }
  }

  /** The cache left behind by a hydrating run. */
  function AfterHydration<P(==)>(leq: (CacheKey, CacheKey) -> bool, existing: seq<BalanceReference>, targets: seq<BalanceTarget>,
                                 providers: Providers<P>): seq<BalanceReference> {
    Written(leq, existing + Resolved(existing, targets, true, Some(providers)).0)
  }

  predicate HasAnswer(answered: seq<BalanceTarget>, key: MatchKey) {
    exists t | t in answered :: KeyOf(t) == key
  }

  /** After a hydrating run, an offline rerun misses exactly the targets that were missing
      before and whose match key got no answer. */
  lemma RerunMisses<P(!new)>(leq: (CacheKey, CacheKey) -> bool, existing: seq<BalanceReference>, targets: seq<BalanceTarget>,
                             providers: Providers<P>, t: BalanceTarget)
    requires TotalPreorder(leq) && Honest(providers)
    ensures t in Unresolved(AfterHydration(leq, existing, targets, providers), targets)
            <==> t in Unresolved(existing, targets)
                 && !HasAnswer(Answered(AllReplies(providers, Unresolved(existing, targets))), KeyOf(t))
  {
    var unresolved := Unresolved(existing, targets);
    var replies := AllReplies(providers, unresolved);
    var resolved := Resolved(existing, targets, true, Some(providers)).0;
    UnresolvedExactly(existing, targets, t);
    UnresolvedExactly(AfterHydration(leq, existing, targets, providers), targets, t);
    WrittenKeepsRecord(leq, existing + resolved, KeyOf(t));
    HonestReplies(providers, Asked(providers.choose, unresolved), unresolved);
    SuppliedKeys(replies, KeyOf(t));
    RecordOfRun(existing, targets, Supplied(replies), KeyOf(t));
  }

  lemma RecordOfRun(existing: seq<BalanceReference>, targets: seq<BalanceTarget>, supplied: seq<BalanceReference>, key: MatchKey)
    ensures OnRecord(existing + (Matched(existing, targets) + supplied), key) <==> OnRecord(existing, key) || OnRecord(supplied, key)
  {
    MatchedAreExisting(existing, targets);
    var all := existing + (Matched(existing, targets) + supplied);
    assert forall r :: r in all <==> r in existing || r in Matched(existing, targets) || r in supplied;
  }

  lemma {:induction false} MatchedAreExisting(existing: seq<BalanceReference>, targets: seq<BalanceTarget>)
    ensures forall r :: r in Matched(existing, targets) ==> r in existing
  {
    if targets != [] {
      MatchedAreExisting(existing, targets[..|targets| - 1]);
      forall r | r in Matching(existing, KeyOf(targets[|targets| - 1])) ensures r in existing {
        MatchingExactly(existing, KeyOf(targets[|targets| - 1]), r);
      }
    }
  }

  /** The offline rerun reports as missing exactly the targets that had issues. */
  ghost predicate RerunAgrees<P(!new)>(leq: (CacheKey, CacheKey) -> bool, existing: seq<BalanceReference>, targets: seq<BalanceTarget>,
                                       providers: Providers<P>) {
    forall t :: t in Unresolved(AfterHydration(leq, existing, targets, providers), targets)
                <==> t in IssueTargets(HydrationIssues(providers, Unresolved(existing, targets)))
  }

  ghost predicate DistinctMatchKeys(targets: seq<BalanceTarget>) {
    forall i, j :: 0 <= i < j < |targets| ==> KeyOf(targets[i]) != KeyOf(targets[j])
  }

  lemma {:induction false} OneOfEachKey(targets: seq<BalanceTarget>, a: BalanceTarget, b: BalanceTarget)
    requires DistinctMatchKeys(targets) && KeyOf(a) == KeyOf(b)
    ensures multiset(targets)[a] + (if a == b then 0 else multiset(targets)[b]) <= 1
  {
    if targets != [] {
      var init, last := targets[..|targets| - 1], targets[|targets| - 1];
      assert targets == init + [last];
      OneOfEachKey(init, a, b);
      if KeyOf(last) == KeyOf(a) {
        assert a !in init && b !in init;
        assert a !in multiset(init) && b !in multiset(init);
      }
    }
  }

  /** With pairwise distinct match keys among the unresolved targets, every honest provider
      makes the rerun agree. */
  lemma DistinctKeysAgree<P(!new)>(leq: (CacheKey, CacheKey) -> bool, existing: seq<BalanceReference>, targets: seq<BalanceTarget>,
                                   providers: Providers<P>)
    requires TotalPreorder(leq) && Honest(providers) && DistinctMatchKeys(Unresolved(existing, targets))
    ensures RerunAgrees(leq, existing, targets, providers)
  {
    var unresolved := Unresolved(existing, targets);
    var answered, failed := Answered(AllReplies(providers, unresolved)), IssueTargets(HydrationIssues(providers, unresolved));
    OneAnswerEach(providers, unresolved);
    forall t ensures t in Unresolved(AfterHydration(leq, existing, targets, providers), targets) <==> t in failed {
      RerunMisses(leq, existing, targets, providers, t);
      AnsweredXorFailed(unresolved, answered, failed, t);
    }
  }

  lemma AnsweredXorFailed(unresolved: seq<BalanceTarget>, answered: seq<BalanceTarget>, failed: seq<BalanceTarget>, t: BalanceTarget)
    requires multiset(answered) + multiset(failed) == multiset(unresolved) && DistinctMatchKeys(unresolved)
    ensures t in failed <==> t in unresolved && !HasAnswer(answered, KeyOf(t))
  {
    assert t in unresolved <==> t in multiset(unresolved);
    assert t in failed <==> t in multiset(failed);
    assert t in answered <==> t in multiset(answered);
    if a :| a in answered && KeyOf(a) == KeyOf(t) {
      assert a in multiset(answered);
      OneOfEachKey(unresolved, t, a);
    }
  }

  // ----- two targets with one match key -----

  /** An honest provider that answers the first request for each match key and fails the rest. */
  function AnswerFirst(requests: seq<BalanceTarget>): (r: seq<ProviderResult>)
    ensures |r| == |requests|
    ensures forall i :: 0 <= i < |r| ==>
              r[i] == ProviderResult(requests[i],
                if HasAnswer(requests[..i], KeyOf(requests[i])) then None
                else Some(BalanceReference(requests[i], "", 0, Date, "", 0.0)), "")
  {
    seq(|requests|, i requires 0 <= i < |requests| =>
      ProviderResult(requests[i],
        if HasAnswer(requests[..i], KeyOf(requests[i])) then None
        else Some(BalanceReference(requests[i], "", 0, Date, "", 0.0)), ""))
  }

  function FirstOnly(): Providers<bool> {
    Providers((t: BalanceTarget) => Some(true), (p: bool, requests: seq<BalanceTarget>) => AnswerFirst(requests))
  }

  lemma FirstOnlyIsHonest()
    ensures Honest(FirstOnly())
  {
    forall p: bool, requests: seq<BalanceTarget> ensures HonestBatch(requests, FirstOnly().fetch(p, requests)) {
      assert RequestedTargets(AnswerFirst(requests)) == requests;
    }
  }

  /** One provider for everything gets the whole batch. */
  lemma {:induction false} SoleProviderReplies(providers: Providers<bool>, targets: seq<BalanceTarget>)
    requires forall t :: providers.choose(t) == Some(true)
    ensures Chosen(providers.choose, targets, Some(true)) == targets && Chosen(providers.choose, targets, None) == []
    ensures Asked(providers.choose, targets) == if targets == [] then [] else [true]
  {
    if targets != [] {
      SoleProviderReplies(providers, targets[..|targets| - 1]);
      assert targets == targets[..|targets| - 1] + [targets[|targets| - 1]];
    }
  }

  lemma OneBatch(providers: Providers<bool>, order: seq<bool>, targets: seq<BalanceTarget>)
    requires order == [true] && Chosen(providers.choose, targets, Some(true)) == targets
    ensures Replies(providers, order, targets) == providers.fetch(true, targets)
  {
    assert order[..0] == [];
    assert Replies(providers, order[..0], targets) == [];
  }

  lemma OneProvider(providers: Providers<bool>, targets: seq<BalanceTarget>)
    requires forall t :: providers.choose(t) == Some(true)
    ensures AllReplies(providers, targets) == if targets == [] then [] else providers.fetch(true, targets)
  {
    SoleProviderReplies(providers, targets);
    if targets != [] {
      OneBatch(providers, Asked(providers.choose, targets), targets);
    }
  }

  lemma {:induction false} AnsweredAt(results: seq<ProviderResult>, m: nat)
    requires m < |results|
    ensures if results[m].reference.Some? then results[m].target in Answered(results)
            else results[m].target in IssueTargets(Failures(results))
  {
    var init, last := results[..|results| - 1], results[|results| - 1];
    assert results == init + [last];
    AnsweredOneMore(init, last);
    FailuresOneMore(init, last);
    if m < |init| {
      AnsweredAt(init, m);
    }
  }

  lemma {:induction false} FirstOfKey(requests: seq<BalanceTarget>, i: nat)
    requires i < |requests|
    ensures HasAnswer(Answered(AnswerFirst(requests)), KeyOf(requests[i]))
  {
    if HasAnswer(requests[..i], KeyOf(requests[i])) {
      var t :| t in requests[..i] && KeyOf(t) == KeyOf(requests[i]);
      var m :| 0 <= m < i && requests[m] == t;
      FirstOfKey(requests, m);
    } else {
      AnsweredAt(AnswerFirst(requests), i);
    }
  }

  /** With two unresolved targets of one match key, an honest provider can answer one and
      fail the other, and then the rerun does not miss the one that had an issue. */
  lemma SharedKeyDisagrees(leq: (CacheKey, CacheKey) -> bool, existing: seq<BalanceReference>, targets: seq<BalanceTarget>)
    requires TotalPreorder(leq) && !DistinctMatchKeys(Unresolved(existing, targets))
    ensures Honest(FirstOnly()) && !RerunAgrees(leq, existing, targets, FirstOnly())
  {
    var unresolved := Unresolved(existing, targets);
    var i, j :| 0 <= i < j < |unresolved| && KeyOf(unresolved[i]) == KeyOf(unresolved[j]);
    var t, replies := unresolved[j], AnswerFirst(unresolved);
    FirstOnlyIsHonest();
    OneProvider(FirstOnly(), unresolved);
    assert unresolved[..j][i] in unresolved[..j];
    assert replies[j].reference.None?;
    AnsweredAt(replies, j);
    IssueTargetsConcat(Chosen(FirstOnly().choose, unresolved, None), Failures(replies));
    FirstOfKey(unresolved, j);
    RerunMisses(leq, existing, targets, FirstOnly(), t);
  }

  /** Reruns agree whatever the providers answer exactly when no two unresolved targets
      share a match key, as two targets differing only in precision do. */
  lemma RerunAgreesExactly(leq: (CacheKey, CacheKey) -> bool, existing: seq<BalanceReference>, targets: seq<BalanceTarget>)
    requires TotalPreorder(leq)
    ensures DistinctMatchKeys(Unresolved(existing, targets))
            <==> forall providers: Providers<bool> :: Honest(providers) ==> RerunAgrees(leq, existing, targets, providers)
  {
    if DistinctMatchKeys(Unresolved(existing, targets)) {
      forall providers: Providers<bool> | Honest(providers) ensures RerunAgrees(leq, existing, targets, providers) {
        DistinctKeysAgree(leq, existing, targets, providers);
      }
    } else {
      SharedKeyDisagrees(leq, existing, targets);
    }
  }

  /** Two unresolved targets that differ in precision only are such a pair. */
  lemma PrecisionTwinsDisagree(leq: (CacheKey, CacheKey) -> bool, t: BalanceTarget)
    requires TotalPreorder(leq)
    ensures !RerunAgrees(leq, [], [t.(precision := Date), t.(precision := Timestamp)], FirstOnly())
  {
    var day, instant := t.(precision := Date), t.(precision := Timestamp);
    UnresolvedOneMore([], [], day);
    UnresolvedOneMore([], [day], instant);
    assert [] + [day] == [day] && [day] + [instant] == [day, instant];
    assert Unresolved([], [day, instant]) == [day, instant];
    assert KeyOf(Unresolved([], [day, instant])[0]) == KeyOf(Unresolved([], [day, instant])[1]);
    SharedKeyDisagrees(leq, [], [day, instant]);
  }
}
