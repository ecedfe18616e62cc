/** How one run of a check bears on the next, whose targets may come from the cache it left. */
module NextRuns {
  import opened Wrappers
  import opened Ordering
  import opened BalanceModels
  import opened BalanceLedger
  import opened BalanceReferences
  import opened ReferenceCache
  import opened CheckTargets
  import opened CheckPlans

  /** The targets of the check that nothing on file answers. */
  function Missing(setup: Setup, source: SourceFiles): seq<BalanceTarget> {
    Unresolved(source.references, Targets(setup, source))
  }

  function Hydrating<P>(providers: Providers<P>): Run<P> {
    Run(true, Some(providers))
  }

  function NextSource<P(==)>(setup: Setup, source: SourceFiles, providers: Providers<P>): SourceFiles {
    AfterRun(setup, source, Hydrating(providers))
  }

  /** The targets some provider answers in a hydrating run. */
  function AnsweredIn<P(==)>(setup: Setup, source: SourceFiles, providers: Providers<P>): seq<BalanceTarget> {
    Answered(AllReplies(providers, Missing(setup, source)))
  }

  /** The targets of the issues a hydrating run raises. */
  function FailedIn<P(==)>(setup: Setup, source: SourceFiles, providers: Providers<P>): seq<BalanceTarget> {
    IssueTargets(HydrationIssues(providers, Missing(setup, source)))
  }

  /** The next run finds missing exactly the targets that had issues. */
  ghost predicate NextRunAgrees<P(!new)>(setup: Setup, source: SourceFiles, providers: Providers<P>) {
    forall t :: t in Missing(setup, NextSource(setup, source, providers)) <==> t in FailedIn(setup, source, providers)
  }

  // ----- once something wanted is on file -----

  ghost predicate HasWanted(setup: Setup, source: SourceFiles) {
    ModeOf(source).FactBacked? && OnFile(setup, source.references) != []
  }

  lemma AllRecorded(references: seq<BalanceReference>, targets: seq<BalanceTarget>)
    requires forall t :: t in targets ==> OnRecord(references, KeyOf(t))
    ensures Unresolved(references, targets) == []
  {
    var missing := Unresolved(references, targets);
    if missing != [] {
      UnresolvedExactly(references, targets, missing[0]);
    }
  }

  /** The targets on file answer themselves: nothing is missing. */
  lemma OnFileIsAnswered(setup: Setup, source: SourceFiles)
    requires Sound(setup) && HasWanted(setup, source)
    ensures Missing(setup, source) == []
  {
    ReferenceTargetsExactly(setup.targetOrder, setup.calendar, source.references, setup.request);
    forall t | t in OnFile(setup, source.references) ensures OnRecord(source.references, KeyOf(t)) {
      var r :| r in source.references && r.target == t;
      assert KeyOf(r.target) == KeyOf(t);
    }
    AllRecorded(source.references, OnFile(setup, source.references));
  }

  /** Writing keeps exactly the targets on file. */
  lemma WrittenKeepsTargets(leq: (CacheKey, CacheKey) -> bool, references: seq<BalanceReference>, t: BalanceTarget)
    requires TotalPreorder(leq)
    ensures HasTarget(Written(leq, references), t) <==> HasTarget(references, t)
  {
    var cache := PutAll([], references);
    WrittenKeepsDistinct(leq, references);
    PutAllHoldsLast(references);
    if r :| r in references && r.target == t {
      KeyPresent(references, r);
      var i :| 0 <= i < |cache| && KeysOf(cache)[i] == CacheKeyOf(r);
      assert cache[i] in cache && cache[i].target == t;
    }
    if c :| c in cache && c.target == t {
      KeyPresent(cache, c);
      LastIsMember(references, CacheKeyOf(c), c);
      assert LastOr(references, CacheKeyOf(c), c).target == t;
    }
  }

  lemma SameTargetsOnFile(setup: Setup, references: seq<BalanceReference>)
    requires Sound(setup)
    ensures OnFile(setup, Written(setup.cacheOrder, references)) == OnFile(setup, references)
  {
    var written := Written(setup.cacheOrder, references);
    ReferenceTargetsExactly(setup.targetOrder, setup.calendar, references, setup.request);
    forall t ensures HasTarget(written, t) <==> HasTarget(references, t) {
      WrittenKeepsTargets(setup.cacheOrder, references, t);
    }
    ListsReferenceTargets(setup.targetOrder, setup.calendar, written, setup.request, OnFile(setup, references));
  }

  /** Then a run, hydrating or not, asks nobody, raises nothing, and only tidies the cache. */
  lemma RunOnFile<P(!new)>(setup: Setup, source: SourceFiles, run: Run<P>)
    requires Sound(setup) && HasWanted(setup, source)
    ensures Resolution(setup, source, run) == (Matched(source.references, Targets(setup, source)), [])
    ensures AfterRun(setup, source, run) == source.(references := Written(setup.cacheOrder, source.references))
    ensures HasWanted(setup, AfterRun(setup, source, run))
    ensures Targets(setup, AfterRun(setup, source, run)) == Targets(setup, source)
  {
    var matched := Matched(source.references, Targets(setup, source));
    OnFileIsAnswered(setup, source);
    NothingToAsk(run.providers);
    assert matched + [] == matched;
    OfflineRun(setup.cacheOrder, source.references, Targets(setup, source));
    SameTargetsOnFile(setup, source.references);
  }

  /** Once something wanted is on file, no run ever changes anything again: the targets stay,
      nothing is missing, and the cache stays as the first of the runs writes it. */
  lemma {:induction false} SettledForGood<P(!new)>(setup: Setup, source: SourceFiles, runs: seq<Run<P>>)
    requires Sound(setup) && HasWanted(setup, source)
    ensures var after := AfterRuns(setup, source, runs);
            && HasWanted(setup, after) && Targets(setup, after) == Targets(setup, source) && Missing(setup, after) == []
            && after == if runs == [] then source else source.(references := Written(setup.cacheOrder, source.references))
  {
    OnFileIsAnswered(setup, source);
    if runs != [] {
      var before := AfterRuns(setup, source, runs[..|runs| - 1]);
      SettledForGood(setup, source, runs[..|runs| - 1]);
      RunOnFile(setup, before, runs[|runs| - 1]);
      OnFileIsAnswered(setup, AfterRun(setup, before, runs[|runs| - 1]));
      RewriteIsIdentity(setup.cacheOrder, source.references);
    }
  }

  // ----- what hydration puts on file -----

  ghost predicate SomeWantedAnswer<P(!new)>(setup: Setup, source: SourceFiles, providers: Providers<P>) {
    exists a :: a in AnsweredIn(setup, source, providers) && Wants(setup.calendar, setup.request, a.at)
  }

  /** A hydrating run that finds nothing wanted on file puts something wanted there exactly
      when it gets a wanted answer. */
  lemma WantedAnswersAreFiled<P(!new)>(setup: Setup, source: SourceFiles, providers: Providers<P>)
    requires Sound(setup) && Honest(providers) && ModeOf(source).FactBacked? && OnFile(setup, source.references) == []
    ensures HasWanted(setup, NextSource(setup, source, providers))
            <==> SomeWantedAnswer(setup, source, providers)
  {
    var next := NextSource(setup, source, providers);
    OnFileExactly(setup, next.references);
    OnFileExactly(setup, source.references);
    if r :| r in next.references && Wants(setup.calendar, setup.request, r.target.at) {
      RecordedNext(setup, source, providers, KeyOf(r.target));
    }
    if a :| a in AnsweredIn(setup, source, providers) && Wants(setup.calendar, setup.request, a.at) {
      RecordedNext(setup, source, providers, KeyOf(a));
      var r :| r in next.references && KeyOf(r.target) == KeyOf(a);
      assert Wants(setup.calendar, setup.request, r.target.at);
    }
  }

  /** After a hydrating run there is on record what was and what was answered. */
  lemma RecordedNext<P(!new)>(setup: Setup, source: SourceFiles, providers: Providers<P>, key: MatchKey)
    requires Sound(setup) && Honest(providers)
    ensures OnRecord(NextSource(setup, source, providers).references, key)
            <==> OnRecord(source.references, key) || HasAnswer(AnsweredIn(setup, source, providers), key)
  {
    var missing := Missing(setup, source);
    if PlanOf(setup, source).Check? {
      var resolved := Resolution(setup, source, Hydrating(providers)).0;
      WrittenKeepsRecord(setup.cacheOrder, source.references + resolved, key);
      HonestReplies(providers, Asked(providers.choose, missing), missing);
      SuppliedKeys(AllReplies(providers, missing), key);
      RecordOfRun(source.references, Targets(setup, source), Supplied(AllReplies(providers, missing)), key);
    } else {
      assert Targets(setup, source) == [];
      assert AllReplies(providers, missing) == [];
    }
  }

  /** When nothing wanted is on file, the next run has the same targets unless a wanted
      answer came; then it has those of the answers, and misses nothing. */
  lemma NextMissing<P(!new)>(setup: Setup, source: SourceFiles, providers: Providers<P>)
    requires Sound(setup) && Honest(providers) && ModeOf(source).FactBacked? && OnFile(setup, source.references) == []
    ensures var next := NextSource(setup, source, providers);
            if HasWanted(setup, next) then Missing(setup, next) == []
            else Targets(setup, next) == Targets(setup, source)
  {
    var next := NextSource(setup, source, providers);
    if HasWanted(setup, next) {
      OnFileIsAnswered(setup, next);
    }
  }

  /** Whether the next run of a check with facts agrees: it does if something wanted is on
      file. Else one wanted answer makes it miss nothing, and it agrees if there was no
      issue; without one it is a run over the same targets. */
  lemma NextRunAgreesExactly<P(!new)>(setup: Setup, source: SourceFiles, providers: Providers<P>)
    requires Sound(setup) && Honest(providers) && ModeOf(source).FactBacked?
    ensures NextRunAgrees(setup, source, providers)
            <==> OnFile(setup, source.references) != []
                 || if SomeWantedAnswer(setup, source, providers) then FailedIn(setup, source, providers) == []
                    else RerunAgrees(setup.cacheOrder, source.references, FromFacts(setup, source.facts), providers)
  {
    var failed, next := FailedIn(setup, source, providers), NextSource(setup, source, providers);
    if OnFile(setup, source.references) != [] {
      OnFileIsAnswered(setup, source);
      NothingToAsk(Some(providers));
      RunOnFile(setup, source, Hydrating(providers));
      OnFileIsAnswered(setup, next);
    } else {
      WantedAnswersAreFiled(setup, source, providers);
      NextMissing(setup, source, providers);
      if SomeWantedAnswer(setup, source, providers) {
        assert failed == [] || failed[0] in failed;
      } else {
        SameTargetsMissing(setup, source, providers);
      }
    }
  }

  // ----- when each requested day holds its own midnight -----

  /** The time zone skips none of the requested days. */
  predicate DaysBegin(setup: Setup) {
    forall v | v in setup.request :: v.OnDay? ==> setup.calendar.dayOf(setup.calendar.midnight(v.day)) == v.day
  }

  /** Then what the facts give at the requested times is wanted. */
  lemma FactTargetsAreWanted(setup: Setup, facts: seq<Fact>, t: BalanceTarget)
    requires Sound(setup) && DaysBegin(setup) && t in FromFacts(setup, facts)
    ensures Wants(setup.calendar, setup.request, t.at)
  {
    if setup.request != [] {
      TargetsAtExactly(setup.holdingOrder, facts, Times(setup), t);
      var i :| 0 <= i < |Times(setup)| && Times(setup)[i] == t.at;
      assert setup.request[i] in setup.request;
      assert Picks(setup.calendar, setup.request[i], t.at);
    }
  }

  lemma {:induction false} NoneRecorded(references: seq<BalanceReference>, targets: seq<BalanceTarget>)
    requires forall t :: t in targets ==> !OnRecord(references, KeyOf(t))
    ensures Unresolved(references, targets) == targets
  {
    if targets != [] {
      var init, last := targets[..|targets| - 1], targets[|targets| - 1];
      assert targets == init + [last];
      NoneRecorded(references, init);
      UnresolvedOneMore(references, init, last);
      MatchingEmpty(references, KeyOf(last));
    }
  }

  /** Without anything wanted on file, all targets the facts give are missing. */
  lemma AllMissing(setup: Setup, source: SourceFiles)
    requires Sound(setup) && DaysBegin(setup) && ModeOf(source).FactBacked? && OnFile(setup, source.references) == []
    ensures Missing(setup, source) == FromFacts(setup, source.facts)
  {
    OnFileExactly(setup, source.references);
    forall t | t in FromFacts(setup, source.facts) ensures !OnRecord(source.references, KeyOf(t)) {
      FactTargetsAreWanted(setup, source.facts, t);
    }
    NoneRecorded(source.references, FromFacts(setup, source.facts));
  }

  lemma SplitMembers(answered: seq<BalanceTarget>, failed: seq<BalanceTarget>, all: seq<BalanceTarget>, t: BalanceTarget)
    requires multiset(answered) + multiset(failed) == multiset(all)
    ensures t in all <==> t in answered || t in failed
  {
    assert t in all <==> t in multiset(all);
    assert t in answered <==> t in multiset(answered);
    assert t in failed <==> t in multiset(failed);
  }

  /** On such days the next run of a check with facts agrees exactly when something wanted
      was on file, or all missing targets were answered, or none was. */
  lemma AllOrNoneAnswered<P(!new)>(setup: Setup, source: SourceFiles, providers: Providers<P>)
    requires Sound(setup) && DaysBegin(setup) && Honest(providers) && ModeOf(source).FactBacked?
    ensures NextRunAgrees(setup, source, providers)
            <==> OnFile(setup, source.references) != []
                 || FailedIn(setup, source, providers) == [] || AnsweredIn(setup, source, providers) == []
  {
    var answered := AnsweredIn(setup, source, providers);
    NextRunAgreesExactly(setup, source, providers);
    if OnFile(setup, source.references) == [] {
      if answered != [] {
        AnswersAreWanted(setup, source, providers, answered[0]);
      } else {
        NothingAnswered(setup, source, providers);
      }
    }
  }

  lemma AnswersAreWanted<P(!new)>(setup: Setup, source: SourceFiles, providers: Providers<P>, a: BalanceTarget)
    requires Sound(setup) && DaysBegin(setup) && Honest(providers) && ModeOf(source).FactBacked?
    requires OnFile(setup, source.references) == [] && a in AnsweredIn(setup, source, providers)
    ensures Wants(setup.calendar, setup.request, a.at)
  {
    OneAnswerEach(providers, Missing(setup, source));
    SplitMembers(AnsweredIn(setup, source, providers), FailedIn(setup, source, providers), Missing(setup, source), a);
    AllMissing(setup, source);
    FactTargetsAreWanted(setup, source.facts, a);
  }

  lemma NothingAnswered<P(!new)>(setup: Setup, source: SourceFiles, providers: Providers<P>)
    requires Sound(setup) && Honest(providers) && ModeOf(source).FactBacked?
    requires OnFile(setup, source.references) == [] && AnsweredIn(setup, source, providers) == []
    ensures NextRunAgrees(setup, source, providers)
  {
    var next := NextSource(setup, source, providers);
    WantedAnswersAreFiled(setup, source, providers);
    NextMissing(setup, source, providers);
    OneAnswerEach(providers, Missing(setup, source));
    forall t ensures t in Missing(setup, next) <==> t in FailedIn(setup, source, providers) {
      SplitMembers([], FailedIn(setup, source, providers), Missing(setup, source), t);
      UnresolvedExactly(source.references, Targets(setup, source), t);
      UnresolvedExactly(next.references, Targets(setup, source), t);
      RecordedNext(setup, source, providers, KeyOf(t));
    }
  }

  // ----- whatever the providers answer -----

  /** An honest provider that answers only the request at place `k` of a batch. */
  function AnswerAt(requests: seq<BalanceTarget>, k: nat): (r: seq<ProviderResult>)
    ensures |r| == |requests|
    ensures forall i :: 0 <= i < |r| ==>
              r[i] == ProviderResult(requests[i], if i == k then Some(BalanceReference(requests[i], "", 0, Date, "", 0.0)) else None, "")
  {
    seq(|requests|, i requires 0 <= i < |requests| =>
      ProviderResult(requests[i], if i == k then Some(BalanceReference(requests[i], "", 0, Date, "", 0.0)) else None, ""))
  }

  function OneOnly(k: nat): Providers<bool> {
    Providers((t: BalanceTarget) => Some(true), (p: bool, requests: seq<BalanceTarget>) => AnswerAt(requests, k))
  }

  lemma OneOnlyIsHonest(k: nat)
    ensures Honest(OneOnly(k))
  {
    forall p: bool, requests: seq<BalanceTarget> ensures HonestBatch(requests, OneOnly(k).fetch(p, requests)) {
      assert RequestedTargets(AnswerAt(requests, k)) == requests;
    }
  }

  lemma OneOnlySplits(targets: seq<BalanceTarget>, k: nat, i: nat)
    requires k < |targets| && i < |targets| && i != k
    ensures targets[k] in Answered(AllReplies(OneOnly(k), targets))
    ensures targets[i] in IssueTargets(HydrationIssues(OneOnly(k), targets))
  {
    OneProvider(OneOnly(k), targets);
    AnsweredAt(AnswerAt(targets, k), k);
    AnsweredAt(AnswerAt(targets, k), i);
    IssueTargetsConcat(Chosen(OneOnly(k).choose, targets, None), Failures(AnswerAt(targets, k)));
  }

  predicate WantsSome(setup: Setup, targets: seq<BalanceTarget>) {
    exists t | t in targets :: Wants(setup.calendar, setup.request, t.at)
  }

  /** Whatever the providers answer, the next run of a check with facts agrees exactly when
      something wanted is on file already, or at most one target is missing, or none of the
      missing ones is wanted and no two of them share a match key. */
  lemma FactRunsAgreeExactly(setup: Setup, source: SourceFiles)
    requires Sound(setup) && ModeOf(source).FactBacked?
    ensures (forall providers: Providers<bool> :: Honest(providers) ==> NextRunAgrees(setup, source, providers))
            <==> || OnFile(setup, source.references) != []
                 || |Missing(setup, source)| <= 1
                 || (!WantsSome(setup, Missing(setup, source)) && DistinctMatchKeys(Missing(setup, source)))
  {
    var missing := Missing(setup, source);
    if OnFile(setup, source.references) != [] || |missing| <= 1 || (!WantsSome(setup, missing) && DistinctMatchKeys(missing)) {
      forall providers: Providers<bool> | Honest(providers) ensures NextRunAgrees(setup, source, providers) {
        FewMissingAgree(setup, source, providers);
      }
    } else if WantsSome(setup, missing) {
      var k: nat :| k < |missing| && Wants(setup.calendar, setup.request, missing[k].at);
      UnansweredIsForgotten(setup, source, k, if k == 0 then 1 else 0);
    } else {
      SharedKeyForgets(setup, source);
    }
  }

  /** Only missing targets are answered. */
  lemma AnswersWereMissing<P(!new)>(setup: Setup, source: SourceFiles, providers: Providers<P>)
    requires Honest(providers)
    ensures forall a :: a in AnsweredIn(setup, source, providers) ==> a in Missing(setup, source)
  {
    OneAnswerEach(providers, Missing(setup, source));
    forall a | a in AnsweredIn(setup, source, providers) ensures a in Missing(setup, source) {
      SplitMembers(AnsweredIn(setup, source, providers), FailedIn(setup, source, providers), Missing(setup, source), a);
    }
  }

  lemma FewMissingAgree<P(!new)>(setup: Setup, source: SourceFiles, providers: Providers<P>)
    requires Sound(setup) && Honest(providers) && ModeOf(source).FactBacked?
    requires OnFile(setup, source.references) != [] || |Missing(setup, source)| <= 1
             || (!WantsSome(setup, Missing(setup, source)) && DistinctMatchKeys(Missing(setup, source)))
    ensures NextRunAgrees(setup, source, providers)
  {
    NextRunAgreesExactly(setup, source, providers);
    if OnFile(setup, source.references) == [] {
      AnswersWereMissing(setup, source, providers);
      OneAnswerEach(providers, Missing(setup, source));
      AnswersAndIssues(setup, source, providers);
      DistinctKeysAgree(setup.cacheOrder, source.references, FromFacts(setup, source.facts), providers);
    }
  }

  lemma AnswersAndIssues<P(!new)>(setup: Setup, source: SourceFiles, providers: Providers<P>)
    requires Honest(providers)
    ensures |AnsweredIn(setup, source, providers)| + |FailedIn(setup, source, providers)| == |Missing(setup, source)|
  {
    OneAnswerEach(providers, Missing(setup, source));
    AnswersSupply(AllReplies(providers, Missing(setup, source)));
  }

  /** With nothing wanted on file, an answer to a wanted target alone makes the next run
      forget every other one that had an issue: it misses nothing at all. */
  lemma UnansweredIsForgotten(setup: Setup, source: SourceFiles, k: nat, i: nat)
    requires Sound(setup) && ModeOf(source).FactBacked? && OnFile(setup, source.references) == []
    requires k < |Missing(setup, source)| && i < |Missing(setup, source)| && i != k
    requires Wants(setup.calendar, setup.request, Missing(setup, source)[k].at)
    ensures Honest(OneOnly(k)) && !NextRunAgrees(setup, source, OneOnly(k))
    ensures Missing(setup, source)[i] in FailedIn(setup, source, OneOnly(k))
    ensures Missing(setup, NextSource(setup, source, OneOnly(k))) == []
  {
    var providers := OneOnly(k);
    OneOnlyIsHonest(k);
    OneOnlySplits(Missing(setup, source), k, i);
    assert SomeWantedAnswer(setup, source, providers);
    WantedAnswersAreFiled(setup, source, providers);
    NextMissing(setup, source, providers);
  }

  lemma SharedKeyForgets(setup: Setup, source: SourceFiles)
    requires Sound(setup) && ModeOf(source).FactBacked? && OnFile(setup, source.references) == []
    requires !WantsSome(setup, Missing(setup, source)) && !DistinctMatchKeys(Missing(setup, source))
    ensures Honest(FirstOnly()) && !NextRunAgrees(setup, source, FirstOnly())
  {
    SharedKeyDisagrees(setup.cacheOrder, source.references, FromFacts(setup, source.facts));
    AnswersWereMissing(setup, source, FirstOnly());
    NextRunAgreesExactly(setup, source, FirstOnly());
  }

  /** On requested days that begin, all that matters is whether the facts give two targets. */
  lemma AtMostOneTarget(setup: Setup, source: SourceFiles)
    requires Sound(setup) && DaysBegin(setup) && ModeOf(source).FactBacked?
    ensures (forall providers: Providers<bool> :: Honest(providers) ==> NextRunAgrees(setup, source, providers))
            <==> OnFile(setup, source.references) != [] || |FromFacts(setup, source.facts)| <= 1
  {
    FactRunsAgreeExactly(setup, source);
    if OnFile(setup, source.references) == [] {
      AllMissing(setup, source);
      if |FromFacts(setup, source.facts)| > 1 {
        FactTargetsAreWanted(setup, source.facts, FromFacts(setup, source.facts)[0]);
      }
    }
  }

  // ----- the latest targets -----

  lemma LatestKeysDistinct(leq: (Holding, Holding) -> bool, facts: seq<Fact>)
    requires TotalOrder(leq)
    ensures DistinctMatchKeys(LatestOf(leq, facts))
  {
    LatestOfIsLatest(leq, facts);
    var targets := LatestOf(leq, facts);
    forall i, j | 0 <= i < j < |targets| ensures KeyOf(targets[i]) != KeyOf(targets[j]) {
      assert HoldingsOf(targets)[i] != HoldingsOf(targets)[j];
    }
  }

  /** From an empty cache and without requested times, the run over the same targets would
      always agree, since their match keys are distinct: it is the choice of targets that
      makes the next run forget. */
  lemma SameTargetsWouldAgree<P(!new)>(setup: Setup, source: SourceFiles, providers: Providers<P>)
    requires Sound(setup) && Honest(providers) && ModeOf(source).FactBacked? && setup.request == [] && source.references == []
    ensures RerunAgrees(setup.cacheOrder, source.references, FromFacts(setup, source.facts), providers)
  {
    AnyOnFile(setup, source);
    assert setup.(request := []) == setup;
    LatestKeysDistinct(setup.holdingOrder, source.facts);
    AllMissing(setup, source);
    DistinctKeysAgree(setup.cacheOrder, source.references, FromFacts(setup, source.facts), providers);
  }

  /** From an empty cache, one answer is enough for the next run to raise no issue but those
      of comparing amounts: nothing is missing, and every target on file has its facts. */
  lemma NextRunIsQuiet<P(!new)>(setup: Setup, source: SourceFiles, providers: Providers<P>)
    requires Sound(setup) && Honest(providers) && ModeOf(source).FactBacked? && setup.request == [] && source.references == []
    requires AnsweredIn(setup, source, providers) != []
    ensures var next := NextSource(setup, source, providers);
            Missing(setup, next) == [] && PlanOf(setup, next).Check? && PlanOf(setup, next).issues == []
  {
    var next := NextSource(setup, source, providers);
    AnyOnFile(setup, source);
    assert setup.(request := []) == setup;
    assert Wants(setup.calendar, setup.request, AnsweredIn(setup, source, providers)[0].at);
    WantedAnswersAreFiled(setup, source, providers);
    OnFileIsAnswered(setup, next);
    FiledAreCovered(setup, source, providers);
  }

  /** What an empty cache gets on file has the match key of a latest target, hence facts. */
  lemma FiledAreCovered<P(!new)>(setup: Setup, source: SourceFiles, providers: Providers<P>)
    requires Sound(setup) && Honest(providers) && ModeOf(source).FactBacked? && setup.request == [] && source.references == []
    ensures var next := NextSource(setup, source, providers);
            IssuesWhere(OnFile(setup, next.references), Uncovered(source.facts), MissingFactCoverage) == []
  {
    var next := NextSource(setup, source, providers);
    var filed := OnFile(setup, next.references);
    ReferenceTargetsExactly(setup.targetOrder, setup.calendar, next.references, setup.request);
    forall t | t in filed ensures !Uncovered(source.facts)(t) {
      var r :| r in next.references && r.target == t;
      RecordedNext(setup, source, providers, KeyOf(t));
      var a :| a in AnsweredIn(setup, source, providers) && KeyOf(a) == KeyOf(t);
      AnswersAreLatest(setup, source, providers, a);
      SameKeySameCount(a, t);
    }
    NoGaps(source.facts, filed);
  }

  lemma SameKeySameCount(a: BalanceTarget, t: BalanceTarget)
    requires KeyOf(a) == KeyOf(t)
    ensures forall e :: IsCounted(a, e) <==> IsCounted(t, e)
  {}

  lemma {:induction false} NoGaps(facts: seq<Fact>, targets: seq<BalanceTarget>)
    requires forall t :: t in targets ==> !Uncovered(facts)(t)
    ensures IssuesWhere(targets, Uncovered(facts), MissingFactCoverage) == []
  {
    if targets != [] {
      NoGaps(facts, targets[..|targets| - 1]);
    }
  }

  lemma AnswersAreLatest<P(!new)>(setup: Setup, source: SourceFiles, providers: Providers<P>, a: BalanceTarget)
    requires Sound(setup) && Honest(providers) && ModeOf(source).FactBacked? && setup.request == [] && source.references == []
    requires a in AnsweredIn(setup, source, providers)
    ensures !Uncovered(source.facts)(a)
  {
    AnyOnFile(setup, source);
    assert setup.(request := []) == setup;
    OneAnswerEach(providers, Missing(setup, source));
    SplitMembers(AnsweredIn(setup, source, providers), FailedIn(setup, source, providers), Missing(setup, source), a);
    AllMissing(setup, source);
    LatestOfIsLatest(setup.holdingOrder, source.facts);
    LatestTargetsHaveFacts(setup.holdingOrder, source.facts, LatestOf(setup.holdingOrder, source.facts));
    IssuesWhereExactly(LatestOf(setup.holdingOrder, source.facts), Uncovered(source.facts), MissingFactCoverage, Issue(a, MissingFactCoverage));
  }

  // ----- explicit rows -----

  /** Without facts the targets do not depend on the cache, and the next run agrees whatever
      the providers answer exactly when no two missing targets share a match key. */
  lemma RowRunsAgreeExactly(setup: Setup, source: SourceFiles)
    requires Sound(setup) && !ModeOf(source).FactBacked?
    ensures (forall providers: Providers<bool> :: Honest(providers) ==> NextRunAgrees(setup, source, providers))
            <==> DistinctMatchKeys(Missing(setup, source))
  {
    forall providers: Providers<bool> | Honest(providers)
      ensures NextRunAgrees(setup, source, providers)
              <==> RerunAgrees(setup.cacheOrder, source.references, Targets(setup, source), providers)
    {
      RowTargetsStay(setup, source, providers);
    }
    RerunAgreesExactly(setup.cacheOrder, source.references, Targets(setup, source));
  }

  lemma RowTargetsStay<P(!new)>(setup: Setup, source: SourceFiles, providers: Providers<P>)
    requires Sound(setup) && !ModeOf(source).FactBacked?
    ensures NextRunAgrees(setup, source, providers)
            <==> RerunAgrees(setup.cacheOrder, source.references, Targets(setup, source), providers)
  {
    SameTargetsMissing(setup, source, providers);
    var missing := Missing(setup, NextSource(setup, source, providers));
    var rerun := Unresolved(AfterHydration(setup.cacheOrder, source.references, Targets(setup, source), providers), Targets(setup, source));
    assert forall t :: t in missing <==> t in rerun;
  }

  /** With the same targets, the next run is the rerun over them. */
  lemma SameTargetsMissing<P(!new)>(setup: Setup, source: SourceFiles, providers: Providers<P>)
    requires Targets(setup, NextSource(setup, source, providers)) == Targets(setup, source)
    ensures Missing(setup, NextSource(setup, source, providers))
         == Unresolved(AfterHydration(setup.cacheOrder, source.references, Targets(setup, source), providers), Targets(setup, source))
  {
    if !PlanOf(setup, source).Check? {
      assert Targets(setup, source) == [];
    }
  }
}
