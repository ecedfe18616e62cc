/** Resolving balance references: what is on record first, then what providers supply. */
module BalanceReferences {
  import opened Sequences
  import opened Wrappers
  import opened BalanceModels

  /** Two targets have one match key exactly when they differ in precision at most. */
  lemma KeysExactly(a: BalanceTarget, b: BalanceTarget)
    ensures KeyOf(a) == KeyOf(b) <==> a.(precision := b.precision) == b
  {}

  /** One provider's reply to one request. */
  datatype ProviderResult = ProviderResult(target: BalanceTarget, reference: Option<BalanceReference>, issueKind: string)

  /** A registry choosing a provider per request, and what each provider returns for a batch. */
  datatype Providers<!P> = Providers(choose: BalanceTarget -> Option<P>, fetch: (P, seq<BalanceTarget>) -> seq<ProviderResult>)

  function RequestedTargets(results: seq<ProviderResult>): (r: seq<BalanceTarget>)
    ensures |r| == |results| && forall i :: 0 <= i < |r| ==> r[i] == results[i].target
  {
    seq(|results|, i requires 0 <= i < |results| => results[i].target)
  }

  /** One result per request, in any order, each answering for its own target. */
  ghost predicate HonestBatch(requests: seq<BalanceTarget>, results: seq<ProviderResult>) {
    && multiset(RequestedTargets(results)) == multiset(requests)
    && forall r :: r in results && r.reference.Some? ==> KeyOf(r.reference.value.target) == KeyOf(r.target)
  }

  ghost predicate Honest<P(!new)>(providers: Providers<P>) {
    forall p, requests :: HonestBatch(requests, providers.fetch(p, requests))
  }

  // ----- matching what is on record -----

  function Matching(references: seq<BalanceReference>, key: MatchKey): seq<BalanceReference> {
    if references == [] then []
    else
      Matching(references[..|references| - 1], key)
      + if KeyOf(references[|references| - 1].target) == key then [references[|references| - 1]] else []
  }

  /** The references on record for the targets, target by target. */
  function Matched(references: seq<BalanceReference>, targets: seq<BalanceTarget>): seq<BalanceReference> {
    if targets == [] then []
    else Matched(references, targets[..|targets| - 1]) + Matching(references, KeyOf(targets[|targets| - 1]))
  }

  function Unresolved(references: seq<BalanceReference>, targets: seq<BalanceTarget>): seq<BalanceTarget> {
    if targets == [] then []
    else
      Unresolved(references, targets[..|targets| - 1])
      + if Matching(references, KeyOf(targets[|targets| - 1])) == [] then [targets[|targets| - 1]] else []
  }

  function IssuesFor(targets: seq<BalanceTarget>, kind: IssueKind): (r: seq<Issue>)
    ensures |r| == |targets| && forall i :: 0 <= i < |r| ==> r[i] == Issue(targets[i], kind)
  {
    seq(|targets|, i requires 0 <= i < |targets| => Issue(targets[i], kind))
  }

  predicate OnRecord(references: seq<BalanceReference>, key: MatchKey) {
    exists r | r in references :: KeyOf(r.target) == key
  }

  lemma {:induction false} MatchingExactly(references: seq<BalanceReference>, key: MatchKey, r: BalanceReference)
    ensures r in Matching(references, key) <==> r in references && KeyOf(r.target) == key
  {
    if references != [] {
      assert references == references[..|references| - 1] + [references[|references| - 1]];
      MatchingExactly(references[..|references| - 1], key, r);
    }
  }

  lemma MatchingEmpty(references: seq<BalanceReference>, key: MatchKey)
    ensures Matching(references, key) == [] <==> !OnRecord(references, key)
  {
    var found := Matching(references, key);
    if found != [] {
      MatchingExactly(references, key, found[0]);
    }
    if r :| r in references && KeyOf(r.target) == key {
      MatchingExactly(references, key, r);
    }
  }

  lemma {:induction false} UnresolvedExactly(references: seq<BalanceReference>, targets: seq<BalanceTarget>, t: BalanceTarget)
    ensures t in Unresolved(references, targets) <==> t in targets && !OnRecord(references, KeyOf(t))
  {
    if targets != [] {
      assert targets == targets[..|targets| - 1] + [targets[|targets| - 1]];
      UnresolvedExactly(references, targets[..|targets| - 1], t);
      MatchingEmpty(references, KeyOf(targets[|targets| - 1]));
    }
  }

  // ----- asking the providers -----

  /** Targets for which the registry chooses `p`, or nothing when `p` is `None`. */
  function Chosen<P(==)>(choose: BalanceTarget -> Option<P>, targets: seq<BalanceTarget>, p: Option<P>): seq<BalanceTarget> {
    if targets == [] then []
    else
      Chosen(choose, targets[..|targets| - 1], p)
      + if choose(targets[|targets| - 1]) == p then [targets[|targets| - 1]] else []
  }

  /** The chosen providers, in order of first appearance. */
  function Asked<P(==)>(choose: BalanceTarget -> Option<P>, targets: seq<BalanceTarget>): seq<P> {
    if targets == [] then []
    else
      var before := Asked(choose, targets[..|targets| - 1]);
      match choose(targets[|targets| - 1])
      case None => before
      case Some(p) => if p in before then before else before + [p]
  }

  function Replies<P(==)>(providers: Providers<P>, order: seq<P>, targets: seq<BalanceTarget>): seq<ProviderResult> {
    if order == [] then []
    else
      Replies(providers, order[..|order| - 1], targets)
      + providers.fetch(order[|order| - 1], Chosen(providers.choose, targets, Some(order[|order| - 1])))
  }

  /** Every reply to the targets that some provider supports. */
  function AllReplies<P(==)>(providers: Providers<P>, targets: seq<BalanceTarget>): seq<ProviderResult> {
    Replies(providers, Asked(providers.choose, targets), targets)
  }

  function Supplied(results: seq<ProviderResult>): seq<BalanceReference> {
    if results == [] then []
    else
      Supplied(results[..|results| - 1])
      + match results[|results| - 1].reference case Some(r) => [r] case None => []
  }

  function Failures(results: seq<ProviderResult>): seq<Issue> {
    if results == [] then []
    else
      var last := results[|results| - 1];
      Failures(results[..|results| - 1]) + if last.reference.Some? then [] else [FailureOf(last)]
  }

  function FailureOf(result: ProviderResult): Issue {
    Issue(result.target, Unanswered(if result.issueKind == "" then "balance_reference_unresolved" else result.issueKind))
  }

  /** Targets whose reply carries a reference. */
  function Answered(results: seq<ProviderResult>): seq<BalanceTarget> {
    if results == [] then []
    else
      Answered(results[..|results| - 1])
      + if results[|results| - 1].reference.Some? then [results[|results| - 1].target] else []
  }

  function HydrationIssues<P(==)>(providers: Providers<P>, targets: seq<BalanceTarget>): seq<Issue> {
    IssuesFor(Chosen(providers.choose, targets, None), UnsupportedProvider) + Failures(AllReplies(providers, targets))
  }

  ghost predicate GroupsHold<P(!new)>(choose: BalanceTarget -> Option<P>, targets: seq<BalanceTarget>, groups: map<P, seq<BalanceTarget>>) {
    forall p :: Chosen(choose, targets, Some(p)) == if p in groups then groups[p] else []
  }

  ghost predicate Grouped<P(!new)>(choose: BalanceTarget -> Option<P>, targets: seq<BalanceTarget>, order: seq<P>,
                                   groups: map<P, seq<BalanceTarget>>, unsupported: seq<BalanceTarget>) {
    && order == Asked(choose, targets)
    && (forall p :: p in groups <==> p in order)
    && GroupsHold(choose, targets, groups)
    && unsupported == Chosen(choose, targets, None)
  }

  function WithRequest<P(==)>(groups: map<P, seq<BalanceTarget>>, p: P, t: BalanceTarget): map<P, seq<BalanceTarget>> {
    groups[p := (if p in groups then groups[p] else []) + [t]]
  }

  lemma GroupedUnsupported<P(!new)>(choose: BalanceTarget -> Option<P>, targets: seq<BalanceTarget>, t: BalanceTarget, order: seq<P>,
                                    groups: map<P, seq<BalanceTarget>>, unsupported: seq<BalanceTarget>)
    requires Grouped(choose, targets, order, groups, unsupported) && choose(t).None?
    ensures Grouped(choose, targets + [t], order, groups, unsupported + [t])
  {
    assert (targets + [t])[..|targets|] == targets;
    assert GroupsHold(choose, targets + [t], groups) by {
      forall p: P ensures Chosen(choose, targets + [t], Some(p)) == Chosen(choose, targets, Some(p)) {
        ChosenOneMore(choose, targets, t, Some(p));
      }
    }
  }

  lemma ChosenOneMore<P(!new)>(choose: BalanceTarget -> Option<P>, targets: seq<BalanceTarget>, t: BalanceTarget, p: Option<P>)
    ensures Chosen(choose, targets + [t], p) == if choose(t) == p then Chosen(choose, targets, p) + [t] else Chosen(choose, targets, p)
  {
    assert (targets + [t])[..|targets|] == targets;
  }

  lemma AskedOneMore<P(!new)>(choose: BalanceTarget -> Option<P>, targets: seq<BalanceTarget>, t: BalanceTarget)
    requires choose(t).Some?
    ensures Asked(choose, targets + [t])
         == if choose(t).value in Asked(choose, targets) then Asked(choose, targets) else Asked(choose, targets) + [choose(t).value]
  {
    assert (targets + [t])[..|targets|] == targets;
  }

  lemma GroupsGrow<P(!new)>(choose: BalanceTarget -> Option<P>, targets: seq<BalanceTarget>, t: BalanceTarget,
                            groups: map<P, seq<BalanceTarget>>, p: P)
    requires GroupsHold(choose, targets, groups) && choose(t) == Some(p)
    ensures GroupsHold(choose, targets + [t], WithRequest(groups, p, t))
  {
    var grown := WithRequest(groups, p, t);
    forall q: P ensures Chosen(choose, targets + [t], Some(q)) == if q in grown then grown[q] else [] {
      ChosenOneMore(choose, targets, t, Some(q));
    }
  }

  lemma GroupedRequest<P(!new)>(choose: BalanceTarget -> Option<P>, targets: seq<BalanceTarget>, t: BalanceTarget, order: seq<P>,
                                groups: map<P, seq<BalanceTarget>>, unsupported: seq<BalanceTarget>, p: P)
    requires Grouped(choose, targets, order, groups, unsupported) && choose(t) == Some(p)
    ensures Grouped(choose, targets + [t], if p in groups then order else order + [p], WithRequest(groups, p, t), unsupported)
  {
    AskedOneMore(choose, targets, t);
    ChosenOneMore(choose, targets, t, None);
    GroupsGrow(choose, targets, t, groups, p);
  }

  method GroupByProvider<P(==,!new)>(choose: BalanceTarget -> Option<P>, targets: seq<BalanceTarget>)
    returns (order: seq<P>, groups: map<P, seq<BalanceTarget>>, unsupported: seq<BalanceTarget>)
    ensures Grouped(choose, targets, order, groups, unsupported)
  {
    order, groups, unsupported := [], map[], [];
    for i := 0 to |targets|
      invariant Grouped(choose, targets[..i], order, groups, unsupported)
    {
      assert targets[..i + 1] == targets[..i] + [targets[i]];
      match choose(targets[i]) {
        case None =>
          GroupedUnsupported(choose, targets[..i], targets[i], order, groups, unsupported);
          unsupported := unsupported + [targets[i]];
        case Some(p) =>
          GroupedRequest(choose, targets[..i], targets[i], order, groups, unsupported, p);
          if p !in groups {
            order := order + [p];
          }
          groups := WithRequest(groups, p, targets[i]);
      }
    }
    assert targets[..|targets|] == targets;
  }

  method CollectReplies(results: seq<ProviderResult>) returns (references: seq<BalanceReference>, issues: seq<Issue>)
    ensures references == Supplied(results) && issues == Failures(results)
  {
    references, issues := [], [];
    for i := 0 to |results|
      invariant references == Supplied(results[..i]) && issues == Failures(results[..i])
    {
      assert results[..i + 1][..i] == results[..i];
      if results[i].reference.Some? {
        references := references + [results[i].reference.value];
        continue;
      }
      issues := issues + [FailureOf(results[i])];
    }
    assert results[..|results|] == results;
  }

  lemma {:induction false} SuppliedConcat(a: seq<ProviderResult>, b: seq<ProviderResult>)
    ensures Supplied(a + b) == Supplied(a) + Supplied(b)
  {
    if b == [] {
      assert a + b == a;
    } else {
      assert (a + b)[..|a + b| - 1] == a + b[..|b| - 1];
      SuppliedConcat(a, b[..|b| - 1]);
    }
  }

  lemma {:induction false} FailuresConcat(a: seq<ProviderResult>, b: seq<ProviderResult>)
    ensures Failures(a + b) == Failures(a) + Failures(b)
  {
    if b == [] {
      assert a + b == a;
    } else {
      assert (a + b)[..|a + b| - 1] == a + b[..|b| - 1];
      FailuresConcat(a, b[..|b| - 1]);
    }
  }

  ghost predicate Hydrated<P>(providers: Providers<P>, order: seq<P>, targets: seq<BalanceTarget>,
                              references: seq<BalanceReference>, issues: seq<Issue>) {
    && references == Supplied(Replies(providers, order, targets))
    && issues == IssuesFor(Chosen(providers.choose, targets, None), UnsupportedProvider) + Failures(Replies(providers, order, targets))
  }

  lemma RepliesOneMore<P(!new)>(providers: Providers<P>, order: seq<P>, p: P, targets: seq<BalanceTarget>)
    ensures Replies(providers, order + [p], targets)
         == Replies(providers, order, targets) + providers.fetch(p, Chosen(providers.choose, targets, Some(p)))
  {
    assert (order + [p])[..|order|] == order;
  }

  lemma HydratedOneMore<P(!new)>(providers: Providers<P>, order: seq<P>, p: P, targets: seq<BalanceTarget>,
                                 references: seq<BalanceReference>, issues: seq<Issue>, batch: seq<ProviderResult>)
    requires Hydrated(providers, order, targets, references, issues)
    requires batch == providers.fetch(p, Chosen(providers.choose, targets, Some(p)))
    ensures Hydrated(providers, order + [p], targets, references + Supplied(batch), issues + Failures(batch))
  {
    var replies := Replies(providers, order, targets);
    RepliesOneMore(providers, order, p, targets);
    SuppliedConcat(replies, batch);
    FailuresConcat(replies, batch);
    Associates(IssuesFor(Chosen(providers.choose, targets, None), UnsupportedProvider), Failures(replies), Failures(batch));
  }

  /** Sends one provider its batch and collects the replies. */
  method AskProvider<P(==,!new)>(providers: Providers<P>, targets: seq<BalanceTarget>, groups: map<P, seq<BalanceTarget>>,
                                 ghost asked: seq<P>, p: P, references: seq<BalanceReference>, issues: seq<Issue>)
    returns (moreReferences: seq<BalanceReference>, moreIssues: seq<Issue>)
    requires GroupsHold(providers.choose, targets, groups) && p in groups && Hydrated(providers, asked, targets, references, issues)
    ensures Hydrated(providers, asked + [p], targets, moreReferences, moreIssues)
  {
    var batch := providers.fetch(p, groups[p]);
    HydratedOneMore(providers, asked, p, targets, references, issues, batch);
    var found, failed := CollectReplies(batch);
    moreReferences := references + found;
    moreIssues := issues + failed;
  }

  lemma HydratedNone<P(!new)>(providers: Providers<P>, targets: seq<BalanceTarget>, order: seq<P>)
    requires order == []
    ensures Hydrated(providers, order, targets, [], IssuesFor(Chosen(providers.choose, targets, None), UnsupportedProvider))
  {}

  method AskAll<P(==,!new)>(providers: Providers<P>, targets: seq<BalanceTarget>, groups: map<P, seq<BalanceTarget>>,
                            order: seq<P>, unsupported: seq<Issue>)
    returns (references: seq<BalanceReference>, issues: seq<Issue>)
    requires GroupsHold(providers.choose, targets, groups) && forall p :: p in order ==> p in groups
    requires Hydrated(providers, [], targets, [], unsupported)
    ensures Hydrated(providers, order, targets, references, issues)
  {
    references, issues := [], unsupported;
    ghost var asked: seq<P> := [];
    for i := 0 to |order|
      invariant asked == order[..i]
      invariant Hydrated(providers, asked, targets, references, issues)
    {
      assert order[i] in order;
      references, issues := AskProvider(providers, targets, groups, asked, order[i], references, issues);
      TakenOneMore(order, i, asked);
      asked := asked + [order[i]];
    }
    TakenAll(order, asked);
  }

  method Hydrate<P(==,!new)>(providers: Providers<P>, targets: seq<BalanceTarget>)
    returns (references: seq<BalanceReference>, issues: seq<Issue>)
    ensures Hydrated(providers, Asked(providers.choose, targets), targets, references, issues)
  {
    var order, groups, unsupported := GroupByProvider(providers.choose, targets);
    HydratedNone(providers, targets, []);
    references, issues := AskAll(providers, targets, groups, order, IssuesFor(unsupported, UnsupportedProvider));
  }

  /** What a resolution returns: offline, one issue per target not on record; otherwise
      the providers are asked for those targets. */
  function Resolved<P(==)>(existing: seq<BalanceReference>, targets: seq<BalanceTarget>,
                           hydrate: bool, providers: Option<Providers<P>>): (seq<BalanceReference>, seq<Issue>) {
    var unresolved := Unresolved(existing, targets);
    if !hydrate || providers.None? then (Matched(existing, targets), IssuesFor(unresolved, MissingReference))
    else (Matched(existing, targets) + Supplied(AllReplies(providers.value, unresolved)),
          HydrationIssues(providers.value, unresolved))
  }

  ghost predicate Indexed(references: seq<BalanceReference>, byTarget: map<MatchKey, seq<BalanceReference>>) {
    forall key :: Matching(references, key) == if key in byTarget then byTarget[key] else []
  }

  lemma MatchingOneMore(references: seq<BalanceReference>, r: BalanceReference, key: MatchKey)
    ensures Matching(references + [r], key) == if KeyOf(r.target) == key then Matching(references, key) + [r] else Matching(references, key)
  {
    assert (references + [r])[..|references|] == references;
  }

  method IndexByTarget(references: seq<BalanceReference>) returns (byTarget: map<MatchKey, seq<BalanceReference>>)
    ensures Indexed(references, byTarget)
  {
    byTarget := map[];
    for i := 0 to |references|
      invariant Indexed(references[..i], byTarget)
    {
      assert references[..i + 1] == references[..i] + [references[i]];
      forall key ensures Matching(references[..i + 1], key)
                      == if KeyOf(references[i].target) == key then Matching(references[..i], key) + [references[i]]
                         else Matching(references[..i], key)
      {
        MatchingOneMore(references[..i], references[i], key);
      }
      var key := KeyOf(references[i].target);
      byTarget := byTarget[key := (if key in byTarget then byTarget[key] else []) + [references[i]]];
    }
    assert references[..|references|] == references;
  }

  lemma MatchedOneMore(existing: seq<BalanceReference>, targets: seq<BalanceTarget>, t: BalanceTarget)
    ensures Matched(existing, targets + [t]) == Matched(existing, targets) + Matching(existing, KeyOf(t))
  {
    assert (targets + [t])[..|targets|] == targets;
  }

  lemma UnresolvedOneMore(existing: seq<BalanceReference>, targets: seq<BalanceTarget>, t: BalanceTarget)
    ensures Unresolved(existing, targets + [t])
         == Unresolved(existing, targets) + if Matching(existing, KeyOf(t)) == [] then [t] else []
  {
    assert (targets + [t])[..|targets|] == targets;
  }

  ghost predicate Split(existing: seq<BalanceReference>, targets: seq<BalanceTarget>,
                        matched: seq<BalanceReference>, unresolved: seq<BalanceTarget>) {
    matched == Matched(existing, targets) && unresolved == Unresolved(existing, targets)
  }

  lemma SplitOneMore(existing: seq<BalanceReference>, targets: seq<BalanceTarget>, t: BalanceTarget,
                     matched: seq<BalanceReference>, unresolved: seq<BalanceTarget>)
    requires Split(existing, targets, matched, unresolved)
    ensures var matching := Matching(existing, KeyOf(t));
            if matching != [] then Split(existing, targets + [t], matched + matching, unresolved)
            else Split(existing, targets + [t], matched, unresolved + [t])
  {
    MatchedOneMore(existing, targets, t);
    UnresolvedOneMore(existing, targets, t);
  }

  method MatchExisting(existing: seq<BalanceReference>, targets: seq<BalanceTarget>)
    returns (matched: seq<BalanceReference>, unresolved: seq<BalanceTarget>)
    ensures Split(existing, targets, matched, unresolved)
  {
    var byTarget := IndexByTarget(existing);
    matched, unresolved := [], [];
    for i := 0 to |targets|
      invariant Split(existing, targets[..i], matched, unresolved)
    {
      assert targets[..i + 1] == targets[..i] + [targets[i]];
      SplitOneMore(existing, targets[..i], targets[i], matched, unresolved);
      var key := KeyOf(targets[i]);
      var matching := if key in byTarget then byTarget[key] else [];
      assert matching == Matching(existing, key);
      if matching != [] {
        matched := matched + matching;
      } else {
        unresolved := unresolved + [targets[i]];
      }
    }
    assert targets[..|targets|] == targets;
  }

  method Resolve<P(==,!new)>(existing: seq<BalanceReference>, targets: seq<BalanceTarget>,
                             hydrate: bool, providers: Option<Providers<P>>)
    returns (references: seq<BalanceReference>, issues: seq<Issue>)
    ensures (references, issues) == Resolved(existing, targets, hydrate, providers)
  {
    var matched, unresolved := MatchExisting(existing, targets);
    if !hydrate || unresolved == [] || providers.None? {
      NothingToAsk(providers);
      assert matched + [] == matched;
      return matched, IssuesFor(unresolved, MissingReference);
    }
    var hydrated, hydrationIssues := Hydrate(providers.value, unresolved);
    return matched + hydrated, hydrationIssues;
  }

  lemma NothingToAsk<P(!new)>(providers: Option<Providers<P>>)
    ensures providers.Some? ==> AllReplies(providers.value, []) == [] && HydrationIssues(providers.value, []) == []
    ensures IssuesFor([], MissingReference) == []
  {}

  // ----- one reference or one issue each -----

  function IssueTargets(issues: seq<Issue>): (r: seq<BalanceTarget>)
    ensures |r| == |issues| && forall i :: 0 <= i < |r| ==> r[i] == issues[i].target
  {
    seq(|issues|, i requires 0 <= i < |issues| => issues[i].target)
  }

  /** The chosen targets of all the listed providers, with multiplicity. */
  ghost function Regrouped<P>(choose: BalanceTarget -> Option<P>, order: seq<P>, targets: seq<BalanceTarget>): multiset<BalanceTarget> {
    if order == [] then multiset{}
    else Regrouped(choose, order[..|order| - 1], targets) + multiset(Chosen(choose, targets, Some(order[|order| - 1])))
  }

  lemma {:induction false} RegroupedOneMore<P>(choose: BalanceTarget -> Option<P>, order: seq<P>, targets: seq<BalanceTarget>, t: BalanceTarget)
    requires NoRepeats(order)
    ensures Regrouped(choose, order, targets + [t])
         == Regrouped(choose, order, targets)
            + if choose(t).Some? && choose(t).value in order then multiset{t} else multiset{}
  {
    if order != [] {
      var init, p := order[..|order| - 1], order[|order| - 1];
      assert order == init + [p];
      assert (targets + [t])[..|targets|] == targets;
      RegroupedOneMore(choose, init, targets, t);
    }
  }

  lemma {:induction false} NothingRegrouped<P>(choose: BalanceTarget -> Option<P>, order: seq<P>)
    ensures Regrouped(choose, order, []) == multiset{}
  {
    if order != [] { NothingRegrouped(choose, order[..|order| - 1]); }
  }

  lemma {:induction false} GroupsPartition<P>(choose: BalanceTarget -> Option<P>, order: seq<P>, targets: seq<BalanceTarget>)
    requires NoRepeats(order)
    requires forall t :: t in targets && choose(t).Some? ==> choose(t).value in order
    ensures Regrouped(choose, order, targets) + multiset(Chosen(choose, targets, None)) == multiset(targets)
  {
    if targets == [] {
      NothingRegrouped(choose, order);
    } else {
      var init, t := targets[..|targets| - 1], targets[|targets| - 1];
      assert targets == init + [t];
      GroupsPartition(choose, order, init);
      RegroupedOneMore(choose, order, init, t);
    }
  }

  lemma {:induction false} AskedCovers<P>(choose: BalanceTarget -> Option<P>, targets: seq<BalanceTarget>)
    ensures NoRepeats(Asked(choose, targets))
    ensures forall t :: t in targets && choose(t).Some? ==> choose(t).value in Asked(choose, targets)
  {
    if targets != [] {
      assert targets == targets[..|targets| - 1] + [targets[|targets| - 1]];
      AskedCovers(choose, targets[..|targets| - 1]);
    }
  }

  lemma RequestedConcat(a: seq<ProviderResult>, b: seq<ProviderResult>)
    ensures RequestedTargets(a + b) == RequestedTargets(a) + RequestedTargets(b)
  {}

  lemma {:induction false} HonestReplies<P(!new)>(providers: Providers<P>, order: seq<P>, targets: seq<BalanceTarget>)
    requires Honest(providers)
    ensures multiset(RequestedTargets(Replies(providers, order, targets))) == Regrouped(providers.choose, order, targets)
    ensures forall r :: r in Replies(providers, order, targets) && r.reference.Some? ==> KeyOf(r.reference.value.target) == KeyOf(r.target)
  {
    if order != [] {
      var init, p := order[..|order| - 1], order[|order| - 1];
      HonestReplies(providers, init, targets);
      var batch := Chosen(providers.choose, targets, Some(p));
      assert HonestBatch(batch, providers.fetch(p, batch));
      RequestedConcat(Replies(providers, init, targets), providers.fetch(p, batch));
    }
  }

  lemma AnsweredOneMore(init: seq<ProviderResult>, last: ProviderResult)
    ensures Answered(init + [last]) == if last.reference.Some? then Answered(init) + [last.target] else Answered(init)
  {
    assert (init + [last])[..|init|] == init;
  }

  lemma FailuresOneMore(init: seq<ProviderResult>, last: ProviderResult)
    ensures IssueTargets(Failures(init + [last]))
         == if last.reference.Some? then IssueTargets(Failures(init)) else IssueTargets(Failures(init)) + [last.target]
  {
    assert (init + [last])[..|init|] == init;
  }

  lemma AnsweredOrFailedOneMore(init: seq<ProviderResult>, last: ProviderResult)
    ensures multiset(Answered(init + [last])) + multiset(IssueTargets(Failures(init + [last])))
         == multiset(Answered(init)) + multiset(IssueTargets(Failures(init))) + multiset{last.target}
  {
    AnsweredOneMore(init, last);
    FailuresOneMore(init, last);
  }

  lemma {:induction false} AnsweredOrFailed(results: seq<ProviderResult>)
    ensures multiset(Answered(results)) + multiset(IssueTargets(Failures(results))) == multiset(RequestedTargets(results))
  {
    if results != [] {
      var init, last := results[..|results| - 1], results[|results| - 1];
      assert results == init + [last];
      AnsweredOrFailed(init);
      AnsweredOrFailedOneMore(init, last);
      assert RequestedTargets(results) == RequestedTargets(init) + [last.target];
    }
  }

  lemma {:induction false} AnswersSupply(results: seq<ProviderResult>)
    ensures |Answered(results)| == |Supplied(results)|
  {
    if results != [] {
      AnswersSupply(results[..|results| - 1]);
    }
  }

  lemma EveryRequestAnswered<P(!new)>(providers: Providers<P>, targets: seq<BalanceTarget>)
    requires Honest(providers)
    ensures multiset(RequestedTargets(AllReplies(providers, targets))) + multiset(Chosen(providers.choose, targets, None))
         == multiset(targets)
  {
    AskedCovers(providers.choose, targets);
    GroupsPartition(providers.choose, Asked(providers.choose, targets), targets);
    HonestReplies(providers, Asked(providers.choose, targets), targets);
  }

  /** Hydration gives each target exactly one reference or exactly one issue. */
  lemma OneAnswerEach<P(!new)>(providers: Providers<P>, targets: seq<BalanceTarget>)
    requires Honest(providers)
    ensures multiset(Answered(AllReplies(providers, targets))) + multiset(IssueTargets(HydrationIssues(providers, targets)))
         == multiset(targets)
    ensures |Supplied(AllReplies(providers, targets))| + |HydrationIssues(providers, targets)| == |targets|
  {
    var replies, unsupported := AllReplies(providers, targets), Chosen(providers.choose, targets, None);
    EveryRequestAnswered(providers, targets);
    AnsweredOrFailed(replies);
    AnswersSupply(replies);
    IssueTargetsConcat(unsupported, Failures(replies));
    var answered, failed := Answered(replies), IssueTargets(HydrationIssues(providers, targets));
    assert |multiset(answered) + multiset(failed)| == |answered| + |failed|;
  }

  lemma IssueTargetsConcat(unsupported: seq<BalanceTarget>, failures: seq<Issue>)
    ensures IssueTargets(IssuesFor(unsupported, UnsupportedProvider) + failures) == unsupported + IssueTargets(failures)
  {}

  lemma {:induction false} SuppliedKeys(results: seq<ProviderResult>, key: MatchKey)
    requires forall r :: r in results && r.reference.Some? ==> KeyOf(r.reference.value.target) == KeyOf(r.target)
    ensures OnRecord(Supplied(results), key) <==> exists t :: t in Answered(results) && KeyOf(t) == key
  {
    if results != [] {
      var init, last := results[..|results| - 1], results[|results| - 1];
      assert results == init + [last];
      SuppliedKeys(init, key);
      if last.reference.Some? {
        assert Supplied(results) == Supplied(init) + [last.reference.value];
        assert Answered(results) == Answered(init) + [last.target];
        assert last.target in Answered(results) && last.reference.value in Supplied(results);
        assert forall t :: t in Answered(init) ==> t in Answered(results);
        assert forall r :: r in Supplied(init) ==> r in Supplied(results);
      }
    }
  }

  // ----- the nearest reference on record -----

  predicate SameBalance(a: BalanceTarget, b: BalanceTarget) {
    a.source == b.source && a.location == b.location && a.instrument == b.instrument && a.kind == b.kind
  }

  /** The same balance is that of another time or precision. */
  lemma SameBalanceExactly(a: BalanceTarget, b: BalanceTarget)
    ensures SameBalance(a, b) <==> a.(at := b.at, precision := b.precision) == b
  {}

  function Distance(a: BalanceTarget, b: BalanceTarget): nat {
    if a.at < b.at then b.at - a.at else a.at - b.at
  }

  /** The reference for the same balance closest in time, the first of those equally close. */
  function NearestReference(target: BalanceTarget, references: seq<BalanceReference>): Option<BalanceReference> {
    if references == [] then None
    else
      var last := references[|references| - 1];
      match NearestReference(target, references[..|references| - 1])
      case None => if SameBalance(last.target, target) then Some(last) else None
      case Some(best) =>
        if SameBalance(last.target, target) && Distance(last.target, target) < Distance(best.target, target)
        then Some(last) else Some(best)
  }

  /** `i` is the place of the nearest reference, the first of those equally close. */
  ghost predicate NearestAt(target: BalanceTarget, references: seq<BalanceReference>, i: nat) {
    i < |references| && SameBalance(references[i].target, target) && NoneCloser(target, references, i)
  }

  lemma NearestLater(target: BalanceTarget, init: seq<BalanceReference>, last: BalanceReference, i: nat)
    requires NearestAt(target, init, i)
    ensures if SameBalance(last.target, target) && Distance(last.target, target) < Distance(init[i].target, target)
            then NearestAt(target, init + [last], |init|)
            else NearestAt(target, init + [last], i)
  {
    var all := init + [last];
    assert forall k :: 0 <= k < |init| ==> all[k] == init[k];
    assert all[|init|] == last;
  }

  lemma NearestFirst(target: BalanceTarget, init: seq<BalanceReference>, last: BalanceReference)
    requires SameBalance(last.target, target) && forall r :: r in init ==> !SameBalance(r.target, target)
    ensures NearestAt(target, init + [last], |init|)
  {
    assert forall k :: 0 <= k < |init| ==> (init + [last])[k] in init;
  }

  lemma {:induction false} NearestIsNearest(target: BalanceTarget, references: seq<BalanceReference>)
    ensures NearestReference(target, references).None? ==> forall r :: r in references ==> !SameBalance(r.target, target)
    ensures NearestReference(target, references).Some? ==>
              exists i: nat :: NearestAt(target, references, i) && references[i] == NearestReference(target, references).value
  {
    if references != [] {
      var init, last := references[..|references| - 1], references[|references| - 1];
      assert references == init + [last];
      NearestIsNearest(target, init);
      if NearestReference(target, init).Some? {
        var i: nat :| NearestAt(target, init, i) && init[i] == NearestReference(target, init).value;
        NearestLater(target, init, last, i);
      } else if SameBalance(last.target, target) {
        NearestFirst(target, init, last);
      }
    }
  }

  /** Nothing before `i` is as close as it, nothing after it is closer. */
  ghost predicate NoneCloser(target: BalanceTarget, references: seq<BalanceReference>, i: nat)
    requires i < |references|
  {
    forall j :: 0 <= j < |references| && SameBalance(references[j].target, target) ==>
      && Distance(references[i].target, target) <= Distance(references[j].target, target)
      && (j < i ==> Distance(references[i].target, target) < Distance(references[j].target, target))
  }

  /** No reference for the same balance is strictly nearer in time, before or after, than the
      one found. */
  lemma NearestInTime(target: BalanceTarget, references: seq<BalanceReference>, r: BalanceReference)
    requires NearestReference(target, references).Some? && r in references && SameBalance(r.target, target)
    ensures var found := NearestReference(target, references).value.target.at;
            var other := 2 * target.at - found;
            r.target.at <= (if found < other then found else other) || (if found < other then other else found) <= r.target.at
  {
    NearestIsNearest(target, references);
    var i: nat :| NearestAt(target, references, i) && references[i] == NearestReference(target, references).value;
    var k :| 0 <= k < |references| && references[k] == r;
  }
}
