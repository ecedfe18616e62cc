/** Which targets a balance check looks at: those of the references on file, or those the facts give. */
module CheckTargets {
  import opened Sequences
  import opened Wrappers
  import opened Ordering
  import opened Grouping
  import opened BalanceModels
  import opened BalanceLedger

  /** A requested time: a day in the time zone of the check, or an instant. */
  datatype AsOf = OnDay(day: int) | AtInstant(at: int)

  /** The time zone of the check: the instant at which a day begins, and the day of an instant. */
  datatype Calendar = Calendar(midnight: int -> int, dayOf: int -> int)

  /** The instant a requested time stands for. */
  function TimeOf(calendar: Calendar, value: AsOf): int {
    match value
    case OnDay(day) => calendar.midnight(day)
    case AtInstant(at) => at
  }

  /** Whether a requested time picks what is on file at an instant: a day picks all of its instants. */
  predicate Picks(calendar: Calendar, value: AsOf, at: int) {
    match value
    case OnDay(day) => calendar.dayOf(at) == day
    case AtInstant(instant) => at == instant
  }

  /** Without a request everything on file is wanted. */
  predicate Wants(calendar: Calendar, request: seq<AsOf>, at: int) {
    request == [] || exists v | v in request :: Picks(calendar, v, at)
  }

  function Wanted(calendar: Calendar, request: seq<AsOf>): BalanceReference -> bool {
    (r: BalanceReference) => Wants(calendar, request, r.target.at)
  }

  function TargetOf(): BalanceReference -> BalanceTarget {
    (r: BalanceReference) => r.target
  }

  predicate HasTarget(references: seq<BalanceReference>, t: BalanceTarget) {
    exists r | r in references :: r.target == t
  }

  /** The targets of the wanted references, each once, in ascending order. */
  function ReferenceTargets(leq: (BalanceTarget, BalanceTarget) -> bool, calendar: Calendar, references: seq<BalanceReference>,
                            request: seq<AsOf>): seq<BalanceTarget> {
    Sort(leq, FirstSeen(Filter(references, Wanted(calendar, request)), TargetOf()))
  }

  lemma ReferenceTargetsExactly(leq: (BalanceTarget, BalanceTarget) -> bool, calendar: Calendar, references: seq<BalanceReference>,
                                request: seq<AsOf>)
    requires TotalPreorder(leq)
    ensures Ascending(leq, ReferenceTargets(leq, calendar, references, request))
    ensures forall t :: t in ReferenceTargets(leq, calendar, references, request)
                        <==> Wants(calendar, request, t.at) && HasTarget(references, t)
  {
    var wanted := Filter(references, Wanted(calendar, request));
    FirstSeenExactly(wanted, TargetOf());
    SortAscends(leq, FirstSeen(wanted, TargetOf()));
    forall t
      ensures t in FirstSeen(wanted, TargetOf())
              <==> Wants(calendar, request, t.at) && HasTarget(references, t)
    {
      if r :| r in references && r.target == t {
        FilterMembers(references, Wanted(calendar, request), r);
      }
      if r :| r in wanted && TargetOf()(r) == t {
        FilterMembers(references, Wanted(calendar, request), r);
      }
    }
  }

  /** An ascending listing of these targets is the one specified. */
  lemma ListsReferenceTargets(leq: (BalanceTarget, BalanceTarget) -> bool, calendar: Calendar, references: seq<BalanceReference>,
                              request: seq<AsOf>, targets: seq<BalanceTarget>)
    requires TotalOrder(leq) && Ascending(leq, targets)
    requires forall t :: t in targets <==> Wants(calendar, request, t.at) && HasTarget(references, t)
    ensures targets == ReferenceTargets(leq, calendar, references, request)
  {
    ReferenceTargetsExactly(leq, calendar, references, request);
    AscendingUnique(leq, targets, ReferenceTargets(leq, calendar, references, request));
  }

  /** The targets on file, when no times are requested. */
  method AllReferenceTargets(leq: (BalanceTarget, BalanceTarget) -> bool, calendar: Calendar, references: seq<BalanceReference>)
    returns (targets: seq<BalanceTarget>)
    requires TotalOrder(leq)
    ensures targets == ReferenceTargets(leq, calendar, references, [])
  {
    var found: set<BalanceTarget> := {};
    for i := 0 to |references|
      invariant forall t :: t in found <==> HasTarget(references[..i], t)
    {
      assert references[..i + 1] == references[..i] + [references[i]];
      FoundOneMore(references[..i], references[i], found);
      found := found + {references[i].target};
    }
    assert references[..|references|] == references;
    targets := SortedKeys(leq, found);
    ListsReferenceTargets(leq, calendar, references, [], targets);
  }

  lemma FoundOneMore(before: seq<BalanceReference>, last: BalanceReference, found: set<BalanceTarget>)
    requires forall t :: t in found <==> HasTarget(before, t)
    ensures forall t :: t in found + {last.target} <==> HasTarget(before + [last], t)
  {
    assert last in before + [last];
    assert forall r :: r in before ==> r in before + [last];
  }

  /** `found` holds the targets of the references that some of the values pick. */
  ghost predicate FoundFor(calendar: Calendar, references: seq<BalanceReference>, values: seq<AsOf>, found: set<BalanceTarget>) {
    forall t :: t in found <==> HasTarget(references, t) && exists v :: v in values && Picks(calendar, v, t.at)
  }

  /** What one requested time picks. */
  method PickedBy(calendar: Calendar, references: seq<BalanceReference>, value: AsOf) returns (found: set<BalanceTarget>)
    ensures forall t :: t in found <==> HasTarget(references, t) && Picks(calendar, value, t.at)
  {
    found := {};
    for i := 0 to |references|
      invariant forall t :: t in found <==> HasTarget(references[..i], t) && Picks(calendar, value, t.at)
    {
      assert references[..i + 1] == references[..i] + [references[i]];
      assert references[i] in references[..i + 1];
      if !Picks(calendar, value, references[i].target.at) {
        continue;
      }
      found := found + {references[i].target};
    }
    assert references[..|references|] == references;
  }

  lemma FoundForOneMore(calendar: Calendar, references: seq<BalanceReference>, values: seq<AsOf>, v: AsOf,
                        found: set<BalanceTarget>, picked: set<BalanceTarget>)
    requires FoundFor(calendar, references, values, found)
    requires forall t :: t in picked <==> HasTarget(references, t) && Picks(calendar, v, t.at)
    ensures FoundFor(calendar, references, values + [v], found + picked)
  {
    assert forall w :: w in values + [v] <==> w in values || w == v;
  }

  /** The targets on file that the requested times pick. */
  method SelectReferenceTargets(leq: (BalanceTarget, BalanceTarget) -> bool, calendar: Calendar, references: seq<BalanceReference>,
                                request: seq<AsOf>)
    returns (targets: seq<BalanceTarget>)
    requires TotalOrder(leq)
    ensures targets == if request == [] then [] else ReferenceTargets(leq, calendar, references, request)
  {
    if references == [] || request == [] {
      return [];
    }
    var found: set<BalanceTarget> := {};
    ghost var done: seq<AsOf> := [];
    for i := 0 to |request|
      invariant done == request[..i] && FoundFor(calendar, references, done, found)
    {
      var picked := PickedBy(calendar, references, request[i]);
      FoundForOneMore(calendar, references, done, request[i], found, picked);
      found := found + picked;
      TakenOneMore(request, i, done);
      done := done + [request[i]];
    }
    TakenAll(request, done);
    targets := SortedKeys(leq, found);
    ListsReferenceTargets(leq, calendar, references, request, targets);
  }

  // ----- the targets the facts give -----

  function HoldingsIn(leq: (Holding, Holding) -> bool, facts: seq<Fact>): seq<Holding> {
    Sort(leq, FirstSeen(Entries(facts), (e: Entry) => HoldingOf(e)))
  }

  lemma HoldingsInExactly(leq: (Holding, Holding) -> bool, facts: seq<Fact>)
    requires TotalPreorder(leq)
    ensures Ascending(leq, HoldingsIn(leq, facts))
    ensures forall h :: h in HoldingsIn(leq, facts) <==> exists e :: e in Entries(facts) && HoldingOf(e) == h
  {
    var holding := (e: Entry) => HoldingOf(e);
    FirstSeenExactly(Entries(facts), holding);
    SortAscends(leq, FirstSeen(Entries(facts), holding));
    assert forall e :: holding(e) == HoldingOf(e);
  }

  /** The latest instant at which the holding has an entry. */
  function LatestTime(entries: seq<Entry>, h: Holding): (r: Option<int>)
    ensures r.None? ==> forall e :: e in entries ==> HoldingOf(e) != h
    ensures r.Some? ==> LatestAt(entries, h, r.value)
  {
    if entries == [] then None
    else
      var init, last := entries[..|entries| - 1], entries[|entries| - 1];
      assert entries == init + [last];
      var before := LatestTime(init, h);
      if HoldingOf(last) == h && (before.None? || last.at > before.value) then Some(last.at) else before
  }

  lemma LatestAtUnique(entries: seq<Entry>, h: Holding, a: int, b: int)
    requires LatestAt(entries, h, a) && LatestAt(entries, h, b)
    ensures a == b
  {}

  /** The target at the latest entry of the holding. */
  function LatestTarget(facts: seq<Fact>): Holding -> BalanceTarget {
    (h: Holding) => TargetFor(h, match LatestTime(Entries(facts), h) case Some(at) => at case None => 0)
  }

  function Mapped<A, B>(s: seq<A>, f: A -> B): (r: seq<B>)
    ensures |r| == |s| && forall i :: 0 <= i < |r| ==> r[i] == f(s[i])
  {
    seq(|s|, i requires 0 <= i < |s| => f(s[i]))
  }

  function LatestOf(leq: (Holding, Holding) -> bool, facts: seq<Fact>): seq<BalanceTarget> {
    Mapped(HoldingsIn(leq, facts), LatestTarget(facts))
  }

  /** Only one list of targets is the list of latest ones. */
  lemma LatestTargetsUnique(leq: (Holding, Holding) -> bool, facts: seq<Fact>, targets: seq<BalanceTarget>)
    requires TotalOrder(leq) && LatestTargets(leq, facts, targets)
    ensures targets == LatestOf(leq, facts)
  {
    HoldingsInExactly(leq, facts);
    forall h ensures h in HoldingsOf(targets) <==> h in HoldingsIn(leq, facts) {
      if h in HoldingsOf(targets) {
        var k :| 0 <= k < |targets| && HoldingsOf(targets)[k] == h;
        assert LatestAt(Entries(facts), HoldingsOf(targets)[k], targets[k].at);
      }
    }
    AscendingUnique(leq, HoldingsOf(targets), HoldingsIn(leq, facts));
    forall k | 0 <= k < |targets| ensures targets[k] == LatestOf(leq, facts)[k] {
      var h := HoldingsOf(targets)[k];
      assert LatestAt(Entries(facts), h, targets[k].at);
      LatestAtUnique(Entries(facts), h, targets[k].at, LatestTime(Entries(facts), h).value);
    }
  }

  lemma LatestTargetAt(facts: seq<Fact>, h: Holding)
    requires exists e :: e in Entries(facts) && HoldingOf(e) == h
    ensures LatestTarget(facts)(h) == TargetFor(h, LatestTarget(facts)(h).at)
    ensures LatestAt(Entries(facts), h, LatestTarget(facts)(h).at)
  {}

  /** Conversely, that list is one of latest targets. */
  lemma LatestOfIsLatest(leq: (Holding, Holding) -> bool, facts: seq<Fact>)
    requires TotalOrder(leq)
    ensures LatestTargets(leq, facts, LatestOf(leq, facts))
  {
    var targets, keys := LatestOf(leq, facts), HoldingsIn(leq, facts);
    assert HoldingsOf(targets) == keys;
    HoldingsInExactly(leq, facts);
    forall k | 0 <= k < |targets|
      ensures targets[k] == TargetFor(keys[k], targets[k].at) && LatestAt(Entries(facts), keys[k], targets[k].at)
    {
      assert keys[k] in keys;
      LatestTargetAt(facts, keys[k]);
    }
  }

  /** A target of the holding at each time. */
  function AtTimes(times: seq<int>): Holding -> seq<BalanceTarget> {
    (h: Holding) => Mapped(times, (at: int) => TargetFor(h, at))
  }

  /** Every holding at every requested time. */
  function TargetsAt(leq: (Holding, Holding) -> bool, facts: seq<Fact>, times: seq<int>): seq<BalanceTarget> {
    Chain(HoldingsIn(leq, facts), AtTimes(times))
  }

  lemma TargetsAtExactly(leq: (Holding, Holding) -> bool, facts: seq<Fact>, times: seq<int>, t: BalanceTarget)
    requires TotalPreorder(leq)
    ensures t in TargetsAt(leq, facts, times)
            <==> t.at in times && exists e :: e in Entries(facts) && t == TargetFor(HoldingOf(e), t.at)
  {
    HoldingsInExactly(leq, facts);
    ChainMembers(HoldingsIn(leq, facts), AtTimes(times), t);
    if e :| e in Entries(facts) && t == TargetFor(HoldingOf(e), t.at) && t.at in times {
      var i :| 0 <= i < |times| && times[i] == t.at;
      assert AtTimes(times)(HoldingOf(e))[i] == t;
    }
  }

  method HoldingSet(facts: seq<Fact>) returns (found: set<Holding>)
    ensures forall h :: h in found <==> exists e :: e in Entries(facts) && HoldingOf(e) == h
  {
    found := {};
    for i := 0 to |facts|
      invariant forall h :: h in found <==> exists e :: e in Entries(facts[..i]) && HoldingOf(e) == h
    {
      assert facts[..i + 1] == facts[..i] + [facts[i]];
      EntriesOneMore(facts[..i], facts[i]);
      var more := HoldingsOfFact(facts[i]);
      found := found + more;
    }
    assert facts[..|facts|] == facts;
  }

  method HoldingsOfFact(fact: Fact) returns (found: set<Holding>)
    ensures forall h :: h in found <==> exists e :: e in FactEntries(fact) && HoldingOf(e) == h
  {
    found := {};
    for j := 0 to |fact.legs|
      invariant forall h :: h in found <==> exists e :: e in LegEntries(fact, j) && HoldingOf(e) == h
    {
      found := found + {HoldingOf(EntryOf(fact, fact.legs[j]))};
    }
  }

  /** The holdings of the facts in ascending order. */
  method SortedHoldings(leq: (Holding, Holding) -> bool, facts: seq<Fact>) returns (keys: seq<Holding>)
    requires TotalOrder(leq)
    ensures keys == HoldingsIn(leq, facts)
  {
    var found := HoldingSet(facts);
    keys := SortedKeys(leq, found);
    HoldingsInExactly(leq, facts);
    AscendingUnique(leq, keys, HoldingsIn(leq, facts));
  }

  method TargetsOfHolding(h: Holding, times: seq<int>) returns (targets: seq<BalanceTarget>)
    ensures targets == AtTimes(times)(h)
  {
    targets := [];
    for j := 0 to |times|
      invariant targets == Mapped(times[..j], (at: int) => TargetFor(h, at))
    {
      targets := targets + [TargetFor(h, times[j])];
    }
    assert times[..|times|] == times;
  }

  /** The targets at the requested times, holding by holding. */
  method TargetsForAsOfValues(leq: (Holding, Holding) -> bool, facts: seq<Fact>, times: seq<int>) returns (targets: seq<BalanceTarget>)
    requires TotalOrder(leq)
    ensures targets == TargetsAt(leq, facts, times)
  {
    var keys := SortedHoldings(leq, facts);
    targets := [];
    ghost var done: seq<Holding> := [];
    for i := 0 to |keys|
      invariant done == keys[..i] && targets == Chain(done, AtTimes(times))
    {
      ChainOneMore(done, keys[i], AtTimes(times));
      var more := TargetsOfHolding(keys[i], times);
      targets := targets + more;
      TakenOneMore(keys, i, done);
      done := done + [keys[i]];
    }
    TakenAll(keys, done);
  }

  // ----- targets of given rows -----

  function AtSomeOf(times: seq<int>): BalanceTarget -> bool {
    (t: BalanceTarget) => t.at in times
  }

  method SelectTargetsForRequestedTimes(targets: seq<BalanceTarget>, times: seq<int>) returns (selected: seq<BalanceTarget>)
    ensures selected == Filter(targets, AtSomeOf(times))
  {
    selected := [];
    for i := 0 to |targets|
      invariant selected == Filter(targets[..i], AtSomeOf(times))
    {
      assert targets[..i + 1] == targets[..i] + [targets[i]];
      FilterOneMore(targets[..i], targets[i], AtSomeOf(times));
      if targets[i].at in times {
        selected := selected + [targets[i]];
      }
    }
    assert targets[..|targets|] == targets;
  }
}
