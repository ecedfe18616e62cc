/** Where a leg counts: at the location it names, or else at its fact's. */
module LegLocations {
  import opened Wrappers
  import opened BalanceModels
  import opened BalanceLedger

  predicate NamesItsLocation(leg: Leg) {
    leg.location.Some? && leg.location.value != ""
  }

  predicate PlacedAt(fact: Fact, leg: Leg, location: string) {
    if NamesItsLocation(leg) then leg.location == Some(location) else fact.location == location
  }

  /** The leg counts towards the target. */
  predicate LegCounts(fact: Fact, leg: Leg, t: BalanceTarget) {
    && fact.source == t.source && PlacedAt(fact, leg, t.location) && leg.instrument == t.instrument
    && fact.timestamp <= t.at
  }

  /** An entry of the ledger is a leg with its fact's source and time, at its place. */
  lemma EntriesExactly(facts: seq<Fact>, e: Entry)
    ensures e in Entries(facts)
            <==> exists i, j :: 0 <= i < |facts| && 0 <= j < |facts[i].legs| && IsEntry(facts[i], facts[i].legs[j], e)
  {
    EntriesComeFromLegs(facts, e);
    forall i, j | 0 <= i < |facts| && 0 <= j < |facts[i].legs|
      ensures EntryOf(facts[i], facts[i].legs[j]) == e <==> IsEntry(facts[i], facts[i].legs[j], e)
    {
    }
  }

  predicate IsEntry(fact: Fact, leg: Leg, e: Entry) {
    && e.source == fact.source && e.at == fact.timestamp && e.instrument == leg.instrument && e.quantity == leg.quantity
    && PlacedAt(fact, leg, e.location)
  }

  /** A target has coverage exactly when some leg counts towards it. */
  lemma CoveredExactly(facts: seq<Fact>, t: BalanceTarget)
    ensures (exists e :: e in Entries(facts) && IsCounted(t, e))
            <==> exists i, j :: 0 <= i < |facts| && 0 <= j < |facts[i].legs| && LegCounts(facts[i], facts[i].legs[j], t)
  {
    if e :| e in Entries(facts) && IsCounted(t, e) {
      EntriesExactly(facts, e);
      var i, j :| 0 <= i < |facts| && 0 <= j < |facts[i].legs| && IsEntry(facts[i], facts[i].legs[j], e);
      assert LegCounts(facts[i], facts[i].legs[j], t);
    }
    if i, j :| 0 <= i < |facts| && 0 <= j < |facts[i].legs| && LegCounts(facts[i], facts[i].legs[j], t) {
      var leg := facts[i].legs[j];
      var e := Entry(facts[i].source, t.location, leg.instrument, facts[i].timestamp, leg.quantity);
      assert IsEntry(facts[i], leg, e);
      EntriesExactly(facts, e);
    }
  }

  // ----- what a leg adds -----

  lemma LegEntriesPrefix(a: Fact, b: Fact, n: nat)
    requires n <= |a.legs| && n <= |b.legs| && forall j :: 0 <= j < n ==> EntryOf(a, a.legs[j]) == EntryOf(b, b.legs[j])
    ensures LegEntries(a, n) == LegEntries(b, n)
  {
    if n > 0 { LegEntriesPrefix(a, b, n - 1); }
  }

  /** A leg added to the last fact adds its quantity to exactly the balances it counts towards. */
  lemma LegAddsItsQuantity(facts: seq<Fact>, fact: Fact, leg: Leg, t: BalanceTarget)
    ensures CutoffBalance(facts + [fact.(legs := fact.legs + [leg])], t)
         == CutoffBalance(facts + [fact], t) + if LegCounts(fact, leg, t) then leg.quantity else 0.0
  {
    var longer, n := fact.(legs := fact.legs + [leg]), |fact.legs|;
    TotalOneMore(facts, longer, Counts(t));
    TotalOneMore(facts, fact, Counts(t));
    assert EntryOf(longer, leg) == EntryOf(fact, leg);
    forall j | 0 <= j < n ensures EntryOf(fact, fact.legs[j]) == EntryOf(longer, longer.legs[j]) {
      assert longer.legs[j] == fact.legs[j];
    }
    LegEntriesPrefix(fact, longer, n);
    LegAdds(longer, n, Counts(t));
    assert IsCounted(t, EntryOf(fact, leg)) <==> LegCounts(fact, leg, t);
  }

  /** A fact without legs adds nothing, and without facts every balance is zero. */
  lemma NoLegsNothing(facts: seq<Fact>, fact: Fact, t: BalanceTarget)
    requires fact.legs == []
    ensures CutoffBalance(facts + [fact], t) == CutoffBalance(facts, t) && CutoffBalance([], t) == 0.0
  {
    TotalOneMore(facts, fact, Counts(t));
  }

  /** A fact that moves a quantity from one place to another, in two legs. */
  function Move(source: string, own: string, at: int, instrument: string, here: string, there: string, quantity: real): Fact {
    Fact(source, own, at, [Leg(Some(here), instrument, -quantity), Leg(Some(there), instrument, quantity)])
  }

  /** It takes the quantity from one balance and adds it to the other, wherever the fact itself
      is said to be, and changes no other balance. */
  lemma MoveShiftsBalances(facts: seq<Fact>, source: string, own: string, at: int, instrument: string,
                           here: string, there: string, quantity: real, t: BalanceTarget)
    requires here != "" && there != "" && here != there
    ensures CutoffBalance(facts + [Move(source, own, at, instrument, here, there, quantity)], t) - CutoffBalance(facts, t)
         == if t.source != source || t.instrument != instrument || t.at < at then 0.0
            else if t.location == here then -quantity
            else if t.location == there then quantity
            else 0.0
  {
    var empty := Fact(source, own, at, []);
    var out, into := Leg(Some(here), instrument, -quantity), Leg(Some(there), instrument, quantity);
    var half := empty.(legs := empty.legs + [out]);
    NoLegsNothing(facts, empty, t);
    LegAddsItsQuantity(facts, empty, out, t);
    LegAddsItsQuantity(facts, half, into, t);
    assert half.(legs := half.legs + [into]) == Move(source, own, at, instrument, here, there, quantity);
  }

  // ----- whose location matters -----

  lemma {:induction false} SameEntriesSame(a: seq<Fact>, b: seq<Fact>)
    requires |a| == |b| && forall i :: 0 <= i < |a| ==> FactEntries(a[i]) == FactEntries(b[i])
    ensures Entries(a) == Entries(b)
  {
    if a != [] { SameEntriesSame(a[..|a| - 1], b[..|b| - 1]); }
  }

  /** Where a fact is said to be does not matter when all its legs name their location. */
  lemma FactLocationMatters(a: seq<Fact>, b: seq<Fact>, t: BalanceTarget)
    requires |a| == |b| && forall i :: 0 <= i < |a| ==> a[i].(location := b[i].location) == b[i]
    requires forall i, j :: 0 <= i < |a| && 0 <= j < |a[i].legs| ==> NamesItsLocation(a[i].legs[j]) || a[i].location == b[i].location
    ensures CutoffBalance(a, t) == CutoffBalance(b, t)
  {
    forall i | 0 <= i < |a| ensures FactEntries(a[i]) == FactEntries(b[i]) {
      LegEntriesPrefix(a[i], b[i], |a[i].legs|);
    }
    SameEntriesSame(a, b);
  }

  /** The facts with their location written into every leg that names none. */
  function Spelled(facts: seq<Fact>): (r: seq<Fact>)
    ensures |r| == |facts| && forall i :: 0 <= i < |r| ==> r[i] == SpelledFact(facts[i])
  {
    seq(|facts|, i requires 0 <= i < |facts| => SpelledFact(facts[i]))
  }

  function SpelledFact(fact: Fact): Fact {
    fact.(legs := seq(|fact.legs|, j requires 0 <= j < |fact.legs| =>
      if NamesItsLocation(fact.legs[j]) then fact.legs[j] else fact.legs[j].(location := Some(fact.location))))
  }

  lemma SpellingChangesNothing(facts: seq<Fact>, t: BalanceTarget)
    ensures CutoffBalance(Spelled(facts), t) == CutoffBalance(facts, t)
  {
    var spelled := Spelled(facts);
    forall i | 0 <= i < |facts| ensures FactEntries(spelled[i]) == FactEntries(facts[i]) {
      LegEntriesPrefix(spelled[i], facts[i], |facts[i].legs|);
    }
    SameEntriesSame(spelled, facts);
  }
}
