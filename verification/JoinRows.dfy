/** Indexing one source's balances by join key, and the outer join of two indexes. */
module JoinRows {
  import opened Sequences
  import opened Wrappers
  import opened Ordering
  import opened BalanceModels
  import opened Grouping

  datatype JoinKey = JoinKey(instrument: string, kind: string, at: int, precision: Precision)

  // ----- instrument identifiers -----

  predicate StartsWith(prefix: string, text: string) {
    |prefix| <= |text| && text[..|prefix|] == prefix
  }

  /** The text before the first `@`, or all of it. */
  function BeforeAt(text: string): (r: string)
    ensures r <= text && '@' !in r
    ensures '@' in text ==> |r| < |text| && text[|r|] == '@'
    ensures '@' !in text ==> r == text
  {
    if text == "" || text[0] == '@' then "" else [text[0]] + BeforeAt(text[1..])
  }

  /** Symbol identifiers are compared without their location. */
  function NormalizeInstrument(id: string): string {
    if StartsWith("symbol:", id) && '@' in id then BeforeAt(id) else id
  }

  /** Normalizing twice is normalizing once. */
  lemma NormalizedOnce(id: string)
    ensures NormalizeInstrument(NormalizeInstrument(id)) == NormalizeInstrument(id)
  {}

  /** A symbol loses what follows its first at-sign. */
  lemma SymbolsLoseLocation(ticker: string, place: string)
    requires '@' !in ticker
    ensures NormalizeInstrument("symbol:" + ticker + "@" + place) == "symbol:" + ticker
  {
    var symbol := "symbol:" + ticker;
    var text := symbol + "@" + place;
    assert text[|symbol|] == '@' && text[..|symbol|] == symbol;
    FirstAtSign(text, |symbol|);
  }

  lemma {:induction false} FirstAtSign(text: string, i: nat)
    requires i < |text| && text[i] == '@' && '@' !in text[..i]
    ensures BeforeAt(text) == text[..i]
  {
    if i > 0 {
      assert text[..i][0] in text[..i];
      assert text[1..][..i - 1] == text[..i][1..];
      FirstAtSign(text[1..], i - 1);
    }
  }

  /** Any other identifier stays as it is. */
  lemma OthersStay(id: string)
    requires !("symbol:" <= id) || '@' !in id
    ensures NormalizeInstrument(id) == id
  {}

  function JoinKeyOf(s: BalanceSnapshot): JoinKey {
    JoinKey(NormalizeInstrument(s.target.instrument), s.target.kind, s.target.at, s.target.precision)
  }

  // ----- one source -----

  /** The balance is at the location and has the key, its instrument being normalized. */
  predicate IsAt(location: string, key: JoinKey, s: BalanceSnapshot) {
    && s.target.location == location && NormalizeInstrument(s.target.instrument) == key.instrument
    && s.target.kind == key.kind && s.target.at == key.at && s.target.precision == key.precision
  }

  /** `found` is the first of the balances at the location with the key. */
  ghost predicate FirstAt(snapshots: seq<BalanceSnapshot>, location: string, key: JoinKey, found: Option<BalanceSnapshot>) {
    match found
    case None => forall s :: s in snapshots ==> !IsAt(location, key, s)
    case Some(s) =>
      exists i :: 0 <= i < |snapshots| && snapshots[i] == s && IsAt(location, key, s)
                  && forall j :: 0 <= j < i ==> !IsAt(location, key, snapshots[j])
  }

  lemma {:induction false} FirstIsFirstAt(snapshots: seq<BalanceSnapshot>, location: string, key: JoinKey)
    ensures FirstAt(snapshots, location, key,
                    FirstWithKey(Filter(snapshots, (s: BalanceSnapshot) => s.target.location == location), key))
  {
    var here := (s: BalanceSnapshot) => s.target.location == location;
    if snapshots != [] {
      var init, last := snapshots[..|snapshots| - 1], snapshots[|snapshots| - 1];
      assert snapshots == init + [last];
      FirstIsFirstAt(init, location, key);
      FilterOneMore(init, last, here);
      FirstOneMore(Filter(init, here), last, key);
      FirstAtOneMore(init, last, location, key, FirstWithKey(Filter(init, here), key));
    }
  }

  lemma FirstAtOneMore(init: seq<BalanceSnapshot>, last: BalanceSnapshot, location: string, key: JoinKey, found: Option<BalanceSnapshot>)
    requires FirstAt(init, location, key, found)
    ensures FirstAt(init + [last], location, key, if found.Some? then found else if IsAt(location, key, last) then Some(last) else None)
  {
    var all := init + [last];
    assert forall i :: 0 <= i < |init| ==> all[i] == init[i] && init[i] in init;
    assert all[|init|] == last;
  }

  function FirstWithKey(snapshots: seq<BalanceSnapshot>, key: JoinKey): Option<BalanceSnapshot> {
    if snapshots == [] then None
    else if JoinKeyOf(snapshots[0]) == key then Some(snapshots[0])
    else FirstWithKey(snapshots[1..], key)
  }

  /** The snapshots after the first of their key, each with its number among them. */
  function Duplicates(snapshots: seq<BalanceSnapshot>): seq<(JoinKey, nat)> {
    if snapshots == [] then []
    else
      var init, key := snapshots[..|snapshots| - 1], JoinKeyOf(snapshots[|snapshots| - 1]);
      var earlier := |Having(init, JoinKeyOf, key)|;
      Duplicates(init) + if earlier > 0 then [(key, earlier)] else []
  }

  ghost predicate IndexOf(snapshots: seq<BalanceSnapshot>, indexed: map<JoinKey, BalanceSnapshot>) {
    forall key :: FirstWithKey(snapshots, key) == if key in indexed then Some(indexed[key]) else None
  }

  lemma {:induction false} FirstOneMore(snapshots: seq<BalanceSnapshot>, s: BalanceSnapshot, key: JoinKey)
    ensures FirstWithKey(snapshots + [s], key)
         == if FirstWithKey(snapshots, key).Some? then FirstWithKey(snapshots, key)
            else if JoinKeyOf(s) == key then Some(s) else None
  {
    if snapshots == [] {
      assert snapshots + [s] == [s];
    } else {
      assert (snapshots + [s])[1..] == snapshots[1..] + [s];
      FirstOneMore(snapshots[1..], s, key);
    }
  }

  lemma IndexGrows(snapshots: seq<BalanceSnapshot>, indexed: map<JoinKey, BalanceSnapshot>, s: BalanceSnapshot)
    requires IndexOf(snapshots, indexed)
    ensures IndexOf(snapshots + [s], if JoinKeyOf(s) in indexed then indexed else indexed[JoinKeyOf(s) := s])
  {
    var grown := if JoinKeyOf(s) in indexed then indexed else indexed[JoinKeyOf(s) := s];
    forall key ensures FirstWithKey(snapshots + [s], key) == if key in grown then Some(grown[key]) else None {
      FirstOneMore(snapshots, s, key);
    }
  }

  lemma DuplicatesOneMore(snapshots: seq<BalanceSnapshot>, s: BalanceSnapshot)
    ensures Duplicates(snapshots + [s])
         == var earlier := |Having(snapshots, JoinKeyOf, JoinKeyOf(s))|;
            Duplicates(snapshots) + if earlier > 0 then [(JoinKeyOf(s), earlier)] else []
  {
    assert (snapshots + [s])[..|snapshots|] == snapshots;
  }

  lemma DuplicateMembersOneMore(snapshots: seq<BalanceSnapshot>, s: BalanceSnapshot, key: JoinKey, number: nat)
    ensures (key, number) in Duplicates(snapshots + [s])
            <==> || (key, number) in Duplicates(snapshots)
                 || (key == JoinKeyOf(s) && 0 < number == |Having(snapshots, JoinKeyOf, key)|)
  {
    DuplicatesOneMore(snapshots, s);
  }

  /** Of the balances with one key the first is no duplicate, and the others are numbered from one on. */
  lemma {:induction false} DuplicateNumbers(snapshots: seq<BalanceSnapshot>, key: JoinKey, number: nat)
    ensures (key, number) in Duplicates(snapshots) <==> 0 < number < |Having(snapshots, JoinKeyOf, key)|
    decreases |snapshots|
  {
    if snapshots != [] {
      var init, last := snapshots[..|snapshots| - 1], snapshots[|snapshots| - 1];
      assert snapshots == init + [last];
      DuplicateNumbers(init, key, number);
      DuplicateMembersOneMore(init, last, key, number);
      HavingOneMore(init, last, key);
    }
  }

  lemma HavingOneMore(snapshots: seq<BalanceSnapshot>, s: BalanceSnapshot, key: JoinKey)
    ensures |Having(snapshots + [s], JoinKeyOf, key)| == |Having(snapshots, JoinKeyOf, key)| + if JoinKeyOf(s) == key then 1 else 0
  {
    HavingIsFilter(snapshots, JoinKeyOf, key);
    HavingIsFilter(snapshots + [s], JoinKeyOf, key);
    FilterOneMore(snapshots, s, (w: BalanceSnapshot) => JoinKeyOf(w) == key);
  }

  /** How many duplicates of each key have been seen. */
  ghost predicate Counted(snapshots: seq<BalanceSnapshot>, indexed: map<JoinKey, BalanceSnapshot>, counts: map<JoinKey, nat>) {
    forall key :: |Having(snapshots, JoinKeyOf, key)|
                  == (if key in indexed then 1 else 0) + if key in counts then counts[key] else 0
  }

  lemma CountedGrows(snapshots: seq<BalanceSnapshot>, indexed: map<JoinKey, BalanceSnapshot>, counts: map<JoinKey, nat>, s: BalanceSnapshot)
    requires Counted(snapshots, indexed, counts)
    ensures var key := JoinKeyOf(s);
            if key in indexed
            then Counted(snapshots + [s], indexed, counts[key := (if key in counts then counts[key] else 0) + 1])
            else Counted(snapshots + [s], indexed[key := s], counts)
  {
    forall key ensures |Having(snapshots + [s], JoinKeyOf, key)|
                    == |Having(snapshots, JoinKeyOf, key)| + if JoinKeyOf(s) == key then 1 else 0
    {
      HavingOneMore(snapshots, s, key);
    }
  }

  /** Everything the indexing loop keeps. */
  ghost predicate Indexing(snapshots: seq<BalanceSnapshot>, indexed: map<JoinKey, BalanceSnapshot>, counts: map<JoinKey, nat>,
                           duplicates: seq<(JoinKey, nat)>) {
    && IndexOf(snapshots, indexed)
    && Counted(snapshots, indexed, counts)
    && (forall key :: key in counts ==> key in indexed)
    && duplicates == Duplicates(snapshots)
    && |indexed| + |duplicates| == |snapshots|
  }

  lemma IndexesRepeat(snapshots: seq<BalanceSnapshot>, indexed: map<JoinKey, BalanceSnapshot>, counts: map<JoinKey, nat>,
                      duplicates: seq<(JoinKey, nat)>, s: BalanceSnapshot)
    requires Indexing(snapshots, indexed, counts, duplicates) && JoinKeyOf(s) in indexed
    ensures var key := JoinKeyOf(s);
            var count := (if key in counts then counts[key] else 0) + 1;
            Indexing(snapshots + [s], indexed, counts[key := count], duplicates + [(key, count)])
  {
    IndexGrows(snapshots, indexed, s);
    CountedGrows(snapshots, indexed, counts, s);
    DuplicatesOneMore(snapshots, s);
  }

  lemma IndexesNew(snapshots: seq<BalanceSnapshot>, indexed: map<JoinKey, BalanceSnapshot>, counts: map<JoinKey, nat>,
                   duplicates: seq<(JoinKey, nat)>, s: BalanceSnapshot)
    requires Indexing(snapshots, indexed, counts, duplicates) && JoinKeyOf(s) !in indexed
    ensures Indexing(snapshots + [s], indexed[JoinKeyOf(s) := s], counts, duplicates)
  {
    IndexGrows(snapshots, indexed, s);
    CountedGrows(snapshots, indexed, counts, s);
    DuplicatesOneMore(snapshots, s);
    assert |Having(snapshots, JoinKeyOf, JoinKeyOf(s))| == 0;
    assert duplicates + [] == duplicates;
  }

  lemma IndexesNothing(snapshots: seq<BalanceSnapshot>)
    requires snapshots == []
    ensures Indexing(snapshots, map[], map[], [])
  {}

  method IndexRow(ghost before: seq<BalanceSnapshot>, s: BalanceSnapshot, indexed: map<JoinKey, BalanceSnapshot>,
                  counts: map<JoinKey, nat>, duplicates: seq<(JoinKey, nat)>)
    returns (moreIndexed: map<JoinKey, BalanceSnapshot>, moreCounts: map<JoinKey, nat>, moreDuplicates: seq<(JoinKey, nat)>)
    requires Indexing(before, indexed, counts, duplicates)
    ensures Indexing(before + [s], moreIndexed, moreCounts, moreDuplicates)
  {
    var key := JoinKeyOf(s);
    if key in indexed {
      IndexesRepeat(before, indexed, counts, duplicates, s);
      var count := (if key in counts then counts[key] else 0) + 1;
      return indexed, counts[key := count], duplicates + [(key, count)];
    }
    IndexesNew(before, indexed, counts, duplicates, s);
    return indexed[key := s], counts, duplicates;
  }

  /** The first snapshot of each key is indexed, every later one is a numbered duplicate:
      together they are all the snapshots. */
  method IndexJoinRows(snapshots: seq<BalanceSnapshot>)
    returns (indexed: map<JoinKey, BalanceSnapshot>, duplicates: seq<(JoinKey, nat)>)
    ensures IndexOf(snapshots, indexed)
    ensures duplicates == Duplicates(snapshots)
    ensures |indexed| + |duplicates| == |snapshots|
  {
    indexed, duplicates := map[], [];
    var counts: map<JoinKey, nat> := map[];
    IndexesNothing(snapshots[..0]);
    for i := 0 to |snapshots|
      invariant Indexing(snapshots[..i], indexed, counts, duplicates)
    {
      indexed, counts, duplicates := IndexRow(snapshots[..i], snapshots[i], indexed, counts, duplicates);
      assert snapshots[..i + 1] == snapshots[..i] + [snapshots[i]];
    }
    assert snapshots[..|snapshots|] == snapshots;
  }

  /** The index as a function, for use in specifications. */
  function Index(snapshots: seq<BalanceSnapshot>): map<JoinKey, BalanceSnapshot> {
    if snapshots == [] then map[]
    else
      var before, last := Index(snapshots[..|snapshots| - 1]), snapshots[|snapshots| - 1];
      if JoinKeyOf(last) in before then before else before[JoinKeyOf(last) := last]
  }

  lemma {:induction false} IndexIsIndex(snapshots: seq<BalanceSnapshot>)
    ensures IndexOf(snapshots, Index(snapshots))
  {
    if snapshots != [] {
      var init, last := snapshots[..|snapshots| - 1], snapshots[|snapshots| - 1];
      assert snapshots == init + [last];
      IndexIsIndex(init);
      IndexGrows(init, Index(init), last);
    }
  }

  lemma IndexIsUnique(snapshots: seq<BalanceSnapshot>, a: map<JoinKey, BalanceSnapshot>, b: map<JoinKey, BalanceSnapshot>)
    requires IndexOf(snapshots, a) && IndexOf(snapshots, b)
    ensures a == b
  {
    assert forall key :: key in a <==> FirstWithKey(snapshots, key).Some?;
    assert forall key :: key in b <==> FirstWithKey(snapshots, key).Some?;
  }

  // ----- two sources -----

  datatype Status = Matched | Drift | MissingLeft | MissingRight

  function AssertionStatus(left: Option<BalanceSnapshot>, right: Option<BalanceSnapshot>): Status {
    if left.None? then MissingLeft
    else if right.None? then MissingRight
    else if left.value.quantity != right.value.quantity then Drift
    else Matched
  }

  function At(rows: map<JoinKey, BalanceSnapshot>, key: JoinKey): Option<BalanceSnapshot> {
    if key in rows then Some(rows[key]) else None
  }

  function StatusAt(left: map<JoinKey, BalanceSnapshot>, right: map<JoinKey, BalanceSnapshot>, key: JoinKey): Status {
    AssertionStatus(At(left, key), At(right, key))
  }

  /** `keys` lists every key of either index once, in ascending order. */
  ghost predicate OuterKeys(leq: (JoinKey, JoinKey) -> bool, left: map<JoinKey, BalanceSnapshot>, right: map<JoinKey, BalanceSnapshot>,
                            keys: seq<JoinKey>) {
    Ascending(leq, keys) && forall key :: key in keys <==> key in left.Keys + right.Keys
  }

  /** How many of the keys get this status. */
  function CountAt(left: map<JoinKey, BalanceSnapshot>, right: map<JoinKey, BalanceSnapshot>, keys: seq<JoinKey>, status: Status): nat {
    if keys == [] then 0
    else
      CountAt(left, right, keys[..|keys| - 1], status)
      + if StatusAt(left, right, keys[|keys| - 1]) == status then 1 else 0
  }

  function CountIn(keys: seq<JoinKey>, rows: set<JoinKey>): nat {
    if keys == [] then 0 else CountIn(keys[..|keys| - 1], rows) + if keys[|keys| - 1] in rows then 1 else 0
  }

  lemma {:induction false} StatusesOfLeft(left: map<JoinKey, BalanceSnapshot>, right: map<JoinKey, BalanceSnapshot>, keys: seq<JoinKey>)
    requires forall key :: key in keys ==> key in left || key in right
    ensures CountAt(left, right, keys, Matched) + CountAt(left, right, keys, Drift) + CountAt(left, right, keys, MissingRight)
         == CountIn(keys, left.Keys)
  {
    if keys != [] {
      assert keys[|keys| - 1] in keys;
      StatusesOfLeft(left, right, keys[..|keys| - 1]);
    }
  }

  lemma {:induction false} StatusesOfRight(left: map<JoinKey, BalanceSnapshot>, right: map<JoinKey, BalanceSnapshot>, keys: seq<JoinKey>)
    requires forall key :: key in keys ==> key in left || key in right
    ensures CountAt(left, right, keys, Matched) + CountAt(left, right, keys, Drift) + CountAt(left, right, keys, MissingLeft)
         == CountIn(keys, right.Keys)
  {
    if keys != [] {
      assert keys[|keys| - 1] in keys;
      StatusesOfRight(left, right, keys[..|keys| - 1]);
    }
  }

  lemma {:induction false} CountInIgnores(keys: seq<JoinKey>, rows: set<JoinKey>, key: JoinKey)
    requires key !in keys
    ensures CountIn(keys, rows - {key}) == CountIn(keys, rows)
  {
    if keys != [] {
      CountInIgnores(keys[..|keys| - 1], rows, key);
    }
  }

  lemma {:induction false} CountInIsSize(keys: seq<JoinKey>, rows: set<JoinKey>)
    requires NoRepeats(keys) && forall key :: key in rows ==> key in keys
    ensures CountIn(keys, rows) == |rows|
  {
    if keys == [] {
      assert rows == {};
    } else {
      var init, last := keys[..|keys| - 1], keys[|keys| - 1];
      assert keys == init + [last];
      NoRepeatsOneMore(init, last);
      CountInIgnores(init, rows, last);
      CountInIsSize(init, rows - {last});
    }
  }

  /** Every row of either side is accounted for exactly once. */
  lemma OuterJoinConserves(leq: (JoinKey, JoinKey) -> bool, left: map<JoinKey, BalanceSnapshot>, right: map<JoinKey, BalanceSnapshot>,
                           keys: seq<JoinKey>)
    requires OuterKeys(leq, left, right, keys)
    ensures CountAt(left, right, keys, Matched) + CountAt(left, right, keys, Drift) + CountAt(left, right, keys, MissingRight) == |left|
    ensures CountAt(left, right, keys, Matched) + CountAt(left, right, keys, Drift) + CountAt(left, right, keys, MissingLeft) == |right|
  {
    StatusesOfLeft(left, right, keys);
    StatusesOfRight(left, right, keys);
    CountInIsSize(keys, left.Keys);
    CountInIsSize(keys, right.Keys);
    assert |left.Keys| == |left| && |right.Keys| == |right|;
  }
}
