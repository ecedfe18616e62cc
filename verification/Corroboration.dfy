/** Corroborating balances across sources that name the same identity. */
module Corroboration {
  import opened Sequences
  import opened Wrappers
  import opened Ordering
  import opened BalanceModels
  import opened Grouping
  import opened JoinRows

  datatype InventoryRow = InventoryRow(source: string, location: string, identifier: string, scope: string, confidence: string)

  datatype Identity = Identity(identifier: string, scope: string)

  datatype Assertion = Assertion(
    identity: Identity, leftSource: string, rightSource: string, key: JoinKey,
    leftLocation: Option<string>, rightLocation: Option<string>,
    leftQuantity: Option<real>, rightQuantity: Option<real>, difference: Option<real>, status: Status)

  datatype CrossIssue =
    | LowConfidence(source: string, identity: Identity)
    | AmbiguousIdentity(source: string, identity: Identity)
    | AmbiguousRow(source: string, identity: Identity, number: nat)

  /** The balances on file for a source; none when the source has no input. */
  type Balances = string -> seq<BalanceSnapshot>

  /** How identities, source names and join keys are ordered. */
  datatype Orders = Orders(
    identities: (Identity, Identity) -> bool, sources: (string, string) -> bool, keys: (JoinKey, JoinKey) -> bool)

  ghost predicate Total(orders: Orders) {
    TotalOrder(orders.identities) && TotalOrder(orders.sources) && TotalOrder(orders.keys)
  }

  // ----- who can be compared -----

  function Lowered(text: string): (r: string)
    ensures |r| == |text|
  {
    seq(|text|, i requires 0 <= i < |text| => if 'A' <= text[i] <= 'Z' then text[i] - 'A' + 'a' else text[i])
  }

  predicate IsHigh(confidence: string) {
    Lowered(confidence) == "high"
  }

  function IdentityOf(row: InventoryRow): Identity {
    Identity(row.identifier, row.scope)
  }

  function SourceOf(row: InventoryRow): string {
    row.source
  }

  function Identified(inventory: seq<InventoryRow>): seq<InventoryRow> {
    Filter(inventory, (row: InventoryRow) => row.identifier != "" && row.scope != "")
  }

  function IdentitiesIn(orders: Orders, inventory: seq<InventoryRow>): seq<Identity> {
    Sort(orders.identities, FirstSeen(Identified(inventory), IdentityOf))
  }

  function RowsOf(inventory: seq<InventoryRow>, id: Identity): seq<InventoryRow> {
    Having(Identified(inventory), IdentityOf, id)
  }

  function Trusted(rows: seq<InventoryRow>, source: string): seq<InventoryRow> {
    Filter(Having(rows, SourceOf, source), (row: InventoryRow) => IsHigh(row.confidence))
  }

  /** A source takes part with its one trusted row for the identity. */
  function Participant(rows: seq<InventoryRow>): string -> seq<InventoryRow> {
    (source: string) => if |Trusted(rows, source)| == 1 then Trusted(rows, source) else []
  }

  function Refusal(id: Identity, rows: seq<InventoryRow>): string -> seq<CrossIssue> {
    (source: string) =>
      if |Trusted(rows, source)| == 0 then [LowConfidence(source, id)]
      else if |Trusted(rows, source)| > 1 then [AmbiguousIdentity(source, id)]
      else []
  }

  function Eligible(rows: seq<InventoryRow>): seq<InventoryRow> {
    Chain(FirstSeen(rows, SourceOf), Participant(rows))
  }

  function BySource(orders: Orders): (InventoryRow, InventoryRow) -> bool {
    (a: InventoryRow, b: InventoryRow) => orders.sources(a.source, b.source)
  }

  // ----- what is compared -----

  function BalancesAt(balances: Balances, row: InventoryRow): seq<BalanceSnapshot> {
    Filter(balances(row.source), (s: BalanceSnapshot) => s.target.location == row.location)
  }

  function QuantityAt(rows: map<JoinKey, BalanceSnapshot>, key: JoinKey): Option<real> {
    if key in rows then Some(rows[key].quantity) else None
  }

  function BuildAssertion(id: Identity, key: JoinKey, left: InventoryRow, leftRows: map<JoinKey, BalanceSnapshot>,
                          right: InventoryRow, rightRows: map<JoinKey, BalanceSnapshot>): Assertion {
    Assertion(id, left.source, right.source, key,
      if key in leftRows then Some(left.location) else None,
      if key in rightRows then Some(right.location) else None,
      QuantityAt(leftRows, key), QuantityAt(rightRows, key),
      if key in leftRows && key in rightRows then Some(leftRows[key].quantity - rightRows[key].quantity) else None,
      StatusAt(leftRows, rightRows, key))
  }

  function AssertionAt(id: Identity, balances: Balances, left: InventoryRow, right: InventoryRow, key: JoinKey): Assertion {
    BuildAssertion(id, key, left, Index(BalancesAt(balances, left)), right, Index(BalancesAt(balances, right)))
  }

  function KeysOfPair(orders: Orders, balances: Balances, left: InventoryRow, right: InventoryRow): seq<JoinKey> {
    Sort(orders.keys, FirstSeen(BalancesAt(balances, left) + BalancesAt(balances, right), JoinKeyOf))
  }

  function AssertionsOf(id: Identity, balances: Balances, left: InventoryRow, right: InventoryRow, keys: seq<JoinKey>): (r: seq<Assertion>)
    ensures |r| == |keys| && forall i :: 0 <= i < |r| ==> r[i] == AssertionAt(id, balances, left, right, keys[i])
  {
    seq(|keys|, i requires 0 <= i < |keys| => AssertionAt(id, balances, left, right, keys[i]))
  }

  function PairAssertions(orders: Orders, id: Identity, balances: Balances): ((InventoryRow, InventoryRow)) -> seq<Assertion> {
    (pair: (InventoryRow, InventoryRow)) =>
      AssertionsOf(id, balances, pair.0, pair.1, KeysOfPair(orders, balances, pair.0, pair.1))
  }

  function ComparedPairs(orders: Orders, rows: seq<InventoryRow>): seq<(InventoryRow, InventoryRow)> {
    Pairs(Sort(BySource(orders), Eligible(rows)))
  }

  function IdentityAssertions(orders: Orders, inventory: seq<InventoryRow>, balances: Balances): Identity -> seq<Assertion> {
    (id: Identity) => Chain(ComparedPairs(orders, RowsOf(inventory, id)), PairAssertions(orders, id, balances))
  }

  function RowIssues(id: Identity, balances: Balances): InventoryRow -> seq<CrossIssue> {
    (row: InventoryRow) => NumberedIssues(id, row, Duplicates(BalancesAt(balances, row)))
  }

  function NumberedIssues(id: Identity, row: InventoryRow, duplicates: seq<(JoinKey, nat)>): seq<CrossIssue> {
    seq(|duplicates|, i requires 0 <= i < |duplicates| => AmbiguousRow(row.source, id, duplicates[i].1))
  }

  function IdentityIssues(inventory: seq<InventoryRow>, balances: Balances): Identity -> seq<CrossIssue> {
    (id: Identity) =>
      var rows := RowsOf(inventory, id);
      Chain(FirstSeen(rows, SourceOf), Refusal(id, rows))
      + if |Eligible(rows)| < 2 then [] else Chain(Eligible(rows), RowIssues(id, balances))
  }

  function AllAssertions(orders: Orders, inventory: seq<InventoryRow>, balances: Balances): seq<Assertion> {
    Chain(IdentitiesIn(orders, inventory), IdentityAssertions(orders, inventory, balances))
  }

  function AllIssues(orders: Orders, inventory: seq<InventoryRow>, balances: Balances): seq<CrossIssue> {
    Chain(IdentitiesIn(orders, inventory), IdentityIssues(inventory, balances))
  }

  // ----- eligibility, exactly -----

  /** The row is its source's only trusted row for the identity. */
  ghost predicate OnlyTrusted(inventory: seq<InventoryRow>, id: Identity, row: InventoryRow) {
    Trusted(RowsOf(inventory, id), row.source) == [row]
  }

  lemma TrustedRows(rows: seq<InventoryRow>, source: string, row: InventoryRow)
    ensures row in Trusted(rows, source) <==> row in rows && row.source == source && IsHigh(row.confidence)
  {
    HavingMembers(rows, SourceOf, source, row);
    FilterMembers(Having(rows, SourceOf, source), (w: InventoryRow) => IsHigh(w.confidence), row);
  }

  lemma EligibleExactly(rows: seq<InventoryRow>, row: InventoryRow)
    ensures row in Eligible(rows) <==> Trusted(rows, row.source) == [row]
  {
    ChainMembers(FirstSeen(rows, SourceOf), Participant(rows), row);
    FirstSeenExactly(rows, SourceOf);
    if source :| source in FirstSeen(rows, SourceOf) && row in Participant(rows)(source) {
      TrustedRows(rows, source, row);
      assert Trusted(rows, source) == [row];
    }
    if Trusted(rows, row.source) == [row] {
      TrustedRows(rows, row.source, row);
      assert SourceOf(row) in FirstSeen(rows, SourceOf);
      assert row in Participant(rows)(row.source);
    }
  }

  /** The row is one of the source's for the identity, with high confidence; blank identifiers
      and scopes identify nothing. */
  predicate Vouches(source: string, id: Identity, row: InventoryRow) {
    && row.source == source && row.identifier == id.identifier && row.scope == id.scope
    && Lowered(row.confidence) == "high"
    && id.identifier != "" && id.scope != ""
  }

  function Vouching(source: string, id: Identity): InventoryRow -> bool {
    (row: InventoryRow) => Vouches(source, id, row)
  }

  function IsNamed(): InventoryRow -> bool {
    (row: InventoryRow) => row.identifier != "" && row.scope != ""
  }

  function Names(id: Identity): InventoryRow -> bool {
    (row: InventoryRow) => IdentityOf(row) == id
  }

  function NamesFully(id: Identity): InventoryRow -> bool {
    (row: InventoryRow) => row.identifier != "" && row.scope != "" && IdentityOf(row) == id
  }

  lemma IdentifiedIs(inventory: seq<InventoryRow>)
    ensures Identified(inventory) == Filter(inventory, IsNamed())
  {
    FilterSame(inventory, (row: InventoryRow) => row.identifier != "" && row.scope != "", IsNamed());
  }

  lemma HavingIs<K>(rows: seq<InventoryRow>, key: InventoryRow -> K, k: K, test: InventoryRow -> bool)
    requires forall row :: key(row) == k <==> test(row)
    ensures Having(rows, key, k) == Filter(rows, test)
  {
    HavingIsFilter(rows, key, k);
    FilterSame(rows, (row: InventoryRow) => key(row) == k, test);
  }

  lemma RowsOfExactly(inventory: seq<InventoryRow>, id: Identity)
    ensures RowsOf(inventory, id) == Filter(inventory, NamesFully(id))
  {
    IdentifiedIs(inventory);
    HavingIs(Identified(inventory), IdentityOf, id, Names(id));
    FilterTwice(inventory, IsNamed(), Names(id), NamesFully(id));
  }

  function IsOf(source: string): InventoryRow -> bool {
    (row: InventoryRow) => SourceOf(row) == source
  }

  function HasHigh(): InventoryRow -> bool {
    (row: InventoryRow) => IsHigh(row.confidence)
  }

  function IsHighOf(source: string): InventoryRow -> bool {
    (row: InventoryRow) => SourceOf(row) == source && IsHigh(row.confidence)
  }

  lemma TrustedIs(rows: seq<InventoryRow>, source: string)
    ensures Trusted(rows, source) == Filter(rows, IsHighOf(source))
  {
    HavingIs(rows, SourceOf, source, IsOf(source));
    HighOnes(Having(rows, SourceOf, source), rows, source);
    FilterTwice(rows, IsOf(source), HasHigh(), IsHighOf(source));
  }

  lemma HighOnes(own: seq<InventoryRow>, rows: seq<InventoryRow>, source: string)
    requires own == Having(rows, SourceOf, source)
    ensures Trusted(rows, source) == Filter(own, HasHigh())
  {
    FilterSame(own, (row: InventoryRow) => IsHigh(row.confidence), HasHigh());
  }

  lemma TrustedExactly(inventory: seq<InventoryRow>, id: Identity, source: string)
    ensures Trusted(RowsOf(inventory, id), source) == Filter(inventory, Vouching(source, id))
  {
    RowsOfExactly(inventory, id);
    TrustedIs(RowsOf(inventory, id), source);
    forall row ensures Vouching(source, id)(row) <==> NamesFully(id)(row) && IsHighOf(source)(row) {
      VouchesExactly(source, id, row);
    }
    FilterTwice(inventory, NamesFully(id), IsHighOf(source), Vouching(source, id));
  }

  lemma VouchesExactly(source: string, id: Identity, row: InventoryRow)
    ensures Vouching(source, id)(row) <==> NamesFully(id)(row) && IsHighOf(source)(row)
  {
    assert NamesFully(id)(row) <==> row.identifier != "" && row.scope != "" && IdentityOf(row) == id;
    assert IsHighOf(source)(row) <==> SourceOf(row) == source && IsHigh(row.confidence);
  }

  /** A row is its source's only trusted one exactly when it alone vouches for the identity. */
  lemma OnlyTrustedExactly(inventory: seq<InventoryRow>, id: Identity, row: InventoryRow)
    ensures OnlyTrusted(inventory, id, row) <==> exists i: nat :: OnlyAt(inventory, Vouching(row.source, id), i) && inventory[i] == row
  {
    TrustedExactly(inventory, id, row.source);
    FilterOne(inventory, Vouching(row.source, id), row);
  }

  lemma EligibleDistinct(rows: seq<InventoryRow>)
    ensures NoRepeats(Eligible(rows))
    ensures forall a, b :: a in Eligible(rows) && b in Eligible(rows) && a.source == b.source ==> a == b
  {
    var sources, piece := FirstSeen(rows, SourceOf), Participant(rows);
    FirstSeenExactly(rows, SourceOf);
    forall source ensures NoRepeats(piece(source)) {}
    forall a, b, row | row in piece(a) && row in piece(b) ensures a == b {
      TrustedRows(rows, a, row);
      TrustedRows(rows, b, row);
    }
    ChainNoRepeats(sources, piece);
    forall a, b | a in Eligible(rows) && b in Eligible(rows) && a.source == b.source ensures a == b {
      EligibleExactly(rows, a);
      EligibleExactly(rows, b);
    }
  }

  lemma BySourceIsOrder(orders: Orders)
    requires Total(orders)
    ensures TotalPreorder(BySource(orders))
  {
    var leq := BySource(orders);
    assert forall a, b: InventoryRow :: leq(a, b) == orders.sources(a.source, b.source);
  }

  lemma ComparableListed(orders: Orders, rows: seq<InventoryRow>)
    requires Total(orders)
    ensures Ascending(BySource(orders), Sort(BySource(orders), Eligible(rows)))
    ensures forall row :: row in Sort(BySource(orders), Eligible(rows)) <==> row in Eligible(rows)
  {
    BySourceIsOrder(orders);
    EligibleDistinct(rows);
    SortAscends(BySource(orders), Eligible(rows));
  }

  lemma InSourceOrder(orders: Orders, c: seq<InventoryRow>, left: InventoryRow, right: InventoryRow)
    requires Total(orders) && Ascending(BySource(orders), c) && left in c && right in c
    requires left.source != right.source && orders.sources(left.source, right.source)
    ensures (left, right) in Pairs(c)
  {
    var i :| 0 <= i < |c| && c[i] == left;
    var j :| 0 <= j < |c| && c[j] == right;
    InOrder(BySource(orders), c, j, i);
    PairsMembers(c, left, right);
  }

  lemma InOrder<T>(leq: (T, T) -> bool, s: seq<T>, i: nat, j: nat)
    requires i < |s| && j < |s| && Ascending(leq, s)
    ensures i < j ==> leq(s[i], s[j])
  {}

  /** The pairs compared are the eligible rows of different sources, in source order. */
  lemma PairsExactly(orders: Orders, rows: seq<InventoryRow>, left: InventoryRow, right: InventoryRow)
    requires Total(orders)
    ensures (left, right) in ComparedPairs(orders, rows)
            <==> && left in Eligible(rows) && right in Eligible(rows)
                 && left.source != right.source && orders.sources(left.source, right.source)
  {
    var c := Sort(BySource(orders), Eligible(rows));
    ComparableListed(orders, rows);
    EligibleDistinct(rows);
    PairsMembers(c, left, right);
    if left in c && right in c && left.source != right.source && orders.sources(left.source, right.source) {
      InSourceOrder(orders, c, left, right);
    }
  }

  // ----- one assertion per key -----

  lemma EitherIndex(a: seq<BalanceSnapshot>, b: seq<BalanceSnapshot>, key: JoinKey)
    ensures key in FirstSeen(a + b, JoinKeyOf) <==> key in Index(a).Keys + Index(b).Keys
  {
    FirstSeenExactly(a + b, JoinKeyOf);
    IndexKeys(a, key);
    IndexKeys(b, key);
    assert forall s :: s in a + b <==> s in a || s in b;
  }

  lemma KeysExactly(orders: Orders, balances: Balances, left: InventoryRow, right: InventoryRow)
    requires Total(orders)
    ensures OuterKeys(orders.keys, Index(BalancesAt(balances, left)), Index(BalancesAt(balances, right)),
                      KeysOfPair(orders, balances, left, right))
  {
    var a, b := BalancesAt(balances, left), BalancesAt(balances, right);
    FirstSeenExactly(a + b, JoinKeyOf);
    SortAscends(orders.keys, FirstSeen(a + b, JoinKeyOf));
    forall key ensures key in FirstSeen(a + b, JoinKeyOf) <==> key in Index(a).Keys + Index(b).Keys {
      EitherIndex(a, b, key);
    }
  }

  lemma {:induction false} IndexKeys(snapshots: seq<BalanceSnapshot>, key: JoinKey)
    ensures key in Index(snapshots) <==> exists s :: s in snapshots && JoinKeyOf(s) == key
  {
    if snapshots != [] {
      var init, last := snapshots[..|snapshots| - 1], snapshots[|snapshots| - 1];
      assert snapshots == init + [last];
      IndexKeys(init, key);
      if s :| s in snapshots && JoinKeyOf(s) == key {
        assert s in init || s == last;
      }
      assert last in snapshots;
    }
  }

  /** `a` compares two eligible rows of an identity at a key that one of them has. */
  ghost predicate Compares(orders: Orders, inventory: seq<InventoryRow>, balances: Balances, a: Assertion,
                           left: InventoryRow, right: InventoryRow) {
    && OnlyTrusted(inventory, a.identity, left) && OnlyTrusted(inventory, a.identity, right)
    && left.source != right.source && orders.sources(left.source, right.source)
    && (a.key in Index(BalancesAt(balances, left)) || a.key in Index(BalancesAt(balances, right)))
    && a == AssertionAt(a.identity, balances, left, right, a.key)
  }

  lemma PairMembers(orders: Orders, id: Identity, balances: Balances, left: InventoryRow, right: InventoryRow, a: Assertion)
    requires Total(orders)
    ensures NoRepeats(PairAssertions(orders, id, balances)((left, right)))
    ensures a in PairAssertions(orders, id, balances)((left, right))
            <==> && (a.key in Index(BalancesAt(balances, left)) || a.key in Index(BalancesAt(balances, right)))
                 && a == AssertionAt(id, balances, left, right, a.key)
  {
    var keys := KeysOfPair(orders, balances, left, right);
    var made := AssertionsOf(id, balances, left, right, keys);
    KeysExactly(orders, balances, left, right);
    assert forall i, j :: 0 <= i < j < |made| ==> made[i].key != made[j].key;
    if a.key in keys && a == AssertionAt(id, balances, left, right, a.key) {
      var i :| 0 <= i < |keys| && keys[i] == a.key;
      assert made[i] == a;
    }
  }

  lemma IdentityMembers(orders: Orders, inventory: seq<InventoryRow>, balances: Balances, id: Identity, a: Assertion)
    requires Total(orders)
    ensures a in IdentityAssertions(orders, inventory, balances)(id)
            <==> a.identity == id && exists left, right :: Compares(orders, inventory, balances, a, left, right)
  {
    var pairs, piece := ComparedPairs(orders, RowsOf(inventory, id)), PairAssertions(orders, id, balances);
    ChainMembers(pairs, piece, a);
    if pair :| pair in pairs && a in piece(pair) {
      PairsExactly(orders, RowsOf(inventory, id), pair.0, pair.1);
      PairMembers(orders, id, balances, pair.0, pair.1, a);
      EligibleExactly(RowsOf(inventory, id), pair.0);
      EligibleExactly(RowsOf(inventory, id), pair.1);
      assert Compares(orders, inventory, balances, a, pair.0, pair.1);
    }
    if left, right :| Compares(orders, inventory, balances, a, left, right) && a.identity == id {
      PairsExactly(orders, RowsOf(inventory, id), left, right);
      PairMembers(orders, id, balances, left, right, a);
      EligibleExactly(RowsOf(inventory, id), left);
      EligibleExactly(RowsOf(inventory, id), right);
      assert (left, right) in pairs && a in piece((left, right));
    }
  }

  lemma IdentityNoRepeats(orders: Orders, inventory: seq<InventoryRow>, balances: Balances, id: Identity)
    requires Total(orders)
    ensures NoRepeats(IdentityAssertions(orders, inventory, balances)(id))
  {
    var rows := RowsOf(inventory, id);
    var pairs, piece := ComparedPairs(orders, rows), PairAssertions(orders, id, balances);
    forall pair | pair in pairs ensures NoRepeats(piece(pair)) {
      PairMembers(orders, id, balances, pair.0, pair.1, AssertionAt(id, balances, pair.0, pair.1, JoinKey("", "", 0, Date)));
    }
    forall p, q, a | p in pairs && q in pairs && a in piece(p) && a in piece(q) ensures p == q {
      PairMembers(orders, id, balances, p.0, p.1, a);
      PairMembers(orders, id, balances, q.0, q.1, a);
      PairsExactly(orders, rows, p.0, p.1);
      PairsExactly(orders, rows, q.0, q.1);
      EligibleDistinct(rows);
    }
    AnyPairNoRepeats(orders, rows);
    ChainNoRepeats(pairs, piece);
  }

  lemma AnyPairNoRepeats(orders: Orders, rows: seq<InventoryRow>)
    requires Total(orders)
    ensures NoRepeats(ComparedPairs(orders, rows))
  {
    ComparableListed(orders, rows);
    PairsNoRepeats(Sort(BySource(orders), Eligible(rows)));
  }

  lemma IdentitiesListed(orders: Orders, inventory: seq<InventoryRow>)
    requires Total(orders)
    ensures NoRepeats(IdentitiesIn(orders, inventory))
    ensures forall row :: row in Identified(inventory) ==> IdentityOf(row) in IdentitiesIn(orders, inventory)
  {
    FirstSeenExactly(Identified(inventory), IdentityOf);
    SortAscends(orders.identities, FirstSeen(Identified(inventory), IdentityOf));
  }

  lemma AssertionsExactly(orders: Orders, inventory: seq<InventoryRow>, balances: Balances, a: Assertion)
    requires Total(orders)
    ensures a in AllAssertions(orders, inventory, balances)
            <==> exists left, right :: Compares(orders, inventory, balances, a, left, right)
  {
    var ids, piece := IdentitiesIn(orders, inventory), IdentityAssertions(orders, inventory, balances);
    ChainMembers(ids, piece, a);
    if id :| id in ids && a in piece(id) {
      IdentityMembers(orders, inventory, balances, id, a);
    }
    if left, right :| Compares(orders, inventory, balances, a, left, right) {
      IdentityMembers(orders, inventory, balances, a.identity, a);
      TrustedRows(RowsOf(inventory, a.identity), left.source, left);
      HavingMembers(Identified(inventory), IdentityOf, a.identity, left);
      IdentitiesListed(orders, inventory);
      assert a.identity in ids && a in piece(a.identity);
    }
  }

  /** Exactly one assertion for each identity, pair of eligible sources, and key that
      either of the two has. */
  lemma OneAssertionPerKey(orders: Orders, inventory: seq<InventoryRow>, balances: Balances)
    requires Total(orders)
    ensures forall a :: a in AllAssertions(orders, inventory, balances)
                        <==> exists left, right :: Compares(orders, inventory, balances, a, left, right)
    ensures NoRepeats(AllAssertions(orders, inventory, balances))
  {
    var ids, piece := IdentitiesIn(orders, inventory), IdentityAssertions(orders, inventory, balances);
    forall a ensures a in AllAssertions(orders, inventory, balances)
                     <==> exists left, right :: Compares(orders, inventory, balances, a, left, right)
    {
      AssertionsExactly(orders, inventory, balances, a);
    }
    forall id | id in ids ensures NoRepeats(piece(id)) {
      IdentityNoRepeats(orders, inventory, balances, id);
    }
    forall p, q, b | p in ids && q in ids && b in piece(p) && b in piece(q) ensures p == q {
      IdentityMembers(orders, inventory, balances, p, b);
      IdentityMembers(orders, inventory, balances, q, b);
    }
    IdentitiesListed(orders, inventory);
    ChainNoRepeats(ids, piece);
  }

  // ----- what an assertion says -----

  /** The status in terms of the quantities reported beside it. */
  predicate StatusTells(a: Assertion) {
    && (a.status == Matched <==> a.leftQuantity.Some? && a.rightQuantity.Some? && a.leftQuantity.value == a.rightQuantity.value)
    && (a.status == Drift <==> a.leftQuantity.Some? && a.rightQuantity.Some? && a.leftQuantity.value != a.rightQuantity.value)
    && (a.status == MissingLeft <==> a.leftQuantity.None?)
    && (a.status == MissingRight <==> a.leftQuantity.Some? && a.rightQuantity.None?)
    && (a.status == Matched <==> a.difference == Some(0.0))
    && (a.difference.Some? <==> a.leftQuantity.Some? && a.rightQuantity.Some?)
    && (a.difference.Some? ==> a.rightQuantity.value + a.difference.value == a.leftQuantity.value)
  }

  /** One side of an assertion: the first balance of its row's source there that has the key. */
  ghost predicate ReadFrom(balances: Balances, row: InventoryRow, key: JoinKey, source: string, location: Option<string>,
                           quantity: Option<real>) {
    && source == row.source
    && match quantity
       case None => location == None && FirstAt(balances(row.source), row.location, key, None)
       case Some(q) =>
         location == Some(row.location) && exists s: BalanceSnapshot :: s.quantity == q && FirstAt(balances(row.source), row.location, key, Some(s))
  }

  lemma SideIsRead(balances: Balances, row: InventoryRow, key: JoinKey)
    ensures ReadFrom(balances, row, key, row.source, if key in Index(BalancesAt(balances, row)) then Some(row.location) else None,
                     QuantityAt(Index(BalancesAt(balances, row)), key))
  {
    IndexIsIndex(BalancesAt(balances, row));
    FirstIsFirstAt(balances(row.source), row.location, key);
  }

  /** Each assertion reads both its sides from the sources it names, and its status and
      difference are those of what it read. */
  lemma AssertionsTell(orders: Orders, inventory: seq<InventoryRow>, balances: Balances, a: Assertion)
    requires Total(orders) && a in AllAssertions(orders, inventory, balances)
    ensures StatusTells(a)
    ensures exists left, right ::
              && OnlyTrusted(inventory, a.identity, left) && OnlyTrusted(inventory, a.identity, right)
              && left.source != right.source && orders.sources(left.source, right.source)
              && ReadFrom(balances, left, a.key, a.leftSource, a.leftLocation, a.leftQuantity)
              && ReadFrom(balances, right, a.key, a.rightSource, a.rightLocation, a.rightQuantity)
  {
    AssertionsExactly(orders, inventory, balances, a);
    var left, right :| Compares(orders, inventory, balances, a, left, right);
    SideIsRead(balances, left, a.key);
    SideIsRead(balances, right, a.key);
  }

  // ----- the summary -----

  function CountStatus(assertions: seq<Assertion>, status: Status): nat {
    |Filter(assertions, (a: Assertion) => a.status == status)|
  }

  datatype Summary = Summary(assertionCount: nat, issueCount: nat, matched: nat, drift: nat, missingLeft: nat, missingRight: nat,
                             ambiguous: nat, skipped: nat)

  function SummaryPayload(assertions: seq<Assertion>, issues: seq<CrossIssue>): Summary {
    Summary(|assertions|, |issues|,
      CountStatus(assertions, Matched), CountStatus(assertions, Drift),
      CountStatus(assertions, MissingLeft), CountStatus(assertions, MissingRight),
      |Filter(issues, (i: CrossIssue) => !i.LowConfidence?)|,
      |Filter(issues, (i: CrossIssue) => i.LowConfidence? || i.AmbiguousIdentity? || i.AmbiguousRow?)|)
  }

  /** The four statuses make up all assertions, and every issue is a skip. */
  lemma SummaryAddsUp(assertions: seq<Assertion>, issues: seq<CrossIssue>)
    ensures var s := SummaryPayload(assertions, issues);
            && s.matched + s.drift + s.missingLeft + s.missingRight == s.assertionCount
            && s.ambiguous <= s.skipped == s.issueCount
  {
    StatusesPartition(assertions);
    IssuesAllSkip(issues);
  }

  lemma {:induction false} StatusesPartition(assertions: seq<Assertion>)
    ensures CountStatus(assertions, Matched) + CountStatus(assertions, Drift)
            + CountStatus(assertions, MissingLeft) + CountStatus(assertions, MissingRight) == |assertions|
  {
    if assertions != [] {
      var init, last := assertions[..|assertions| - 1], assertions[|assertions| - 1];
      StatusesPartition(init);
      assert assertions == init + [last];
      StatusOneMore(init, last, Matched);
      StatusOneMore(init, last, Drift);
      StatusOneMore(init, last, MissingLeft);
      StatusOneMore(init, last, MissingRight);
    }
  }

  lemma StatusOneMore(init: seq<Assertion>, last: Assertion, status: Status)
    ensures CountStatus(init + [last], status) == CountStatus(init, status) + if last.status == status then 1 else 0
  {
    FilterOneMore(init, last, (a: Assertion) => a.status == status);
  }

  lemma {:induction false} IssuesAllSkip(issues: seq<CrossIssue>)
    ensures Filter(issues, (i: CrossIssue) => i.LowConfidence? || i.AmbiguousIdentity? || i.AmbiguousRow?) == issues
  {
    if issues != [] {
      var init, last := issues[..|issues| - 1], issues[|issues| - 1];
      IssuesAllSkip(init);
      assert issues == init + [last];
      FilterOneMore(init, last, (i: CrossIssue) => i.LowConfidence? || i.AmbiguousIdentity? || i.AmbiguousRow?);
    }
  }

  // ----- the emitted assertions of a pair -----

  lemma EmittedOneMore(id: Identity, balances: Balances, left: InventoryRow, right: InventoryRow, keys: seq<JoinKey>, key: JoinKey,
                       status: Status)
    ensures CountStatus(AssertionsOf(id, balances, left, right, keys + [key]), status)
         == CountStatus(AssertionsOf(id, balances, left, right, keys), status)
            + if StatusAt(Index(BalancesAt(balances, left)), Index(BalancesAt(balances, right)), key) == status then 1 else 0
  {
    assert AssertionsOf(id, balances, left, right, keys + [key])
        == AssertionsOf(id, balances, left, right, keys) + [AssertionAt(id, balances, left, right, key)];
    StatusOneMore(AssertionsOf(id, balances, left, right, keys), AssertionAt(id, balances, left, right, key), status);
  }

  lemma {:induction false} EmittedStatuses(id: Identity, balances: Balances, left: InventoryRow, right: InventoryRow,
                                           keys: seq<JoinKey>, status: Status)
    ensures CountStatus(AssertionsOf(id, balances, left, right, keys), status)
         == CountAt(Index(BalancesAt(balances, left)), Index(BalancesAt(balances, right)), keys, status)
  {
    if keys != [] {
      var init, last := keys[..|keys| - 1], keys[|keys| - 1];
      assert keys == init + [last];
      EmittedStatuses(id, balances, left, right, init, status);
      EmittedOneMore(id, balances, left, right, init, last, status);
    }
  }

  lemma {:induction false} IndexedOrDuplicate(snapshots: seq<BalanceSnapshot>)
    ensures |Index(snapshots)| + |Duplicates(snapshots)| == |snapshots|
  {
    if snapshots != [] {
      var init, last := snapshots[..|snapshots| - 1], snapshots[|snapshots| - 1];
      assert snapshots == init + [last];
      IndexedOrDuplicate(init);
      DuplicatesOneMore(init, last);
      var earlier := Having(init, JoinKeyOf, JoinKeyOf(last));
      IndexKeys(init, JoinKeyOf(last));
      if earlier != [] {
        HavingMembers(init, JoinKeyOf, JoinKeyOf(last), earlier[0]);
      }
      if s :| s in init && JoinKeyOf(s) == JoinKeyOf(last) {
        HavingMembers(init, JoinKeyOf, JoinKeyOf(last), s);
      }
    }
  }

  /** The assertions emitted for a pair account for every balance of either side once: as
      matched, drifted, missing on the other side, or reported as a duplicate. */
  lemma PairConserves(orders: Orders, id: Identity, balances: Balances, left: InventoryRow, right: InventoryRow)
    requires Total(orders)
    ensures var emitted := PairAssertions(orders, id, balances)((left, right));
            CountStatus(emitted, Matched) + CountStatus(emitted, Drift) + CountStatus(emitted, MissingRight)
            + |Duplicates(BalancesAt(balances, left))| == |BalancesAt(balances, left)|
    ensures var emitted := PairAssertions(orders, id, balances)((left, right));
            CountStatus(emitted, Matched) + CountStatus(emitted, Drift) + CountStatus(emitted, MissingLeft)
            + |Duplicates(BalancesAt(balances, right))| == |BalancesAt(balances, right)|
  {
    var keys := KeysOfPair(orders, balances, left, right);
    KeysExactly(orders, balances, left, right);
    OuterJoinConserves(orders.keys, Index(BalancesAt(balances, left)), Index(BalancesAt(balances, right)), keys);
    EmittedStatuses(id, balances, left, right, keys, Matched);
    EmittedStatuses(id, balances, left, right, keys, Drift);
    EmittedStatuses(id, balances, left, right, keys, MissingLeft);
    EmittedStatuses(id, balances, left, right, keys, MissingRight);
    IndexedOrDuplicate(BalancesAt(balances, left));
    IndexedOrDuplicate(BalancesAt(balances, right));
  }

  // ----- the run -----

  method OuterJoinKeys(orders: Orders, balances: Balances, left: InventoryRow, leftRows: map<JoinKey, BalanceSnapshot>,
                       right: InventoryRow, rightRows: map<JoinKey, BalanceSnapshot>)
    returns (keys: seq<JoinKey>)
    requires Total(orders)
    requires leftRows == Index(BalancesAt(balances, left)) && rightRows == Index(BalancesAt(balances, right))
    ensures keys == KeysOfPair(orders, balances, left, right)
  {
    keys := SortedKeys(orders.keys, leftRows.Keys + rightRows.Keys);
    KeysExactly(orders, balances, left, right);
    AscendingUnique(orders.keys, keys, KeysOfPair(orders, balances, left, right));
  }

  /** The outer join of two indexed sources. */
  method ComparePair(orders: Orders, id: Identity, balances: Balances, left: InventoryRow, leftRows: map<JoinKey, BalanceSnapshot>,
                     right: InventoryRow, rightRows: map<JoinKey, BalanceSnapshot>)
    returns (assertions: seq<Assertion>)
    requires Total(orders)
    requires leftRows == Index(BalancesAt(balances, left)) && rightRows == Index(BalancesAt(balances, right))
    ensures assertions == PairAssertions(orders, id, balances)((left, right))
  {
    var keys := OuterJoinKeys(orders, balances, left, leftRows, right, rightRows);
    assertions := [];
    for i := 0 to |keys|
      invariant assertions == AssertionsOf(id, balances, left, right, keys[..i])
    {
      assertions := assertions + [BuildAssertion(id, keys[i], left, leftRows, right, rightRows)];
    }
    assert keys[..|keys|] == keys;
  }

  ghost predicate RowsIndexed(balances: Balances, eligible: seq<InventoryRow>, rowsBySource: map<string, map<JoinKey, BalanceSnapshot>>) {
    forall row :: row in eligible ==> row.source in rowsBySource && rowsBySource[row.source] == Index(BalancesAt(balances, row))
  }

  ghost predicate ComparedWith(orders: Orders, id: Identity, balances: Balances, left: InventoryRow, later: seq<InventoryRow>,
                               assertions: seq<Assertion>) {
    assertions == Chain(PairsWith(left, later), PairAssertions(orders, id, balances))
  }

  lemma ComparedWithOneMore(orders: Orders, id: Identity, balances: Balances, left: InventoryRow, later: seq<InventoryRow>,
                            right: InventoryRow, assertions: seq<Assertion>)
    requires ComparedWith(orders, id, balances, left, later, assertions)
    ensures ComparedWith(orders, id, balances, left, later + [right], assertions + PairAssertions(orders, id, balances)((left, right)))
  {
    assert PairsWith(left, later + [right]) == PairsWith(left, later) + [(left, right)];
    ChainOneMore(PairsWith(left, later), (left, right), PairAssertions(orders, id, balances));
  }

  method CompareNext(orders: Orders, id: Identity, balances: Balances, left: InventoryRow, ghost before: seq<InventoryRow>,
                     right: InventoryRow, leftRows: map<JoinKey, BalanceSnapshot>, rightRows: map<JoinKey, BalanceSnapshot>,
                     assertions: seq<Assertion>)
    returns (more: seq<Assertion>)
    requires Total(orders) && ComparedWith(orders, id, balances, left, before, assertions)
    requires leftRows == Index(BalancesAt(balances, left)) && rightRows == Index(BalancesAt(balances, right))
    ensures ComparedWith(orders, id, balances, left, before + [right], more)
  {
    ComparedWithOneMore(orders, id, balances, left, before, right, assertions);
    var found := ComparePair(orders, id, balances, left, leftRows, right, rightRows);
    more := assertions + found;
  }

  /** Compares one eligible source with the later ones. */
  method CompareWithLater(orders: Orders, id: Identity, balances: Balances, left: InventoryRow, later: seq<InventoryRow>,
                          rowsBySource: map<string, map<JoinKey, BalanceSnapshot>>)
    returns (assertions: seq<Assertion>)
    requires Total(orders) && RowsIndexed(balances, [left], rowsBySource) && RowsIndexed(balances, later, rowsBySource)
    ensures ComparedWith(orders, id, balances, left, later, assertions)
  {
    assertions := [];
    ghost var done: seq<InventoryRow> := [];
    assert left in [left];
    for j := 0 to |later|
      invariant done == later[..j]
      invariant ComparedWith(orders, id, balances, left, done, assertions)
    {
      assert later[j] in later;
      assertions := CompareNext(orders, id, balances, left, done, later[j],
                                rowsBySource[left.source], rowsBySource[later[j].source], assertions);
      TakenOneMore(later, j, done);
      done := done + [later[j]];
    }
    TakenAll(later, done);
  }

  lemma PairsFrom(orders: Orders, id: Identity, balances: Balances, comparable: seq<InventoryRow>, i: nat)
    requires i < |comparable|
    ensures var piece := PairAssertions(orders, id, balances);
              Chain(Pairs(comparable[i..]), piece)
              == Chain(PairsWith(comparable[i], comparable[i + 1..]), piece) + Chain(Pairs(comparable[i + 1..]), piece)
  {
    assert comparable[i..][0] == comparable[i] && comparable[i..][1..] == comparable[i + 1..];
    ChainConcat(PairsWith(comparable[i], comparable[i + 1..]), Pairs(comparable[i + 1..]), PairAssertions(orders, id, balances));
  }

  /** Compares every eligible source with every later one. */
  method ComparePairs(orders: Orders, id: Identity, balances: Balances, comparable: seq<InventoryRow>,
                      rowsBySource: map<string, map<JoinKey, BalanceSnapshot>>)
    returns (assertions: seq<Assertion>)
    requires Total(orders) && RowsIndexed(balances, comparable, rowsBySource)
    ensures assertions == Chain(Pairs(comparable), PairAssertions(orders, id, balances))
  {
    assertions := [];
    ghost var all := Chain(Pairs(comparable), PairAssertions(orders, id, balances));
    assert comparable[0..] == comparable;
    for i := 0 to |comparable|
      invariant assertions + Chain(Pairs(comparable[i..]), PairAssertions(orders, id, balances)) == all
    {
      PairsFrom(orders, id, balances, comparable, i);
      assert comparable[i] in comparable && forall row :: row in comparable[i + 1..] ==> row in comparable;
      var more := CompareWithLater(orders, id, balances, comparable[i], comparable[i + 1..], rowsBySource);
      Associates(assertions, more, Chain(Pairs(comparable[i + 1..]), PairAssertions(orders, id, balances)));
      assertions := assertions + more;
    }
    assert comparable[|comparable|..] == [];
    NothingLeft(orders, id, balances, comparable[|comparable|..]);
    assert assertions + [] == assertions;
  }

  lemma NothingLeft(orders: Orders, id: Identity, balances: Balances, rest: seq<InventoryRow>)
    requires rest == []
    ensures Chain(Pairs(rest), PairAssertions(orders, id, balances)) == []
  {}

  ghost predicate Admitted(id: Identity, rows: seq<InventoryRow>, sources: seq<string>,
                           eligible: seq<InventoryRow>, issues: seq<CrossIssue>) {
    eligible == Chain(sources, Participant(rows)) && issues == Chain(sources, Refusal(id, rows))
  }

  lemma AdmittedOneMore(id: Identity, rows: seq<InventoryRow>, sources: seq<string>, source: string,
                        eligible: seq<InventoryRow>, issues: seq<CrossIssue>)
    requires Admitted(id, rows, sources, eligible, issues)
    ensures Admitted(id, rows, sources + [source], eligible + Participant(rows)(source), issues + Refusal(id, rows)(source))
  {
    ChainOneMore(sources, source, Participant(rows));
    ChainOneMore(sources, source, Refusal(id, rows));
  }

  method AdmitSource(id: Identity, rows: seq<InventoryRow>, source: string, sourceRows: seq<InventoryRow>)
    returns (eligible: seq<InventoryRow>, issues: seq<CrossIssue>)
    requires sourceRows == Having(rows, SourceOf, source)
    ensures eligible == Participant(rows)(source) && issues == Refusal(id, rows)(source)
  {
    var trusted := Filter(sourceRows, (row: InventoryRow) => IsHigh(row.confidence));
    if trusted == [] {
      return [], [LowConfidence(source, id)];
    }
    if |trusted| > 1 {
      return [], [AmbiguousIdentity(source, id)];
    }
    assert trusted == [trusted[0]];
    return [trusted[0]], [];
  }

  /** One row per source that has exactly one trusted row; an issue for each other source. */
  ghost predicate SourcesGrouped(rows: seq<InventoryRow>, order: seq<string>, groups: map<string, seq<InventoryRow>>) {
    forall source :: source in order ==> source in groups && groups[source] == Having(rows, SourceOf, source)
  }

  method AdmitNext(id: Identity, rows: seq<InventoryRow>, ghost before: seq<string>, source: string, sourceRows: seq<InventoryRow>,
                   eligible: seq<InventoryRow>, issues: seq<CrossIssue>)
    returns (moreEligible: seq<InventoryRow>, moreIssues: seq<CrossIssue>)
    requires sourceRows == Having(rows, SourceOf, source) && Admitted(id, rows, before, eligible, issues)
    ensures Admitted(id, rows, before + [source], moreEligible, moreIssues)
  {
    AdmittedOneMore(id, rows, before, source, eligible, issues);
    var row, issue := AdmitSource(id, rows, source, sourceRows);
    return eligible + row, issues + issue;
  }

  method AdmitAll(id: Identity, rows: seq<InventoryRow>, order: seq<string>, groups: map<string, seq<InventoryRow>>)
    returns (eligible: seq<InventoryRow>, issues: seq<CrossIssue>)
    requires SourcesGrouped(rows, order, groups)
    ensures Admitted(id, rows, order, eligible, issues)
  {
    eligible, issues := [], [];
    ghost var done: seq<string> := [];
    for i := 0 to |order|
      invariant done == order[..i]
      invariant Admitted(id, rows, done, eligible, issues)
    {
      assert order[i] in order;
      eligible, issues := AdmitNext(id, rows, done, order[i], groups[order[i]], eligible, issues);
      TakenOneMore(order, i, done);
      done := done + [order[i]];
    }
    TakenAll(order, done);
  }

  method EligibleIdentities(id: Identity, rows: seq<InventoryRow>) returns (eligible: seq<InventoryRow>, issues: seq<CrossIssue>)
    ensures Admitted(id, rows, FirstSeen(rows, SourceOf), eligible, issues)
  {
    var order, groups := GroupBy(rows, SourceOf);
    eligible, issues := AdmitAll(id, rows, order, groups);
  }

  method IndexSource(balances: Balances, row: InventoryRow)
    returns (indexed: map<JoinKey, BalanceSnapshot>, duplicates: seq<(JoinKey, nat)>)
    ensures indexed == Index(BalancesAt(balances, row)) && duplicates == Duplicates(BalancesAt(balances, row))
  {
    indexed, duplicates := IndexJoinRows(BalancesAt(balances, row));
    IndexIsIndex(BalancesAt(balances, row));
    IndexIsUnique(BalancesAt(balances, row), indexed, Index(BalancesAt(balances, row)));
  }

  method IndexSources(id: Identity, balances: Balances, eligible: seq<InventoryRow>)
    returns (rowsBySource: map<string, map<JoinKey, BalanceSnapshot>>, issues: seq<CrossIssue>)
    requires forall i, j :: 0 <= i < j < |eligible| ==> eligible[i].source != eligible[j].source
    ensures RowsIndexed(balances, eligible, rowsBySource)
    ensures issues == Chain(eligible, RowIssues(id, balances))
  {
    rowsBySource, issues := map[], [];
    for i := 0 to |eligible|
      invariant RowsIndexed(balances, eligible[..i], rowsBySource)
      invariant issues == Chain(eligible[..i], RowIssues(id, balances))
    {
      ChainOneMore(eligible[..i], eligible[i], RowIssues(id, balances));
      var indexed, duplicates := IndexSource(balances, eligible[i]);
      rowsBySource := rowsBySource[eligible[i].source := indexed];
      issues := issues + NumberedIssues(id, eligible[i], duplicates);
      assert eligible[..i + 1] == eligible[..i] + [eligible[i]];
    }
    assert eligible[..|eligible|] == eligible;
  }

  method CorroborateIdentity(orders: Orders, inventory: seq<InventoryRow>, balances: Balances, id: Identity, rows: seq<InventoryRow>)
    returns (assertions: seq<Assertion>, issues: seq<CrossIssue>)
    requires Total(orders) && rows == RowsOf(inventory, id)
    ensures assertions == IdentityAssertions(orders, inventory, balances)(id)
    ensures issues == IdentityIssues(inventory, balances)(id)
  {
    var eligible;
    eligible, issues := EligibleIdentities(id, rows);
    var comparable := Sort(BySource(orders), eligible);
    if |eligible| < 2 {
      assert Pairs(comparable) == [];
      return [], issues;
    }
    EligibleDistinct(rows);
    forall i, j | 0 <= i < j < |eligible| ensures eligible[i].source != eligible[j].source {
      assert eligible[i] in eligible && eligible[j] in eligible;
    }
    var rowsBySource, duplicateIssues := IndexSources(id, balances, eligible);
    issues := issues + duplicateIssues;
    BySourceIsOrder(orders);
    MembersOfSort(BySource(orders), eligible);
    assertions := ComparePairs(orders, id, balances, comparable, rowsBySource);
  }

  ghost predicate Corroborated(orders: Orders, inventory: seq<InventoryRow>, balances: Balances, ids: seq<Identity>,
                               assertions: seq<Assertion>, issues: seq<CrossIssue>) {
    && assertions == Chain(ids, IdentityAssertions(orders, inventory, balances))
    && issues == Chain(ids, IdentityIssues(inventory, balances))
  }

  method CorroborateNext(orders: Orders, inventory: seq<InventoryRow>, balances: Balances, ghost before: seq<Identity>,
                         id: Identity, rows: seq<InventoryRow>, assertions: seq<Assertion>, issues: seq<CrossIssue>)
    returns (moreAssertions: seq<Assertion>, moreIssues: seq<CrossIssue>)
    requires Total(orders) && rows == RowsOf(inventory, id)
    requires Corroborated(orders, inventory, balances, before, assertions, issues)
    ensures Corroborated(orders, inventory, balances, before + [id], moreAssertions, moreIssues)
  {
    var newAssertions, newIssues := CorroborateIdentity(orders, inventory, balances, id, rows);
    ChainOneMore(before, id, IdentityAssertions(orders, inventory, balances));
    ChainOneMore(before, id, IdentityIssues(inventory, balances));
    return assertions + newAssertions, issues + newIssues;
  }

  ghost predicate RowsGrouped(inventory: seq<InventoryRow>, ids: seq<Identity>, groups: map<Identity, seq<InventoryRow>>) {
    forall id :: id in ids ==> id in groups && groups[id] == RowsOf(inventory, id)
  }

  method CorroborateAll(orders: Orders, inventory: seq<InventoryRow>, balances: Balances, ids: seq<Identity>,
                        groups: map<Identity, seq<InventoryRow>>)
    returns (assertions: seq<Assertion>, issues: seq<CrossIssue>)
    requires Total(orders) && RowsGrouped(inventory, ids, groups)
    ensures Corroborated(orders, inventory, balances, ids, assertions, issues)
  {
    assertions, issues := [], [];
    ghost var done: seq<Identity> := [];
    for i := 0 to |ids|
      invariant done == ids[..i]
      invariant Corroborated(orders, inventory, balances, done, assertions, issues)
    {
      assert ids[i] in ids;
      assertions, issues := CorroborateNext(orders, inventory, balances, done, ids[i], groups[ids[i]], assertions, issues);
      TakenOneMore(ids, i, done);
      done := done + [ids[i]];
    }
    TakenAll(ids, done);
  }

  method GroupIdentities(orders: Orders, inventory: seq<InventoryRow>)
    returns (ids: seq<Identity>, groups: map<Identity, seq<InventoryRow>>)
    requires Total(orders)
    ensures ids == IdentitiesIn(orders, inventory) && RowsGrouped(inventory, ids, groups)
  {
    var order;
    order, groups := GroupBy(Identified(inventory), IdentityOf);
    ids := Sort(orders.identities, order);
    MembersOfSort(orders.identities, order);
  }

  method BuildCrossSourceCorroboration(orders: Orders, inventory: seq<InventoryRow>, balances: Balances)
    returns (assertions: seq<Assertion>, issues: seq<CrossIssue>)
    requires Total(orders)
    ensures assertions == AllAssertions(orders, inventory, balances)
    ensures issues == AllIssues(orders, inventory, balances)
    ensures forall a :: a in assertions ==> StatusTells(a)
  {
    forall a | a in AllAssertions(orders, inventory, balances) ensures StatusTells(a) {
      AssertionsTell(orders, inventory, balances, a);
    }
    var ids, groups := GroupIdentities(orders, inventory);
    assertions, issues := CorroborateAll(orders, inventory, balances, ids, groups);
  }
}
