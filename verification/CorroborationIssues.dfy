/** What corroboration reports of every source: its issues, exactly, and all of its balances. */
module CorroborationIssues {
  import opened Grouping
  import opened BalanceModels
  import opened JoinRows
  import opened Corroboration

  // ----- the issues of one identity -----

  function RowIssuesOf(rows: seq<InventoryRow>, id: Identity, balances: Balances): seq<CrossIssue> {
    if |Eligible(rows)| < 2 then [] else Chain(Eligible(rows), RowIssues(id, balances))
  }

  function RefusalsOf(rows: seq<InventoryRow>, id: Identity): seq<CrossIssue> {
    Chain(FirstSeen(rows, SourceOf), Refusal(id, rows))
  }

  lemma IssuesOfIdentity(inventory: seq<InventoryRow>, balances: Balances, id: Identity)
    ensures IdentityIssues(inventory, balances)(id)
         == RefusalsOf(RowsOf(inventory, id), id) + RowIssuesOf(RowsOf(inventory, id), id, balances)
  {}

  /** The row is its source's for the identity, and some other source takes part too. */
  ghost predicate Compared(inventory: seq<InventoryRow>, id: Identity, row: InventoryRow) {
    OnlyTrusted(inventory, id, row) && |Eligible(RowsOf(inventory, id))| >= 2
  }

  ghost predicate HasDuplicate(snapshots: seq<BalanceSnapshot>, number: nat) {
    exists key :: (key, number) in Duplicates(snapshots)
  }

  lemma RowIssueMembers(id: Identity, balances: Balances, row: InventoryRow, issue: CrossIssue)
    ensures issue in RowIssues(id, balances)(row)
            <==> && issue.AmbiguousRow? && issue.source == row.source && issue.identity == id
                 && HasDuplicate(BalancesAt(balances, row), issue.number)
  {
    var duplicates := Duplicates(BalancesAt(balances, row));
    var issues := RowIssues(id, balances)(row);
    if issue in issues {
      var i :| 0 <= i < |duplicates| && issues[i] == issue;
      assert (duplicates[i].0, issue.number) == duplicates[i];
      assert duplicates[i] in duplicates;
    }
    if issue.AmbiguousRow? && issue.source == row.source && issue.identity == id && HasDuplicate(BalancesAt(balances, row), issue.number) {
      var key :| (key, issue.number) in duplicates;
      var i :| 0 <= i < |duplicates| && duplicates[i] == (key, issue.number);
      assert issues[i] == issue;
    }
  }

  /** Why a source is refused, when it is. */
  predicate Refused(rows: seq<InventoryRow>, issue: CrossIssue) {
    match issue
    case LowConfidence(source, _) => Trusted(rows, source) == []
    case AmbiguousIdentity(source, _) => |Trusted(rows, source)| > 1
    case AmbiguousRow(_, _, _) => false
  }

  lemma RefusalOf(rows: seq<InventoryRow>, id: Identity, source: string, issue: CrossIssue)
    ensures issue in Refusal(id, rows)(source) <==> issue.identity == id && issue.source == source && Refused(rows, issue)
  {}

  lemma RefusalMembers(rows: seq<InventoryRow>, id: Identity, issue: CrossIssue)
    ensures issue in RefusalsOf(rows, id)
            <==> issue.identity == id && Refused(rows, issue) && exists row :: row in rows && row.source == issue.source
  {
    var sources := FirstSeen(rows, SourceOf);
    ChainMembers(sources, Refusal(id, rows), issue);
    FirstSeenExactly(rows, SourceOf);
    assert issue.source in sources <==> exists row :: row in rows && SourceOf(row) == issue.source;
    forall source ensures issue in Refusal(id, rows)(source) <==> issue.identity == id && issue.source == source && Refused(rows, issue) {
      RefusalOf(rows, id, source, issue);
    }
  }

  lemma ComparedRowMembers(inventory: seq<InventoryRow>, balances: Balances, id: Identity, issue: CrossIssue)
    ensures issue in RowIssuesOf(RowsOf(inventory, id), id, balances)
            <==> && issue.AmbiguousRow? && issue.identity == id
                 && exists row :: Compared(inventory, id, row) && row.source == issue.source
                                  && HasDuplicate(BalancesAt(balances, row), issue.number)
  {
    var rows := RowsOf(inventory, id);
    if |Eligible(rows)| >= 2 {
      ChainMembers(Eligible(rows), RowIssues(id, balances), issue);
      if row :| row in Eligible(rows) && issue in RowIssues(id, balances)(row) {
        EligibleExactly(rows, row);
        RowIssueMembers(id, balances, row, issue);
        assert Compared(inventory, id, row);
      }
      if row :| issue.AmbiguousRow? && issue.identity == id && Compared(inventory, id, row) && row.source == issue.source
                && HasDuplicate(BalancesAt(balances, row), issue.number) {
        EligibleExactly(rows, row);
        RowIssueMembers(id, balances, row, issue);
      }
    }
  }

  // ----- all issues -----

  /** What an issue says of the inventory and the balances. */
  ghost predicate Reports(inventory: seq<InventoryRow>, balances: Balances, issue: CrossIssue) {
    var rows := RowsOf(inventory, issue.identity);
    match issue
    case LowConfidence(source, _) => Trusted(rows, source) == [] && exists row :: row in rows && row.source == source
    case AmbiguousIdentity(source, _) => |Trusted(rows, source)| > 1
    case AmbiguousRow(source, id, number) =>
      exists row :: Compared(inventory, id, row) && row.source == source && HasDuplicate(BalancesAt(balances, row), number)
  }

  lemma IdentityIssueMembers(inventory: seq<InventoryRow>, balances: Balances, id: Identity, issue: CrossIssue)
    ensures issue in IdentityIssues(inventory, balances)(id) <==> issue.identity == id && Reports(inventory, balances, issue)
  {
    var rows := RowsOf(inventory, id);
    IssuesOfIdentity(inventory, balances, id);
    RefusalMembers(rows, id, issue);
    ComparedRowMembers(inventory, balances, id, issue);
    if issue.AmbiguousIdentity? && |Trusted(rows, issue.source)| > 1 {
      TrustedRows(rows, issue.source, Trusted(rows, issue.source)[0]);
    }
  }

  lemma ReportedIsListed(orders: Orders, inventory: seq<InventoryRow>, balances: Balances, issue: CrossIssue)
    requires Total(orders) && Reports(inventory, balances, issue)
    ensures issue.identity in IdentitiesIn(orders, inventory)
  {
    var rows := RowsOf(inventory, issue.identity);
    var row: InventoryRow;
    match issue {
      case LowConfidence(source, _) =>
        row :| row in rows && row.source == source;
      case AmbiguousIdentity(source, _) =>
        row := Trusted(rows, source)[0];
        TrustedRows(rows, source, row);
      case AmbiguousRow(source, id, number) =>
        row :| Compared(inventory, id, row) && row.source == source && HasDuplicate(BalancesAt(balances, row), number);
        TrustedRows(rows, source, row);
    }
    HavingMembers(Identified(inventory), IdentityOf, issue.identity, row);
    IdentitiesListed(orders, inventory);
  }

  /** The issues are exactly these: a source of an identity without a trusted row, one with
      several, and a numbered repetition of a key in a compared source. */
  lemma IssuesExactly(orders: Orders, inventory: seq<InventoryRow>, balances: Balances, issue: CrossIssue)
    requires Total(orders)
    ensures issue in AllIssues(orders, inventory, balances) <==> Reports(inventory, balances, issue)
  {
    var ids, piece := IdentitiesIn(orders, inventory), IdentityIssues(inventory, balances);
    ChainMembers(ids, piece, issue);
    if id :| id in ids && issue in piece(id) {
      IdentityIssueMembers(inventory, balances, id, issue);
    }
    if Reports(inventory, balances, issue) {
      ReportedIsListed(orders, inventory, balances, issue);
      IdentityIssueMembers(inventory, balances, issue.identity, issue);
    }
  }

  // ----- what is reported of one source -----

  function RepeatsIn(id: Identity, source: string): CrossIssue -> bool {
    (issue: CrossIssue) => issue.AmbiguousRow? && issue.identity == id && issue.source == source
  }

  /** The repetitions reported of a compared source are those of its balances, in order. */
  lemma RepeatsReported(orders: Orders, inventory: seq<InventoryRow>, balances: Balances, id: Identity, row: InventoryRow)
    requires Total(orders) && OnlyTrusted(inventory, id, row)
    ensures Filter(AllIssues(orders, inventory, balances), RepeatsIn(id, row.source))
         == if Compared(inventory, id, row) then NumberedIssues(id, row, Duplicates(BalancesAt(balances, row))) else []
  {
    var ids, piece, keep := IdentitiesIn(orders, inventory), IdentityIssues(inventory, balances), RepeatsIn(id, row.source);
    IdentitiesListed(orders, inventory);
    TrustedRows(RowsOf(inventory, id), row.source, row);
    HavingMembers(Identified(inventory), IdentityOf, id, row);
    forall other, issue | other in ids && other != id && issue in piece(other) ensures !keep(issue) {
      IdentityIssueMembers(inventory, balances, other, issue);
    }
    FilterOfOnePiece(ids, piece, keep, id);
    RepeatsOfIdentity(inventory, balances, id, row);
  }

  lemma RepeatsOfIdentity(inventory: seq<InventoryRow>, balances: Balances, id: Identity, row: InventoryRow)
    requires OnlyTrusted(inventory, id, row)
    ensures Filter(IdentityIssues(inventory, balances)(id), RepeatsIn(id, row.source))
         == if Compared(inventory, id, row) then NumberedIssues(id, row, Duplicates(BalancesAt(balances, row))) else []
  {
    var rows, keep := RowsOf(inventory, id), RepeatsIn(id, row.source);
    IssuesOfIdentity(inventory, balances, id);
    FilterConcat(RefusalsOf(rows, id), RowIssuesOf(rows, id, balances), keep);
    forall issue | issue in RefusalsOf(rows, id) ensures !keep(issue) {
      RefusalMembers(rows, id, issue);
    }
    FilterNone(RefusalsOf(rows, id), keep);
    if Compared(inventory, id, row) {
      RepeatsOfRow(rows, balances, id, row);
    }
  }

  lemma RepeatsOfRow(rows: seq<InventoryRow>, balances: Balances, id: Identity, row: InventoryRow)
    requires Trusted(rows, row.source) == [row]
    ensures Filter(Chain(Eligible(rows), RowIssues(id, balances)), RepeatsIn(id, row.source))
         == NumberedIssues(id, row, Duplicates(BalancesAt(balances, row)))
  {
    var keep, piece := RepeatsIn(id, row.source), RowIssues(id, balances);
    EligibleDistinct(rows);
    EligibleExactly(rows, row);
    forall other, issue | other in Eligible(rows) && other != row && issue in piece(other) ensures !keep(issue) {
      RowIssueMembers(id, balances, other, issue);
    }
    FilterOfOnePiece(Eligible(rows), piece, keep, row);
    forall issue | issue in piece(row) ensures keep(issue) {
      RowIssueMembers(id, balances, row, issue);
    }
    FilterAll(piece(row), keep);
  }

  // ----- every balance is accounted for -----

  function Between(id: Identity, left: InventoryRow, right: InventoryRow): Assertion -> bool {
    (a: Assertion) => a.identity == id && a.leftSource == left.source && a.rightSource == right.source
  }

  /** The assertions of a compared pair are those that name it. */
  lemma AssertionsOfPair(orders: Orders, inventory: seq<InventoryRow>, balances: Balances, id: Identity, left: InventoryRow, right: InventoryRow)
    requires Total(orders) && (left, right) in ComparedPairs(orders, RowsOf(inventory, id))
    ensures Filter(AllAssertions(orders, inventory, balances), Between(id, left, right))
         == PairAssertions(orders, id, balances)((left, right))
  {
    var ids, piece, keep := IdentitiesIn(orders, inventory), IdentityAssertions(orders, inventory, balances), Between(id, left, right);
    IdentitiesListed(orders, inventory);
    PairIsListed(orders, inventory, id, left, right);
    forall other, a | other in ids && other != id && a in piece(other) ensures !keep(a) {
      IdentityMembers(orders, inventory, balances, other, a);
    }
    FilterOfOnePiece(ids, piece, keep, id);
    AssertionsOfPairIn(orders, RowsOf(inventory, id), balances, id, left, right);
  }

  lemma PairIsListed(orders: Orders, inventory: seq<InventoryRow>, id: Identity, left: InventoryRow, right: InventoryRow)
    requires Total(orders) && (left, right) in ComparedPairs(orders, RowsOf(inventory, id))
    ensures id in IdentitiesIn(orders, inventory)
    ensures Compared(inventory, id, left) && Compared(inventory, id, right)
  {
    var rows := RowsOf(inventory, id);
    PairsExactly(orders, rows, left, right);
    EligibleExactly(rows, left);
    EligibleExactly(rows, right);
    TrustedRows(rows, left.source, left);
    HavingMembers(Identified(inventory), IdentityOf, id, left);
    IdentitiesListed(orders, inventory);
    var i :| 0 <= i < |Eligible(rows)| && Eligible(rows)[i] == left;
    var j :| 0 <= j < |Eligible(rows)| && Eligible(rows)[j] == right;
    assert i != j;
  }

  lemma AssertionsOfPairIn(orders: Orders, rows: seq<InventoryRow>, balances: Balances, id: Identity, left: InventoryRow, right: InventoryRow)
    requires Total(orders) && (left, right) in ComparedPairs(orders, rows)
    ensures Filter(Chain(ComparedPairs(orders, rows), PairAssertions(orders, id, balances)), Between(id, left, right))
         == PairAssertions(orders, id, balances)((left, right))
  {
    var pairs, piece, keep := ComparedPairs(orders, rows), PairAssertions(orders, id, balances), Between(id, left, right);
    AnyPairNoRepeats(orders, rows);
    EligibleDistinct(rows);
    PairsExactly(orders, rows, left, right);
    forall pair, a | pair in pairs && pair != (left, right) && a in piece(pair) ensures !keep(a) {
      PairsExactly(orders, rows, pair.0, pair.1);
      PairMembers(orders, id, balances, pair.0, pair.1, a);
    }
    FilterOfOnePiece(pairs, piece, keep, (left, right));
    forall a | a in piece((left, right)) ensures keep(a) {
      PairMembers(orders, id, balances, left, right, a);
    }
    FilterAll(piece((left, right)), keep);
  }

  /** In what a run emits, each balance of either side of a compared pair appears once: in a
      matched, drifted or missing-on-the-other-side assertion of the pair, or as a repetition
      reported of its source. */
  lemma BalancesAccounted(orders: Orders, inventory: seq<InventoryRow>, balances: Balances, id: Identity, left: InventoryRow, right: InventoryRow)
    requires Total(orders) && (left, right) in ComparedPairs(orders, RowsOf(inventory, id))
    ensures var emitted, issues := Filter(AllAssertions(orders, inventory, balances), Between(id, left, right)), AllIssues(orders, inventory, balances);
            && CountStatus(emitted, Matched) + CountStatus(emitted, Drift) + CountStatus(emitted, MissingRight)
               + |Filter(issues, RepeatsIn(id, left.source))| == |BalancesAt(balances, left)|
            && CountStatus(emitted, Matched) + CountStatus(emitted, Drift) + CountStatus(emitted, MissingLeft)
               + |Filter(issues, RepeatsIn(id, right.source))| == |BalancesAt(balances, right)|
  {
    AssertionsOfPair(orders, inventory, balances, id, left, right);
    PairIsListed(orders, inventory, id, left, right);
    RepeatsReported(orders, inventory, balances, id, left);
    RepeatsReported(orders, inventory, balances, id, right);
    PairConserves(orders, id, balances, left, right);
  }
}
