/** Multiset differences between two exports' rows. */
module RowDiffs {
  import opened Wrappers
  import opened Ordering

  /** A cell may be missing its value, which reads as blank. */
  type Row = map<string, Option<string>>

  type Signature = map<string, string>

  function SignatureOf(row: Row): Signature {
    map column | column in row :: if row[column].Some? then row[column].value else ""
  }

  /** Two rows have one signature exactly when they have the same columns with the same values,
      a missing value being blank. */
  lemma SignaturesExactly(a: Row, b: Row)
    ensures SignatureOf(a) == SignatureOf(b)
            <==> && a.Keys == b.Keys
                 && forall column :: column in a && column in b ==>
                      a[column] == b[column] || {a[column], b[column]} == {None, Some("")}
  {
    var x, y := SignatureOf(a), SignatureOf(b);
    assert x.Keys == a.Keys && y.Keys == b.Keys;
    if x == y {
      forall column | column in a && column in b ensures a[column] == b[column] || {a[column], b[column]} == {None, Some("")} {
        assert x[column] == y[column];
      }
    }
    if a.Keys == b.Keys && forall column :: column in a && column in b ==> a[column] == b[column] || {a[column], b[column]} == {None, Some("")} {
      forall column | column in x ensures x[column] == y[column] {
        if a[column] != b[column] {
          assert a[column] in {None, Some("")} && b[column] in {None, Some("")};
        }
      }
    }
  }

  function Signatures(rows: seq<Row>): (r: seq<Signature>)
    ensures |r| == |rows| && forall i :: 0 <= i < |r| ==> r[i] == SignatureOf(rows[i])
  {
    seq(|rows|, i requires 0 <= i < |rows| => SignatureOf(rows[i]))
  }

  type Counter = map<Signature, int>

  function CountIn(counts: Counter, s: Signature): int {
    if s in counts then counts[s] else 0
  }

  /** The counter holds exactly the multiset, and no zero or negative count. */
  ghost predicate Counts(counts: Counter, rows: multiset<Signature>) {
    && (forall s :: s in counts ==> counts[s] > 0)
    && (forall s :: CountIn(counts, s) == rows[s])
  }

  method RowCounter(rows: seq<Row>) returns (counts: Counter)
    ensures Counts(counts, multiset(Signatures(rows)))
  {
    counts := map[];
    for i := 0 to |rows|
      invariant Counts(counts, multiset(Signatures(rows[..i])))
    {
      var s := SignatureOf(rows[i]);
      assert Signatures(rows[..i + 1]) == Signatures(rows[..i]) + [s];
      counts := counts[s := CountIn(counts, s) + 1];
    }
    assert rows[..|rows|] == rows;
  }

  /** Subtracting in place may leave zero and negative counts; only positive ones are kept. */
  method SubtractCounters(current: Counter, previous: Counter) returns (delta: Counter)
    ensures forall s :: s in delta <==> CountIn(current, s) > CountIn(previous, s)
    ensures forall s :: s in delta ==> delta[s] == CountIn(current, s) - CountIn(previous, s)
  {
    var difference := current;
    var rest := previous.Keys;
    while rest != {}
      invariant rest <= previous.Keys
      invariant forall s :: s in difference <==> s in current || (s in previous && s !in rest)
      invariant forall s :: s in difference ==>
                  difference[s] == CountIn(current, s) - if s in rest then 0 else CountIn(previous, s)
      decreases rest
    {
      var s :| s in rest;
      difference := difference[s := CountIn(difference, s) - previous[s]];
      rest := rest - {s};
    }
    delta := map s | s in difference && difference[s] > 0 :: difference[s];
  }

  /** Counters subtract like the multisets they hold. */
  lemma SubtractionIsDifference(current: Counter, previous: Counter, delta: Counter, a: multiset<Signature>, b: multiset<Signature>)
    requires Counts(current, a) && Counts(previous, b)
    requires forall s :: s in delta <==> CountIn(current, s) > CountIn(previous, s)
    requires forall s :: s in delta ==> delta[s] == CountIn(current, s) - CountIn(previous, s)
    ensures Counts(delta, a - b)
  {
    forall s ensures CountIn(delta, s) == (a - b)[s] {
      assert CountIn(current, s) == a[s] && CountIn(previous, s) == b[s];
    }
  }

  function Copies(s: Signature, n: nat): (r: seq<Signature>)
    ensures |r| == n && (forall i :: 0 <= i < n ==> r[i] == s)
  {
    seq(n, i => s)
  }

  lemma {:induction false} CopiesCount(s: Signature, n: nat)
    ensures multiset(Copies(s, n)) == multiset{}[s := n]
  {
    if n > 0 {
      CopiesCount(s, n - 1);
      assert Copies(s, n) == Copies(s, n - 1) + [s];
    }
  }

  /** The rows counted so far: those of the listed signatures. */
  ghost predicate Expanded(leq: (Signature, Signature) -> bool, keys: seq<Signature>, counts: Counter, rows: seq<Signature>) {
    && Sorted(leq, rows)
    && (forall s :: s in rows ==> s in keys)
    && (forall s :: multiset(rows)[s] == if s in keys then CountIn(counts, s) else 0)
  }

  lemma ExpandedOneMore(leq: (Signature, Signature) -> bool, keys: seq<Signature>, counts: Counter, rows: seq<Signature>, s: Signature)
    requires TotalOrder(leq) && Expanded(leq, keys, counts, rows)
    requires CountIn(counts, s) >= 0 && s !in keys && forall k :: k in keys ==> leq(k, s)
    ensures Expanded(leq, keys + [s], counts, rows + Copies(s, CountIn(counts, s)))
  {
    var more := rows + Copies(s, CountIn(counts, s));
    CopiesCount(s, CountIn(counts, s));
    forall i, j | 0 <= i < j < |more| ensures leq(more[i], more[j]) {
      assert i < |rows| ==> rows[i] in rows;
      assert leq(s, s);
    }
    forall k ensures multiset(more)[k] == if k in keys + [s] then CountIn(counts, k) else 0 {
      assert k in keys + [s] <==> k in keys || k == s;
    }
  }

  /** Each signature as many times as it is counted, in ascending order. */
  method ExpandCounter(leq: (Signature, Signature) -> bool, counts: Counter) returns (rows: seq<Signature>)
    requires TotalOrder(leq) && forall s :: s in counts ==> counts[s] > 0
    ensures Sorted(leq, rows) && forall s :: multiset(rows)[s] == CountIn(counts, s)
  {
    var keys := SortedKeys(leq, counts.Keys);
    rows := [];
    for i := 0 to |keys|
      invariant Expanded(leq, keys[..i], counts, rows)
    {
      assert keys[i] in keys && keys[..i + 1] == keys[..i] + [keys[i]];
      ExpandedOneMore(leq, keys[..i], counts, rows, keys[i]);
      var before := rows;
      for n := 0 to counts[keys[i]]
        invariant rows == before + Copies(keys[i], n)
      {
        assert Copies(keys[i], n + 1) == Copies(keys[i], n) + [keys[i]];
        rows := rows + [keys[i]];
      }
    }
    assert keys[..|keys|] == keys;
  }

  /** The new and the resolved rows between two exports. */
  method RowDelta(leq: (Signature, Signature) -> bool, previous: seq<Row>, current: seq<Row>)
    returns (added: seq<Signature>, resolved: seq<Signature>)
    requires TotalOrder(leq)
    ensures Sorted(leq, added) && Sorted(leq, resolved)
    ensures multiset(added) == multiset(Signatures(current)) - multiset(Signatures(previous))
    ensures multiset(resolved) == multiset(Signatures(previous)) - multiset(Signatures(current))
  {
    var before := RowCounter(previous);
    var after := RowCounter(current);
    added := Difference(leq, after, before, multiset(Signatures(current)), multiset(Signatures(previous)));
    resolved := Difference(leq, before, after, multiset(Signatures(previous)), multiset(Signatures(current)));
  }

  method Difference(leq: (Signature, Signature) -> bool, from: Counter, taken: Counter,
                    ghost a: multiset<Signature>, ghost b: multiset<Signature>)
    returns (rows: seq<Signature>)
    requires TotalOrder(leq) && Counts(from, a) && Counts(taken, b)
    ensures Sorted(leq, rows) && multiset(rows) == a - b
  {
    var delta := SubtractCounters(from, taken);
    SubtractionIsDifference(from, taken, delta, a, b);
    rows := ExpandCounter(leq, delta);
  }

  /** Nothing is both new and resolved, and the difference reconstructs the current rows. */
  lemma DeltaReconstructs(previous: multiset<Signature>, current: multiset<Signature>, added: multiset<Signature>, resolved: multiset<Signature>)
    requires added == current - previous && resolved == previous - current
    ensures previous - resolved + added == current && current - added + resolved == previous && added !! resolved
  {
    forall s ensures (previous - resolved + added)[s] == current[s] && (current - added + resolved)[s] == previous[s] {}
  }

  /** Candidate rows against reference rows: what only one side has, and how many match. */
  method SourceDiff(leq: (Signature, Signature) -> bool, candidate: seq<Row>, reference: seq<Row>)
    returns (candidateOnly: seq<Signature>, referenceOnly: seq<Signature>, matched: nat)
    requires TotalOrder(leq)
    ensures Sorted(leq, candidateOnly) && Sorted(leq, referenceOnly)
    ensures var common := multiset(Signatures(candidate)) * multiset(Signatures(reference));
            && multiset(candidateOnly) + common == multiset(Signatures(candidate))
            && multiset(referenceOnly) + common == multiset(Signatures(reference))
            && matched == |common|
    ensures |candidateOnly| + matched == |candidate| && |referenceOnly| + matched == |reference|
  {
    var a, b := multiset(Signatures(candidate)), multiset(Signatures(reference));
    candidateOnly, referenceOnly := RowDelta(leq, reference, candidate);
    matched := |a * b|;
    assert multiset(candidateOnly) + a * b == a;
    assert multiset(referenceOnly) + a * b == b;
    assert |a| == |candidate| && |b| == |reference|;
  }
}
