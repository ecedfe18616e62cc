/** Deterministic merging of balance rows and records from several captures. */
module BalanceMerge {
  import opened Sequences
  import opened Ordering
  import opened Grouping

  // ----- rows -----

  type Row = map<string, string>

  /** The row's cells under the header; an absent column reads blank. */
  function RowTuple(header: seq<string>): Row -> seq<string> {
    (row: Row) => seq(|header|, i requires 0 <= i < |header| => if header[i] in row then row[header[i]] else "")
  }

  /** The rows carry exactly the header columns. */
  ghost predicate Exact(header: seq<string>, rows: seq<Row>) {
    forall row :: row in rows ==> row.Keys == set column | column in header
  }

  lemma TupleDeterminesRow(header: seq<string>, a: Row, b: Row)
    requires a.Keys == (set column | column in header) && b.Keys == (set column | column in header)
    requires RowTuple(header)(a) == RowTuple(header)(b)
    ensures a == b
  {
    forall column | column in a.Keys ensures a[column] == b[column] {
      var i :| 0 <= i < |header| && header[i] == column;
      assert RowTuple(header)(a)[i] == RowTuple(header)(b)[i];
    }
  }

  function ByKey<V, K>(leq: (K, K) -> bool, key: V -> K): (V, V) -> bool {
    (a: V, b: V) => leq(key(a), key(b))
  }

  function KeysOf<V, K>(items: seq<V>, key: V -> K): (r: seq<K>)
    ensures |r| == |items| && forall i :: 0 <= i < |r| ==> r[i] == key(items[i])
  {
    seq(|items|, i requires 0 <= i < |items| => key(items[i]))
  }

  /** The first item of each key, in order. */
  function FirstOfEach<V, K(==)>(items: seq<V>, key: V -> K): seq<V> {
    if items == [] then []
    else
      var before, last := FirstOfEach(items[..|items| - 1], key), items[|items| - 1];
      if key(last) in KeysOf(before, key) then before else before + [last]
  }

  function Deduped<V, K(==)>(leq: (K, K) -> bool, key: V -> K, rows: seq<V>): seq<V> {
    FirstOfEach(Sort(ByKey(leq, key), rows), key)
  }

  lemma FirstOfEachOneMore<V, K>(items: seq<V>, v: V, key: V -> K)
    ensures var before := FirstOfEach(items, key);
            FirstOfEach(items + [v], key) == if key(v) in KeysOf(before, key) then before else before + [v]
  {
    assert (items + [v])[..|items|] == items;
  }

  method DedupeRows<V, K(==,!new)>(leq: (K, K) -> bool, key: V -> K, rows: seq<V>) returns (merged: seq<V>)
    ensures merged == Deduped(leq, key, rows)
  {
    var sorted := Sort(ByKey(leq, key), rows);
    merged := KeepFirst(key, sorted);
  }

  method KeepFirst<V, K(==,!new)>(key: V -> K, rows: seq<V>) returns (merged: seq<V>)
    ensures merged == FirstOfEach(rows, key)
  {
    var seen: set<K> := {};
    merged := [];
    for i := 0 to |rows|
      invariant merged == FirstOfEach(rows[..i], key)
      invariant forall k :: k in seen <==> k in KeysOf(merged, key)
    {
      FirstOfEachOneMore(rows[..i], rows[i], key);
      assert rows[..i + 1] == rows[..i] + [rows[i]];
      if key(rows[i]) in seen {
        continue;
      }
      KeysOneMore(merged, rows[i], key);
      seen := seen + {key(rows[i])};
      merged := merged + [rows[i]];
    }
    assert rows[..|rows|] == rows;
  }

  lemma KeysOneMore<V, K>(items: seq<V>, v: V, key: V -> K)
    ensures KeysOf(items + [v], key) == KeysOf(items, key) + [key(v)]
  {}

  lemma KeyPresent<V, K>(items: seq<V>, key: V -> K, v: V)
    requires v in items
    ensures key(v) in KeysOf(items, key)
  {
    var i :| 0 <= i < |items| && items[i] == v;
    assert KeysOf(items, key)[i] == key(v);
  }

  /** Keeping the first of each key loses no key, invents no item and repeats no key. */
  lemma {:induction false} FirstOfEachExactly<V, K(!new)>(items: seq<V>, key: V -> K)
    ensures NoRepeats(KeysOf(FirstOfEach(items, key), key))
    ensures forall k :: k in KeysOf(FirstOfEach(items, key), key) <==> k in KeysOf(items, key)
    ensures forall v :: v in FirstOfEach(items, key) ==> v in items
  {
    if items != [] {
      var init, last := items[..|items| - 1], items[|items| - 1];
      assert items == init + [last];
      FirstOfEachExactly(init, key);
      KeysOneMore(init, last, key);
      KeysOneMore(FirstOfEach(init, key), last, key);
      NoRepeatsOneMore(KeysOf(FirstOfEach(init, key), key), key(last));
    }
  }

  /** Among sorted items, the keys kept stay sorted. */
  lemma {:induction false} KeptInOrder<V, K>(leq: (K, K) -> bool, items: seq<V>, key: V -> K)
    requires Sorted(ByKey(leq, key), items)
    ensures Sorted(ByKey(leq, key), FirstOfEach(items, key))
    ensures forall v :: v in FirstOfEach(items, key) ==> v in items
  {
    if items != [] {
      var init, last := items[..|items| - 1], items[|items| - 1];
      assert items == init + [last];
      KeptInOrder(leq, init, key);
      forall v | v in init ensures leq(key(v), key(last)) {
        var i :| 0 <= i < |init| && init[i] == v;
        assert ByKey(leq, key)(items[i], items[|items| - 1]);
      }
    }
  }

  lemma ByKeyIsOrder<V(!new), K(!new)>(leq: (K, K) -> bool, key: V -> K)
    requires TotalPreorder(leq)
    ensures TotalPreorder(ByKey(leq, key))
  {
    var order := ByKey(leq, key);
    assert forall a, b: V :: order(a, b) == leq(key(a), key(b));
  }

  /** The merged rows have strictly ascending keys, exactly those of the input, and come
      from the input. */
  lemma DedupedExactly<V(!new), K(!new)>(leq: (K, K) -> bool, key: V -> K, rows: seq<V>)
    requires TotalOrder(leq)
    ensures Ascending(leq, KeysOf(Deduped(leq, key, rows), key))
    ensures forall k :: k in KeysOf(Deduped(leq, key, rows), key) <==> k in KeysOf(rows, key)
    ensures forall v :: v in Deduped(leq, key, rows) ==> v in rows
  {
    var sorted := Sort(ByKey(leq, key), rows);
    ByKeyIsOrder(leq, key);
    SortSorts(ByKey(leq, key), rows);
    MembersOfSort(ByKey(leq, key), rows);
    KeptInOrder(leq, sorted, key);
    FirstOfEachExactly(sorted, key);
    AscendingKeys(leq, key, Deduped(leq, key, rows));
    forall k ensures k in KeysOf(sorted, key) <==> k in KeysOf(rows, key) {
      SameMembersSameKeys(sorted, rows, key, k);
    }
  }

  lemma AscendingKeys<V, K>(leq: (K, K) -> bool, key: V -> K, items: seq<V>)
    requires Sorted(ByKey(leq, key), items) && NoRepeats(KeysOf(items, key))
    ensures Ascending(leq, KeysOf(items, key))
  {
    var keys := KeysOf(items, key);
    forall i, j | 0 <= i < j < |keys| ensures leq(keys[i], keys[j]) && keys[i] != keys[j] {
      assert ByKey(leq, key)(items[i], items[j]);
    }
  }

  lemma SameMembersSameKeys<V, K>(a: seq<V>, b: seq<V>, key: V -> K, k: K)
    requires forall v :: v in a <==> v in b
    ensures k in KeysOf(a, key) <==> k in KeysOf(b, key)
  {
    if i :| 0 <= i < |a| && KeysOf(a, key)[i] == k {
      KeyPresent(b, key, a[i]);
    }
    if i :| 0 <= i < |b| && KeysOf(b, key)[i] == k {
      KeyPresent(a, key, b[i]);
    }
  }

  /** With rows carrying exactly the header, the merge is the ascending enumeration of the
      set of rows. */
  lemma MergeEnumeratesRows(leq: (seq<string>, seq<string>) -> bool, header: seq<string>, rows: seq<Row>)
    requires TotalOrder(leq) && Exact(header, rows)
    ensures Ascending(leq, KeysOf(Deduped(leq, RowTuple(header), rows), RowTuple(header)))
    ensures forall row :: row in Deduped(leq, RowTuple(header), rows) <==> row in rows
  {
    var key, merged := RowTuple(header), Deduped(leq, RowTuple(header), rows);
    DedupedExactly(leq, key, rows);
    forall row | row in rows ensures row in merged {
      KeyPresent(rows, key, row);
      var i :| 0 <= i < |merged| && KeysOf(merged, key)[i] == key(row);
      assert merged[i] in merged;
      TupleDeterminesRow(header, merged[i], row);
    }
  }

  /** So reordering or repeating the captures changes nothing. */
  lemma MergeIgnoresOrder(leq: (seq<string>, seq<string>) -> bool, header: seq<string>, a: seq<Row>, b: seq<Row>)
    requires TotalOrder(leq) && Exact(header, a) && Exact(header, b)
    requires forall row :: row in a <==> row in b
    ensures Deduped(leq, RowTuple(header), a) == Deduped(leq, RowTuple(header), b)
  {
    var key := RowTuple(header);
    var x, y := Deduped(leq, key, a), Deduped(leq, key, b);
    MergeEnumeratesRows(leq, header, a);
    MergeEnumeratesRows(leq, header, b);
    forall k ensures k in KeysOf(x, key) <==> k in KeysOf(y, key) {
      SameMembersSameKeys(x, y, key, k);
    }
    AscendingUnique(leq, KeysOf(x, key), KeysOf(y, key));
    forall i | 0 <= i < |x| ensures x[i] == y[i] {
      assert x[i] in x && y[i] in y;
      assert KeysOf(x, key)[i] == KeysOf(y, key)[i];
      TupleDeterminesRow(header, x[i], y[i]);
    }
  }

  // ----- conflicts -----

  datatype Conflict<K> = Conflict(index: nat, key: K)

  /** Two rows with this semantic key differ in quantity text. */
  predicate Conflicted<V(==), K(==)>(rows: seq<V>, semantic: V -> K, text: V -> string, k: K) {
    exists a, b | a in rows && b in rows :: semantic(a) == k && semantic(b) == k && text(a) != text(b)
  }

  /** The conflicts among the listed keys, numbered by their place in the list. */
  function Flagged<V(==), K(==)>(rows: seq<V>, semantic: V -> K, text: V -> string, keys: seq<K>): seq<Conflict<K>> {
    if keys == [] then []
    else
      Flagged(rows, semantic, text, keys[..|keys| - 1])
      + if Conflicted(rows, semantic, text, keys[|keys| - 1]) then [Conflict(|keys|, keys[|keys| - 1])] else []
  }

  function ConflictIssues<V(==), K(==)>(leq: (K, K) -> bool, rows: seq<V>, semantic: V -> K, text: V -> string): seq<Conflict<K>> {
    Flagged(rows, semantic, text, Sort(leq, FirstSeen(rows, semantic)))
  }

  lemma {:induction false} FlaggedExactly<V, K>(rows: seq<V>, semantic: V -> K, text: V -> string, keys: seq<K>, c: Conflict<K>)
    ensures c in Flagged(rows, semantic, text, keys)
            <==> 1 <= c.index <= |keys| && keys[c.index - 1] == c.key && Conflicted(rows, semantic, text, c.key)
  {
    if keys != [] {
      FlaggedExactly(rows, semantic, text, keys[..|keys| - 1], c);
    }
  }

  lemma ListedAscending<V(!new), K(!new)>(leq: (K, K) -> bool, rows: seq<V>, semantic: V -> K)
    requires TotalOrder(leq)
    ensures Ascending(leq, Sort(leq, FirstSeen(rows, semantic)))
    ensures forall v :: v in rows ==> semantic(v) in Sort(leq, FirstSeen(rows, semantic))
  {
    FirstSeenExactly(rows, semantic);
    SortAscends(leq, FirstSeen(rows, semantic));
  }

  /** A key is reported, under its rank among the semantic keys, exactly when two rows share
      it with different quantity text. */
  lemma ConflictsExactly<V(!new), K(!new)>(leq: (K, K) -> bool, rows: seq<V>, semantic: V -> K, text: V -> string, k: K)
    requires TotalOrder(leq)
    ensures (exists c :: c in ConflictIssues(leq, rows, semantic, text) && c.key == k) <==> Conflicted(rows, semantic, text, k)
    ensures forall c :: c in ConflictIssues(leq, rows, semantic, text) ==>
              var keys := Sort(leq, FirstSeen(rows, semantic)); 0 < c.index <= |keys| && keys[c.index - 1] == c.key
  {
    var keys := Sort(leq, FirstSeen(rows, semantic));
    ListedAscending(leq, rows, semantic);
    ReportedExactly(rows, semantic, text, keys, k);
  }

  lemma ReportedExactly<V(!new), K(!new)>(rows: seq<V>, semantic: V -> K, text: V -> string, keys: seq<K>, k: K)
    requires forall v :: v in rows ==> semantic(v) in keys
    ensures (exists c :: c in Flagged(rows, semantic, text, keys) && c.key == k) <==> Conflicted(rows, semantic, text, k)
    ensures forall c :: c in Flagged(rows, semantic, text, keys) ==> 0 < c.index <= |keys| && keys[c.index - 1] == c.key
  {
    if Conflicted(rows, semantic, text, k) {
      var i :| 0 <= i < |keys| && keys[i] == k;
      FlaggedExactly(rows, semantic, text, keys, Conflict(i + 1, k));
    }
    forall c | c in Flagged(rows, semantic, text, keys)
      ensures 0 < c.index <= |keys| && keys[c.index - 1] == c.key && Conflicted(rows, semantic, text, c.key)
    {
      FlaggedExactly(rows, semantic, text, keys, c);
    }
  }

  /** Each key is reported at most once. */
  lemma ConflictsOnce<V(!new), K(!new)>(leq: (K, K) -> bool, rows: seq<V>, semantic: V -> K, text: V -> string, c: Conflict<K>, d: Conflict<K>)
    requires TotalOrder(leq) && c.key == d.key
    requires c in ConflictIssues(leq, rows, semantic, text) && d in ConflictIssues(leq, rows, semantic, text)
    ensures c == d
  {
    var keys := Sort(leq, FirstSeen(rows, semantic));
    ListedAscending(leq, rows, semantic);
    FlaggedExactly(rows, semantic, text, keys, c);
    FlaggedExactly(rows, semantic, text, keys, d);
  }

  /** The texts recorded for each semantic key. */
  ghost predicate Recorded<V, K(!new)>(rows: seq<V>, semantic: V -> K, text: V -> string, values: map<K, set<string>>) {
    && (forall k :: k in values <==> k in KeysOf(rows, semantic))
    && (forall k, t :: k in values ==> (t in values[k] <==> exists v :: v in rows && semantic(v) == k && text(v) == t))
  }

  lemma RecordedOneMore<V, K(!new)>(rows: seq<V>, semantic: V -> K, text: V -> string, values: map<K, set<string>>, v: V)
    requires Recorded(rows, semantic, text, values)
    ensures var k := semantic(v);
            Recorded(rows + [v], semantic, text, values[k := (if k in values then values[k] else {}) + {text(v)}])
  {
    var k := semantic(v);
    var grown := values[k := (if k in values then values[k] else {}) + {text(v)}];
    KeysOneMore(rows, v, semantic);
    assert forall w :: w in rows + [v] <==> w in rows || w == v;
    forall j, t | j in grown ensures t in grown[j] <==> exists w :: w in rows + [v] && semantic(w) == j && text(w) == t {
      if j !in values {
        forall w | w in rows ensures semantic(w) != j {
          KeyPresent(rows, semantic, w);
        }
      }
      if w :| w in rows && semantic(w) == j && text(w) == t { assert w in rows + [v]; }
      assert v in rows + [v];
    }
  }

  lemma TwoTexts(values: set<string>)
    ensures |values| <= 1 <==> forall s, t :: s in values && t in values ==> s == t
  {
    if s :| s in values {
      assert values == {s} + (values - {s});
      if t :| t in values - {s} {
        assert |values - {s}| >= 1;
      } else {
        assert values - {s} == {};
      }
    }
  }

  method CollectConflicts<V, K(==,!new)>(rows: seq<V>, semantic: V -> K, text: V -> string) returns (values: map<K, set<string>>)
    ensures Recorded(rows, semantic, text, values)
  {
    values := map[];
    for i := 0 to |rows|
      invariant Recorded(rows[..i], semantic, text, values)
    {
      RecordedOneMore(rows[..i], semantic, text, values, rows[i]);
      assert rows[..i + 1] == rows[..i] + [rows[i]];
      var k := semantic(rows[i]);
      values := values[k := (if k in values then values[k] else {}) + {text(rows[i])}];
    }
    assert rows[..|rows|] == rows;
  }

  lemma ConflictedMeansTwo<V, K(!new)>(rows: seq<V>, semantic: V -> K, text: V -> string, values: map<K, set<string>>, k: K)
    requires Recorded(rows, semantic, text, values) && k in values
    ensures |values[k]| > 1 <==> Conflicted(rows, semantic, text, k)
  {
    TwoTexts(values[k]);
    if Conflicted(rows, semantic, text, k) {
      var a, b :| a in rows && b in rows && semantic(a) == k && semantic(b) == k && text(a) != text(b);
      assert text(a) in values[k] && text(b) in values[k];
    }
  }

  method FindConflicts<V(==), K(==,!new)>(leq: (K, K) -> bool, rows: seq<V>, semantic: V -> K, text: V -> string)
    returns (issues: seq<Conflict<K>>)
    requires TotalOrder(leq)
    ensures issues == ConflictIssues(leq, rows, semantic, text)
  {
    var values := CollectConflicts(rows, semantic, text);
    var keys := SortedKeys(leq, values.Keys);
    KeysListed(leq, rows, semantic, keys);
    issues := NumberConflicts(rows, semantic, text, values, keys);
  }

  method NumberConflicts<V(==), K(==,!new)>(ghost rows: seq<V>, ghost semantic: V -> K, ghost text: V -> string,
                                            values: map<K, set<string>>, keys: seq<K>)
    returns (issues: seq<Conflict<K>>)
    requires Recorded(rows, semantic, text, values) && forall k :: k in keys ==> k in values
    ensures issues == Flagged(rows, semantic, text, keys)
  {
    issues := [];
    ghost var done: seq<K> := [];
    for i := 0 to |keys|
      invariant done == keys[..i] && issues == Flagged(rows, semantic, text, done)
    {
      assert keys[i] in keys;
      FlaggedOneMore(rows, semantic, text, done, keys[i]);
      ConflictedMeansTwo(rows, semantic, text, values, keys[i]);
      TakenOneMore(keys, i, done);
      done := done + [keys[i]];
      if |values[keys[i]]| <= 1 {
        continue;
      }
      issues := issues + [Conflict(i + 1, keys[i])];
    }
    TakenAll(keys, done);
  }

  lemma FlaggedOneMore<V, K>(rows: seq<V>, semantic: V -> K, text: V -> string, keys: seq<K>, k: K)
    ensures Flagged(rows, semantic, text, keys + [k])
         == if Conflicted(rows, semantic, text, k) then Flagged(rows, semantic, text, keys) + [Conflict(|keys| + 1, k)]
            else Flagged(rows, semantic, text, keys)
  {
    assert (keys + [k])[..|keys|] == keys;
  }

  lemma KeysListed<V, K(!new)>(leq: (K, K) -> bool, rows: seq<V>, semantic: V -> K, keys: seq<K>)
    requires TotalOrder(leq) && Ascending(leq, keys) && forall k :: k in keys <==> k in KeysOf(rows, semantic)
    ensures keys == Sort(leq, FirstSeen(rows, semantic))
  {
    FirstSeenExactly(rows, semantic);
    SortAscends(leq, FirstSeen(rows, semantic));
    forall k ensures k in keys <==> k in FirstSeen(rows, semantic) {
      if v :| v in rows && semantic(v) == k {
        KeyPresent(rows, semantic, v);
      }
      if i :| 0 <= i < |rows| && KeysOf(rows, semantic)[i] == k {
        assert rows[i] in rows;
      }
    }
    AscendingUnique(leq, keys, Sort(leq, FirstSeen(rows, semantic)));
  }

  /** The merge of rows and the conflicts it reports are the same for the same set of rows. */
  lemma SameRowsSameOutcome<K(!new)>(leq: (seq<string>, seq<string>) -> bool, header: seq<string>, a: seq<Row>, b: seq<Row>,
                                     semanticLeq: (K, K) -> bool, semantic: Row -> K, text: Row -> string)
    requires TotalOrder(leq) && Exact(header, a) && Exact(header, b)
    requires forall row :: row in a <==> row in b
    ensures var x, y := Deduped(leq, RowTuple(header), a), Deduped(leq, RowTuple(header), b);
            x == y && ConflictIssues(semanticLeq, x, semantic, text) == ConflictIssues(semanticLeq, y, semantic, text)
    ensures forall k :: Conflicted(Deduped(leq, RowTuple(header), a), semantic, text, k) <==> Conflicted(a, semantic, text, k)
  {
    MergeIgnoresOrder(leq, header, a, b);
    MergeEnumeratesRows(leq, header, a);
    forall k ensures Conflicted(Deduped(leq, RowTuple(header), a), semantic, text, k) <==> Conflicted(a, semantic, text, k) {
      ConflictedByMembers(Deduped(leq, RowTuple(header), a), a, semantic, text, k);
    }
  }

  lemma ConflictedByMembers<V, K>(a: seq<V>, b: seq<V>, semantic: V -> K, text: V -> string, k: K)
    requires forall v :: v in a <==> v in b
    ensures Conflicted(a, semantic, text, k) <==> Conflicted(b, semantic, text, k)
  {}

  // ----- records -----

  /** The last item of each key. */
  function AsMap<V, K(==)>(items: seq<V>, key: V -> K): map<K, V> {
    if items == [] then map[] else AsMap(items[..|items| - 1], key)[key(items[|items| - 1]) := items[|items| - 1]]
  }

  /** The items of a map in key order. */
  ghost predicate InKeyOrder<V(!new), K(!new)>(leq: (K, K) -> bool, key: V -> K, m: map<K, V>, merged: seq<V>) {
    && Ascending(leq, KeysOf(merged, key))
    && (forall v :: v in merged ==> key(v) in m && m[key(v)] == v)
    && (forall k :: k in m ==> k in KeysOf(merged, key))
  }

  lemma {:induction false} MapKeys<V, K(!new)>(items: seq<V>, key: V -> K)
    ensures forall k :: k in AsMap(items, key) ==> key(AsMap(items, key)[k]) == k
  {
    if items != [] { MapKeys(items[..|items| - 1], key); }
  }

  /** Existing records overridden by submitted ones, in key order. */
  method MergeRecords<V(!new), K(==,!new)>(leq: (K, K) -> bool, key: V -> K, existing: seq<V>, submitted: seq<V>)
    returns (merged: seq<V>)
    requires TotalOrder(leq)
    ensures InKeyOrder(leq, key, AsMap(existing, key) + AsMap(submitted, key), merged)
  {
    var m := AsMap(existing + submitted, key);
    MapConcat(existing, submitted, key);
    MapKeys(existing + submitted, key);
    var keys := SortedKeys(leq, m.Keys);
    merged := seq(|keys|, i requires 0 <= i < |keys| && keys[i] in m => m[keys[i]]);
    assert KeysOf(merged, key) == keys;
  }

  lemma {:induction false} MapConcat<V, K>(a: seq<V>, b: seq<V>, key: V -> K)
    ensures AsMap(a + b, key) == AsMap(a, key) + AsMap(b, key)
  {
    if b == [] {
      assert a + b == a;
    } else {
      assert (a + b)[..|a + b| - 1] == a + b[..|b| - 1];
      MapConcat(a, b[..|b| - 1], key);
    }
  }

  /** Only one listing of a map exists. */
  lemma ListingUnique<V(!new), K(!new)>(leq: (K, K) -> bool, key: V -> K, m: map<K, V>, a: seq<V>, b: seq<V>)
    requires TotalOrder(leq) && InKeyOrder(leq, key, m, a) && InKeyOrder(leq, key, m, b)
    ensures a == b
  {
    forall k ensures k in KeysOf(a, key) <==> k in KeysOf(b, key) {
      KeyInMap(leq, key, m, a, k);
      KeyInMap(leq, key, m, b, k);
    }
    AscendingUnique(leq, KeysOf(a, key), KeysOf(b, key));
    forall i | 0 <= i < |a| ensures a[i] == b[i] {
      assert KeysOf(a, key)[i] == KeysOf(b, key)[i];
      assert a[i] in a && b[i] in b;
    }
  }

  lemma KeyInMap<V(!new), K(!new)>(leq: (K, K) -> bool, key: V -> K, m: map<K, V>, a: seq<V>, k: K)
    requires InKeyOrder(leq, key, m, a)
    ensures k in KeysOf(a, key) <==> k in m
  {
    if i :| 0 <= i < |a| && KeysOf(a, key)[i] == k {
      assert a[i] in a;
    }
  }

  /** Reading a listing back gives the map it lists. */
  lemma ListingReadsBack<V(!new), K(!new)>(leq: (K, K) -> bool, key: V -> K, m: map<K, V>, a: seq<V>)
    requires InKeyOrder(leq, key, m, a)
    ensures AsMap(a, key) == m
  {
    forall k ensures k in AsMap(a, key) <==> k in m {
      KeyInMap(leq, key, m, a, k);
      MapHasKeys(a, key, k);
    }
    forall k | k in m ensures AsMap(a, key)[k] == m[k] {
      MapMembers(a, key, k);
      MapKeys(a, key);
    }
  }

  lemma {:induction false} MapHasKeys<V, K>(items: seq<V>, key: V -> K, k: K)
    ensures k in AsMap(items, key) <==> k in KeysOf(items, key)
  {
    if items != [] {
      var init, last := items[..|items| - 1], items[|items| - 1];
      assert items == init + [last];
      MapHasKeys(init, key, k);
      KeysOneMore(init, last, key);
    }
  }

  lemma {:induction false} MapMembers<V, K>(items: seq<V>, key: V -> K, k: K)
    requires k in AsMap(items, key)
    ensures AsMap(items, key)[k] in items
  {
    var init, last := items[..|items| - 1], items[|items| - 1];
    assert items == init + [last];
    if k != key(last) { MapMembers(init, key, k); }
  }

  lemma UnionAssociates<K, V>(a: map<K, V>, b: map<K, V>, c: map<K, V>)
    ensures (a + b) + c == a + (b + c)
  {}

  lemma UnionAbsorbs<K, V>(a: map<K, V>, b: map<K, V>)
    ensures (a + b) + b == a + b && (a + b) + map[] == a + b
  {}

  /** Merging is associative: both groupings list the same map. */
  lemma MergeAssociates<V(!new), K(!new)>(leq: (K, K) -> bool, key: V -> K, a: seq<V>, b: seq<V>, c: seq<V>,
                                          ab: seq<V>, bc: seq<V>, left: seq<V>, right: seq<V>)
    requires TotalOrder(leq)
    requires InKeyOrder(leq, key, AsMap(a, key) + AsMap(b, key), ab) && InKeyOrder(leq, key, AsMap(b, key) + AsMap(c, key), bc)
    requires InKeyOrder(leq, key, AsMap(ab, key) + AsMap(c, key), left) && InKeyOrder(leq, key, AsMap(a, key) + AsMap(bc, key), right)
    ensures left == right
  {
    ListingReadsBack(leq, key, AsMap(a, key) + AsMap(b, key), ab);
    ListingReadsBack(leq, key, AsMap(b, key) + AsMap(c, key), bc);
    UnionAssociates(AsMap(a, key), AsMap(b, key), AsMap(c, key));
    ListingUnique(leq, key, AsMap(ab, key) + AsMap(c, key), left, right);
  }

  /** Merging is idempotent: submitting the same records again, or nothing, changes nothing. */
  lemma MergeIsIdempotent<V(!new), K(!new)>(leq: (K, K) -> bool, key: V -> K, a: seq<V>, b: seq<V>, once: seq<V>, twice: seq<V>, again: seq<V>)
    requires TotalOrder(leq)
    requires InKeyOrder(leq, key, AsMap(a, key) + AsMap(b, key), once)
    requires InKeyOrder(leq, key, AsMap(once, key) + AsMap(b, key), twice)
    requires InKeyOrder(leq, key, AsMap(once, key) + map[], again)
    ensures once == twice == again
  {
    ListingReadsBack(leq, key, AsMap(a, key) + AsMap(b, key), once);
    UnionAbsorbs(AsMap(a, key), AsMap(b, key));
    ListingUnique(leq, key, AsMap(once, key), once, twice);
    ListingUnique(leq, key, AsMap(once, key), once, again);
  }
}
