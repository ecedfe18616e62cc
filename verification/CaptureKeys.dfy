/** Registry keys for captures: the source and manifest, numbered when they repeat. */
module CaptureKeys {
  import opened Sequences
  import opened Decimals

  function BaseKey(source: string, fingerprint: string): string {
    source + ":" + if fingerprint == "" then "<missing-manifest>" else fingerprint
  }

  /** Captures of one source share a base exactly when their manifests do, a missing one
      counting as its placeholder; those of one manifest exactly when their sources do. */
  lemma BasesExactly(source: string, other: string, a: string, b: string)
    ensures BaseKey(source, a) == BaseKey(source, b) <==> a == b || {a, b} == {"", "<missing-manifest>"}
    ensures BaseKey(source, a) == BaseKey(other, a) <==> source == other
  {
    var x, y := if a == "" then "<missing-manifest>" else a, if b == "" then "<missing-manifest>" else b;
    assert BaseKey(source, a)[|source| + 1..] == x && BaseKey(source, b)[|source| + 1..] == y;
    assert |BaseKey(source, a)| == |source| + 1 + |x| && |BaseKey(other, a)| == |other| + 1 + |x|;
    if |source| == |other| {
      assert BaseKey(source, a)[..|source|] == source && BaseKey(other, a)[..|source|] == other;
    }
  }

  function Suffixed(text: string, number: nat): string {
    text + "#" + Digits(number)
  }

  /** How often the base key at `i` has occurred, itself included. */
  function Occurrence(bases: seq<string>, i: nat): (n: nat)
    requires i < |bases|
    ensures n > 0
  {
    assert bases[..i + 1][i] in multiset(bases[..i + 1]);
    multiset(bases[..i + 1])[bases[i]]
  }

  function KeyAt(bases: seq<string>, i: nat): string
    requires i < |bases|
  {
    if Occurrence(bases, i) == 1 then bases[i] else Suffixed(bases[i], Occurrence(bases, i))
  }

  datatype Capture = Capture(source: string, fingerprint: string)

  function Bases(captures: seq<Capture>): (r: seq<string>)
    ensures |r| == |captures| && forall i :: 0 <= i < |r| ==> r[i] == BaseKey(captures[i].source, captures[i].fingerprint)
  {
    seq(|captures|, i requires 0 <= i < |captures| => BaseKey(captures[i].source, captures[i].fingerprint))
  }

  /** How often each base key occurs among those given. */
  ghost predicate Counted(bases: seq<string>, counts: map<string, nat>) {
    forall b :: multiset(bases)[b] == if b in counts then counts[b] else 0
  }

  function CountOneMore(counts: map<string, nat>, base: string): map<string, nat> {
    counts[base := (if base in counts then counts[base] else 0) + 1]
  }

  lemma CountedOneMore(bases: seq<string>, counts: map<string, nat>, base: string)
    requires Counted(bases, counts)
    ensures Counted(bases + [base], CountOneMore(counts, base))
  {
    assert multiset(bases + [base]) == multiset(bases) + multiset{base};
  }

  /** The count after a base key has been added is its occurrence there. */
  lemma CountIsOccurrence(bases: seq<string>, i: nat, counts: map<string, nat>)
    requires i < |bases| && Counted(bases[..i + 1], counts)
    ensures bases[i] in counts && counts[bases[i]] == Occurrence(bases, i)
  {
  }

  lemma KeyedOneMore(bases: seq<string>, keys: seq<string>, i: nat, count: nat)
    requires i < |bases| && keys == KeysOf(bases)[..i] && count == Occurrence(bases, i)
    ensures keys + [if count == 1 then bases[i] else Suffixed(bases[i], count)] == KeysOf(bases)[..i + 1]
  {
    assert KeysOf(bases)[i] == KeyAt(bases, i);
  }

  method CaptureRegistryKeys(captures: seq<Capture>) returns (keys: seq<string>)
    ensures keys == KeysOf(Bases(captures))
  {
    keys := [];
    ghost var bases := Bases(captures);
    ghost var done: seq<string> := [];
    var counts: map<string, nat> := map[];
    for i := 0 to |captures|
      invariant done == bases[..i] && Counted(done, counts)
      invariant keys == KeysOf(bases)[..i]
    {
      var base := BaseKey(captures[i].source, captures[i].fingerprint);
      CountedOneMore(done, counts, base);
      TakenOneMore(bases, i, done);
      done := done + [base];
      counts := CountOneMore(counts, base);
      CountIsOccurrence(bases, i, counts);
      KeyedOneMore(bases, keys, i, counts[base]);
      keys := keys + [if counts[base] == 1 then base else Suffixed(base, counts[base])];
    }
    TakenAll(KeysOf(bases), keys);
  }

  // ----- when keys are distinct -----

  lemma LastHash(text: string, number: nat)
    ensures var s := Suffixed(text, number); s[|text|] == '#' && forall k :: |text| < k < |s| ==> s[k] != '#'
  {}

  /** The number after the last `#` is unambiguous. */
  lemma SuffixUnique(a: string, m: nat, b: string, n: nat)
    requires Suffixed(a, m) == Suffixed(b, n)
    ensures a == b && m == n
  {
    var s := Suffixed(a, m);
    LastHash(a, m);
    LastHash(b, n);
    assert |a| == |b|;
    assert a == s[..|a|] && b == s[..|b|];
    assert Digits(m) == s[|a| + 1..] && Digits(n) == s[|b| + 1..];
    NumberOfDigits(m);
    NumberOfDigits(n);
  }

  lemma OccurrenceGrows(bases: seq<string>, i: nat, j: nat)
    requires i < j < |bases| && bases[i] == bases[j]
    ensures Occurrence(bases, i) < Occurrence(bases, j)
  {
    assert bases[..j + 1] == bases[..i + 1] + bases[i + 1..j + 1];
    assert bases[j] == bases[i + 1..j + 1][j - i - 1];
    assert bases[j] in multiset(bases[i + 1..j + 1]);
  }

  lemma {:induction false} FirstOccurrence(bases: seq<string>, j: nat) returns (k: nat)
    requires j < |bases|
    ensures k <= j && bases[k] == bases[j] && Occurrence(bases, k) == 1
  {
    if bases[j] in bases[..j] {
      var i :| 0 <= i < j && bases[i] == bases[j];
      k := FirstOccurrence(bases, i);
    } else {
      assert bases[..j + 1] == bases[..j] + [bases[j]];
      assert bases[j] !in multiset(bases[..j]);
      k := j;
    }
  }

  /** No base key already looks like the numbered key of a repeated one. */
  ghost predicate NoLookalike(bases: seq<string>) {
    forall i, j :: 0 <= i < |bases| && 0 <= j < |bases| && Occurrence(bases, i) > 1 ==> bases[j] != Suffixed(bases[i], Occurrence(bases, i))
  }

  function KeysOf(bases: seq<string>): (keys: seq<string>)
    ensures |keys| == |bases| && forall i :: 0 <= i < |keys| ==> keys[i] == KeyAt(bases, i)
  {
    seq(|bases|, i requires 0 <= i < |bases| => KeyAt(bases, i))
  }

  /** Capture keys are distinct exactly when no base key looks like a numbered one. */
  lemma DistinctExactly(bases: seq<string>)
    ensures NoRepeats(KeysOf(bases)) <==> NoLookalike(bases)
  {
    var keys := KeysOf(bases);
    if NoLookalike(bases) {
      forall i, j | 0 <= i < j < |keys| ensures keys[i] != keys[j] {
        KeysDiffer(bases, i, j);
      }
    } else {
      var i, j :| 0 <= i < |bases| && 0 <= j < |bases| && Occurrence(bases, i) > 1 && bases[j] == Suffixed(bases[i], Occurrence(bases, i));
      var k := FirstOccurrence(bases, j);
      assert keys[k] == keys[i] && k != i;
    }
  }

  lemma KeysDiffer(bases: seq<string>, i: nat, j: nat)
    requires NoLookalike(bases) && i < j < |bases|
    ensures KeyAt(bases, i) != KeyAt(bases, j)
  {
    var m, n := Occurrence(bases, i), Occurrence(bases, j);
    if bases[i] == bases[j] {
      OccurrenceGrows(bases, i, j);
    }
    if m > 1 && n > 1 && KeyAt(bases, i) == KeyAt(bases, j) {
      SuffixUnique(bases[i], m, bases[j], n);
    }
  }

  /** In particular when fingerprints and sources contain no `#`. */
  lemma PlainBasesDistinct(bases: seq<string>)
    requires forall i :: 0 <= i < |bases| ==> '#' !in bases[i]
    ensures NoRepeats(KeysOf(bases))
  {
    forall i, j | 0 <= i < |bases| && 0 <= j < |bases| ensures bases[j] != Suffixed(bases[i], Occurrence(bases, i)) {
      assert Suffixed(bases[i], Occurrence(bases, i))[|bases[i]|] == '#';
    }
    DistinctExactly(bases);
  }

  /** Two captures alike and one whose fingerprint already ends in their number collide. */
  lemma NumberedFingerprintCollides(source: string, fingerprint: string)
    requires fingerprint != ""
    ensures !NoRepeats(KeysOf(Bases([Capture(source, fingerprint), Capture(source, fingerprint),
                                     Capture(source, Suffixed(fingerprint, 2))])))
  {
    var bases := Bases([Capture(source, fingerprint), Capture(source, fingerprint), Capture(source, Suffixed(fingerprint, 2))]);
    var base := BaseKey(source, fingerprint);
    assert bases == [base, base, source + ":" + Suffixed(fingerprint, 2)];
    assert source + ":" + Suffixed(fingerprint, 2) == Suffixed(base, 2);
    assert bases[..2] == [base, base];
    assert Occurrence(bases, 1) == 2 && bases[2] == Suffixed(bases[1], Occurrence(bases, 1));
    DistinctExactly(bases);
  }
}
