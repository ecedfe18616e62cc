/** Declared differences, merged per source. */
module ExpectedDifferences {
  import opened ReplayParity

  function IssueSum(differences: seq<ExpectedDifference>, source: string): int {
    if differences == [] then 0
    else
      var last := differences[|differences| - 1];
      IssueSum(differences[..|differences| - 1], source) + if last.source == source then last.issues else 0
  }

  function ReviewSum(differences: seq<ExpectedDifference>, source: string): int {
    if differences == [] then 0
    else
      var last := differences[|differences| - 1];
      ReviewSum(differences[..|differences| - 1], source) + if last.source == source then last.reviews else 0
  }

  /** The reasons given for a source, in order. */
  function Reasons(differences: seq<ExpectedDifference>, source: string): string {
    if differences == [] then ""
    else
      var init, last := differences[..|differences| - 1], differences[|differences| - 1];
      if last.source != source then Reasons(init, source)
      else if Declares(init, source) then Reasons(init, source) + "; " + last.reason
      else last.reason
  }

  predicate Declares(differences: seq<ExpectedDifference>, source: string) {
    exists d | d in differences :: d.source == source
  }

  function Total(differences: seq<ExpectedDifference>, source: string): ExpectedDifference {
    ExpectedDifference(source, IssueSum(differences, source), ReviewSum(differences, source), Reasons(differences, source))
  }

  lemma DeclaresOneMore(init: seq<ExpectedDifference>, last: ExpectedDifference, source: string)
    ensures Declares(init + [last], source) <==> Declares(init, source) || last.source == source
  {
    assert last in init + [last];
    assert forall d :: d in init + [last] <==> d in init || d == last;
  }

  lemma DeclaresJoin(a: seq<ExpectedDifference>, b: seq<ExpectedDifference>, source: string)
    ensures Declares(a + b, source) <==> Declares(a, source) || Declares(b, source)
  {
    assert forall d :: d in a + b <==> d in a || d in b;
  }

  /** Declaring two lists one after the other adds up the deltas. */
  lemma {:induction false} SumsAdd(a: seq<ExpectedDifference>, b: seq<ExpectedDifference>, source: string)
    ensures IssueSum(a + b, source) == IssueSum(a, source) + IssueSum(b, source)
    ensures ReviewSum(a + b, source) == ReviewSum(a, source) + ReviewSum(b, source)
    decreases |b|
  {
    if b == [] {
      assert a + b == a;
    } else {
      var init, last := b[..|b| - 1], b[|b| - 1];
      assert b == init + [last] && (a + b)[..|a + b| - 1] == a + init;
      SumsAdd(a, init, source);
    }
  }

  /** Two reasons, each given or not, in order. */
  function Joined(first: bool, a: string, second: bool, b: string): string {
    if !first then b else if !second then a else a + "; " + b
  }

  lemma JoinedAssociates(x: bool, a: string, y: bool, b: string, z: bool, c: string)
    requires (!y ==> b == "") && (!z ==> c == "")
    ensures Joined(x, a, y || z, Joined(y, b, z, c)) == Joined(x || y, Joined(x, a, y, b), z, c)
  {
    if x && y && z {
      assert a + "; " + (b + "; " + c) == (a + "; " + b) + "; " + c;
    }
  }

  lemma ReasonsOneMore(init: seq<ExpectedDifference>, last: ExpectedDifference, source: string)
    ensures Reasons(init + [last], source)
         == Joined(Declares(init, source), Reasons(init, source), last.source == source, if last.source == source then last.reason else "")
  {
    assert (init + [last])[..|init|] == init;
    if !Declares(init, source) { NoReasons(init, source); }
  }

  /** And it joins the reasons. */
  lemma {:induction false} ReasonsJoin(a: seq<ExpectedDifference>, b: seq<ExpectedDifference>, source: string)
    ensures Reasons(a + b, source) == Joined(Declares(a, source), Reasons(a, source), Declares(b, source), Reasons(b, source))
    decreases |b|
  {
    if b == [] {
      assert a + b == a;
      if !Declares(a, source) { NoReasons(a, source); }
    } else {
      var init, last := b[..|b| - 1], b[|b| - 1];
      assert b == init + [last] && a + b == (a + init) + [last];
      ReasonsJoin(a, init, source);
      ReasonsOneMore(a + init, last, source);
      ReasonsOneMore(init, last, source);
      DeclaresJoin(a, init, source);
      DeclaresOneMore(init, last, source);
      if !Declares(init, source) { NoReasons(init, source); }
      JoinedAssociates(Declares(a, source), Reasons(a, source), Declares(init, source), Reasons(init, source),
                       last.source == source, if last.source == source then last.reason else "");
    }
  }

  lemma {:induction false} NoReasons(differences: seq<ExpectedDifference>, source: string)
    requires !Declares(differences, source)
    ensures Reasons(differences, source) == ""
  {
    if differences != [] {
      var init, last := differences[..|differences| - 1], differences[|differences| - 1];
      assert last in differences && forall d :: d in init ==> d in differences;
      NoReasons(init, source);
    }
  }

  lemma OneDeclared(d: ExpectedDifference)
    ensures Total([d], d.source) == d
  {
    assert [d][..0] == [];
    assert !Declares([], d.source);
    assert IssueSum([d][..0], d.source) == 0 && ReviewSum([d][..0], d.source) == 0;
  }

  ghost predicate Merged(differences: seq<ExpectedDifference>, merged: map<string, ExpectedDifference>) {
    && (forall source :: source in merged <==> Declares(differences, source))
    && (forall source :: source in merged ==> merged[source] == Total(differences, source))
  }

  function Combine(merged: map<string, ExpectedDifference>, d: ExpectedDifference): ExpectedDifference {
    if d.source !in merged then d
    else
      var existing := merged[d.source];
      ExpectedDifference(d.source, existing.issues + d.issues, existing.reviews + d.reviews, existing.reason + "; " + d.reason)
  }

  lemma {:induction false} NothingDeclared(differences: seq<ExpectedDifference>, source: string)
    requires !Declares(differences, source)
    ensures IssueSum(differences, source) == 0 && ReviewSum(differences, source) == 0
  {
    if differences != [] {
      var init, last := differences[..|differences| - 1], differences[|differences| - 1];
      assert last in differences;
      assert forall d :: d in init ==> d in differences;
      NothingDeclared(init, source);
    }
  }

  lemma TotalOneMore(differences: seq<ExpectedDifference>, merged: map<string, ExpectedDifference>, d: ExpectedDifference, source: string)
    requires Merged(differences, merged)
    ensures Declares(differences + [d], source) <==> Declares(differences, source) || d.source == source
    ensures d.source == source ==> Total(differences + [d], source) == Combine(merged, d)
    ensures d.source != source ==> Total(differences + [d], source) == Total(differences, source)
  {
    assert (differences + [d])[..|differences|] == differences;
    assert d in differences + [d];
    assert forall x :: x in differences + [d] <==> x in differences || x == d;
    if !Declares(differences, source) {
      NothingDeclared(differences, source);
    }
  }

  lemma MergedOneMore(differences: seq<ExpectedDifference>, merged: map<string, ExpectedDifference>, d: ExpectedDifference)
    requires Merged(differences, merged)
    ensures Merged(differences + [d], merged[d.source := Combine(merged, d)])
  {
    forall source
      ensures Declares(differences + [d], source) <==> Declares(differences, source) || d.source == source
      ensures d.source == source ==> Total(differences + [d], source) == Combine(merged, d)
      ensures d.source != source ==> Total(differences + [d], source) == Total(differences, source)
    {
      TotalOneMore(differences, merged, d, source);
    }
  }

  /** Each declared source gets the sums of its deltas. */
  method MergeDifferencesBySource(differences: seq<ExpectedDifference>) returns (merged: map<string, ExpectedDifference>)
    ensures Merged(differences, merged)
  {
    merged := map[];
    for i := 0 to |differences|
      invariant Merged(differences[..i], merged)
    {
      MergedOneMore(differences[..i], merged, differences[i]);
      assert differences[..i + 1] == differences[..i] + [differences[i]];
      merged := merged[differences[i].source := Combine(merged, differences[i])];
    }
    assert differences[..|differences|] == differences;
  }

  lemma {:induction false} SumsConcat(a: seq<ExpectedDifference>, b: seq<ExpectedDifference>, source: string)
    ensures IssueSum(a + b, source) == IssueSum(a, source) + IssueSum(b, source)
    ensures ReviewSum(a + b, source) == ReviewSum(a, source) + ReviewSum(b, source)
  {
    if b == [] {
      assert a + b == a;
    } else {
      assert (a + b)[..|a + b| - 1] == a + b[..|b| - 1];
      SumsConcat(a, b[..|b| - 1], source);
    }
  }

  lemma TakingOutSums(front: seq<ExpectedDifference>, d: ExpectedDifference, back: seq<ExpectedDifference>, source: string)
    ensures IssueSum((front + [d]) + back, source) == IssueSum(front + back, source) + if d.source == source then d.issues else 0
    ensures ReviewSum((front + [d]) + back, source) == ReviewSum(front + back, source) + if d.source == source then d.reviews else 0
  {
    SumsConcat(front + [d], back, source);
    SumsConcat(front, back, source);
    assert (front + [d])[..|front|] == front;
  }

  lemma {:induction false} SumsPermute(a: seq<ExpectedDifference>, b: seq<ExpectedDifference>, source: string)
    requires multiset(a) == multiset(b)
    ensures IssueSum(a, source) == IssueSum(b, source) && ReviewSum(a, source) == ReviewSum(b, source)
  {
    if a == [] {
      assert |multiset(b)| == 0;
    } else {
      var init, last := a[..|a| - 1], a[|a| - 1];
      assert a == init + [last];
      assert last in multiset(b);
      var k :| 0 <= k < |b| && b[k] == last;
      assert b == (b[..k] + [last]) + b[k + 1..];
      assert multiset(init) == multiset(a) - multiset{last};
      assert multiset(b[..k] + b[k + 1..]) == multiset(b) - multiset{last};
      SumsPermute(init, b[..k] + b[k + 1..], source);
      TakingOutSums(b[..k], last, b[k + 1..], source);
    }
  }

  /** The order of the declarations matters only for the wording of the reasons: the
      verdict of the comparison is the same. */
  lemma DeclarationOrderIsIrrelevant(a: seq<ExpectedDifference>, b: seq<ExpectedDifference>,
                                     mergedA: map<string, ExpectedDifference>, mergedB: map<string, ExpectedDifference>,
                                     reference: Workspace, candidate: Workspace)
    requires multiset(a) == multiset(b) && Merged(a, mergedA) && Merged(b, mergedB)
    ensures mergedA.Keys == mergedB.Keys
    ensures forall source :: ExpectedIssues(mergedA, source) == ExpectedIssues(mergedB, source)
                          && ExpectedReviews(mergedA, source) == ExpectedReviews(mergedB, source)
    ensures Mismatches(reference, candidate, mergedA) == Mismatches(reference, candidate, mergedB)
  {
    forall source ensures source in mergedA <==> source in mergedB {
      assert forall d :: d in a <==> d in multiset(a);
      assert forall d :: d in b <==> d in multiset(b);
    }
    forall source ensures ExpectedIssues(mergedA, source) == ExpectedIssues(mergedB, source)
                       && ExpectedReviews(mergedA, source) == ExpectedReviews(mergedB, source) {
      SumsPermute(a, b, source);
    }
    SameDeltasSameMismatches(mergedA, mergedB, reference, candidate);
  }

  lemma SameDeltasSameMismatches(a: map<string, ExpectedDifference>, b: map<string, ExpectedDifference>,
                                 reference: Workspace, candidate: Workspace)
    requires a.Keys == b.Keys
    requires forall source :: ExpectedIssues(a, source) == ExpectedIssues(b, source) && ExpectedReviews(a, source) == ExpectedReviews(b, source)
    ensures Mismatches(reference, candidate, a) == Mismatches(reference, candidate, b)
  {
    forall source ensures SourceStatus(reference, candidate, a)(source) == SourceStatus(reference, candidate, b)(source) {
    }
    assert BadSources(reference, candidate, a) == BadSources(reference, candidate, b);
  }
}
