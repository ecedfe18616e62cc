/** Sequences without repeats. */
module Sequences {

  ghost predicate NoRepeats<T>(s: seq<T>) {
    forall i, j :: 0 <= i < j < |s| ==> s[i] != s[j]
  }

  lemma NoRepeatsOneMore<T>(s: seq<T>, x: T)
    ensures NoRepeats(s + [x]) <==> NoRepeats(s) && x !in s
  {
    assert [x][0] == x;
    if NoRepeats(s + [x]) {
      NoRepeatsParts(s, [x]);
      assert x in [x];
    } else if NoRepeats(s) && x !in s {
      NoRepeatsConcat(s, [x]);
    }
  }

  lemma NoRepeatsConcat<T>(a: seq<T>, b: seq<T>)
    requires NoRepeats(a) && NoRepeats(b) && forall x :: x in a ==> x !in b
    ensures NoRepeats(a + b)
  {
    forall i, j | 0 <= i < j < |a + b| ensures (a + b)[i] != (a + b)[j] {
      if i < |a| <= j {
        assert a[i] in a && b[j - |a|] in b;
      }
    }
  }

  lemma NoRepeatsParts<T>(a: seq<T>, b: seq<T>)
    requires NoRepeats(a + b)
    ensures NoRepeats(a) && NoRepeats(b) && forall x :: x in a ==> x !in b
  {
    var all := a + b;
    forall i, j | 0 <= i < j < |a| ensures a[i] != a[j] { assert all[i] != all[j]; }
    forall i, j | 0 <= i < j < |b| ensures b[i] != b[j] { assert all[|a| + i] != all[|a| + j]; }
    forall i, j | 0 <= i < |a| && 0 <= j < |b| ensures a[i] != b[j] { assert all[i] != all[|a| + j]; }
  }

  lemma {:induction false} CountedOnce<T>(s: seq<T>, x: T)
    requires NoRepeats(s)
    ensures multiset(s)[x] == if x in s then 1 else 0
  {
    if s != [] {
      var init, last := s[..|s| - 1], s[|s| - 1];
      assert s == init + [last];
      NoRepeatsOneMore(init, last);
      CountedOnce(init, x);
    }
  }

  lemma CountedTwice<T>(s: seq<T>, i: nat, j: nat)
    requires i < j < |s| && s[i] == s[j]
    ensures multiset(s)[s[i]] >= 2
  {
    assert s == s[..j] + s[j..] && s[i] == s[..j][i] && s[j] == s[j..][0];
    assert s[i] in multiset(s[..j]) && s[i] in multiset(s[j..]);
  }

  /** Rearranging repeats nothing. */
  lemma RearrangedNoRepeats<T>(s: seq<T>, r: seq<T>)
    requires NoRepeats(s) && multiset(r) == multiset(s)
    ensures NoRepeats(r)
  {
    forall i, j | 0 <= i < j < |r| ensures r[i] != r[j] {
      if r[i] == r[j] {
        CountedTwice(r, i, j);
        CountedOnce(s, r[i]);
      }
    }
  }

  lemma SameMembersRearranged<T(!new)>(a: seq<T>, b: seq<T>)
    requires NoRepeats(a) && NoRepeats(b) && forall x :: x in a <==> x in b
    ensures multiset(a) == multiset(b)
  {
    forall x ensures multiset(a)[x] == multiset(b)[x] {
      CountedOnce(a, x);
      CountedOnce(b, x);
    }
  }

  lemma Associates<T>(a: seq<T>, b: seq<T>, c: seq<T>)
    ensures (a + b) + c == a + (b + c)
  {}

  lemma TakenOneMore<T>(s: seq<T>, i: nat, taken: seq<T>)
    requires i < |s| && taken == s[..i]
    ensures taken + [s[i]] == s[..i + 1]
  {}

  lemma TakenAll<T>(s: seq<T>, taken: seq<T>)
    requires taken == s[..|s|]
    ensures taken == s
  {}
}
