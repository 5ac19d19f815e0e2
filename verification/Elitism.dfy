/** Replacing the worst of a sorted score vector by a score that is no worse. */
module Elitism {
  import opened EcmList
  import opened GeneIndex

  /** Rank by rank, s is at most t. */
  ghost predicate NoWorse(s: seq<real>, t: seq<real>) {
    |s| == |t| && forall i :: 0 <= i < |s| ==> s[i] <= t[i]
  }

  function Sum(s: seq<real>): real {
    if s == [] then 0.0 else Sum(s[..|s| - 1]) + s[|s| - 1]
  }

  lemma NoWorseTransitive(s: seq<real>, t: seq<real>, u: seq<real>)
    requires NoWorse(s, t) && NoWorse(t, u)
    ensures NoWorse(s, u)
  {}

  /** Evicting the last score and inserting one that is at most as large lowers the sorted vector at
      every rank, so the best, the worst and the sum can only fall. */
  lemma ReplaceWorst(s: seq<real>, x: real, p: nat)
    requires Ascending(s) && s != [] && x <= s[|s| - 1]
    requires InsertionPoint(RemoveAt(s, |s| - 1), x, p)
    ensures var t := InsertAt(RemoveAt(s, |s| - 1), p, x);
            Ascending(t) && NoWorse(t, s) && Sum(t) == Sum(s) - s[|s| - 1] + x
  {
    var front := RemoveAt(s, |s| - 1);
    assert front == s[..|s| - 1];
    InsertKeepsAscending(front, p, x);
    SumInsert(front, p, x);
    var t := InsertAt(front, p, x);
    forall i | 0 <= i < |s|
      ensures t[i] <= s[i]
    {
      if i > p {
        assert t[i] == front[i - 1] == s[i - 1];
      } else if i == p && p < |front| {
        assert t[i] == x < front[p] == s[p];
      }
    }
  }

  lemma {:induction false} SumInsert(s: seq<real>, p: nat, x: real)
    requires p <= |s|
    ensures Sum(InsertAt(s, p, x)) == Sum(s) + x
  {
    var t := InsertAt(s, p, x);
    if p == |s| {
      assert t[..|s|] == s;
    } else {
      var front := s[..|s| - 1];
      SumInsert(front, p, x);
      assert t[..|s|] == InsertAt(front, p, x);
    }
  }

  lemma {:induction false} NoWorseSum(s: seq<real>, t: seq<real>)
    requires NoWorse(s, t)
    ensures Sum(s) <= Sum(t)
  {
    if s != [] {
      NoWorseSum(s[..|s| - 1], t[..|t| - 1]);
    }
  }

  /** Two ascending vectors with the same scores are the same, so the vector read along the list is
      the sorted vector of the population. */
  lemma {:induction false} SortedVectorUnique(s: seq<real>, t: seq<real>)
    requires Ascending(s) && Ascending(t) && multiset(s) == multiset(t)
    ensures s == t
  {
    assert |multiset(s)| == |s| && |multiset(t)| == |t|;
    if s != [] {
      LastIsLargest(s, t);
      LastIsLargest(t, s);
      DropLast(s);
      DropLast(t);
      SortedVectorUnique(s[..|s| - 1], t[..|t| - 1]);
      assert s == s[..|s| - 1] + [s[|s| - 1]];
    }
  }

  lemma LastIsLargest(s: seq<real>, t: seq<real>)
    requires s != [] && t != [] && Ascending(t) && multiset(s) == multiset(t)
    ensures s[|s| - 1] <= t[|t| - 1]
  {
    assert s[|s| - 1] in multiset(t);
  }

  lemma DropLast(s: seq<real>)
    requires s != []
    ensures multiset(s[..|s| - 1]) == multiset(s) - multiset{s[|s| - 1]}
  {
    assert s == s[..|s| - 1] + [s[|s| - 1]];
  }
}
