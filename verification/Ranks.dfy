/** A stable sort of candidates by score, worst first. */
module Ranks {
  import opened Trials

  datatype Ranked = Ranked(score: real, which: nat)

  predicate Before(a: Ranked, b: Ranked) {
    Outranks(a.score, a.which, b.score, b.which)
  }

  predicate Sorted(s: seq<Ranked>) {
    forall i, j :: 0 <= i < j < |s| ==> Before(s[i], s[j])
  }

  /** Behind every entry that scores at least as much. */
  function Insert(s: seq<Ranked>, x: Ranked): (r: seq<Ranked>)
    ensures multiset(r) == multiset(s) + multiset{x}
  {
    if s == [] then [x]
    else if x.score > s[|s| - 1].score then
      assert s == s[..|s| - 1] + [s[|s| - 1]];
      Insert(s[..|s| - 1], x) + [s[|s| - 1]]
    else s + [x]
  }

  function StableSort(s: seq<Ranked>): (r: seq<Ranked>)
    ensures multiset(r) == multiset(s) && |r| == |s|
  {
    if s == [] then []
    else
      assert s == s[..|s| - 1] + [s[|s| - 1]];
      var r := Insert(StableSort(s[..|s| - 1]), s[|s| - 1]);
      SameSize(r, s);
      r
  }

  lemma SameSize(a: seq<Ranked>, b: seq<Ranked>)
    requires multiset(a) == multiset(b)
    ensures |a| == |b|
  {
    assert |multiset(a)| == |a| && |multiset(b)| == |b|;
  }

  lemma InBoth(r: seq<Ranked>, s: seq<Ranked>, x: Ranked)
    requires multiset(r) == multiset(s)
    ensures x in r <==> x in s
  {
    assert x in r <==> x in multiset(r);
    assert x in s <==> x in multiset(s);
  }

  lemma InInsert(s: seq<Ranked>, x: Ranked, y: Ranked)
    requires y in Insert(s, x)
    ensures y == x || y in s
  {
    assert y in multiset(Insert(s, x));
  }

  /** The newcomer is configured after everyone it is compared with. */
  lemma {:induction false} InsertKeepsOrder(s: seq<Ranked>, x: Ranked)
    requires Sorted(s) && forall y :: y in s ==> y.which < x.which
    ensures Sorted(Insert(s, x))
  {
    if s != [] {
      var n := |s| - 1;
      if x.score > s[n].score {
        InsertKeepsOrder(s[..n], x);
        var front := Insert(s[..n], x);
        forall i | 0 <= i < |front| ensures Before(front[i], s[n]) {
          InInsert(s[..n], x, front[i]);
        }
      } else {
        forall i | 0 <= i < |s| ensures Before(s[i], x) {
          assert i < n ==> Before(s[i], s[n]);
        }
      }
    }
  }

  /** Equal scores keep the configured order. */
  lemma {:induction false} StableSortSorts(s: seq<Ranked>)
    requires forall i, j :: 0 <= i < j < |s| ==> s[i].which < s[j].which
    ensures Sorted(StableSort(s))
  {
    if s != [] {
      var n := |s| - 1;
      StableSortSorts(s[..n]);
      forall y | y in StableSort(s[..n]) ensures y.which < s[n].which {
        InBoth(StableSort(s[..n]), s[..n], y);
      }
      InsertKeepsOrder(StableSort(s[..n]), s[n]);
    }
  }

  /** The candidates of a ranking. */
  function Names(s: seq<Ranked>): (n: set<nat>)
    ensures forall w :: w in n <==> exists i :: 0 <= i < |s| && s[i].which == w
  {
    set r | r in s :: r.which
  }

  lemma {:induction false} NamesAreDistinct(s: seq<Ranked>)
    requires forall i, j :: 0 <= i < j < |s| ==> s[i].which != s[j].which
    ensures |Names(s)| == |s|
  {
    if s != [] {
      var n := |s| - 1;
      NamesAreDistinct(s[..n]);
      assert s == s[..n] + [s[n]];
      assert Names(s) == Names(s[..n]) + {s[n].which};
    }
  }

  /** Sorting keeps each candidate's one entry. */
  lemma SortedAreDistinct(r: seq<Ranked>, s: seq<Ranked>, i: nat, j: nat)
    requires multiset(r) == multiset(s) && Sorted(r) && i < j < |r|
    requires forall a, b :: 0 <= a < b < |s| ==> s[a].which < s[b].which
    ensures r[i].which != r[j].which
  {
    InBoth(r, s, r[i]);
    InBoth(r, s, r[j]);
    assert Before(r[i], r[j]);
  }
}
