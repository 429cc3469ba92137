/**
 Mutation reports: what a report must agree with itself about, and how the runs
 of several test executables become one view.
 */
module Gate {
  import opened Wrappers
  import opened Keys

  datatype Label = Killed | Survived | NotCovered

  datatype Header = Header(stated: nat, total: nat)

  datatype Report = Report(
    killed: seq<string>, survived: seq<string>, notCovered: seq<string>,
    headers: map<Label, Header>, score: Option<int>, allKilled: bool)

  function Listed(report: Report, tag: Label): seq<string> {
    match tag
    case Killed => report.killed
    case Survived => report.survived
    case NotCovered => report.notCovered
  }

  // ---- Reconciling a report -------------------------------------------------------------------

  predicate HeaderAgrees(report: Report, tag: Label) {
    |Listed(report, tag)| == if tag in report.headers then report.headers[tag].stated else 0
  }

  /** Some header's total; they must all be the same. */
  function TotalOf(report: Report): (t: Option<nat>)
    ensures t.None? <==> report.headers == map[]
    ensures t.Some? ==> exists tag :: tag in report.headers && report.headers[tag].total == t.value
  {
    if Killed in report.headers then Some(report.headers[Killed].total)
    else if Survived in report.headers then Some(report.headers[Survived].total)
    else if NotCovered in report.headers then Some(report.headers[NotCovered].total)
    else
      assert forall tag :: tag in report.headers ==> tag == Killed || tag == Survived || tag == NotCovered;
      assert report.headers.Keys == {};
      None
  }

  predicate OneTotal(report: Report) {
    forall a, b :: a in report.headers && b in report.headers ==> report.headers[a].total == report.headers[b].total
  }

  /** The killed mutants, listed or, if their list was not printed, what the others leave of the total. */
  function KilledCount(report: Report, total: nat): int {
    if Killed in report.headers then |report.killed|
    else total - |report.survived| - |report.notCovered|
  }

  predicate Reconciles(report: Report) {
    && (report.score.Some? || report.allKilled)
    && HeaderAgrees(report, Killed) && HeaderAgrees(report, Survived) && HeaderAgrees(report, NotCovered)
    && OneTotal(report)
    && match TotalOf(report)
       case None => report.allKilled && report.score == Some(100)
       case Some(total) =>
         && total != 0
         && (Killed in report.headers ==>
               |report.killed| + |report.survived| + |report.notCovered| == total)
         && KilledCount(report, total) >= 0
         && (report.score.Some? ==> report.score.value == KilledCount(report, total) * 100 / total)
         && (report.allKilled ==> report.survived == [] && report.notCovered == [])
  }

  /** A report that reconciles accounts for every mutant it says was generated, and 100% means what it says. */
  lemma ReconciledIsCoherent(report: Report)
    requires Reconciles(report) && report.headers != map[]
    ensures var total := TotalOf(report).value;
            && 0 < total
            && KilledCount(report, total) + |report.survived| + |report.notCovered| == total
            && (report.score == Some(100) ==> report.survived == [] && report.notCovered == [])
            && (report.survived == [] && report.notCovered == [] && report.score.Some? ==> report.score == Some(100))
            && (report.allKilled ==> KilledCount(report, total) == total)
            && (report.killed == [] || |report.killed| == KilledCount(report, total))
            && (forall tag :: tag in report.headers ==>
                  report.headers[tag] == Header(|Listed(report, tag)|, total))
  {
  }

  /** A report without headers reconciles only as a clean sweep that says so, and lists nothing. */
  lemma ReconciledWithoutHeaders(report: Report)
    requires report.headers == map[]
    ensures Reconciles(report) <==>
            report == Report([], [], [], map[], Some(100), true)
  {
  }

  // ---- Merging runs -----------------------------------------------------------------------------

  /** The best a run says of a mutant: 0 killed, 1 survived, 2 not covered, 3 nothing. */
  function RankIn(run: Report, key: string): nat {
    if key in run.killed then 0 else if key in run.survived then 1 else if key in run.notCovered then 2 else 3
  }

  function Best(runs: seq<Report>, key: string): (r: nat)
    ensures r <= 3
  {
    if runs == [] then 3
    else
      var before, last := Best(runs[..|runs| - 1], key), RankIn(runs[|runs| - 1], key);
      if last < before then last else before
  }

  /** The best of several runs is what some run says and no run beats. */
  lemma {:induction false} BestIsLeast(runs: seq<Report>, key: string)
    ensures forall i :: 0 <= i < |runs| ==> Best(runs, key) <= RankIn(runs[i], key)
    ensures Best(runs, key) == 3 || exists i :: 0 <= i < |runs| && RankIn(runs[i], key) == Best(runs, key)
  {
    if runs != [] {
      var n := |runs| - 1;
      BestIsLeast(runs[..n], key);
      assert forall i :: 0 <= i < n ==> runs[i] == runs[..n][i];
    }
  }

  function KeysOf(run: Report): (s: set<string>)
    ensures forall key :: key in s <==> RankIn(run, key) < 3
  {
    (set key | key in run.killed) + (set key | key in run.survived) + (set key | key in run.notCovered)
  }

  function AllKeys(runs: seq<Report>): (s: set<string>)
    ensures forall key :: key in s <==> Best(runs, key) < 3
  {
    if runs == [] then {} else AllKeys(runs[..|runs| - 1]) + KeysOf(runs[|runs| - 1])
  }

  function Ranked(runs: seq<Report>, rank: nat): (s: set<string>)
    ensures forall key :: key in s <==> key in AllKeys(runs) && Best(runs, key) == rank
  {
    set key | key in AllKeys(runs) && Best(runs, key) == rank
  }

  /** A view with these mutants, each under its tag, with one total in every header. */
  function ViewOf(killed: set<string>, survived: set<string>, notCovered: set<string>): Report {
    var total := |killed| + |survived| + |notCovered|;
    Report(
      Sorted(killed), Sorted(survived), Sorted(notCovered),
      (if killed != {} then map[Killed := Header(|killed|, total)] else map[])
      + (if survived != {} then map[Survived := Header(|survived|, total)] else map[])
      + (if notCovered != {} then map[NotCovered := Header(|notCovered|, total)] else map[]),
      if total > 0 then Some(|killed| * 100 / total) else None,
      total > 0 && |killed| == total)
  }

  function Merged(runs: seq<Report>): Report {
    ViewOf(Ranked(runs, 0), Ranked(runs, 1), Ranked(runs, 2))
  }

  lemma SortedEmpty(s: set<string>)
    ensures Sorted(s) == [] <==> s == {}
  {
  }

  lemma ViewHeaders(killed: set<string>, survived: set<string>, notCovered: set<string>)
    ensures var v := ViewOf(killed, survived, notCovered);
            && HeaderAgrees(v, Killed) && HeaderAgrees(v, Survived) && HeaderAgrees(v, NotCovered)
            && OneTotal(v)
            && TotalOf(v) == if killed + survived + notCovered == {} then None
                             else Some(|killed| + |survived| + |notCovered|)
  {
    hide Sorted;
    var v := ViewOf(killed, survived, notCovered);
    if killed + survived + notCovered == {} {
      assert v.headers == map[];
    }
  }

  /** A view reconciles exactly when there is a mutant in it. */
  lemma ViewReconciles(killed: set<string>, survived: set<string>, notCovered: set<string>)
    ensures Reconciles(ViewOf(killed, survived, notCovered)) <==> killed + survived + notCovered != {}
  {
    hide Sorted, HeaderAgrees, OneTotal, TotalOf;
    ViewHeaders(killed, survived, notCovered);
    SortedEmpty(survived);
    SortedEmpty(notCovered);
  }

  lemma MergedReconciles(runs: seq<Report>)
    ensures Reconciles(Merged(runs)) <==> AllKeys(runs) != {}
  {
    hide Reconciles, ViewOf;
    ViewReconciles(Ranked(runs, 0), Ranked(runs, 1), Ranked(runs, 2));
    assert Ranked(runs, 0) + Ranked(runs, 1) + Ranked(runs, 2) == AllKeys(runs);
  }

  lemma MergedMembers(runs: seq<Report>, key: string)
    ensures key in Merged(runs).survived <==> Best(runs, key) == 1
    ensures key in Merged(runs).notCovered <==> Best(runs, key) == 2
    ensures key in Merged(runs).killed <==> Best(runs, key) == 0
  {
  }

  /** What the runs say together: killed by any, else survived in any, else not covered. */
  lemma MergedByRuns(runs: seq<Report>, key: string)
    ensures var merged := Merged(runs);
            && (key in merged.killed <==> exists i :: 0 <= i < |runs| && key in runs[i].killed)
            && (key in merged.survived <==>
                && (exists i :: 0 <= i < |runs| && key in runs[i].survived)
                && (forall i :: 0 <= i < |runs| ==> key !in runs[i].killed))
            && (key in merged.notCovered <==>
                && (exists i :: 0 <= i < |runs| && key in runs[i].notCovered)
                && (forall i :: 0 <= i < |runs| ==> key !in runs[i].killed && key !in runs[i].survived))
  {
    hide Merged, Best;
    MergedMembers(runs, key);
    BestIsLeast(runs, key);
    if exists i :: 0 <= i < |runs| && key in runs[i].killed {
      var i :| 0 <= i < |runs| && key in runs[i].killed;
      assert RankIn(runs[i], key) == 0;
    } else if exists i :: 0 <= i < |runs| && key in runs[i].survived {
      var i :| 0 <= i < |runs| && key in runs[i].survived;
      assert RankIn(runs[i], key) == 1;
    } else if exists i :: 0 <= i < |runs| && key in runs[i].notCovered {
      var i :| 0 <= i < |runs| && key in runs[i].notCovered;
      assert RankIn(runs[i], key) == 2;
    }
  }

  /** What the runs say together depends on which runs there were, not on their order or repetition. */
  lemma BestIgnoresOrder(a: seq<Report>, b: seq<Report>, key: string)
    requires forall run :: run in a <==> run in b
    ensures Best(a, key) == Best(b, key)
  {
    BestIsLeast(a, key);
    BestIsLeast(b, key);
    if Best(a, key) < 3 {
      var i :| 0 <= i < |a| && RankIn(a[i], key) == Best(a, key);
      assert a[i] in b;
    }
    if Best(b, key) < 3 {
      var i :| 0 <= i < |b| && RankIn(b[i], key) == Best(b, key);
      assert b[i] in a;
    }
  }

  lemma MergeIgnoresOrder(a: seq<Report>, b: seq<Report>)
    requires forall run :: run in a <==> run in b
    ensures Merged(a) == Merged(b)
  {
    hide ViewOf, Best;
    forall key ensures Best(a, key) == Best(b, key) {
      BestIgnoresOrder(a, b, key);
    }
    assert AllKeys(a) == AllKeys(b);
    assert Ranked(a, 0) == Ranked(b, 0) && Ranked(a, 1) == Ranked(b, 1) && Ranked(a, 2) == Ranked(b, 2);
  }

  /** The best rank seen so far of every mutant listed so far. */
  ghost predicate HoldsBest(chosen: map<string, nat>, runs: seq<Report>) {
    && chosen.Keys == AllKeys(runs)
    && forall key :: key in chosen ==> chosen[key] == Best(runs, key)
  }

  function Better(chosen: map<string, nat>, key: string, rank: nat): nat {
    if key in chosen && chosen[key] <= rank then chosen[key] else rank
  }

  /** A run's list of one rank goes in; a better rank already held stays. */
  method Absorb(chosen: map<string, nat>, keys: seq<string>, rank: nat) returns (next: map<string, nat>)
    ensures forall key :: key in next <==> key in chosen || key in keys
    ensures forall key :: key in next ==> next[key] == if key in keys then Better(chosen, key, rank) else chosen[key]
  {
    next := chosen;
    for i := 0 to |keys|
      invariant forall key :: key in next <==> key in chosen || key in keys[..i]
      invariant forall key :: key in next ==>
        next[key] == if key in keys[..i] then Better(chosen, key, rank) else chosen[key]
    {
      var key := keys[i];
      assert keys[..i + 1] == keys[..i] + [key];
      if key !in next || rank < next[key] {
        next := next[key := rank];
      }
    }
    assert keys[..|keys|] == keys;
  }

  lemma AbsorbedRun(chosen: map<string, nat>, next: map<string, nat>, runs: seq<Report>, run: Report)
    requires HoldsBest(chosen, runs)
    requires next.Keys == chosen.Keys + KeysOf(run)
    requires forall key :: key in next ==>
               next[key] == if key in chosen && chosen[key] <= RankIn(run, key) then chosen[key] else RankIn(run, key)
    ensures HoldsBest(next, runs + [run])
  {
    var all := runs + [run];
    assert all[..|runs|] == runs;
    assert AllKeys(all) == AllKeys(runs) + KeysOf(run);
    forall key | key in next ensures next[key] == Best(all, key) {
      assert key in chosen ==> chosen[key] == Best(runs, key);
      assert key !in chosen ==> key !in AllKeys(runs);
    }
  }

  /** One run, its killed, survived and not covered mutants in that order. */
  method AbsorbRun(chosen: map<string, nat>, run: Report, ghost runs: seq<Report>) returns (next: map<string, nat>)
    requires HoldsBest(chosen, runs)
    ensures HoldsBest(next, runs + [run])
  {
    hide Best, AllKeys;
    var killed := Absorb(chosen, run.killed, 0);
    var survived := Absorb(killed, run.survived, 1);
    next := Absorb(survived, run.notCovered, 2);
    assert next.Keys == chosen.Keys + KeysOf(run);
    AbsorbedRun(chosen, next, runs, run);
  }

  /** The keys of one rank, in the order given. */
  function OfRank(chosen: map<string, nat>, keys: seq<string>, rank: nat): seq<string>
    requires forall key :: key in keys ==> key in chosen
  {
    if keys == [] then []
    else
      var last := keys[|keys| - 1];
      OfRank(chosen, keys[..|keys| - 1], rank) + if chosen[last] == rank then [last] else []
  }

  lemma {:induction false} OfRankSplits(chosen: map<string, nat>, a: seq<string>, b: seq<string>, rank: nat)
    requires forall key :: key in a + b ==> key in chosen
    ensures (forall key :: key in a ==> key in chosen) && (forall key :: key in b ==> key in chosen)
    ensures OfRank(chosen, a + b, rank) == OfRank(chosen, a, rank) + OfRank(chosen, b, rank)
  {
    assert forall key :: key in a || key in b ==> key in a + b;
    if b == [] {
      assert a + b == a;
    } else {
      var n := |b| - 1;
      assert (a + b)[..|a| + n] == a + b[..n];
      OfRankSplits(chosen, a, b[..n], rank);
    }
  }

  function Picked(chosen: map<string, nat>, keys: set<string>, rank: nat): (s: set<string>)
    requires keys <= chosen.Keys
    ensures forall key :: key in s <==> key in keys && chosen[key] == rank
  {
    set key | key in keys && chosen[key] == rank
  }

  lemma PickedFirst(chosen: map<string, nat>, keys: set<string>, rank: nat, k: string)
    requires keys <= chosen.Keys && IsFirst(k, keys)
    ensures keys - {k} <= chosen.Keys
    ensures Sorted(Picked(chosen, keys, rank)) ==
            (if chosen[k] == rank then [k] else []) + Sorted(Picked(chosen, keys - {k}, rank))
  {
    hide Sorted, Before;
    var picked, rest := Picked(chosen, keys, rank), Picked(chosen, keys - {k}, rank);
    if chosen[k] == rank {
      var first := SortedBegins(picked);
      assert IsFirst(k, picked);
      FirstIsOne(first, k, picked);
      assert picked - {k} == rest;
    } else {
      assert picked == rest;
    }
  }

  /** Sorting and then picking one rank is picking and then sorting. */
  lemma {:induction false} SortedByRank(chosen: map<string, nat>, keys: set<string>, rank: nat)
    requires keys <= chosen.Keys
    ensures OfRank(chosen, Sorted(keys), rank) == Sorted(Picked(chosen, keys, rank))
    decreases |keys|
  {
    hide Sorted, OfRank, Picked;
    if keys == {} {
      SortedEmpty(keys);
      SortedEmpty(Picked(chosen, keys, rank));
      OfNone(chosen, rank);
    } else {
      var k := SortedBegins(keys);
      SortedByRank(chosen, keys - {k}, rank);
      OfRankSplits(chosen, [k], Sorted(keys - {k}), rank);
      OfOne(chosen, k, rank);
      PickedFirst(chosen, keys, rank, k);
    }
  }

  lemma OfNone(chosen: map<string, nat>, rank: nat)
    ensures OfRank(chosen, [], rank) == []
  {
  }

  lemma OfOne(chosen: map<string, nat>, k: string, rank: nat)
    requires k in chosen
    ensures OfRank(chosen, [k], rank) == if chosen[k] == rank then [k] else []
  {
    assert [k][..0] == [];
  }

  lemma PickedIsRanked(chosen: map<string, nat>, runs: seq<Report>, rank: nat)
    requires HoldsBest(chosen, runs)
    ensures Picked(chosen, chosen.Keys, rank) == Ranked(runs, rank)
  {
  }

  lemma RanksAddUp(runs: seq<Report>)
    ensures |AllKeys(runs)| == |Ranked(runs, 0)| + |Ranked(runs, 1)| + |Ranked(runs, 2)|
  {
    hide Best, AllKeys;
    var a, b, c := Ranked(runs, 0), Ranked(runs, 1), Ranked(runs, 2);
    assert AllKeys(runs) == a + b + c;
    assert a !! b && (a + b) !! c;
  }

  /** One view of several runs: a mutant any run killed is killed, and not covered only if no run covered it. */
  method MergeRuns(runs: seq<Report>) returns (view: Report)
    ensures view == Merged(runs)
  {
    hide HoldsBest, Sorted, OfRank, Best, AllKeys, Ranked;
    var chosen: map<string, nat> := map[];
    NothingChosen();
    for i := 0 to |runs|
      invariant HoldsBest(chosen, runs[..i])
    {
      assert runs[..i + 1] == runs[..i] + [runs[i]];
      chosen := AbsorbRun(chosen, runs[i], runs[..i]);
    }
    assert runs[..|runs|] == runs;
    ChosenSize(chosen, runs);
    var killed, survived, notCovered := ListByRank(chosen);
    ghost var a, b, c := Ranked(runs, 0), Ranked(runs, 1), Ranked(runs, 2);
    PickedIsRanked(chosen, runs, 0);
    PickedIsRanked(chosen, runs, 1);
    PickedIsRanked(chosen, runs, 2);
    RanksAddUp(runs);
    SortedEmpty(a);
    SortedEmpty(b);
    SortedEmpty(c);
    var total := |chosen|;
    view := Report(
      killed, survived, notCovered,
      (if killed != [] then map[Killed := Header(|killed|, total)] else map[])
      + (if survived != [] then map[Survived := Header(|survived|, total)] else map[])
      + (if notCovered != [] then map[NotCovered := Header(|notCovered|, total)] else map[]),
      if total > 0 then Some(|killed| * 100 / total) else None,
      total > 0 && |killed| == total);
  }

  lemma NothingChosen()
    ensures HoldsBest(map[], [])
  {
  }

  lemma ChosenSize(chosen: map<string, nat>, runs: seq<Report>)
    requires HoldsBest(chosen, runs)
    ensures |chosen| == |AllKeys(runs)|
    ensures forall key :: key in chosen ==> chosen[key] <= 2
  {
    assert |chosen| == |chosen.Keys|;
  }

  /** Every chosen mutant, in the order of the keys, under the label of its rank. */
  method ListByRank(chosen: map<string, nat>) returns (killed: seq<string>, survived: seq<string>,
                    notCovered: seq<string>)
    requires forall key :: key in chosen ==> chosen[key] <= 2
    ensures killed == Sorted(Picked(chosen, chosen.Keys, 0))
    ensures survived == Sorted(Picked(chosen, chosen.Keys, 1))
    ensures notCovered == Sorted(Picked(chosen, chosen.Keys, 2))
  {
    hide Sorted, Picked;
    killed, survived, notCovered := [], [], [];
    var keys := Sorted(chosen.Keys);
    for i := 0 to |keys|
      invariant killed == OfRank(chosen, keys[..i], 0)
      invariant survived == OfRank(chosen, keys[..i], 1)
      invariant notCovered == OfRank(chosen, keys[..i], 2)
    {
      var key := keys[i];
      assert keys[..i + 1][..i] == keys[..i];
      if chosen[key] == 0 {
        killed := killed + [key];
      } else if chosen[key] == 1 {
        survived := survived + [key];
      } else {
        notCovered := notCovered + [key];
      }
    }
    assert keys[..|keys|] == keys;
    SortedByRank(chosen, chosen.Keys, 0);
    SortedByRank(chosen, chosen.Keys, 1);
    SortedByRank(chosen, chosen.Keys, 2);
  }
}
