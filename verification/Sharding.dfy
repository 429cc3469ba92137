/** The gate's decision, on the whole project or on each shard of it, and why the two agree. */
module Sharding {
  import opened Wrappers
  import opened Keys
  import opened Scopes
  import opened Gate

  // ---- The decision ---------------------------------------------------------------------------

  /** One run is judged as it is; several are merged. */
  function View(runs: seq<Report>): Report
    requires runs != []
  {
    if |runs| == 1 then runs[0] else Merged(runs)
  }

  predicate KeyInScope(key: string, scopes: seq<string>) {
    InScope(PathOfKey(key), scopes)
  }

  /** The keys a shard owns, in the order given. */
  function Within(keys: seq<string>, scopes: seq<string>): (r: seq<string>)
    ensures forall key :: key in r <==> key in keys && KeyInScope(key, scopes)
  {
    if keys == [] then []
    else
      var last := keys[|keys| - 1];
      Within(keys[..|keys| - 1], scopes) + if KeyInScope(last, scopes) then [last] else []
  }

  /** A shard's view lists every mutant, and every mutant lies in the shard. */
  predicate ScopeHolds(view: Report, scopes: seq<string>) {
    && (Killed in view.headers
        || TotalOf(view) == Some(|view.survived| + |view.notCovered|))
    && (forall key :: key in view.killed ==> KeyInScope(key, scopes))
    && (forall key :: key in view.survived ==> KeyInScope(key, scopes))
    && (forall key :: key in view.notCovered ==> KeyInScope(key, scopes))
  }

  /** No mutant is uncovered, and the survivors are exactly the allowed ones. */
  ghost predicate Decides(view: Report, allowed: seq<string>) {
    && view.notCovered == []
    && forall key :: key in view.survived <==> key in allowed
  }

  method Judge(view: Report, allowed: seq<string>) returns (pass: bool)
    ensures pass <==> Decides(view, allowed)
  {
    if view.notCovered != [] {
      return false;
    }
    var survivors := set key | key in view.survived;
    var keys := Sorted(survivors);
    var unexplained: seq<string>, used: set<string> := [], {};
    for i := 0 to |keys|
      invariant forall key :: key in used <==> key in keys[..i] && key in allowed
      invariant forall key :: key in unexplained <==> key in keys[..i] && key !in allowed
    {
      assert keys[..i + 1] == keys[..i] + [keys[i]];
      if keys[i] in allowed {
        used := used + {keys[i]};
      } else {
        unexplained := unexplained + [keys[i]];
      }
    }
    assert keys[..|keys|] == keys;
    var stale: seq<string> := [];
    for i := 0 to |allowed|
      invariant forall key :: key in stale <==> key in allowed[..i] && key !in used
    {
      assert allowed[..i + 1] == allowed[..i] + [allowed[i]];
      if allowed[i] !in used {
        stale := stale + [allowed[i]];
      }
    }
    assert allowed[..|allowed|] == allowed;
    assert stale == [] ==> forall key :: key in allowed ==> key in used;
    assert unexplained == [] ==> forall key :: key in keys ==> key in allowed;
    assert stale != [] ==> stale[0] in stale;
    assert unexplained != [] ==> unexplained[0] in unexplained;
    return unexplained == [] && stale == [];
  }

  /** The whole gate, or one shard of it when scopes are given. */
  ghost predicate Passes(runs: seq<Report>, allowlist: seq<string>, scopes: seq<string>) {
    && runs != []
    && (forall i :: 0 <= i < |runs| ==> Reconciles(runs[i]))
    && (forall i, j :: 0 <= i < j < |allowlist| ==> allowlist[i] != allowlist[j])
    && (scopes != [] ==> ScopeHolds(View(runs), scopes))
    && Decides(View(runs), if scopes == [] then allowlist else Within(allowlist, scopes))
  }

  lemma RankOfMember(run: Report, key: string)
    requires RankIn(run, key) < 3
    ensures key in run.killed || key in run.survived || key in run.notCovered
  {
  }

  /** A pass means every mutant of every run is killed by some executable or has been allowed by name. */
  lemma PassMeansDetected(runs: seq<Report>, allowlist: seq<string>, scopes: seq<string>, i: nat, key: string)
    requires Passes(runs, allowlist, scopes) && i < |runs| && RankIn(runs[i], key) < 3
    ensures (exists j :: 0 <= j < |runs| && key in runs[j].killed) || key in allowlist
  {
    BestIsLeast(runs, key);
    if |runs| == 1 {
      assert View(runs) == runs[0];
      RankOfMember(runs[0], key);
    } else {
      MergedMembers(runs, key);
      if Best(runs, key) == 0 {
        var j :| 0 <= j < |runs| && RankIn(runs[j], key) == 0;
        assert key in runs[j].killed;
      }
    }
  }

  /** Every allowed entry the gate owns names a mutant that survives, some run lists it and, merged, none kills it. */
  lemma PassMeansNoStale(runs: seq<Report>, allowlist: seq<string>, scopes: seq<string>, key: string)
    requires Passes(runs, allowlist, scopes) && key in allowlist
    requires scopes == [] || KeyInScope(key, scopes)
    ensures exists j :: 0 <= j < |runs| && key in runs[j].survived
    ensures |runs| > 1 ==> forall j :: 0 <= j < |runs| ==> key !in runs[j].killed
  {
    assert key in View(runs).survived;
    if |runs| == 1 {
      assert key in runs[0].survived;
    } else {
      MergedMembers(runs, key);
      BestIsLeast(runs, key);
      var j :| 0 <= j < |runs| && RankIn(runs[j], key) == 1;
      assert key in runs[j].survived;
      forall k | 0 <= k < |runs| ensures key !in runs[k].killed {
        assert Best(runs, key) <= RankIn(runs[k], key);
      }
    }
  }

  /** And in a shard's gate every mutant of every run is the shard's own. */
  lemma PassMeansOwned(runs: seq<Report>, allowlist: seq<string>, scopes: seq<string>, i: nat, key: string)
    requires Passes(runs, allowlist, scopes) && scopes != [] && i < |runs| && RankIn(runs[i], key) < 3
    ensures KeyInScope(key, scopes)
  {
    hide KeyInScope, Merged;
    RankOfMember(runs[i], key);
    if |runs| > 1 {
      BestIsLeast(runs, key);
      MergedMembers(runs, key);
    }
  }

  lemma {:induction false} DistinctCount(keys: seq<string>)
    requires forall i, j :: 0 <= i < j < |keys| ==> keys[i] != keys[j]
    ensures |set key | key in keys| == |keys|
  {
    if keys != [] {
      var n := |keys| - 1;
      DistinctCount(keys[..n]);
      assert keys == keys[..n] + [keys[n]];
      assert (set key | key in keys) == (set key | key in keys[..n]) + {keys[n]};
    }
  }

  /** After a pass of the whole gate there are exactly as many survivors as allowed entries. */
  lemma PassCountsSurvivors(runs: seq<Report>, allowlist: seq<string>)
    requires Passes(runs, allowlist, [])
    ensures |set key | key in View(runs).survived| == |allowlist|
  {
    hide View, Reconciles;
    DistinctCount(allowlist);
    assert (set key | key in View(runs).survived) == set key | key in allowlist;
  }

  // ---- Shards --------------------------------------------------------------------------------

  datatype Shard = Shard(scopes: seq<string>, runs: seq<Report>)

  /** Every allowlist entry is in some shard's scope. */
  predicate AllOwned(shards: seq<Shard>, allowlist: seq<string>) {
    forall key :: key in allowlist ==> exists s :: 0 <= s < |shards| && KeyInScope(key, shards[s].scopes)
  }

  /** Refuses a plan that leaves an entry to nobody; otherwise how many entries there are. */
  method CheckAllowlist(shards: seq<Shard>, allowlist: seq<string>) returns (count: Option<nat>)
    ensures count == if AllOwned(shards, allowlist) then Some(|allowlist|) else None
  {
    var scopes: seq<string> := [];
    for s := 0 to |shards|
      invariant forall path :: InScope(path, scopes) <==> exists t :: 0 <= t < s && InScope(path, shards[t].scopes)
    {
      ScopesAppend(scopes, shards[s].scopes);
      scopes := scopes + shards[s].scopes;
    }
    var orphans: seq<string> := [];
    for i := 0 to |allowlist|
      invariant forall key :: key in orphans <==> key in allowlist[..i] && !KeyInScope(key, scopes)
    {
      assert allowlist[..i + 1] == allowlist[..i] + [allowlist[i]];
      if !InScope(PathOfKey(allowlist[i]), scopes) {
        orphans := orphans + [allowlist[i]];
      }
    }
    assert allowlist[..|allowlist|] == allowlist;
    if orphans != [] {
      assert orphans[0] in orphans;
      return None;
    }
    forall key | key in allowlist ensures exists s :: 0 <= s < |shards| && KeyInScope(key, shards[s].scopes) {
      assert key !in orphans;
      assert InScope(PathOfKey(key), scopes);
    }
    return Some(|allowlist|);
  }

  lemma ScopesAppend(a: seq<string>, b: seq<string>)
    ensures forall path :: InScope(path, a + b) <==> InScope(path, a) || InScope(path, b)
  {
    forall path ensures InScope(path, a + b) <==> InScope(path, a) || InScope(path, b) {
      if InScope(path, a) {
        var i :| 0 <= i < |a| && Under(path, a[i]);
        assert Under(path, (a + b)[i]);
      }
      if InScope(path, b) {
        var i :| 0 <= i < |b| && Under(path, b[i]);
        assert Under(path, (a + b)[|a| + i]);
      }
    }
  }

  /**
   If every shard of a checked plan passes, every mutant of every shard is
   killed or allowed, and every allowed entry still survives in its shard.
   */
  lemma ShardsAreSound(shards: seq<Shard>, allowlist: seq<string>)
    requires AllOwned(shards, allowlist)
    requires forall s :: 0 <= s < |shards| ==>
               shards[s].scopes != [] && Passes(shards[s].runs, allowlist, shards[s].scopes)
    ensures forall s, i, key :: 0 <= s < |shards| && 0 <= i < |shards[s].runs| && RankIn(shards[s].runs[i], key) < 3 ==>
              (exists j :: 0 <= j < |shards[s].runs| && key in shards[s].runs[j].killed) || key in allowlist
    ensures forall key :: key in allowlist ==>
              exists s, j :: 0 <= s < |shards| && 0 <= j < |shards[s].runs| && key in shards[s].runs[j].survived
  {
    hide Passes, RankIn, KeyInScope;
    forall s, i, key | 0 <= s < |shards| && 0 <= i < |shards[s].runs| && RankIn(shards[s].runs[i], key) < 3
      ensures (exists j :: 0 <= j < |shards[s].runs| && key in shards[s].runs[j].killed) || key in allowlist
    {
      PassMeansDetected(shards[s].runs, allowlist, shards[s].scopes, i, key);
    }
    forall key | key in allowlist
      ensures exists s, j :: 0 <= s < |shards| && 0 <= j < |shards[s].runs| && key in shards[s].runs[j].survived
    {
      var s :| 0 <= s < |shards| && KeyInScope(key, shards[s].scopes);
      PassMeansNoStale(shards[s].runs, allowlist, shards[s].scopes, key);
    }
  }

  // ---- The shards together decide as the whole does ------------------------------------------------

  /** A shard's run lists what the whole run lists in the shard's scope. */
  predicate IsPartOf(part: Report, whole: Report, scopes: seq<string>) {
    && part.killed == Within(whole.killed, scopes)
    && part.survived == Within(whole.survived, scopes)
    && part.notCovered == Within(whole.notCovered, scopes)
  }

  predicate ArePartsOf(parts: seq<Report>, whole: seq<Report>, scopes: seq<string>) {
    |parts| == |whole| && forall i :: 0 <= i < |whole| ==> IsPartOf(parts[i], whole[i], scopes)
  }

  lemma RankOfPart(part: Report, whole: Report, scopes: seq<string>, key: string)
    requires IsPartOf(part, whole, scopes)
    ensures RankIn(part, key) == if KeyInScope(key, scopes) then RankIn(whole, key) else 3
  {
  }

  lemma {:induction false} BestOfParts(parts: seq<Report>, whole: seq<Report>, scopes: seq<string>, key: string)
    requires ArePartsOf(parts, whole, scopes)
    ensures Best(parts, key) == if KeyInScope(key, scopes) then Best(whole, key) else 3
  {
    if whole != [] {
      var n := |whole| - 1;
      BestOfParts(parts[..n], whole[..n], scopes, key);
      RankOfPart(parts[n], whole[n], scopes, key);
    }
  }

  lemma ViewOfParts(parts: seq<Report>, whole: seq<Report>, scopes: seq<string>, key: string)
    requires whole != [] && ArePartsOf(parts, whole, scopes)
    ensures key in View(parts).survived <==> key in View(whole).survived && KeyInScope(key, scopes)
    ensures key in View(parts).notCovered <==> key in View(whole).notCovered && KeyInScope(key, scopes)
  {
    hide Merged, KeyInScope;
    if |whole| > 1 {
      BestOfParts(parts, whole, scopes, key);
      MergedMembers(parts, key);
      MergedMembers(whole, key);
    }
  }

  /** Every mutant judged, and every allowed entry, is in some shard's scope. */
  ghost predicate Covered(view: Report, allowlist: seq<string>, plan: seq<seq<string>>) {
    && (forall key :: key in view.survived || key in view.notCovered || key in allowlist ==>
          exists s :: 0 <= s < |plan| && KeyInScope(key, plan[s]))
  }

  ghost predicate ShardsDecide(parts: seq<seq<Report>>, allowlist: seq<string>, plan: seq<seq<string>>)
    requires |parts| == |plan|
    requires forall s :: 0 <= s < |plan| ==> parts[s] != []
  {
    forall s :: 0 <= s < |plan| ==> Decides(View(parts[s]), Within(allowlist, plan[s]))
  }

  lemma PartDecides(parts: seq<Report>, whole: seq<Report>, allowlist: seq<string>, scopes: seq<string>)
    requires whole != [] && parts != [] && ArePartsOf(parts, whole, scopes) && Decides(View(whole), allowlist)
    ensures Decides(View(parts), Within(allowlist, scopes))
  {
    hide View, KeyInScope, ArePartsOf;
    if View(parts).notCovered != [] {
      ViewOfParts(parts, whole, scopes, View(parts).notCovered[0]);
    }
    forall key ensures key in View(parts).survived <==> key in Within(allowlist, scopes) {
      ViewOfParts(parts, whole, scopes, key);
    }
  }

  /** With every mutant and every entry owned, all shards pass the decision exactly when the whole project does. */
  lemma ShardsAgreeWithWhole(whole: seq<Report>, parts: seq<seq<Report>>, allowlist: seq<string>,
                             plan: seq<seq<string>>)
    requires whole != [] && |parts| == |plan| && Covered(View(whole), allowlist, plan)
    requires forall s :: 0 <= s < |plan| ==> parts[s] != [] && ArePartsOf(parts[s], whole, plan[s])
    ensures Decides(View(whole), allowlist) <==> ShardsDecide(parts, allowlist, plan)
  {
    hide View, KeyInScope, ArePartsOf;
    forall s, key | 0 <= s < |plan|
      ensures key in View(parts[s]).survived <==> key in View(whole).survived && KeyInScope(key, plan[s])
      ensures key in View(parts[s]).notCovered <==> key in View(whole).notCovered && KeyInScope(key, plan[s])
    {
      ViewOfParts(parts[s], whole, plan[s], key);
    }
    if Decides(View(whole), allowlist) {
      forall s | 0 <= s < |plan| ensures Decides(View(parts[s]), Within(allowlist, plan[s])) {
        PartDecides(parts[s], whole, allowlist, plan[s]);
      }
    }
    if ShardsDecide(parts, allowlist, plan) {
      NothingListed(View(whole).notCovered);
    }
  }

  lemma NothingListed(keys: seq<string>)
    ensures keys == [] <==> forall key :: key !in keys
  {
    if keys != [] {
      assert keys[0] in keys;
    }
  }

  // ---- The plan that is made --------------------------------------------------------------

  /** Every mutant judged, and every allowed entry, is in a source of some module. */
  ghost predicate InModules(view: Report, allowlist: seq<string>, names: seq<string>) {
    forall key :: key in view.survived || key in view.notCovered || key in allowlist ==>
      exists name :: name in names && Under(PathOfKey(key), PathOf(name))
  }

  function Listing<T>(order: seq<string>, of: map<string, T>): (r: seq<T>)
    requires forall s :: s in order ==> s in of
    ensures |r| == |order| && forall i :: 0 <= i < |r| ==> r[i] == of[order[i]]
  {
    seq(|order|, i requires 0 <= i < |order| => of[order[i]])
  }

  lemma PlanCovers(view: Report, allowlist: seq<string>, shards: Shards, names: seq<string>, sources: set<string>,
                   order: seq<string>)
    requires IsProject(names, sources) && IsPlan(shards, names, sources) && InModules(view, allowlist, names)
    requires forall s :: s in order <==> s in sources
    ensures Covered(view, allowlist, Listing(order, shards))
  {
    hide Under, InScope, Owned;
    var plan := Listing(order, shards);
    forall key | key in view.survived || key in view.notCovered || key in allowlist
      ensures exists s :: 0 <= s < |plan| && KeyInScope(key, plan[s])
    {
      var name :| name in names && Under(PathOfKey(key), PathOf(name));
      var owner := OwnerOf(name, sources);
      EveryModuleOnce(names, sources, name, owner);
      OwnershipIsExact(names, sources, name, owner, PathOfKey(key));
      var s :| 0 <= s < |order| && order[s] == owner;
      assert KeyInScope(key, plan[s]);
    }
  }

  /**
   With the plan that is made, and mutants and entries in the sources of
   modules, every shard passes the decision exactly when the whole project does.
   */
  lemma PlannedShardsAgreeWithWhole(whole: seq<Report>, parts: map<string, seq<Report>>, allowlist: seq<string>,
                                    shards: Shards, names: seq<string>, sources: set<string>)
    requires whole != [] && IsProject(names, sources) && IsPlan(shards, names, sources)
    requires InModules(View(whole), allowlist, names)
    requires parts.Keys == sources
    requires forall s :: s in sources ==> parts[s] != [] && ArePartsOf(parts[s], whole, shards[s])
    ensures Decides(View(whole), allowlist) <==>
            forall s :: s in sources ==> Decides(View(parts[s]), Within(allowlist, shards[s]))
  {
    hide View, ArePartsOf, Decides, Covered, InModules, IsPlan, IsProject;
    PlanHasShards(shards, names, sources);
    var order := Sorted(sources);
    var plan, each := Listing(order, shards), Listing(order, parts);
    PlanCovers(View(whole), allowlist, shards, names, sources, order);
    ShardsAgreeWithWhole(whole, each, allowlist, plan);
    if ShardsDecide(each, allowlist, plan) {
      forall s | s in sources ensures Decides(View(parts[s]), Within(allowlist, shards[s])) {
        var i :| 0 <= i < |order| && order[i] == s;
        assert each[i] == parts[s] && plan[i] == shards[s];
      }
    }
  }

  lemma PlanHasShards(shards: Shards, names: seq<string>, sources: set<string>)
    requires IsPlan(shards, names, sources)
    ensures shards.Keys == sources
  {
  }
}
