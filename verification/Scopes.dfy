/** Which sources a shard of the mutation sweep owns, and the plan that gives every module to one shard. */
module Scopes {
  import opened Wrappers

  // ---- Paths by components -----------------------------------------------------------------

  /** One character before components: a slash opens a new one. */
  function Prepend(c: char, rest: seq<string>): (r: seq<string>)
    requires rest != []
    ensures r != []
  {
    if c == '/' then [""] + rest else [[c] + rest[0]] + rest[1..]
  }

  /** The components of a path, split at every slash. */
  function Components(path: string): (c: seq<string>)
    ensures c != []
  {
    if path == "" then [""] else Prepend(path[0], Components(path[1..]))
  }

  function Join(components: seq<string>): string
    requires components != []
  {
    if |components| == 1 then components[0] else components[0] + "/" + Join(components[1..])
  }

  lemma {:induction false} JoinUndoesSplit(path: string)
    ensures Join(Components(path)) == path
  {
    if path != "" {
      var rest := Components(path[1..]);
      JoinUndoesSplit(path[1..]);
      if path[0] == '/' {
        assert Components(path)[1..] == rest;
        assert "" + "/" + Join(rest) == path;
      } else if |rest| > 1 {
        assert Components(path)[1..] == rest[1..];
        assert [path[0]] + rest[0] + "/" + Join(rest[1..]) == [path[0]] + (rest[0] + "/" + Join(rest[1..]));
      }
    }
  }

  lemma PrependAppend(c: char, a: seq<string>, b: seq<string>)
    requires a != []
    ensures Prepend(c, a + b) == Prepend(c, a) + b
  {
  }

  lemma {:induction false} SplitAtSlash(a: string, b: string)
    ensures Components(a + "/" + b) == Components(a) + Components(b)
  {
    hide Prepend;
    if a == "" {
      assert a + "/" + b == ['/'] + b;
      SlashOpens(Components(b));
    } else {
      assert (a + "/" + b)[1..] == a[1..] + "/" + b;
      SplitAtSlash(a[1..], b);
      PrependAppend(a[0], Components(a[1..]), Components(b));
    }
  }

  lemma SlashOpens(rest: seq<string>)
    requires rest != []
    ensures Prepend('/', rest) == [""] + rest
  {
  }

  lemma {:induction false} JoinAppend(a: seq<string>, b: seq<string>)
    requires a != [] && b != []
    ensures Join(a + b) == Join(a) + "/" + Join(b)
  {
    assert (a + b)[1..] == a[1..] + b;
    if |a| > 1 {
      JoinAppend(a[1..], b);
      assert a[0] + "/" + (Join(a[1..]) + "/" + Join(b)) == (a[0] + "/" + Join(a[1..])) + "/" + Join(b);
    } else {
      assert a[1..] + b == b;
    }
  }

  /** Under a scope: the scope itself, or the scope, a slash and more. */
  predicate Under(path: string, scope: string) {
    path == scope || scope + "/" <= path
  }

  predicate InScope(path: string, scopes: seq<string>) {
    exists i :: 0 <= i < |scopes| && Under(path, scopes[i])
  }

  lemma PrefixMeansUnder(path: string, scope: string)
    requires Components(scope) <= Components(path)
    ensures Under(path, scope)
  {
    hide Components, Join;
    JoinUndoesSplit(path);
    JoinUndoesSplit(scope);
    var rest := Components(path)[|Components(scope)|..];
    assert Components(path) == Components(scope) + rest;
    if rest != [] {
      JoinAppend(Components(scope), rest);
    } else {
      assert Components(path) == Components(scope);
    }
  }

  /** A scope holds whole components only: a path is under it exactly when its components begin with the scope's. */
  lemma UnderIsByComponents(path: string, scope: string)
    ensures Under(path, scope) <==> Components(scope) <= Components(path)
  {
    hide Components;
    if Under(path, scope) {
      if path != scope {
        var rest := path[|scope| + 1..];
        assert path == scope + "/" + rest;
        SplitAtSlash(scope, rest);
      }
    } else if Components(scope) <= Components(path) {
      PrefixMeansUnder(path, scope);
    }
  }

  // ---- The plan ----------------------------------------------------------------------------

  const HEADER_ONLY_HOST := "core"

  function PathOf(name: string): string {
    "src/" + name
  }

  function PathsOf(names: seq<string>): (p: seq<string>)
    ensures |p| == |names| && forall i :: 0 <= i < |p| ==> p[i] == PathOf(names[i])
  {
    seq(|names|, i requires 0 <= i < |names| => PathOf(names[i]))
  }

  /** The shard a module is swept in: its own if it has a source, else the host. */
  function OwnerOf(name: string, sources: set<string>): string {
    if name in sources then name else HEADER_ONLY_HOST
  }

  type Shards = map<string, seq<string>>

  /** The modules among these that a shard owns, its own first. */
  function Owned(names: seq<string>, sources: set<string>, shard: string): seq<string> {
    [shard] + HeaderOnly(names, sources, shard)
  }

  function HeaderOnly(names: seq<string>, sources: set<string>, shard: string): seq<string> {
    if names == [] then []
    else
      var last := names[|names| - 1];
      HeaderOnly(names[..|names| - 1], sources, shard)
      + if last !in sources && shard == HEADER_ONLY_HOST then [last] else []
  }

  lemma {:induction false} HeaderOnlyIs(names: seq<string>, sources: set<string>, shard: string)
    requires forall i, j :: 0 <= i < j < |names| ==> names[i] != names[j]
    ensures var h := HeaderOnly(names, sources, shard);
            && (forall name :: name in h <==> name in names && name !in sources && shard == HEADER_ONLY_HOST)
            && forall i, j :: 0 <= i < j < |h| ==> h[i] != h[j]
  {
    if names != [] {
      var n := |names| - 1;
      HeaderOnlyIs(names[..n], sources, shard);
      assert names == names[..n] + [names[n]];
      assert names[n] !in names[..n];
    }
  }

  lemma PathsGrow(names: seq<string>, name: string)
    ensures PathsOf(names + [name]) == PathsOf(names) + [PathOf(name)]
  {
  }

  /** The plan: a shard for each module with a source, with what it owns. */
  predicate IsPlan(shards: Shards, names: seq<string>, sources: set<string>) {
    shards.Keys == sources && forall s :: s in sources ==> shards[s] == PathsOf(Owned(names, sources, s))
  }

  /** The modules, in order, each with or without a source; refused if the host has none. */
  method Plan(names: seq<string>, sources: set<string>) returns (shards: Option<Shards>)
    requires forall i, j :: 0 <= i < j < |names| ==> names[i] != names[j]
    requires forall name :: name in sources ==> name in names
    ensures shards.None? <==> HEADER_ONLY_HOST !in sources
    ensures shards.Some? ==> IsPlan(shards.value, names, sources)
  {
    var plan: Shards := map name | name in sources :: [PathOf(name)];
    if HEADER_ONLY_HOST !in plan {
      return None;
    }
    for i := 0 to |names|
      invariant plan.Keys == sources
      invariant forall s :: s in sources ==> plan[s] == PathsOf(Owned(names[..i], sources, s))
    {
      var name := names[i];
      assert names[..i + 1][..i] == names[..i];
      if name !in plan {
        PathsGrow(Owned(names[..i], sources, HEADER_ONLY_HOST), name);
        plan := plan[HEADER_ONLY_HOST := plan[HEADER_ONLY_HOST] + [PathOf(name)]];
      }
    }
    assert names[..|names|] == names;
    return Some(plan);
  }

  /** Every module is in exactly one shard, once. */
  lemma EveryModuleOnce(names: seq<string>, sources: set<string>, name: string, shard: string)
    requires forall i, j :: 0 <= i < j < |names| ==> names[i] != names[j]
    requires HEADER_ONLY_HOST in sources && forall name :: name in sources ==> name in names
    requires name in names && shard in sources
    ensures OwnerOf(name, sources) in sources
    ensures name in Owned(names, sources, shard) <==> shard == OwnerOf(name, sources)
    ensures var o := Owned(names, sources, shard); forall i, j :: 0 <= i < j < |o| ==> o[i] != o[j]
  {
    HeaderOnlyIs(names, sources, shard);
  }

  lemma ComponentsOfModule(name: string)
    requires '/' !in name
    ensures Components(PathOf(name)) == ["src", name]
  {
    assert PathOf(name) == "src" + "/" + name;
    SplitAtSlash("src", name);
    OneComponent("src");
    OneComponent(name);
  }

  lemma {:induction false} OneComponent(name: string)
    requires '/' !in name
    ensures Components(name) == [name]
  {
    if name != "" {
      OneComponent(name[1..]);
      assert [name[0]] + name[1..] == name;
      assert [name[1..]][1..] == [];
    }
  }

  /** No source is under two modules. */
  lemma ModulesAreDisjoint(path: string, a: string, b: string)
    requires '/' !in a && '/' !in b && Under(path, PathOf(a)) && Under(path, PathOf(b))
    ensures a == b
  {
    UnderIsByComponents(path, PathOf(a));
    UnderIsByComponents(path, PathOf(b));
    ComponentsOfModule(a);
    ComponentsOfModule(b);
    assert ["src", a][1] == Components(path)[1] == ["src", b][1];
  }

  /** The modules of a project: distinct names without a slash, the host among those with a source. */
  predicate IsProject(names: seq<string>, sources: set<string>) {
    && (forall i, j :: 0 <= i < j < |names| ==> names[i] != names[j])
    && (forall name :: name in names ==> '/' !in name)
    && (forall name :: name in sources ==> name in names)
    && HEADER_ONLY_HOST in sources
  }

  /** A source of a module is in the scope of the shard that owns the module, and of no other. */
  lemma OwnershipIsExact(names: seq<string>, sources: set<string>, name: string, shard: string, path: string)
    requires IsProject(names, sources) && name in names && shard in sources && Under(path, PathOf(name))
    ensures InScope(path, PathsOf(Owned(names, sources, shard))) <==> shard == OwnerOf(name, sources)
  {
    hide Under, Owned;
    EveryModuleOnce(names, sources, name, shard);
    var owned := Owned(names, sources, shard);
    if shard == OwnerOf(name, sources) {
      var i :| 0 <= i < |owned| && owned[i] == name;
      assert Under(path, PathsOf(owned)[i]);
    } else if InScope(path, PathsOf(owned)) {
      var i :| 0 <= i < |owned| && Under(path, PathsOf(owned)[i]);
      OwnedAreModules(names, sources, shard);
      ModulesAreDisjoint(path, name, owned[i]);
    }
  }

  lemma OwnedAreModules(names: seq<string>, sources: set<string>, shard: string)
    requires IsProject(names, sources) && shard in sources
    ensures forall i :: 0 <= i < |Owned(names, sources, shard)| ==> Owned(names, sources, shard)[i] in names
  {
    HeaderOnlyIs(names, sources, shard);
  }
}
