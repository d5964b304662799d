/** Load order of plugins: a depth-first walk over the dependencies, started
    from the enabled names in alphabetical order. */
module DependencyOrder {
  import opened Manifests

  datatype OrderError =
    | Cycle(at: string)
    | MissingDependency(plugin: string, dependency: string)
    | NoManifest(plugin: string)

  datatype Outcome = Pass | Fail(error: OrderError)

  // ---------------------------------------------------------------- alphabetical order

  predicate LexLeq(a: string, b: string) {
    a == [] || (b != [] && (a[0] < b[0] || (a[0] == b[0] && LexLeq(a[1..], b[1..]))))
  }

  lemma {:induction false} LexTotal(a: string, b: string)
    ensures LexLeq(a, b) || LexLeq(b, a)
  {
    if a != [] && b != [] && a[0] == b[0] {
      LexTotal(a[1..], b[1..]);
    }
  }

  lemma {:induction false} LexTransitive(a: string, b: string, c: string)
    requires LexLeq(a, b) && LexLeq(b, c)
    ensures LexLeq(a, c)
  {
    if a != [] && a[0] == b[0] == c[0] {
      LexTransitive(a[1..], b[1..], c[1..]);
    }
  }

  ghost predicate IsLeast(x: string, names: set<string>) {
    x in names && forall y :: y in names ==> LexLeq(x, y)
  }

  lemma LeastTakesOver(x: string, m: string, names: set<string>)
    requires IsLeast(m, names) && LexLeq(x, m)
    ensures IsLeast(x, names + {x})
  {
    forall y | y in names + {x} ensures LexLeq(x, y) {
      if y in names { LexTransitive(x, m, y); } else { LexTotal(x, x); }
    }
  }

  lemma {:induction false} LeastExists(names: set<string>) returns (m: string)
    requires names != {}
    ensures IsLeast(m, names)
  {
    var x :| x in names;
    var rest := names - {x};
    assert names == rest + {x};
    LexTotal(x, x);
    if rest == {} {
      m := x;
    } else {
      m := LeastExists(rest);
      LexTotal(x, m);
      if LexLeq(x, m) {
        LeastTakesOver(x, m, rest);
        m := x;
      }
    }
  }

  ghost predicate Sorted(names: seq<string>) {
    forall i, j :: 0 <= i < j < |names| ==> LexLeq(names[i], names[j])
  }

  ghost predicate Distinct(names: seq<string>) {
    forall i, j :: 0 <= i < j < |names| ==> names[i] != names[j]
  }

  function Elems(names: seq<string>): set<string> {
    set x | x in names
  }

  method SortNames(names: set<string>) returns (sorted: seq<string>)
    ensures Sorted(sorted) && Distinct(sorted) && Elems(sorted) == names
  {
    sorted := [];
    var rest := names;
    while rest != {}
      invariant Elems(sorted) + rest == names && Elems(sorted) !! rest
      invariant Sorted(sorted) && Distinct(sorted)
      invariant forall x, y :: x in sorted && y in rest ==> LexLeq(x, y)
    {
      ghost var least := LeastExists(rest);
      var x :| x in rest && forall y :: y in rest ==> LexLeq(x, y);
      sorted, rest := sorted + [x], rest - {x};
    }
  }

  // ---------------------------------------------------------------- the graph

  /** `n` depends on `d`, both enabled. */
  ghost predicate Edge(manifests: map<string, Manifest>, enabled: set<string>, n: string, d: string) {
    n in enabled && n in manifests && d in manifests[n].dependencies * enabled
  }

  ghost predicate IsPath(manifests: map<string, Manifest>, enabled: set<string>, p: seq<string>) {
    p != [] && forall i :: 0 <= i < |p| - 1 ==> Edge(manifests, enabled, p[i], p[i + 1])
  }

  ghost predicate IsCycle(manifests: map<string, Manifest>, enabled: set<string>, p: seq<string>) {
    |p| >= 2 && p[0] == p[|p| - 1] && IsPath(manifests, enabled, p)
  }

  ghost predicate HasCycle(manifests: map<string, Manifest>, enabled: set<string>) {
    exists p :: IsCycle(manifests, enabled, p)
  }

  ghost predicate PathBetween(manifests: map<string, Manifest>, enabled: set<string>,
                              a: string, b: string, p: seq<string>) {
    IsPath(manifests, enabled, p) && p[0] == a && p[|p| - 1] == b
  }

  /** `a` needs `b`, directly or through other enabled plugins, or is `b`. */
  ghost predicate Needs(manifests: map<string, Manifest>, enabled: set<string>, a: string, b: string) {
    exists p :: PathBetween(manifests, enabled, a, b, p)
  }

  lemma NeedsItself(manifests: map<string, Manifest>, enabled: set<string>, a: string)
    ensures Needs(manifests, enabled, a, a)
  {
    assert PathBetween(manifests, enabled, a, a, [a]);
  }

  lemma NeedsThrough(manifests: map<string, Manifest>, enabled: set<string>, a: string, b: string, c: string)
    requires Edge(manifests, enabled, a, b) && Needs(manifests, enabled, b, c)
    ensures Needs(manifests, enabled, a, c)
  {
    var p :| PathBetween(manifests, enabled, b, c, p);
    assert PathBetween(manifests, enabled, a, c, [a] + p);
  }

  /** Every plugin of `order` is enabled, has a manifest, occurs once, and
      comes after each of its enabled dependencies. */
  ghost predicate Ordered(manifests: map<string, Manifest>, enabled: set<string>, order: seq<string>) {
    && Distinct(order)
    && forall i :: 0 <= i < |order| ==>
         && order[i] in enabled && order[i] in manifests
         && manifests[order[i]].dependencies * enabled <= Elems(order[..i])
  }

  /** A plugin precedes an alphabetically smaller one only when some plugin no
      larger than the latter needs it. */
  ghost predicate Alphabetical(manifests: map<string, Manifest>, enabled: set<string>, order: seq<string>) {
    forall i, j {:trigger NeededEarly(manifests, enabled, order[i], order[j])} :: 0 <= i < j < |order| ==>
      NeededEarly(manifests, enabled, order[i], order[j])
  }

  ghost predicate NeededEarly(manifests: map<string, Manifest>, enabled: set<string>, x: string, y: string) {
    exists r :: r in enabled && LexLeq(r, y) && Needs(manifests, enabled, r, x)
  }

  /** What each reported error says about the graph. */
  ghost predicate Justified(manifests: map<string, Manifest>, enabled: set<string>, e: OrderError) {
    match e
    case Cycle(at) => exists p :: IsCycle(manifests, enabled, p) && p[0] == at
    case MissingDependency(n, d) => Edge(manifests, enabled, n, d) && d !in manifests
    case NoManifest(n) => n in enabled && n !in manifests
  }

  // ---------------------------------------------------------------- an ordering excludes cycles

  lemma {:induction false} PathDescends(manifests: map<string, Manifest>, enabled: set<string>,
                                        order: seq<string>, p: seq<string>, i: nat) returns (j: nat)
    requires Ordered(manifests, enabled, order) && IsPath(manifests, enabled, p)
    requires i < |order| && order[i] == p[0]
    ensures j < |order| && order[j] == p[|p| - 1] && j + |p| - 1 <= i
  {
    if |p| == 1 {
      j := i;
    } else {
      assert Edge(manifests, enabled, p[0], p[1]);
      assert p[1] in Elems(order[..i]);
      var k :| 0 <= k < i && order[k] == p[1];
      assert forall m :: 0 <= m < |p| - 2 ==> Edge(manifests, enabled, p[1..][m], p[1..][m + 1]) by {
        forall m | 0 <= m < |p| - 2 ensures Edge(manifests, enabled, p[1..][m], p[1..][m + 1]) {
          assert Edge(manifests, enabled, p[m + 1], p[m + 2]);
        }
      }
      j := PathDescends(manifests, enabled, order, p[1..], k);
    }
  }

  lemma OrderExcludesCycles(manifests: map<string, Manifest>, enabled: set<string>, order: seq<string>)
    requires Ordered(manifests, enabled, order) && Elems(order) == enabled
    ensures !HasCycle(manifests, enabled)
  {
    if HasCycle(manifests, enabled) {
      var p :| IsCycle(manifests, enabled, p);
      assert Edge(manifests, enabled, p[0], p[1]);
      var i :| 0 <= i < |order| && order[i] == p[0];
      var j := PathDescends(manifests, enabled, order, p, i);
      assert false;
    }
  }

  lemma JustifiedMeansNoOrder(manifests: map<string, Manifest>, enabled: set<string>, e: OrderError)
    requires Justified(manifests, enabled, e)
    ensures !(enabled <= manifests.Keys) || HasCycle(manifests, enabled)
  {
  }

  lemma PathCloses(manifests: map<string, Manifest>, enabled: set<string>, path: seq<string>, name: string)
    requires name in path && IsPath(manifests, enabled, path + [name])
    ensures exists p :: IsCycle(manifests, enabled, p) && p[0] == name
  {
    var k :| 0 <= k < |path| && path[k] == name;
    var p := path[k..] + [name];
    forall i | 0 <= i < |p| - 1 ensures Edge(manifests, enabled, p[i], p[i + 1]) {
      assert p[i] == (path + [name])[k + i] && p[i + 1] == (path + [name])[k + i + 1];
      assert Edge(manifests, enabled, (path + [name])[k + i], (path + [name])[k + i + 1]);
    }
    assert IsCycle(manifests, enabled, p);
  }

  // ---------------------------------------------------------------- the walk

  class Walk {
    const manifests: map<string, Manifest>
    const enabled: set<string>
    var visiting: set<string>
    var visited: seq<string>

    constructor (manifests: map<string, Manifest>, enabled: set<string>)
      ensures this.manifests == manifests && this.enabled == enabled
      ensures visiting == {} && visited == []
    {
      this.manifests, this.enabled := manifests, enabled;
      visiting, visited := {}, [];
    }

    ghost predicate Valid()
      reads this
    {
      Ordered(manifests, enabled, visited) && visiting <= enabled && visiting !! Elems(visited)
    }

    /** Visits `name`; `path` is the chain of visits in progress. */
    method Visit(name: string, ghost path: seq<string>) returns (r: Outcome)
      requires Valid() && name in enabled
      requires Elems(path) == visiting && IsPath(manifests, enabled, path + [name])
      modifies this
      ensures r.Pass? ==> Valid() && visiting == old(visiting)
      ensures r.Pass? ==> old(visited) <= visited && name in visited
      ensures r.Pass? ==> forall i :: |old(visited)| <= i < |visited| ==> Needs(manifests, enabled, name, visited[i])
      ensures r.Fail? ==> Justified(manifests, enabled, r.error)
      decreases enabled - visiting
    {
      if name in visiting {
        PathCloses(manifests, enabled, path, name);
        return Fail(Cycle(name));
      }
      if name in visited {
        return Pass;
      }
      visiting := visiting + {name};
      if name !in manifests {
        return Fail(NoManifest(name));
      }
      var dependencies := SortNames(manifests[name].dependencies * enabled);
      for i := 0 to |dependencies|
        invariant Valid() && visiting == old(visiting) + {name}
        invariant old(visited) <= visited
        invariant forall j :: 0 <= j < i ==> dependencies[j] in visited
        invariant forall j :: |old(visited)| <= j < |visited| ==> Needs(manifests, enabled, name, visited[j])
      {
        var dependency := dependencies[i];
        assert dependency in Elems(dependencies);
        assert Edge(manifests, enabled, name, dependency);
        if dependency !in manifests {
          return Fail(MissingDependency(name, dependency));
        }
        ghost var before := visited;
        StepPath(path, name, dependency);
        r := Visit(dependency, path + [name]);
        if r.Fail? {
          return;
        }
        forall j | |old(visited)| <= j < |visited| ensures Needs(manifests, enabled, name, visited[j]) {
          if j >= |before| {
            NeedsThrough(manifests, enabled, name, dependency, visited[j]);
          }
        }
      }
      visiting := visiting - {name};
      assert visiting == old(visiting);
      NeedsItself(manifests, enabled, name);
      Append(name);
      return Pass;
    }

    lemma StepPath(path: seq<string>, name: string, dependency: string)
      requires IsPath(manifests, enabled, path + [name]) && Edge(manifests, enabled, name, dependency)
      ensures IsPath(manifests, enabled, path + [name] + [dependency])
      ensures Elems(path + [name]) == Elems(path) + {name}
    {
      var p := path + [name] + [dependency];
      forall i | 0 <= i < |p| - 1 ensures Edge(manifests, enabled, p[i], p[i + 1]) {
        if i < |path| {
          assert Edge(manifests, enabled, (path + [name])[i], (path + [name])[i + 1]);
        }
      }
    }

    method Append(name: string)
      requires Valid() && name in enabled && name in manifests
      requires name !in visited && name !in visiting
      requires manifests[name].dependencies * enabled <= Elems(visited)
      modifies this
      ensures Valid() && visiting == old(visiting) && visited == old(visited) + [name]
    {
      visited := visited + [name];
      forall i | 0 <= i < |visited|
        ensures visited[i] in enabled && visited[i] in manifests
        ensures manifests[visited[i]].dependencies * enabled <= Elems(visited[..i])
      {
        if i < |old(visited)| {
          assert visited[..i] == old(visited)[..i];
        } else {
          assert visited[..i] == old(visited);
        }
      }
    }
  }

  /** The order is produced exactly when every enabled plugin has a manifest and
      the dependencies among enabled plugins have no cycle. */
  method ComputeOrder(manifests: map<string, Manifest>, enabled: set<string>)
      returns (r: Result<seq<string>, OrderError>)
    ensures r.Success? <==> enabled <= manifests.Keys && !HasCycle(manifests, enabled)
    ensures r.Success? ==> Ordered(manifests, enabled, r.value) && Elems(r.value) == enabled
    ensures r.Success? ==> Alphabetical(manifests, enabled, r.value)
    ensures r.Failure? ==> Justified(manifests, enabled, r.error)
  {
    var walk := new Walk(manifests, enabled);
    var names := SortNames(enabled);
    for i := 0 to |names|
      invariant walk.manifests == manifests && walk.enabled == enabled
      invariant walk.Valid() && walk.visiting == {}
      invariant forall j :: 0 <= j < i ==> names[j] in walk.visited
      invariant Alphabetical(manifests, enabled, walk.visited)
      invariant RootsFirst(manifests, enabled, names, i, walk.visited)
    {
      ghost var before := walk.visited;
      assert names[i] in Elems(names);
      var o := walk.Visit(names[i], []);
      if o.Fail? {
        JustifiedMeansNoOrder(manifests, enabled, o.error);
        return Failure(o.error);
      }
      RootFirst(manifests, enabled, names, i, before, walk.visited);
    }
    AllVisited(enabled, names, walk.visited);
    OrderExcludesCycles(manifests, enabled, walk.visited);
    assert forall x :: x in enabled ==> x in Elems(walk.visited);
    return Success(walk.visited);
  }

  lemma AllVisited(enabled: set<string>, names: seq<string>, visited: seq<string>)
    requires Elems(names) == enabled && Elems(visited) <= enabled
    requires forall j :: 0 <= j < |names| ==> names[j] in visited
    ensures Elems(visited) == enabled
  {
    forall x | x in enabled ensures x in visited {
      assert x in Elems(names);
    }
  }

  /** Whatever has been visited is needed by a name before all of `names[i..]`. */
  ghost predicate RootsFirst(manifests: map<string, Manifest>, enabled: set<string>,
                             names: seq<string>, i: nat, visited: seq<string>) {
    forall k, j {:trigger NeededEarly(manifests, enabled, visited[k], names[j])} ::
      0 <= k < |visited| && i <= j < |names| ==> NeededEarly(manifests, enabled, visited[k], names[j])
  }

  lemma RootFirst(manifests: map<string, Manifest>, enabled: set<string>,
                  names: seq<string>, i: nat, before: seq<string>, after: seq<string>)
    requires Sorted(names) && Elems(names) == enabled && i < |names|
    requires before <= after && Elems(after) <= enabled && Distinct(after)
    requires forall j :: 0 <= j < i ==> names[j] in before
    requires Alphabetical(manifests, enabled, before)
    requires RootsFirst(manifests, enabled, names, i, before)
    requires forall k :: |before| <= k < |after| ==> Needs(manifests, enabled, names[i], after[k])
    ensures Alphabetical(manifests, enabled, after)
    ensures RootsFirst(manifests, enabled, names, i + 1, after)
  {
    forall k, j | 0 <= k < |after| && i <= j < |names|
      ensures NeededEarly(manifests, enabled, after[k], names[j])
    {
      if k >= |before| {
        LexTotal(names[i], names[i]);
        assert names[i] in enabled && LexLeq(names[i], names[j]);
      }
    }
    forall k, j | 0 <= k < j < |after| ensures NeededEarly(manifests, enabled, after[k], after[j]) {
      if j >= |before| {
        assert after[j] in Elems(names);
        var m :| 0 <= m < |names| && names[m] == after[j];
        assert m >= i;
      }
    }
  }
}
