/** Packages and their dependencies (buildorder.py). */
module Dependencies {

  /** A package name, as its rank in alphabetical order. */
  type Name = nat

  /** The dependencies of every package. */
  type Graph = map<Name, set<Name>>

  predicate Closed(deps: Graph) {
    forall p :: p in deps ==> deps[p] <= deps.Keys
  }

  // ----- Paths -----

  /** Each element depends on the next one. */
  predicate IsPath(deps: Graph, path: seq<Name>) {
    && (forall i :: 0 <= i < |path| ==> path[i] in deps)
    && (forall i :: 0 <= i < |path| - 1 ==> path[i + 1] in deps[path[i]])
  }

  predicate IsCycle(deps: Graph, path: seq<Name>) {
    2 <= |path| && IsPath(deps, path) && path[0] == path[|path| - 1]
  }

  ghost predicate Acyclic(deps: Graph) {
    forall path :: !IsCycle(deps, path)
  }

  ghost predicate PathBetween(deps: Graph, p: Name, q: Name, path: seq<Name>) {
    2 <= |path| && IsPath(deps, path) && path[0] == p && path[|path| - 1] == q
  }

  ghost predicate DependsOn(deps: Graph, p: Name, q: Name) {
    exists path :: PathBetween(deps, p, q, path)
  }

  /** All packages that a package depends on, directly or not. */
  ghost function Transitive(deps: Graph, p: Name): set<Name> {
    set q | q in deps && DependsOn(deps, p, q)
  }

  lemma DirectDependency(deps: Graph, p: Name, d: Name)
    requires Closed(deps) && p in deps && d in deps[p]
    ensures d in Transitive(deps, p)
  {
    assert PathBetween(deps, p, d, [p, d]);
  }

  lemma TransitiveOfDependency(deps: Graph, p: Name, d: Name)
    requires Closed(deps) && p in deps && d in deps[p]
    ensures Transitive(deps, d) <= Transitive(deps, p)
  {
    forall q | q in Transitive(deps, d) ensures q in Transitive(deps, p) {
      var path :| PathBetween(deps, d, q, path);
      assert PathBetween(deps, p, q, [p] + path);
    }
  }

  lemma NotOnItself(deps: Graph, p: Name)
    requires Acyclic(deps)
    ensures p !in Transitive(deps, p)
  {
    if p in Transitive(deps, p) {
      var path :| PathBetween(deps, p, p, path);
      assert IsCycle(deps, path);
    }
  }

  /** On an acyclic graph the number of transitive dependencies falls from a package to its dependencies. */
  lemma FewerDependencies(deps: Graph, p: Name, d: Name)
    requires Closed(deps) && Acyclic(deps) && p in deps && d in deps[p]
    ensures |Transitive(deps, d)| < |Transitive(deps, p)|
  {
    hide Transitive, Acyclic;
    DirectDependency(deps, p, d);
    TransitiveOfDependency(deps, p, d);
    NotOnItself(deps, d);
    SmallerSet(Transitive(deps, d), Transitive(deps, p), d);
  }

  lemma {:induction false} SmallerSet<T>(a: set<T>, b: set<T>, x: T)
    requires a <= b && x in b && x !in a
    ensures |a| < |b|
  {
    SubsetSize(a, b - {x});
  }

  lemma {:induction false} SubsetSize<T>(a: set<T>, b: set<T>)
    requires a <= b
    ensures |a| <= |b|
    decreases a
  {
    if a != {} {
      var x :| x in a;
      SubsetSize(a - {x}, b - {x});
    }
  }

  /** A transitive dependency is a direct one or one of a direct one. */
  lemma TransitiveStep(deps: Graph, p: Name, q: Name)
    requires Closed(deps) && q in Transitive(deps, p)
    ensures p in deps && exists d :: d in deps[p] && (q == d || q in Transitive(deps, d))
  {
    var path :| PathBetween(deps, p, q, path);
    var d := path[1];
    if |path| > 2 {
      assert PathBetween(deps, d, q, path[1..]);
    }
    assert d in deps[p];
  }

  // ----- Orders -----

  function Elements<T>(s: seq<T>): set<T> {
    set x | x in s
  }

  predicate NoDuplicates<T(==)>(s: seq<T>) {
    forall i, j :: 0 <= i < j < |s| ==> s[i] != s[j]
  }

  /** Every package stands after its dependencies. */
  predicate DependenciesFirst(deps: Graph, order: seq<Name>) {
    forall i :: 0 <= i < |order| ==> order[i] in deps && deps[order[i]] <= Elements(order[..i])
  }

  /** Along a path in an ordered list the positions fall. */
  lemma {:induction false} PathFalls(deps: Graph, order: seq<Name>, path: seq<Name>, k0: nat, i: nat) returns (k: nat)
    requires DependenciesFirst(deps, order) && IsPath(deps, path) && i < |path|
    requires k0 < |order| && order[k0] == path[0]
    ensures k + i <= k0 && order[k] == path[i]
    decreases i
  {
    if i == 0 {
      k := k0;
    } else {
      var j := PathFalls(deps, order, path, k0, i - 1);
      assert path[i - 1 + 1] in deps[order[j]];
      assert path[i] in Elements(order[..j]);
      k :| 0 <= k < j && order[..j][k] == path[i];
    }
  }

  /** Packages that can be listed with their dependencies first do not depend on each other in a circle. */
  lemma OrderedIsAcyclic(deps: Graph, order: seq<Name>)
    requires DependenciesFirst(deps, order) && NoDuplicates(order) && Elements(order) == deps.Keys
    ensures Acyclic(deps)
  {
    forall path ensures !IsCycle(deps, path) {
      if IsCycle(deps, path) {
        assert path[0] in Elements(order);
        var k0 :| 0 <= k0 < |order| && order[k0] == path[0];
        var k := PathFalls(deps, order, path, k0, |path| - 1);
      }
    }
  }

  // ----- Circles -----

  /** Every one of the packages depends on one of them. */
  predicate Stuck(deps: Graph, left: set<Name>) {
    left <= deps.Keys && forall p :: p in left ==> deps[p] * left != {}
  }

  /** A walk of any length through packages that are stuck. */
  lemma {:induction false} Walk(deps: Graph, left: set<Name>, n: nat) returns (path: seq<Name>)
    requires Stuck(deps, left) && left != {}
    ensures IsPath(deps, path) && |path| == n + 1 && Elements(path) <= left
  {
    if n == 0 {
      var p :| p in left;
      path := [p];
    } else {
      var before := Walk(deps, left, n - 1);
      var last := before[n - 1];
      assert last in Elements(before);
      var next :| next in deps[last] * left;
      path := before + [next];
      assert Elements(path) == Elements(before) + {next};
    }
  }

  lemma {:induction false} Distinguished<T>(s: seq<T>)
    requires NoDuplicates(s)
    ensures |Elements(s)| == |s|
  {
    if s != [] {
      var n := |s| - 1;
      Distinguished(s[..n]);
      assert Elements(s) == Elements(s[..n]) + {s[n]};
      assert s[n] !in Elements(s[..n]);
    }
  }

  /** Packages that are stuck contain a circle. */
  lemma StuckIsCyclic(deps: Graph, left: set<Name>)
    requires Stuck(deps, left) && left != {}
    ensures !Acyclic(deps)
  {
    var path := Walk(deps, left, |left|);
    if NoDuplicates(path) {
      Distinguished(path);
      SubsetSize(Elements(path), left);
    }
    var i, j :| 0 <= i < j < |path| && path[i] == path[j];
    var circle := path[i..j + 1];
    assert IsCycle(deps, circle);
  }

  // ----- Sorting -----

  predicate Increasing(s: seq<Name>) {
    forall i, j :: 0 <= i < j < |s| ==> s[i] < s[j]
  }

  ghost predicate IsLeast(s: set<Name>, m: Name) {
    m in s && forall x :: x in s ==> m <= x
  }

  lemma {:induction false} HasLeast(s: set<Name>) returns (m: Name)
    requires s != {}
    ensures IsLeast(s, m)
  {
    var one :| one in s;
    var rest := s - {one};
    assert forall x :: x in s ==> x == one || x in rest;
    if rest == {} {
      m := one;
    } else {
      m := HasLeast(rest);
      if one < m {
        m := one;
      }
    }
  }

  /** The names in alphabetical order. */
  method Sorted(s: set<Name>) returns (r: seq<Name>)
    ensures Increasing(r) && Elements(r) == s
  {
    r := [];
    var todo := s;
    while todo != {}
      invariant Increasing(r) && Elements(r) + todo == s && (forall x, y :: x in r && y in todo ==> x < y)
    {
      ghost var least := HasLeast(todo);
      var m :| m in todo && forall x :: x in todo ==> m <= x;
      assert Elements(r + [m]) == Elements(r) + {m};
      assert forall i :: 0 <= i < |r| ==> r[i] in r;
      r, todo := r + [m], todo - {m};
    }
  }
}
