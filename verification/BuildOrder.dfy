/** The build order of all packages, and the dependencies of one package (buildorder.py). */
module BuildOrder {
  import opened Wrappers
  import opened Dependencies

  // ----- The reverse of the dependencies -----

  /** The packages that need each package. */
  ghost predicate IsReverse(deps: Graph, neededBy: Graph) {
    neededBy.Keys == deps.Keys && forall q :: q in deps ==> neededBy[q] == Needing(deps, q)
  }

  ghost function Needing(deps: Graph, q: Name): set<Name> {
    set p | p in deps && q in deps[p]
  }

  /** The edges of the packages in done, and of package p those to the names in some, have been reversed. */
  ghost predicate ReversedSoFar(deps: Graph, neededBy: Graph, done: set<Name>, p: Name, some: set<Name>) {
    && neededBy.Keys == deps.Keys
    && forall b :: b in deps ==> neededBy[b] == Needing(deps, b) * (done + if b in some then {p} else {})
  }

  lemma ReverseOne(deps: Graph, neededBy: Graph, done: set<Name>, p: Name, some: set<Name>, d: Name)
    requires ReversedSoFar(deps, neededBy, done, p, some) && p in deps && d in deps[p] && d in deps
    ensures ReversedSoFar(deps, neededBy[d := neededBy[d] + {p}], done, p, some + {d})
  {
    assert p in Needing(deps, d);
  }

  lemma ReverseStart(deps: Graph, neededBy: Graph, done: set<Name>, p: Name, p0: Name)
    requires ReversedSoFar(deps, neededBy, done, p0, {})
    ensures ReversedSoFar(deps, neededBy, done, p, {})
  {
  }

  lemma ReverseEnd(deps: Graph, neededBy: Graph, done: set<Name>, p: Name)
    requires p in deps && ReversedSoFar(deps, neededBy, done, p, deps[p])
    ensures ReversedSoFar(deps, neededBy, done + {p}, p, {})
  {
    forall b | b in deps ensures neededBy[b] == Needing(deps, b) * (done + {p}) {
      assert p in Needing(deps, b) <==> b in deps[p];
    }
  }

  lemma ReverseDone(deps: Graph, neededBy: Graph, p: Name)
    requires ReversedSoFar(deps, neededBy, deps.Keys, p, {})
    ensures IsReverse(deps, neededBy)
  {
    forall b | b in deps ensures neededBy[b] == Needing(deps, b) {
      assert Needing(deps, b) <= deps.Keys;
    }
  }

  /** needed_by; it is an error if a package depends on one that does not exist. */
  method ReadNeededBy(deps: Graph) returns (r: Option<Graph>)
    ensures r.Some? <==> Closed(deps)
    ensures r.Some? ==> IsReverse(deps, r.value)
  {
    hide ReversedSoFar;
    var neededBy: Graph := map p | p in deps :: {};
    var todo := deps.Keys;
    ghost var last := 0;
    NothingReversed(deps, neededBy);
    assert deps.Keys - todo == {};
    while todo != {}
      invariant todo <= deps.Keys && neededBy.Keys == deps.Keys
      invariant forall p :: p in deps && p !in todo ==> deps[p] <= deps.Keys
      invariant ReversedSoFar(deps, neededBy, deps.Keys - todo, last, {})
    {
      var p :| p in todo;
      var names := deps[p];
      ReverseStart(deps, neededBy, deps.Keys - todo, p, last);
      assert deps[p] - names == {};
      while names != {}
        invariant names <= deps[p] && deps[p] - names <= deps.Keys && neededBy.Keys == deps.Keys
        invariant ReversedSoFar(deps, neededBy, deps.Keys - todo, p, deps[p] - names)
      {
        var d :| d in names;
        if d !in deps { return None; }
        ReverseOne(deps, neededBy, deps.Keys - todo, p, deps[p] - names, d);
        assert deps[p] - names + {d} == deps[p] - (names - {d});
        neededBy := neededBy[d := neededBy[d] + {p}];
        names := names - {d};
      }
      assert deps[p] - names == deps[p];
      ReverseEnd(deps, neededBy, deps.Keys - todo, p);
      assert deps.Keys - todo + {p} == deps.Keys - (todo - {p});
      todo := todo - {p};
      last := p;
    }
    assert deps.Keys - todo == deps.Keys;
    ReverseDone(deps, neededBy, last);
    r := Some(neededBy);
  }

  lemma NothingReversed(deps: Graph, neededBy: Graph)
    requires neededBy.Keys == deps.Keys && forall p :: p in deps ==> neededBy[p] == {}
    ensures ReversedSoFar(deps, neededBy, {}, 0, {})
  {
  }

  // ----- All packages -----

  datatype Result = Order(packages: seq<Name>) | NoStart | Circular(left: set<Name>)

  /** Every package once, after its dependencies. */
  ghost predicate IsBuildOrder(deps: Graph, order: seq<Name>) {
    NoDuplicates(order) && Elements(order) == deps.Keys && DependenciesFirst(deps, order)
  }

  /** The packages without dependencies. */
  function Leaves(deps: Graph): set<Name> {
    set p | p in deps && deps[p] == {}
  }

  /** What holds whenever a package is taken from the queue: enqueued are the packages without unbuilt dependencies. */
  ghost predicate QueueOk(deps: Graph, order: seq<Name>, queue: seq<Name>, remaining: Graph) {
    && NoDuplicates(order + queue) && Elements(order + queue) <= deps.Keys && DependenciesFirst(deps, order)
    && remaining.Keys == deps.Keys
    && (forall p :: p in deps ==> remaining[p] == deps[p] - Elements(order))
    && (forall p :: p in deps ==> (p in order + queue <==> remaining[p] == {}))
  }

  /** The same while package p has just been built and the packages in todo, which need it, have not been looked at. */
  ghost predicate QueueOkBut(deps: Graph, order: seq<Name>, queue: seq<Name>, remaining: Graph, p: Name,
                             todo: set<Name>) {
    && NoDuplicates(order + queue) && Elements(order + queue) <= deps.Keys && DependenciesFirst(deps, order)
    && remaining.Keys == deps.Keys && p in order
    && (forall q :: q in todo ==> q in deps && p in deps[q])
    && (forall q :: q in deps ==> remaining[q] == deps[q] - Elements(order) + if q in todo then {p} else {})
    && (forall q :: q in deps ==> (q in order + queue <==> remaining[q] == {}))
  }

  lemma StartQueue(deps: Graph, queue: seq<Name>)
    requires Increasing(queue) && Elements(queue) == Leaves(deps)
    ensures QueueOk(deps, [], queue, deps)
  {
    assert [] + queue == queue;
    forall p | p in deps ensures p in queue <==> deps[p] == {} {
      assert p in queue <==> p in Elements(queue);
    }
    forall p | p in deps ensures deps[p] == deps[p] - Elements([]) {
    }
  }

  lemma TakePackage(deps: Graph, order: seq<Name>, queue: seq<Name>, remaining: Graph, todo: set<Name>)
    requires QueueOk(deps, order, queue, remaining) && queue != []
    requires todo == Needing(deps, queue[0])
    ensures queue[0] in deps && remaining.Keys == deps.Keys && |order| < |deps.Keys|
    ensures QueueOkBut(deps, order + [queue[0]], queue[1..], remaining, queue[0], todo)
  {
    hide DependenciesFirst;
    var p := queue[0];
    var all := order + queue;
    assert order + [p] + queue[1..] == all;
    assert all[|order|] == p && p in all;
    assert Elements(order + [p]) == Elements(order) + {p};
    assert p !in order by {
      assert forall i :: 0 <= i < |order| ==> all[i] == order[i];
    }
    forall q | q in deps ensures remaining[q] == deps[q] - Elements(order + [p]) + if q in todo then {p} else {} {
      assert q in todo <==> p in deps[q];
    }
    assert remaining[p] == {};
    OneMore(deps, order, p);
    OrderFits(deps, order + [p], queue[1..]);
  }

  lemma LookAt(deps: Graph, order: seq<Name>, queue: seq<Name>, remaining: Graph, p: Name, todo: set<Name>, q: Name)
    requires QueueOkBut(deps, order, queue, remaining, p, todo) && q in todo
    ensures var r := remaining[q := remaining[q] - {p}];
            QueueOkBut(deps, order, if r[q] == {} then queue + [q] else queue, r, p, todo - {q})
  {
    var r := remaining[q := remaining[q] - {p}];
    assert q !in order + queue;
    if r[q] == {} {
      assert order + (queue + [q]) == order + queue + [q];
      assert Elements(order + queue + [q]) == Elements(order + queue) + {q};
    }
  }

  /** Kahn's algorithm with a queue in which every package is entered at most once. */
  method GenerateFullBuildOrder(deps: Graph, neededBy: Graph) returns (r: Result, ghost enqueued: seq<Name>)
    requires Closed(deps) && IsReverse(deps, neededBy)
    ensures r.Order? <==> deps != map[] && Acyclic(deps)
    ensures r.Order? ==> IsBuildOrder(deps, r.packages)
    ensures r.Circular? ==> r.left != {} && Stuck(deps, r.left)
    // The packages in the order in which they were entered in the queue.
    ensures NoDuplicates(enqueued) && (r.Order? ==> enqueued == r.packages)
  {
    hide QueueOk, QueueOkBut, Acyclic, Stuck, IsBuildOrder, IsReverse, NoDuplicates;
    var leaves := Leaves(deps);
    if leaves == {} {
      NoLeaves(deps);
      NoDuplicatesInNothing();
      return NoStart, [];
    }
    var queue := Sorted(leaves);
    var order: seq<Name> := [];
    var remaining := deps;
    StartQueue(deps, queue);
    enqueued := queue;
    while queue != []
      invariant QueueOk(deps, order, queue, remaining) && enqueued == order + queue
      decreases |deps.Keys| - |order|
    {
      var p := queue[0];
      TakePackage(deps, order, queue, remaining, Needing(deps, p));
      queue := queue[1..];
      order := order + [p];
      ghost var entered;
      queue, remaining, entered := LookAtAll(deps, neededBy, order, queue, remaining, p);
      enqueued := enqueued + entered;
    }
    Finished(deps, order, remaining);
    assert enqueued == order + [] == order;
    assert deps != map[] by {
      var leaf :| leaf in leaves;
      assert leaf in deps;
    }
    r := if Elements(order) == deps.Keys then Order(order) else Circular(deps.Keys - Elements(order));
  }

  /** The inner loop: the package is struck off the remaining dependencies of those that need it. */
  method LookAtAll(deps: Graph, neededBy: Graph, ghost order: seq<Name>, queue0: seq<Name>, remaining0: Graph, p: Name)
    returns (queue: seq<Name>, remaining: Graph, ghost entered: seq<Name>)
    requires Closed(deps) && IsReverse(deps, neededBy) && p in deps && remaining0.Keys == deps.Keys
    requires QueueOkBut(deps, order, queue0, remaining0, p, Needing(deps, p))
    ensures QueueOk(deps, order, queue, remaining) && queue == queue0 + entered
  {
    hide QueueOk, QueueOkBut;
    queue, remaining, entered := queue0, remaining0, [];
    var others := Sorted(neededBy[p]);
    var i := 0;
    assert others[0..] == others && Elements(others) <= deps.Keys;
    while i < |others|
      invariant i <= |others| && remaining.Keys == deps.Keys && queue == queue0 + entered
      invariant QueueOkBut(deps, order, queue, remaining, p, Elements(others[i..]))
    {
      var q := others[i];
      assert q in Elements(others[i..]);
      assert q in neededBy[p];
      LookAt(deps, order, queue, remaining, p, Elements(others[i..]), q);
      assert Elements(others[i..]) - {q} == Elements(others[i + 1..]) by {
        assert others[i..] == [q] + others[i + 1..];
      }
      remaining := remaining[q := remaining[q] - {p}];
      if remaining[q] == {} {
        queue := queue + [q];
        entered := entered + [q];
      }
      i := i + 1;
    }
    assert Elements(others[i..]) == {};
    AllLookedAt(deps, order, queue, remaining, p);
  }

  lemma AllLookedAt(deps: Graph, order: seq<Name>, queue: seq<Name>, remaining: Graph, p: Name)
    requires QueueOkBut(deps, order, queue, remaining, p, {})
    ensures QueueOk(deps, order, queue, remaining)
  {
  }

  lemma NoDuplicatesInNothing()
    ensures NoDuplicates<Name>([])
  {
  }

  /** When the queue is empty, all packages have been built or the others are stuck. */
  lemma Finished(deps: Graph, order: seq<Name>, remaining: Graph)
    requires Closed(deps) && QueueOk(deps, order, [], remaining)
    ensures NoDuplicates(order) && Elements(order) <= deps.Keys
    ensures Elements(order) == deps.Keys ==> IsBuildOrder(deps, order) && Acyclic(deps)
    ensures Elements(order) != deps.Keys ==>
              deps.Keys - Elements(order) != {} && Stuck(deps, deps.Keys - Elements(order)) && !Acyclic(deps)
  {
    hide Acyclic, Stuck;
    assert order + [] == order;
    if Elements(order) == deps.Keys {
      OrderedIsAcyclic(deps, order);
    } else {
      LeftIsStuck(deps, order, remaining);
      var p :| p in deps.Keys && p !in Elements(order);
      assert p in deps.Keys - Elements(order);
      StuckIsCyclic(deps, deps.Keys - Elements(order));
    }
  }

  lemma NoLeaves(deps: Graph)
    requires Closed(deps) && Leaves(deps) == {}
    ensures deps == map[] || !Acyclic(deps)
  {
    hide Acyclic, Leaves, Stuck;
    AllStuck(deps);
    if p :| p in deps {
      assert deps.Keys != {};
      StuckIsCyclic(deps, deps.Keys);
    }
  }

  lemma AllStuck(deps: Graph)
    requires Closed(deps) && Leaves(deps) == {}
    ensures Stuck(deps, deps.Keys)
  {
    forall p | p in deps ensures deps[p] * deps.Keys != {} {
      assert deps[p] != {} by {
        assert p !in Leaves(deps);
      }
      assert deps[p] * deps.Keys == deps[p];
    }
  }

  lemma OrderFits(deps: Graph, order: seq<Name>, queue: seq<Name>)
    requires NoDuplicates(order + queue) && Elements(order + queue) <= deps.Keys
    ensures |order| <= |deps.Keys|
  {
    Distinguished(order + queue);
    SubsetSize(Elements(order + queue), deps.Keys);
  }

  lemma LeftIsStuck(deps: Graph, order: seq<Name>, remaining: Graph)
    requires Closed(deps) && QueueOk(deps, order, [], remaining)
    ensures Stuck(deps, deps.Keys - Elements(order))
  {
    assert order + [] == order;
    forall p | p in deps.Keys - Elements(order) ensures deps[p] * (deps.Keys - Elements(order)) != {} {
      assert remaining[p] != {};
      var d :| d in remaining[p];
      assert d in deps[p] * (deps.Keys - Elements(order));
    }
  }

  // ----- The dependencies of one package -----

  function FirstOccurrences(s: seq<Name>): seq<Name> {
    if s == [] then []
    else
      var before, last := FirstOccurrences(s[..|s| - 1]), s[|s| - 1];
      if last in before then before else before + [last]
  }

  lemma {:induction false} FirstOccurrencesOnce(s: seq<Name>)
    ensures NoDuplicates(FirstOccurrences(s)) && Elements(FirstOccurrences(s)) == Elements(s)
  {
    if s != [] {
      var n := |s| - 1;
      FirstOccurrencesOnce(s[..n]);
      assert Elements(s) == Elements(s[..n]) + {s[n]};
      var before := FirstOccurrences(s[..n]);
      assert s[n] in before <==> s[n] in Elements(before);
      assert Elements(before + [s[n]]) == Elements(before) + {s[n]};
    }
  }

  method UniqueEverseen(s: seq<Name>) returns (r: seq<Name>)
    ensures r == FirstOccurrences(s)
  {
    r := [];
    var seen: set<Name> := {};
    var i := 0;
    while i < |s|
      invariant i <= |s| && r == FirstOccurrences(s[..i]) && seen == Elements(r)
    {
      assert s[..i + 1][..i] == s[..i];
      if s[i] !in seen {
        assert Elements(r + [s[i]]) == Elements(r) + {s[i]};
        seen := seen + {s[i]};
        r := r + [s[i]];
      }
      i := i + 1;
    }
    assert s[..i] == s;
  }

  lemma OneMore(deps: Graph, order: seq<Name>, p: Name)
    requires DependenciesFirst(deps, order) && p in deps && deps[p] <= Elements(order)
    ensures DependenciesFirst(deps, order + [p])
  {
    var more := order + [p];
    forall i | 0 <= i < |more| ensures more[i] in deps && deps[more[i]] <= Elements(more[..i]) {
      assert more[..i] == order[..i];
      assert i == |order| ==> order[..i] == order;
    }
  }

  /** Removing later occurrences keeps the dependencies first. */
  lemma {:induction false} FirstOccurrencesOrdered(deps: Graph, s: seq<Name>)
    requires DependenciesFirst(deps, s)
    ensures DependenciesFirst(deps, FirstOccurrences(s))
  {
    if s != [] {
      var n := |s| - 1;
      assert forall i :: 0 <= i < n ==> s[..n][i] == s[i] && s[..n][..i] == s[..i];
      FirstOccurrencesOrdered(deps, s[..n]);
      FirstOccurrencesOnce(s[..n]);
      var before := FirstOccurrences(s[..n]);
      OneMore(deps, before, s[n]);
    }
  }

  lemma Joined(deps: Graph, a: seq<Name>, b: seq<Name>)
    requires DependenciesFirst(deps, a) && DependenciesFirst(deps, b)
    ensures DependenciesFirst(deps, a + b) && Elements(a + b) == Elements(a) + Elements(b)
  {
    var all := a + b;
    forall i | 0 <= i < |all| ensures all[i] in deps && deps[all[i]] <= Elements(all[..i]) {
      if i < |a| {
        assert all[..i] == a[..i];
      } else {
        assert all[..i] == a + b[..i - |a|];
        assert Elements(b[..i - |a|]) <= Elements(all[..i]);
      }
    }
  }

  lemma DirectAreTransitive(deps: Graph, p: Name)
    requires Closed(deps) && p in deps
    ensures deps[p] <= Transitive(deps, p) <= deps.Keys
  {
    hide Transitive;
    forall d | d in deps[p] ensures d in Transitive(deps, p) {
      DirectDependency(deps, p, d);
    }
    TransitiveExist(deps, p);
  }

  lemma TransitiveExist(deps: Graph, p: Name)
    ensures Transitive(deps, p) <= deps.Keys
  {
  }

  /** The list holds the names seen so far and all that they depend on. */
  ghost predicate Gathered(deps: Graph, p: Name, names: set<Name>, list: seq<Name>) {
    && DependenciesFirst(deps, list) && Elements(list) <= Transitive(deps, p)
    && names <= Elements(list) && forall d :: d in names ==> Transitive(deps, d) <= Elements(list)
  }

  lemma GatherOne(deps: Graph, p: Name, names: set<Name>, list: seq<Name>, d: Name, sub: seq<Name>)
    requires Closed(deps) && p in deps && d in deps[p] && Gathered(deps, p, names, list)
    requires DependenciesFirst(deps, sub) && Elements(sub) == Transitive(deps, d)
    ensures Gathered(deps, p, names + {d}, list + sub + [d])
  {
    hide Transitive, DependenciesFirst;
    Joined(deps, list, sub);
    DirectAreTransitive(deps, d);
    OneMore(deps, list + sub, d);
    assert Elements(list + sub + [d]) == Elements(list) + Elements(sub) + {d};
    DirectDependency(deps, p, d);
    TransitiveOfDependency(deps, p, d);
  }

  lemma GatheredAll(deps: Graph, p: Name, list: seq<Name>)
    requires Closed(deps) && p in deps && Gathered(deps, p, deps[p], list)
    ensures Elements(list) == Transitive(deps, p)
  {
    hide Transitive;
    forall q | q in Transitive(deps, p) ensures q in Elements(list) {
      TransitiveStep(deps, p, q);
    }
  }

  /**
    Exactly the direct and indirect dependencies, each once and after its own
    dependencies, and never the package itself.
   */
  method RecursiveDependencies(deps: Graph, p: Name) returns (r: seq<Name>)
    requires Closed(deps) && Acyclic(deps) && p in deps
    ensures NoDuplicates(r) && Elements(r) == Transitive(deps, p) && DependenciesFirst(deps, r) && p !in r
    decreases |Transitive(deps, p)|
  {
    hide Transitive, Acyclic, DependenciesFirst, NoDuplicates;
    var list: seq<Name> := [];
    var names := Sorted(deps[p]);
    var i := 0;
    assert Elements(names[..0]) == {} && Elements(list) == {};
    NothingGathered(deps, p);
    while i < |names|
      invariant i <= |names| && Gathered(deps, p, Elements(names[..i]), list)
    {
      var d := names[i];
      assert d in Elements(names);
      FewerDependencies(deps, p, d);
      var sub := RecursiveDependencies(deps, d);
      GatherOne(deps, p, Elements(names[..i]), list, d, sub);
      assert Elements(names[..i + 1]) == Elements(names[..i]) + {d} by {
        assert names[..i + 1] == names[..i] + [d];
      }
      list := list + sub;
      list := list + [d];
      i := i + 1;
    }
    assert names[..i] == names;
    GatheredAll(deps, p, list);
    FirstOccurrencesOnce(list);
    FirstOccurrencesOrdered(deps, list);
    NotOnItself(deps, p);
    r := UniqueEverseen(list);
    assert p in r ==> p in Elements(r);
  }

  lemma NothingGathered(deps: Graph, p: Name)
    ensures Gathered(deps, p, {}, [])
  {
    assert Elements<Name>([]) == {};
  }
}
