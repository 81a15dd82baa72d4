/**
  The order in which crates are published
  (rust/otap-dataflow/xtask/src/crates_publish.rs, `publish_order`): a
  depth-first walk of the dependencies among the packages that are published.

  `VisitOne` and `VisitAll` are that walk on values, over the graph of package
  names; the class at the end updates its three collections as the Rust code
  does.
 */
module CrateOrder {
  import opened Options
  import opened Ordering

  /** Each package name with the names, among these, that it depends on. */
  type Graph = map<string, set<string>>

  predicate Closed(g: Graph) {
    forall u :: u in g ==> g[u] <= g.Keys
  }

  /** What the walk has finished: the visited names, and the order so far. */
  datatype Search = Search(visited: set<string>, ordered: seq<string>)

  const START: Search := Search({}, [])

  /** Finishes `name` after its dependencies; `None` when it is being visited. */
  ghost function VisitOne(g: Graph, name: string, visiting: set<string>, s: Search): (r: Option<Search>)
    requires Closed(g) && name in g && visiting <= g.Keys
    decreases |g.Keys - visiting|, 0
  {
    if name in s.visited then Some(s)
    else if name in visiting then None
    else
      Fewer(g, name, visiting);
      var r := VisitAll(g, SortedStrings(g[name]), visiting + {name}, s);
      if r == None then None
      else Some(Search(r.value.visited + {name}, r.value.ordered + [name]))
  }

  /** A visit that goes on to the dependencies. */
  lemma {:induction false} VisitFurther(g: Graph, name: string, visiting: set<string>, s: Search)
    requires Closed(g) && name in g && visiting <= g.Keys && name !in s.visited && name !in visiting
    ensures var r := VisitAll(g, SortedStrings(g[name]), visiting + {name}, s);
            VisitOne(g, name, visiting, s) ==
              if r == None then None else Some(Search(r.value.visited + {name}, r.value.ordered + [name]))
  {
  }

  ghost function VisitAll(g: Graph, names: seq<string>, visiting: set<string>, s: Search): (r: Option<Search>)
    requires Closed(g) && visiting <= g.Keys && forall n :: n in names ==> n in g
    decreases |g.Keys - visiting|, 1, |names|
  {
    if names == [] then Some(s)
    else
      assert names[0] in names;
      var r := VisitOne(g, names[0], visiting, s);
      if r == None then None else VisitAll(g, names[1..], visiting, r.value)
  }

  lemma Fewer(g: Graph, name: string, visiting: set<string>)
    requires name in g && name !in visiting
    ensures |g.Keys - (visiting + {name})| < |g.Keys - visiting|
  {
    assert g.Keys - (visiting + {name}) == g.Keys - visiting - {name};
  }

  ghost function Order(g: Graph): Option<Search>
    requires Closed(g)
  {
    VisitAll(g, SortedStrings(g.Keys), {}, START)
  }

  // ---------- what a finished walk satisfies ----------

  /** Every name comes after all it depends on. */
  ghost predicate Topological(g: Graph, order: seq<string>) {
    forall i :: 0 <= i < |order| ==> order[i] in g && DependenciesBefore(g, order, i)
  }

  ghost predicate DependenciesBefore(g: Graph, order: seq<string>, i: nat)
    requires i < |order|
  {
    order[i] in g && forall d :: d in g[order[i]] ==> d in order[..i]
  }

  ghost predicate Sound(g: Graph, s: Search) {
    NoDuplicates(s.ordered) && Topological(g, s.ordered) && forall n :: n in s.visited <==> n in s.ordered
  }

  lemma AppendSound(g: Graph, s: Search, name: string)
    requires Sound(g, s) && name in g && name !in s.visited && g[name] <= s.visited
    ensures Sound(g, Search(s.visited + {name}, s.ordered + [name]))
  {
    var order := s.ordered + [name];
    forall i | 0 <= i < |order| ensures order[i] in g && DependenciesBefore(g, order, i) {
      if i < |s.ordered| {
        assert DependenciesBefore(g, s.ordered, i);
        assert order[..i] == s.ordered[..i];
      } else {
        assert order[..i] == s.ordered;
      }
    }
  }

  /** A walk that finishes leaves a sound order that extends the one before,
      with the name in it, and does not finish anything still being visited. */
  lemma {:induction false} VisitSound(g: Graph, name: string, visiting: set<string>, s: Search)
    requires Closed(g) && name in g && visiting <= g.Keys && Sound(g, s) && visiting !! s.visited
    requires VisitOne(g, name, visiting, s).Some?
    ensures var t := VisitOne(g, name, visiting, s).value;
            Sound(g, t) && s.visited <= t.visited && name in t.visited && visiting !! t.visited
    decreases |g.Keys - visiting|, 0
  {
    if name !in s.visited {
      Fewer(g, name, visiting);
      VisitAllSound(g, SortedStrings(g[name]), visiting + {name}, s);
      var t := VisitAll(g, SortedStrings(g[name]), visiting + {name}, s).value;
      assert g[name] <= t.visited;
      AppendSound(g, t, name);
    }
  }

  lemma {:induction false} VisitAllSound(g: Graph, names: seq<string>, visiting: set<string>, s: Search)
    requires Closed(g) && visiting <= g.Keys && Sound(g, s) && visiting !! s.visited
    requires forall n :: n in names ==> n in g
    requires VisitAll(g, names, visiting, s).Some?
    ensures var t := VisitAll(g, names, visiting, s).value;
            Sound(g, t) && s.visited <= t.visited && visiting !! t.visited && forall n :: n in names ==> n in t.visited
    decreases |g.Keys - visiting|, 1, |names|
  {
    if names != [] {
      assert names[0] in names;
      VisitSound(g, names[0], visiting, s);
      VisitAllSound(g, names[1..], visiting, VisitOne(g, names[0], visiting, s).value);
      assert forall n :: n in names ==> n == names[0] || n in names[1..];
    }
  }

  // ---------- cycles ----------

  /** Names that depend on one another round in a circle. */
  ghost predicate Cycle(g: Graph, p: seq<string>) {
    p != [] && Path(g, p) && p[|p| - 1] in g && p[0] in g[p[|p| - 1]]
  }

  /** Each name depends on the next. */
  ghost predicate Path(g: Graph, p: seq<string>) {
    forall i :: 0 <= i < |p| - 1 ==> p[i] in g && p[i + 1] in g[p[i]]
  }

  ghost predicate Acyclic(g: Graph) {
    forall p :: !Cycle(g, p)
  }

  /** `stack` is the chain of names being visited, the last of which depends on `name`. */
  ghost predicate LeadsTo(g: Graph, stack: seq<string>, name: string) {
    Path(g, stack) && (stack == [] || (stack[|stack| - 1] in g && name in g[stack[|stack| - 1]]))
  }

  ghost function Names(stack: seq<string>): set<string> { set n | n in stack }

  lemma {:induction false} VisitFindsCycle(g: Graph, name: string, stack: seq<string>, s: Search) returns (p: seq<string>)
    requires Closed(g) && name in g && Names(stack) <= g.Keys && LeadsTo(g, stack, name)
    requires VisitOne(g, name, Names(stack), s) == None
    ensures Cycle(g, p)
    decreases |g.Keys - Names(stack)|, 0
  {
    if name in Names(stack) {
      p := CloseCycle(g, name, stack);
    } else {
      Fewer(g, name, Names(stack));
      NamesPush(stack, name);
      Extend(g, stack, name);
      p := VisitAllFindsCycle(g, SortedStrings(g[name]), stack + [name], s);
    }
  }

  lemma NamesPush(stack: seq<string>, name: string)
    ensures Names(stack + [name]) == Names(stack) + {name}
  {
  }

  lemma CloseCycle(g: Graph, name: string, stack: seq<string>) returns (p: seq<string>)
    requires name in stack && LeadsTo(g, stack, name)
    ensures Cycle(g, p)
  {
    var i :| 0 <= i < |stack| && stack[i] == name;
    p := stack[i..];
    assert forall j :: 0 <= j < |p| ==> p[j] == stack[i + j];
  }

  lemma Extend(g: Graph, stack: seq<string>, name: string)
    requires LeadsTo(g, stack, name) && name in g
    ensures forall d :: d in g[name] ==> LeadsTo(g, stack + [name], d)
  {
    var p := stack + [name];
    forall i | 0 <= i < |p| - 1 ensures p[i] in g && p[i + 1] in g[p[i]] {
      if i < |stack| - 1 {
        assert p[i] == stack[i] && p[i + 1] == stack[i + 1];
      }
    }
  }

  lemma {:induction false} VisitAllFindsCycle(g: Graph, names: seq<string>, stack: seq<string>, s: Search) returns (p: seq<string>)
    requires Closed(g) && Names(stack) <= g.Keys
    requires forall n :: n in names ==> n in g && LeadsTo(g, stack, n)
    requires VisitAll(g, names, Names(stack), s) == None
    ensures Cycle(g, p)
    decreases |g.Keys - Names(stack)|, 1, |names|
  {
    assert names[0] in names;
    if VisitOne(g, names[0], Names(stack), s) == None {
      p := VisitFindsCycle(g, names[0], stack, s);
    } else {
      p := VisitAllFindsCycle(g, names[1..], stack, VisitOne(g, names[0], Names(stack), s).value);
    }
  }

  lemma {:induction false} TopologicalNoCycle(g: Graph, order: seq<string>, p: seq<string>)
    requires Topological(g, order) && NoDuplicates(order) && forall n :: n in g ==> n in order
    ensures !Cycle(g, p)
  {
    if Cycle(g, p) {
      var last := |p| - 1;
      var i :| 0 <= i < |order| && order[i] == p[last];
      var j := Earlier(g, order, i, p[0]);
      var k := Descend(g, order, p, j, last);
      assert false;
    }
  }

  /** A dependency stands at an earlier place. */
  lemma Earlier(g: Graph, order: seq<string>, i: nat, d: string) returns (j: nat)
    requires Topological(g, order) && i < |order| && order[i] in g && d in g[order[i]]
    ensures j < i && order[j] == d
  {
    assert DependenciesBefore(g, order, i);
    j :| 0 <= j < i && order[..i][j] == d;
  }

  /** Going down a path goes back in the order. */
  lemma {:induction false} Descend(g: Graph, order: seq<string>, p: seq<string>, j: nat, n: nat) returns (k: nat)
    requires Topological(g, order) && Path(g, p) && n < |p| && j < |order| && order[j] == p[0]
    ensures k <= j && order[k] == p[n]
    decreases n
  {
    if n == 0 {
      k := j;
    } else {
      var l := Descend(g, order, p, j, n - 1);
      k := Earlier(g, order, l, p[n]);
    }
  }

  lemma OrderLists(g: Graph)
    requires Closed(g) && Order(g).Some?
    ensures var order := Order(g).value.ordered;
            NoDuplicates(order) && Topological(g, order) && forall n :: n in order <==> n in g
  {
    var s := Order(g).value;
    VisitAllSound(g, SortedStrings(g.Keys), {}, START);
    forall n | n in g ensures n in s.ordered {
      assert n in SortedStrings(g.Keys);
    }
    forall n | n in s.ordered ensures n in g {
      var i :| 0 <= i < |s.ordered| && s.ordered[i] == n;
    }
  }

  /** The walk succeeds exactly when there is no cycle, and then lists every
      package once, each after all its dependencies. */
  lemma OrderCorrect(g: Graph)
    requires Closed(g)
    ensures Order(g).Some? <==> Acyclic(g)
    ensures Order(g).Some? ==>
            var order := Order(g).value.ordered;
            NoDuplicates(order) && Topological(g, order) && forall n :: n in order <==> n in g
  {
    if Order(g) == None {
      var p := OrderFails(g);
    } else {
      OrderLists(g);
      OrderAcyclic(g, Order(g).value.ordered);
    }
  }

  lemma OrderFails(g: Graph) returns (p: seq<string>)
    requires Closed(g) && Order(g) == None
    ensures Cycle(g, p)
  {
    var names, none: seq<string> := SortedStrings(g.Keys), [];
    assert Names(none) == {};
    forall n | n in names ensures n in g && LeadsTo(g, none, n) {
    }
    assert VisitAll(g, names, Names(none), START) == None;
    p := VisitAllFindsCycle(g, names, none, START);
  }

  lemma OrderAcyclic(g: Graph, order: seq<string>)
    requires Topological(g, order) && NoDuplicates(order) && forall n :: n in g ==> n in order
    ensures Acyclic(g)
  {
    forall p ensures !Cycle(g, p) {
      TopologicalNoCycle(g, order, p);
    }
  }

  // ---------- packages ----------

  datatype CargoPackage = CargoPackage(name: string, version: string, dependencies: seq<string>)

  type Packages = m: map<string, CargoPackage> | forall n :: n in m ==> m[n].name == n

  /** The packages by name; of two with the same name the later one counts. */
  function ByName(packages: seq<CargoPackage>): Packages {
    if packages == [] then map[]
    else
      var last := packages[|packages| - 1];
      ByName(packages[..|packages| - 1])[last.name := last]
  }

  ghost function DependencySet(p: CargoPackage): set<string> { set d | d in p.dependencies }

  /** Dependencies that are not published themselves do not count. */
  ghost function GraphOf(m: Packages): (g: Graph)
    ensures Closed(g) && g.Keys == m.Keys
  {
    map n | n in m :: DependencySet(m[n]) * m.Keys
  }

  ghost predicate DistinctNames(packages: seq<CargoPackage>) {
    forall i, j :: 0 <= i < j < |packages| ==> packages[i].name != packages[j].name
  }

  lemma {:induction false} ByNameHolds(packages: seq<CargoPackage>)
    requires DistinctNames(packages)
    ensures forall p :: p in packages ==> p.name in ByName(packages) && ByName(packages)[p.name] == p
    ensures forall n :: n in ByName(packages) ==> ByName(packages)[n] in packages
    decreases |packages|
  {
    if packages != [] {
      var k := |packages| - 1;
      ByNameHolds(packages[..k]);
      assert packages == packages[..k] + [packages[k]];
    }
  }

  /** Same names, and the same dependencies for each. */
  ghost predicate SameRequirements(ps: seq<CargoPackage>, qs: seq<CargoPackage>) {
    forall p :: p in ps ==> exists q :: q in qs && q.name == p.name && DependencySet(q) == DependencySet(p)
  }

  /** The graph, and with it the outcome, does not depend on the order in which
      packages or their dependencies are listed, nor on repeated dependencies. */
  lemma {:induction false} GraphIgnoresListing(ps: seq<CargoPackage>, qs: seq<CargoPackage>)
    requires DistinctNames(ps) && DistinctNames(qs) && SameRequirements(ps, qs) && SameRequirements(qs, ps)
    ensures GraphOf(ByName(ps)) == GraphOf(ByName(qs))
  {
    SameEntries(ps, qs);
    SameEntries(qs, ps);
    SameGraph(ByName(ps), ByName(qs));
  }

  lemma SameGraph(a: Packages, b: Packages)
    requires forall n :: n in a ==> n in b && DependencySet(b[n]) == DependencySet(a[n])
    requires forall n :: n in b ==> n in a
    ensures GraphOf(a) == GraphOf(b)
  {
    assert a.Keys == b.Keys;
  }

  lemma {:induction false} SameEntries(ps: seq<CargoPackage>, qs: seq<CargoPackage>)
    requires DistinctNames(ps) && DistinctNames(qs) && SameRequirements(ps, qs)
    ensures forall n :: n in ByName(ps) ==>
              n in ByName(qs) && DependencySet(ByName(qs)[n]) == DependencySet(ByName(ps)[n])
  {
    ByNameHolds(ps);
    ByNameHolds(qs);
    forall n | n in ByName(ps)
      ensures n in ByName(qs) && DependencySet(ByName(qs)[n]) == DependencySet(ByName(ps)[n])
    {
      var p := ByName(ps)[n];
      var q :| q in qs && q.name == p.name && DependencySet(q) == DependencySet(p);
    }
  }

  // ---------- the code ----------

  /** Drops neighbours that are equal, as `Vec::dedup` does. */
  method Dedup(xs: seq<string>) returns (r: seq<string>)
    requires SortedBy(xs, Codes)
    ensures SortedBy(r, Codes) && NoDuplicates(r) && forall x :: x in r <==> x in xs
  {
    r := [];
    for i := 0 to |xs|
      invariant SortedBy(r, Codes) && NoDuplicates(r)
      invariant forall x :: x in r <==> x in xs[..i]
      invariant r != [] ==> i > 0 && r[|r| - 1] == xs[i - 1]
    {
      assert xs[..i + 1] == xs[..i] + [xs[i]];
      if r == [] || r[|r| - 1] != xs[i] {
        AboveAll(xs, i, r);
        r := r + [xs[i]];
      }
    }
    assert xs[..|xs|] == xs;
  }

  /** In a sorted list the next element is above all before it, and new if it
      differs from the one before. */
  lemma AboveAll(xs: seq<string>, i: nat, r: seq<string>)
    requires SortedBy(xs, Codes) && i < |xs| && SortedBy(r, Codes)
    requires forall x :: x in r ==> x in xs[..i]
    requires r != [] ==> i > 0 && r[|r| - 1] == xs[i - 1] && xs[i - 1] != xs[i]
    ensures forall x :: x in r ==> LexLeq(Codes(x), Codes(xs[i])) && x != xs[i]
  {
    forall x | x in r ensures LexLeq(Codes(x), Codes(xs[i])) && x != xs[i] {
      assert x in xs[..i];
      var j :| 0 <= j < i && xs[j] == x;
      LexTotal(Codes(x), Codes(x));
      assert LexLeq(Codes(xs[j]), Codes(xs[i - 1])) && LexLeq(Codes(xs[i - 1]), Codes(xs[i]));
      if x == xs[i] {
        LexAntisymmetric(Codes(xs[i - 1]), Codes(xs[i]));
        CodesInjective(xs[i - 1], xs[i]);
        assert false;
      }
    }
  }

  /** The walk as the Rust code makes it, with its three collections. */
  class Walk {
    const packages: Packages
    var visiting: set<string>
    var visited: set<string>
    var ordered: seq<CargoPackage>

    constructor (packages: Packages)
      ensures this.packages == packages && visiting == {} && visited == {} && ordered == []
    {
      this.packages := packages;
      visiting, visited, ordered := {}, {}, [];
    }

    ghost function Graph(): (g: Graph)
      ensures Closed(g) && g.Keys == packages.Keys
    {
      GraphOf(packages)
    }

    /** The names in `ordered`, with their packages. */
    ghost predicate Holds(s: Search)
      reads this
    {
      s.visited == visited && |s.ordered| == |ordered| &&
      forall i :: 0 <= i < |ordered| ==> s.ordered[i] in packages && ordered[i] == packages[s.ordered[i]]
    }

    /** The published dependencies of a package, sorted, each once. */
    method Dependencies(name: string) returns (names: seq<string>)
      requires name in packages
      ensures names == SortedStrings(Graph()[name])
    {
      var deps := packages[name].dependencies;
      names := [];
      for i := 0 to |deps|
        invariant forall d :: d in names <==> d in deps[..i] && d in packages
      {
        assert deps[..i + 1] == deps[..i] + [deps[i]];
        if deps[i] in packages {
          names := names + [deps[i]];
        }
      }
      assert deps[..|deps|] == deps;
      SortMembers(names, Codes);
      names := Sort(names, Codes);
      names := Dedup(names);
      AnyListing(names, Graph()[name]);
      CodesKeepApart(names);
      SortOfSorted(names, Codes);
    }

    method Visit(name: string, ghost s: Search) returns (ok: bool)
      requires name in packages && visiting <= packages.Keys && Holds(s)
      modifies this
      ensures var r := VisitOne(Graph(), name, old(visiting), s);
              (ok <==> r.Some?) && (ok ==> Holds(r.value) && visiting == old(visiting))
      decreases |packages.Keys - visiting|, 0
    {
      if name in visited {
        return true;
      }
      if name in visiting {
        return false;
      }
      Fewer(Graph(), name, visiting);
      visiting := visiting + {name};
      var dependencies := Dependencies(name);
      ghost var rest := VisitAll(Graph(), dependencies, visiting, s);
      VisitFurther(Graph(), name, old(visiting), s);
      ok := VisitEach(dependencies, s);
      if ok {
        Finish(name, rest.value);
        assert visiting == old(visiting);
      }
    }

    method Finish(name: string, ghost t: Search)
      requires name in packages && Holds(t)
      modifies this
      ensures visiting == old(visiting) - {name} && Holds(Search(t.visited + {name}, t.ordered + [name]))
    {
      visiting := visiting - {name};
      visited := visited + {name};
      ordered := ordered + [packages[name]];
    }

    method VisitEach(names: seq<string>, ghost s: Search) returns (ok: bool)
      requires visiting <= packages.Keys && Holds(s) && forall n :: n in names ==> n in packages
      modifies this
      ensures var r := VisitAll(Graph(), names, old(visiting), s);
              (ok <==> r.Some?) && (ok ==> Holds(r.value) && visiting == old(visiting))
      decreases |packages.Keys - visiting|, 1
    {
      ghost var now := s;
      assert names[0..] == names;
      for i := 0 to |names|
        invariant visiting == old(visiting) && Holds(now)
        invariant VisitAll(Graph(), names, visiting, s) == VisitAll(Graph(), names[i..], visiting, now)
      {
        assert names[i] in names && names[i..][1..] == names[i + 1..];
        ok := Visit(names[i], now);
        if !ok {
          return;
        }
        now := VisitOne(Graph(), names[i], visiting, now).value;
      }
      ok := true;
    }
  }

  ghost function NamesOf(packages: seq<CargoPackage>): (r: seq<string>)
    ensures |r| == |packages| && forall i :: 0 <= i < |r| ==> r[i] == packages[i].name
  {
    seq(|packages|, i requires 0 <= i < |packages| => packages[i].name)
  }

  /** The packages in publication order, or `None` for a dependency cycle. */
  method PublishOrder(packages: seq<CargoPackage>) returns (r: Option<seq<CargoPackage>>)
    ensures r.Some? <==> Acyclic(GraphOf(ByName(packages)))
    ensures r.Some? ==> Order(GraphOf(ByName(packages))).Some? &&
                        NamesOf(r.value) == Order(GraphOf(ByName(packages))).value.ordered
    ensures r.Some? ==> forall p: CargoPackage :: p in r.value <==> p.name in ByName(packages) && p == ByName(packages)[p.name]
    ensures r.Some? ==> NoDuplicates(NamesOf(r.value)) && Topological(GraphOf(ByName(packages)), NamesOf(r.value))
  {
    var byName := ByName(packages);
    OrderCorrect(GraphOf(byName));
    var names := SortedNames(byName);
    var walk := new Walk(byName);
    var ok := walk.VisitEach(names, START);
    if !ok {
      return None;
    }
    r := Some(walk.ordered);
    AllPackages(byName, walk.ordered, Order(GraphOf(byName)).value.ordered);
  }

  method SortedNames(byName: Packages) returns (names: seq<string>)
    ensures names == SortedStrings(byName.Keys)
  {
    names := [];
    var todo := byName.Keys;
    while todo != {}
      invariant todo <= byName.Keys && NoDuplicates(names)
      invariant forall x :: x in names <==> x in byName.Keys && x !in todo
      decreases todo
    {
      var n :| n in todo;
      names := names + [n];
      todo := todo - {n};
    }
    AnyListing(names, byName.Keys);
    names := Sort(names, Codes);
  }

  lemma AllPackages(byName: Packages, ps: seq<CargoPackage>, order: seq<string>)
    requires |ps| == |order| && forall n :: n in order <==> n in byName
    requires forall i :: 0 <= i < |ps| ==> order[i] in byName && ps[i] == byName[order[i]]
    ensures NamesOf(ps) == order
    ensures forall p: CargoPackage :: p in ps <==> p.name in byName && p == byName[p.name]
  {
    forall p: CargoPackage | p.name in byName && p == byName[p.name] ensures p in ps {
      assert p.name in order;
      var i :| 0 <= i < |order| && order[i] == p.name;
      assert ps[i] == p;
    }
  }
}
