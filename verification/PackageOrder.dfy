/**
  Which of two packages is published first.

  The walk of `CrateOrder` remembers what it has visited.  Its outcome does not
  need that memory: the order of any two packages is settled by what depends on
  them, through any number of steps, and by the order of names.
 */
module PackageOrder {
  import opened Options
  import opened Ordering
  import opened CrateOrder

  /** `u` is `v` or depends on it, directly or through others. */
  ghost predicate Reaches(g: Graph, u: string, v: string) {
    exists p :: p != [] && Path(g, p) && p[0] == u && p[|p| - 1] == v
  }

  /** Look for the first of the sorted names that needs `x` or `y`.  If it needs
      only one of them, that one comes first.  If it is itself one of them, the
      other comes first.  If it needs both, its dependencies decide. */
  ghost predicate First(g: Graph, names: seq<string>, above: set<string>, x: string, y: string)
    requires Closed(g) && above <= g.Keys && forall n :: n in names ==> n in g
    decreases |g.Keys - above|, |names|
  {
    if names == [] then false
    else
      var n := names[0];
      assert n in names;
      if !Reaches(g, n, x) && !Reaches(g, n, y) then First(g, names[1..], above, x, y)
      else if !Reaches(g, n, x) then false
      else if !Reaches(g, n, y) then true
      else if n == x || n == y then n == y
      else if n in above then false
      else
        Fewer(g, n, above);
        First(g, SortedStrings(g[n]), above + {n}, x, y)
  }

  ghost predicate Precedes(order: seq<string>, x: string, y: string) {
    exists i, j :: 0 <= i < j < |order| && order[i] == x && order[j] == y
  }

  // ---------- reaching ----------

  lemma ReachesItself(g: Graph, u: string)
    ensures Reaches(g, u, u)
  {
    var p := [u];
    assert p != [] && Path(g, p) && p[0] == u && p[|p| - 1] == u;
  }

  lemma ReachesThrough(g: Graph, u: string, d: string, v: string)
    requires u in g && d in g[u] && Reaches(g, d, v)
    ensures Reaches(g, u, v)
  {
    var p :| p != [] && Path(g, p) && p[0] == d && p[|p| - 1] == v;
    var q := [u] + p;
    forall i | 0 <= i < |q| - 1 ensures q[i] in g && q[i + 1] in g[q[i]] {
      if i > 0 {
        assert q[i] == p[i - 1] && q[i + 1] == p[i];
      }
    }
    assert q != [] && Path(g, q) && q[0] == u && q[|q| - 1] == v;
  }

  lemma ReachesNext(g: Graph, u: string, v: string) returns (d: string)
    requires Reaches(g, u, v) && u != v
    ensures u in g && d in g[u] && Reaches(g, d, v)
  {
    var p :| p != [] && Path(g, p) && p[0] == u && p[|p| - 1] == v;
    d := p[1];
    var q := p[1..];
    forall i | 0 <= i < |q| - 1 ensures q[i] in g && q[i + 1] in g[q[i]] {
      assert q[i] == p[i + 1] && q[i + 1] == p[i + 2];
    }
    assert q != [] && Path(g, q) && q[0] == d && q[|q| - 1] == v;
  }

  /** Everything a finished name needs is finished. */
  lemma {:induction false} FinishedBelow(g: Graph, s: Search, p: seq<string>)
    requires Sound(g, s) && p != [] && Path(g, p) && p[0] in s.visited
    ensures p[|p| - 1] in s.visited
    decreases |p|
  {
    if |p| > 1 {
      var i :| 0 <= i < |s.ordered| && s.ordered[i] == p[0];
      var j := Earlier(g, s.ordered, i, p[1]);
      var q := p[1..];
      forall k | 0 <= k < |q| - 1 ensures q[k] in g && q[k + 1] in g[q[k]] {
        assert q[k] == p[k + 1] && q[k + 1] == p[k + 2];
      }
      FinishedBelow(g, s, q);
    }
  }

  lemma NotFinishedAbove(g: Graph, s: Search, n: string, x: string)
    requires Sound(g, s) && Reaches(g, n, x) && x !in s.visited
    ensures n !in s.visited
  {
    var p :| p != [] && Path(g, p) && p[0] == n && p[|p| - 1] == x;
    if n in s.visited {
      FinishedBelow(g, s, p);
    }
  }

  // ---------- what a walk adds ----------

  ghost predicate Adds(g: Graph, s: Search, names: seq<string>, t: Search) {
    s.ordered <= t.ordered &&
    forall z :: z in t.visited <==> z in s.visited || exists n :: n in names && Reaches(g, n, z)
  }

  /** A visit finishes exactly what the name reaches. */
  lemma {:induction false} VisitAdds(g: Graph, name: string, visiting: set<string>, s: Search)
    requires Closed(g) && name in g && visiting <= g.Keys && Sound(g, s) && visiting !! s.visited
    requires VisitOne(g, name, visiting, s).Some?
    ensures Adds(g, s, [name], VisitOne(g, name, visiting, s).value)
    decreases |g.Keys - visiting|, 0
  {
    var t := VisitOne(g, name, visiting, s).value;
    ReachesItself(g, name);
    assert name in [name];
    if name in s.visited {
      forall z | Reaches(g, name, z) ensures z in s.visited {
        if z !in s.visited {
          NotFinishedAbove(g, s, name, z);
        }
      }
    } else {
      Fewer(g, name, visiting);
      var deps := SortedStrings(g[name]);
      VisitAllAdds(g, deps, visiting + {name}, s);
      var r := VisitAll(g, deps, visiting + {name}, s).value;
      forall z ensures z in t.visited <==> z in s.visited || Reaches(g, name, z) {
        ThroughDependencies(g, name, z);
      }
    }
  }

  lemma ThroughDependencies(g: Graph, name: string, z: string)
    requires name in g
    ensures Reaches(g, name, z) <==> z == name || exists d :: d in SortedStrings(g[name]) && Reaches(g, d, z)
  {
    ReachesItself(g, name);
    if Reaches(g, name, z) && z != name {
      var d := ReachesNext(g, name, z);
      assert d in SortedStrings(g[name]);
    }
    if d :| d in SortedStrings(g[name]) && Reaches(g, d, z) {
      ReachesThrough(g, name, d, z);
    }
  }

  lemma {:induction false} VisitAllAdds(g: Graph, names: seq<string>, visiting: set<string>, s: Search)
    requires Closed(g) && visiting <= g.Keys && Sound(g, s) && visiting !! s.visited
    requires forall n :: n in names ==> n in g
    requires VisitAll(g, names, visiting, s).Some?
    ensures Adds(g, s, names, VisitAll(g, names, visiting, s).value)
    decreases |g.Keys - visiting|, 1, |names|
  {
    if names != [] {
      assert names[0] in names;
      var m := VisitOne(g, names[0], visiting, s).value;
      VisitSound(g, names[0], visiting, s);
      VisitAdds(g, names[0], visiting, s);
      VisitAllAdds(g, names[1..], visiting, m);
      AddsBoth(g, s, names, m, VisitAll(g, names, visiting, s).value);
    }
  }

  lemma AddsBoth(g: Graph, s: Search, names: seq<string>, m: Search, t: Search)
    requires names != [] && Adds(g, s, [names[0]], m) && Adds(g, m, names[1..], t)
    ensures Adds(g, s, names, t)
  {
    forall z ensures z in t.visited <==> z in s.visited || exists n :: n in names && Reaches(g, n, z) {
      assert z in m.visited <==> z in s.visited || Reaches(g, names[0], z) by {
        assert names[0] in [names[0]];
      }
      if n :| n in names && Reaches(g, n, z) {
        assert n == names[0] || n in names[1..];
      }
      if n :| n in names[1..] && Reaches(g, n, z) {
        assert n in names;
      }
      assert names[0] in names;
    }
  }

  // ---------- positions ----------

  lemma PrecedesLonger(order: seq<string>, longer: seq<string>, x: string, y: string)
    requires order <= longer && Precedes(order, x, y)
    ensures Precedes(longer, x, y)
  {
    var i, j :| 0 <= i < j < |order| && order[i] == x && order[j] == y;
    assert longer[i] == x && longer[j] == y;
  }

  lemma ListedBefore(order: seq<string>, longer: seq<string>, x: string, y: string)
    requires order <= longer && x in order && y !in order && y in longer
    ensures Precedes(longer, x, y)
  {
    var i :| 0 <= i < |order| && order[i] == x;
    var j :| 0 <= j < |longer| && longer[j] == y;
    assert forall k :: 0 <= k < |order| ==> longer[k] == order[k];
    assert j >= |order|;
  }

  lemma NotBothWays(order: seq<string>, x: string, y: string)
    requires NoDuplicates(order) && Precedes(order, x, y)
    ensures !Precedes(order, y, x)
  {
  }

  /** `x` and `y` in the order that `First` says. */
  ghost predicate Arranged(order: seq<string>, first: bool, x: string, y: string) {
    if first then Precedes(order, x, y) else Precedes(order, y, x)
  }

  lemma {:induction false} VisitFirst(g: Graph, names: seq<string>, visiting: set<string>, s: Search, x: string, y: string)
    requires Closed(g) && visiting <= g.Keys && Sound(g, s) && visiting !! s.visited
    requires forall n :: n in names ==> n in g
    requires VisitAll(g, names, visiting, s).Some?
    requires x != y && x !in s.visited && y !in s.visited
    requires x in VisitAll(g, names, visiting, s).value.visited && y in VisitAll(g, names, visiting, s).value.visited
    ensures Arranged(VisitAll(g, names, visiting, s).value.ordered, First(g, names, visiting, x, y), x, y)
    decreases |g.Keys - visiting|, 1, |names|
  {
    var n := names[0];
    assert n in names;
    var m, t := FirstVisit(g, names, visiting, s, x, y);
    if !Reaches(g, n, x) && !Reaches(g, n, y) {
      VisitFirst(g, names[1..], visiting, m, x, y);
    } else if !Reaches(g, n, x) {
      ListedBefore(m.ordered, t.ordered, y, x);
    } else if !Reaches(g, n, y) {
      ListedBefore(m.ordered, t.ordered, x, y);
    } else {
      NotFinishedAbove(g, s, n, x);
      BelowFirst(g, n, visiting, s, x, y);
      ArrangedLonger(m.ordered, t.ordered, First(g, names, visiting, x, y), x, y);
    }
  }

  lemma ArrangedLonger(order: seq<string>, longer: seq<string>, first: bool, x: string, y: string)
    requires order <= longer && Arranged(order, first, x, y)
    ensures Arranged(longer, first, x, y)
  {
    PrecedesLonger(order, longer, if first then x else y, if first then y else x);
  }

  /** The walk after the first name and at its end. */
  lemma {:induction false} FirstVisit(g: Graph, names: seq<string>, visiting: set<string>, s: Search, x: string, y: string)
    returns (m: Search, t: Search)
    requires Closed(g) && visiting <= g.Keys && Sound(g, s) && visiting !! s.visited
    requires names != [] && forall n :: n in names ==> n in g
    requires VisitAll(g, names, visiting, s).Some? && x !in s.visited && y !in s.visited
    requires x in VisitAll(g, names, visiting, s).value.visited && y in VisitAll(g, names, visiting, s).value.visited
    ensures names[0] in names && VisitOne(g, names[0], visiting, s) == Some(m)
    ensures VisitAll(g, names, visiting, s) == VisitAll(g, names[1..], visiting, m) == Some(t)
    ensures Sound(g, m) && visiting !! m.visited && m.ordered <= t.ordered
    ensures x in t.ordered && (x in m.visited <==> Reaches(g, names[0], x)) && (x in m.ordered <==> x in m.visited)
    ensures y in t.ordered && (y in m.visited <==> Reaches(g, names[0], y)) && (y in m.ordered <==> y in m.visited)
  {
    var n := names[0];
    assert n in names && n in [n];
    m := VisitOne(g, n, visiting, s).value;
    t := VisitAll(g, names, visiting, s).value;
    VisitSound(g, n, visiting, s);
    VisitAdds(g, n, visiting, s);
    VisitAllSound(g, names[1..], visiting, m);
    VisitAllAdds(g, names[1..], visiting, m);
  }

  /** The name needs both. */
  lemma {:induction false} BelowFirst(g: Graph, n: string, visiting: set<string>, s: Search, x: string, y: string)
    requires Closed(g) && n in g && visiting <= g.Keys && Sound(g, s) && visiting !! s.visited
    requires VisitOne(g, n, visiting, s).Some? && n !in s.visited
    requires x != y && x !in s.visited && y !in s.visited && Reaches(g, n, x) && Reaches(g, n, y)
    ensures n !in visiting
    ensures Arranged(VisitOne(g, n, visiting, s).value.ordered,
                     if n == x then false else n == y || First(g, SortedStrings(g[n]), visiting + {n}, x, y), x, y)
    decreases |g.Keys - visiting|, 0
  {
    Fewer(g, n, visiting);
    var deps := SortedStrings(g[n]);
    var r := VisitAll(g, deps, visiting + {n}, s).value;
    var m := VisitOne(g, n, visiting, s).value;
    VisitAllSound(g, deps, visiting + {n}, s);
    VisitAllAdds(g, deps, visiting + {n}, s);
    ThroughDependencies(g, n, x);
    ThroughDependencies(g, n, y);
    if n == x {
      ListedBefore(r.ordered, m.ordered, y, x);
    } else if n == y {
      ListedBefore(r.ordered, m.ordered, x, y);
    } else {
      VisitFirst(g, deps, visiting + {n}, s, x, y);
      ArrangedLonger(r.ordered, m.ordered, First(g, deps, visiting + {n}, x, y), x, y);
    }
  }

  /** Of any two packages, the one that `First` names is published first. */
  lemma OrderExactly(g: Graph, x: string, y: string)
    requires Closed(g) && Order(g).Some? && x in g && y in g && x != y
    ensures Precedes(Order(g).value.ordered, x, y) <==> First(g, SortedStrings(g.Keys), {}, x, y)
  {
    var order := Order(g).value.ordered;
    VisitAllSound(g, SortedStrings(g.Keys), {}, START);
    assert x in SortedStrings(g.Keys) && y in SortedStrings(g.Keys);
    VisitFirst(g, SortedStrings(g.Keys), {}, START, x, y);
    if Precedes(order, x, y) {
      NotBothWays(order, x, y);
    }
  }
}
