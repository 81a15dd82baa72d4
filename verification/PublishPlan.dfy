/**
  The plan of a release (rust/otap-dataflow/xtask/src/crates_publish.rs,
  `build_plan`): which packages are published, what is demanded of their
  dependencies, and their order.
 */
module PublishPlan {
  import opened Options
  import opened Ordering
  import opened CrateOrder

  datatype Package = Package(name: string, version: string)

  /** The names in a plan. */
  function PlanNames(plan: seq<Package>): (r: seq<string>)
    ensures |r| == |plan| && forall i :: 0 <= i < |r| ==> r[i] == plan[i].name
  {
    seq(|plan|, i requires 0 <= i < |plan| => plan[i].name)
  }

  /** A plan lists every package once, after all it depends on. */
  ghost predicate Ordered(g: Graph, plan: seq<Package>) {
    NoDuplicates(PlanNames(plan)) && Topological(g, PlanNames(plan))
  }

  // ---------- the order ----------

  function Planned(ps: seq<CargoPackage>): (r: seq<Package>)
    ensures |r| == |ps| && forall i :: 0 <= i < |r| ==> r[i] == Package(ps[i].name, ps[i].version)
  {
    seq(|ps|, i requires 0 <= i < |ps| => Package(ps[i].name, ps[i].version))
  }

  lemma PlannedMembers(ps: seq<CargoPackage>)
    ensures PlanNames(Planned(ps)) == NamesOf(ps)
    ensures forall p :: p in ps ==> Package(p.name, p.version) in Planned(ps)
  {
    forall p | p in ps ensures Package(p.name, p.version) in Planned(ps) {
      var i :| 0 <= i < |ps| && ps[i] == p;
      assert Planned(ps)[i] == Package(p.name, p.version);
    }
  }

  /** The packages with their versions in publication order. */
  method OrderPlan(packages: seq<CargoPackage>) returns (plan: Option<seq<Package>>)
    ensures plan.Some? <==> Acyclic(GraphOf(ByName(packages)))
    ensures plan.Some? ==> Ordered(GraphOf(ByName(packages)), plan.value)
    ensures plan.Some? ==> forall n :: n in ByName(packages) ==> Package(n, ByName(packages)[n].version) in plan.value
  {
    var ordered := PublishOrder(packages);
    if ordered == None {
      return None;
    }
    PlannedMembers(ordered.value);
    forall n | n in ByName(packages) ensures Package(n, ByName(packages)[n].version) in Planned(ordered.value) {
      assert ByName(packages)[n] in ordered.value;
    }
    plan := Some(Planned(ordered.value));
  }

  // ---------- what a plan demands of the workspace ----------

  datatype Dependency = Dependency(name: string, kind: Option<string>, path: Option<string>, req: string)

  /** A package of the workspace; `publish` lists the registries it may go to. */
  datatype Member = Member(name: string, version: string, publish: Option<seq<string>>, dependencies: seq<Dependency>)

  predicate Publishable(m: Member) { m.publish == None || m.publish.value != [] }

  function Published(workspace: seq<Member>): seq<Member> {
    if workspace == [] then []
    else
      var k := |workspace| - 1;
      Published(workspace[..k]) + (if Publishable(workspace[k]) then [workspace[k]] else [])
  }

  function MemberNames(ms: seq<Member>): (r: seq<string>)
    ensures |r| == |ms| && forall i :: 0 <= i < |r| ==> r[i] == ms[i].name
  {
    seq(|ms|, i requires 0 <= i < |ms| => ms[i].name)
  }

  function DependencyNames(ds: seq<Dependency>): (r: seq<string>)
    ensures |r| == |ds| && forall i :: 0 <= i < |r| ==> r[i] == ds[i].name
  {
    seq(|ds|, i requires 0 <= i < |ds| => ds[i].name)
  }

  function AsCargo(ms: seq<Member>): (r: seq<CargoPackage>)
    ensures |r| == |ms|
    ensures forall i :: 0 <= i < |r| ==> r[i] == CargoPackage(ms[i].name, ms[i].version, DependencyNames(ms[i].dependencies))
  {
    seq(|ms|, i requires 0 <= i < |ms| => CargoPackage(ms[i].name, ms[i].version, DependencyNames(ms[i].dependencies)))
  }

  ghost function PlanGraph(workspace: seq<Member>): Graph { GraphOf(ByName(AsCargo(Published(workspace)))) }

  /** The versions of the published packages by name. */
  function Versions(ms: seq<Member>): map<string, string> {
    if ms == [] then map[]
    else
      var k := |ms| - 1;
      Versions(ms[..k])[ms[k].name := ms[k].version]
  }

  /** A published dependency is required at a version that includes the one in
      the workspace; any other comes from a registry or serves development only. */
  predicate Resolves(d: Dependency, versions: map<string, string>, includes: (string, string) -> Option<bool>) {
    if d.name in versions then includes(d.req, versions[d.name]) == Some(true)
    else d.kind == Some("dev") || d.path == None
  }

  predicate DependsOnItself(m: Member) { exists i :: 0 <= i < |m.dependencies| && m.dependencies[i].name == m.name }

  predicate AllResolve(m: Member, versions: map<string, string>, includes: (string, string) -> Option<bool>) {
    forall i :: 0 <= i < |m.dependencies| ==> Resolves(m.dependencies[i], versions, includes)
  }

  predicate SelfFree(ms: seq<Member>) { forall i :: 0 <= i < |ms| ==> !DependsOnItself(ms[i]) }

  predicate Resolved(ms: seq<Member>, includes: (string, string) -> Option<bool>) {
    forall i :: 0 <= i < |ms| ==> AllResolve(ms[i], Versions(ms), includes)
  }

  /** A workspace that can be released: exactly the packages of the policy are
      publishable, none depends on itself, all their dependencies resolve, and
      they do not depend on each other in a circle. */
  ghost predicate Acceptable(workspace: seq<Member>, policy: seq<string>, includes: (string, string) -> Option<bool>) {
    var published := Published(workspace);
    multiset(MemberNames(published)) == multiset(policy) && SelfFree(published) && Resolved(published, includes) &&
    Acyclic(PlanGraph(workspace))
  }

  /** Said of the packages themselves: a dependency on a published package asks
      for a version that includes that package's, and any other is found in a
      registry or is for development only. */
  ghost predicate Founded(d: Dependency, ms: seq<Member>, includes: (string, string) -> Option<bool>) {
    (forall q :: q in ms && q.name == d.name ==> includes(d.req, q.version) == Some(true)) &&
    ((forall q :: q in ms ==> q.name != d.name) ==> d.kind == Some("dev") || d.path == None)
  }

  lemma {:induction false} VersionAt(ms: seq<Member>, i: nat)
    requires NoDuplicates(MemberNames(ms)) && i < |ms|
    ensures ms[i].name in Versions(ms) && Versions(ms)[ms[i].name] == ms[i].version
    decreases |ms|
  {
    var k := |ms| - 1;
    if i < k {
      assert MemberNames(ms[..k]) == MemberNames(ms)[..k];
      VersionAt(ms[..k], i);
      assert MemberNames(ms)[i] != MemberNames(ms)[k];
    }
  }

  lemma {:induction false} VersionFrom(ms: seq<Member>, n: string) returns (i: nat)
    requires n in Versions(ms)
    ensures i < |ms| && ms[i].name == n
    decreases |ms|
  {
    i := |ms| - 1;
    if ms[i].name != n {
      i := VersionFrom(ms[..i], n);
    }
  }

  lemma ResolvesExactly(d: Dependency, ms: seq<Member>, includes: (string, string) -> Option<bool>)
    requires NoDuplicates(MemberNames(ms))
    ensures Resolves(d, Versions(ms), includes) <==> Founded(d, ms, includes)
  {
    forall q | q in ms ensures q.name in Versions(ms) && Versions(ms)[q.name] == q.version {
      var i :| 0 <= i < |ms| && ms[i] == q;
      VersionAt(ms, i);
    }
    if d.name in Versions(ms) {
      var i := VersionFrom(ms, d.name);
      assert ms[i] in ms;
    }
  }

  /** An acceptable workspace, said of its packages and their dependencies. */
  lemma AcceptableExactly(workspace: seq<Member>, policy: seq<string>, includes: (string, string) -> Option<bool>)
    requires NoDuplicates(MemberNames(Published(workspace)))
    ensures var ms := Published(workspace);
            Acceptable(workspace, policy, includes) <==>
            multiset(MemberNames(ms)) == multiset(policy) && Acyclic(PlanGraph(workspace)) &&
            forall m, d :: m in ms && d in m.dependencies ==> d.name != m.name && Founded(d, ms, includes)
  {
    DependenciesEach(Published(workspace), includes);
  }

  lemma DependenciesEach(ms: seq<Member>, includes: (string, string) -> Option<bool>)
    requires NoDuplicates(MemberNames(ms))
    ensures SelfFree(ms) && Resolved(ms, includes) <==>
            forall m, d :: m in ms && d in m.dependencies ==> d.name != m.name && Founded(d, ms, includes)
  {
    if SelfFree(ms) && Resolved(ms, includes) {
      forall m, d | m in ms && d in m.dependencies ensures d.name != m.name && Founded(d, ms, includes) {
        var i :| 0 <= i < |ms| && ms[i] == m;
        var j :| 0 <= j < |m.dependencies| && m.dependencies[j] == d;
        assert !DependsOnItself(ms[i]) && AllResolve(ms[i], Versions(ms), includes);
        assert Resolves(m.dependencies[j], Versions(ms), includes);
        ResolvesExactly(d, ms, includes);
      }
    }
    if forall m, d :: m in ms && d in m.dependencies ==> d.name != m.name && Founded(d, ms, includes) {
      forall i | 0 <= i < |ms| ensures !DependsOnItself(ms[i]) && AllResolve(ms[i], Versions(ms), includes) {
        forall j | 0 <= j < |ms[i].dependencies|
          ensures ms[i].dependencies[j].name != ms[i].name && Resolves(ms[i].dependencies[j], Versions(ms), includes)
        {
          assert ms[i] in ms && ms[i].dependencies[j] in ms[i].dependencies;
          ResolvesExactly(ms[i].dependencies[j], ms, includes);
        }
      }
    }
  }

  // ---------- the code ----------

  method SelectPublishable(workspace: seq<Member>) returns (publishable: seq<Member>)
    ensures publishable == Published(workspace)
    ensures forall m :: m in publishable <==> m in workspace && Publishable(m)
  {
    publishable := [];
    for i := 0 to |workspace|
      invariant publishable == Published(workspace[..i])
      invariant forall m :: m in publishable <==> m in workspace[..i] && Publishable(m)
    {
      assert workspace[..i + 1][..i] == workspace[..i];
      if Publishable(workspace[i]) {
        publishable := publishable + [workspace[i]];
      }
    }
    assert workspace[..|workspace|] == workspace;
  }

  lemma SortsDecide(a: seq<string>, b: seq<string>)
    ensures Sort(a, Codes) == Sort(b, Codes) <==> multiset(a) == multiset(b)
  {
    if multiset(a) == multiset(b) {
      CodesKeepApart(a);
      SortPermutation(a, b, Codes);
    }
  }

  /** Compares the sorted names. */
  method MatchesPolicy(publishable: seq<Member>, policy: seq<string>) returns (ok: bool)
    ensures ok <==> multiset(MemberNames(publishable)) == multiset(policy)
  {
    var names := Sort(MemberNames(publishable), Codes);
    var expectedNames := Sort(policy, Codes);
    SortsDecide(MemberNames(publishable), policy);
    ok := names == expectedNames;
  }

  method CollectVersions(publishable: seq<Member>) returns (versions: map<string, string>)
    ensures versions == Versions(publishable)
  {
    versions := map[];
    for i := 0 to |publishable|
      invariant versions == Versions(publishable[..i])
    {
      assert publishable[..i + 1][..i] == publishable[..i];
      versions := versions[publishable[i].name := publishable[i].version];
    }
    assert publishable[..|publishable|] == publishable;
  }

  /** The loop over the dependencies of one package. */
  method CheckDependencies(m: Member, versions: map<string, string>, includes: (string, string) -> Option<bool>)
    returns (ok: bool)
    ensures ok <==> AllResolve(m, versions, includes)
  {
    for i := 0 to |m.dependencies|
      invariant forall j :: 0 <= j < i ==> Resolves(m.dependencies[j], versions, includes)
    {
      var dependency := m.dependencies[i];
      if dependency.kind == Some("dev") && dependency.name !in versions {
        continue;
      }
      if dependency.name !in versions {
        if dependency.path.Some? {
          assert !Resolves(m.dependencies[i], versions, includes);
          return false;
        }
        continue;
      }
      var included := includes(dependency.req, versions[dependency.name]);
      if included != Some(true) {
        assert !Resolves(m.dependencies[i], versions, includes);
        return false;
      }
    }
    ok := true;
  }

  method NoneDependsOnItself(publishable: seq<Member>) returns (ok: bool)
    ensures ok <==> SelfFree(publishable)
  {
    for i := 0 to |publishable|
      invariant forall j :: 0 <= j < i ==> !DependsOnItself(publishable[j])
    {
      if exists j :: 0 <= j < |publishable[i].dependencies| && publishable[i].dependencies[j].name == publishable[i].name {
        assert DependsOnItself(publishable[i]);
        return false;
      }
    }
    ok := true;
  }

  method CheckAll(publishable: seq<Member>, includes: (string, string) -> Option<bool>) returns (ok: bool)
    ensures ok <==> Resolved(publishable, includes)
  {
    var versions := CollectVersions(publishable);
    for i := 0 to |publishable|
      invariant forall j :: 0 <= j < i ==> AllResolve(publishable[j], versions, includes)
    {
      ok := CheckDependencies(publishable[i], versions, includes);
      if !ok {
        return false;
      }
    }
    ok := true;
  }

  lemma {:induction false} MembersByName(ms: seq<Member>)
    requires NoDuplicates(MemberNames(ms))
    ensures forall m :: m in ms ==> m.name in ByName(AsCargo(ms)) && ByName(AsCargo(ms))[m.name].version == m.version
  {
    var cs := AsCargo(ms);
    forall i, j | 0 <= i < j < |cs| ensures cs[i].name != cs[j].name {
      assert MemberNames(ms)[i] != MemberNames(ms)[j];
    }
    ByNameHolds(cs);
    forall m | m in ms ensures m.name in ByName(cs) && ByName(cs)[m.name].version == m.version {
      var i :| 0 <= i < |ms| && ms[i] == m;
      assert cs[i] in cs;
    }
  }

  lemma {:induction false} DistinctTransfers(a: seq<string>, b: seq<string>)
    requires NoDuplicates(a) && multiset(a) == multiset(b)
    ensures NoDuplicates(b)
  {
    NoDuplicatesMultiset(a);
    forall i, j | 0 <= i < j < |b| ensures b[i] != b[j] {
      CountedTwice(b, i, j);
    }
  }

  lemma {:induction false} CountedTwice(b: seq<string>, i: nat, j: nat)
    requires i < j < |b|
    ensures b[i] == b[j] ==> multiset(b)[b[i]] >= 2
  {
    assert b == b[..j] + [b[j]] + b[j + 1..];
    assert b[i] in b[..j];
  }

  /** With distinct names, a plan with every package by name has every member. */
  lemma {:induction false} ListsMembers(ms: seq<Member>, policy: seq<string>, plan: seq<Package>)
    requires NoDuplicates(policy) && multiset(MemberNames(ms)) == multiset(policy)
    requires forall n :: n in ByName(AsCargo(ms)) ==> Package(n, ByName(AsCargo(ms))[n].version) in plan
    ensures forall m :: m in ms ==> Package(m.name, m.version) in plan
  {
    DistinctTransfers(policy, MemberNames(ms));
    MembersByName(ms);
  }

  /** A plan is built exactly for an acceptable workspace; it lists every
      published package with its version, after all it depends on. */
  method BuildPlan(workspace: seq<Member>, policy: seq<string>, includes: (string, string) -> Option<bool>)
    returns (plan: Option<seq<Package>>)
    ensures plan.Some? <==> Acceptable(workspace, policy, includes)
    ensures plan.Some? ==> Ordered(PlanGraph(workspace), plan.value)
    ensures plan.Some? && NoDuplicates(policy) ==>
              forall m :: m in Published(workspace) ==> Package(m.name, m.version) in plan.value
  {
    var publishable := SelectPublishable(workspace);
    var ok := MatchesPolicy(publishable, policy);
    if !ok {
      return None;
    }
    ok := NoneDependsOnItself(publishable);
    if !ok {
      return None;
    }
    ok := CheckAll(publishable, includes);
    if !ok {
      return None;
    }
    plan := OrderPlan(AsCargo(publishable));
    if plan.Some? && NoDuplicates(policy) {
      ListsMembers(publishable, policy, plan.value);
    }
  }
}
