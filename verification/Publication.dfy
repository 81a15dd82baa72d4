/**
  Checking and publishing a release
  (rust/otap-dataflow/xtask/src/crates_publish.rs, `preflight` and `publish`).

  The registry, the cargo commands and the local packaging are an environment
  that answers by the time it is asked; the only thing assumed of it is that the
  registry never loses a version or changes its checksum.  A session keeps a log
  of what it saw, verified and published.
 */
module Publication {
  import opened Options
  import opened Ordering
  import opened CrateOrder
  import opened PublishPlan

  /** A version as crates.io reports it. */
  datatype Released = Released(checksum: string, yanked: bool)

  type Registry = map<Package, Released>

  /** What the environment answers at each time. */
  datatype World = World(
    registry: nat -> Registry,
    lookupFails: nat -> bool,
    checksum: (Package, nat) -> Option<string>,
    packages: (Package, nat) -> bool,
    publishes: (Package, nat) -> bool,
    indexed: (Package, nat) -> Option<bool>,
    token: bool)

  predicate NothingLost(before: Registry, after: Registry) {
    forall p :: p in before ==> p in after && after[p].checksum == before[p].checksum
  }

  /** Versions stay, with their checksums; they may be added and yanked. */
  ghost predicate Lasting(w: World) {
    forall t: nat :: NothingLost(w.registry(t), w.registry(t + 1))
  }

  lemma {:induction false} StillThere(w: World, s: nat, t: nat)
    requires Lasting(w) && s <= t
    ensures NothingLost(w.registry(s), w.registry(t))
    decreases t - s
  {
    if s < t {
      StillThere(w, s, t - 1);
      assert NothingLost(w.registry(t - 1), w.registry(t - 1 + 1));
    }
  }

  datatype Lookup = Unreachable | Missing | Found(released: Released)

  const INDEPENDENT_VERSION_PACKAGES: seq<string> := ["otel-arrow-dfe-pdata-views"]
  const VISIBILITY_DELAYS: seq<nat> := [0, 5, 10, 20, 40, 80, 160, 300]

  // ---------- forecast ----------

  datatype Row = Row(name: string, version: string, state: string, action: string)

  const BLOCKED := "Blocked"

  function ForecastRow(p: Package, expected: string, version: Option<Released>, crateExists: bool): (r: Row)
    ensures r.name == p.name && r.version == p.version
    ensures r.action == BLOCKED <==>
            (version.Some? && version.value.yanked) || (version.None? && crateExists && p.version != expected)
    ensures r.action == "Publish" <==> version.None? && crateExists && p.version == expected
    ensures r.action == "Bootstrap required" <==> version.None? && !crateExists
    ensures r.action == "Skip after preflight verification" <==>
            version.Some? && !version.value.yanked && p.version == expected
    ensures r.action == "Skip independent version" <==>
            version.Some? && !version.value.yanked && p.version != expected
  {
    var (state, action) :=
      if version.Some? && version.value.yanked then ("Version yanked", BLOCKED)
      else if version.Some? then
        ("Version present",
         if p.version == expected then "Skip after preflight verification" else "Skip independent version")
      else if !crateExists then ("Crate not yet created", "Bootstrap required")
      else if p.version == expected then ("Version missing", "Publish")
      else ("Independent version missing", BLOCKED);
    Row(p.name, p.version, state, action)
  }

  /** One row per package of `ps`, none blocked. */
  predicate Clear(ps: seq<Package>, rows: seq<Row>) {
    |rows| == |ps| &&
    forall i :: 0 <= i < |ps| ==> RowOf(rows[i], ps[i]) && rows[i].action != BLOCKED
  }

  predicate RowOf(r: Row, p: Package) { r.name == p.name && r.version == p.version }

  /** Rows for a proper beginning of the plan, of which only the last is blocked. */
  predicate BlockedAtLast(plan: seq<Package>, rows: seq<Row>) {
    0 < |rows| <= |plan| && Clear(plan[..|rows| - 1], rows[..|rows| - 1]) &&
    RowOf(rows[|rows| - 1], plan[|rows| - 1]) && rows[|rows| - 1].action == BLOCKED
  }

  lemma NextRow(plan: seq<Package>, i: nat, rows: seq<Row>, row: Row)
    requires i < |plan| && Clear(plan[..i], rows) && RowOf(row, plan[i])
    ensures if row.action == BLOCKED then BlockedAtLast(plan, rows + [row]) else Clear(plan[..i + 1], rows + [row])
  {
    var after := rows + [row];
    assert |rows| == i && after[..i] == rows;
    assert forall j :: 0 <= j < i ==> plan[..i + 1][j] == plan[..i][j] && after[j] == rows[j];
  }

  // ---------- what a session did ----------

  /** `packaged` and `indexed` are the times at which the local package was
      built and the index was asked. */
  datatype Event =
    | Seen(p: Package, time: nat, released: Released)
    | Verified(p: Package, time: nat, checksum: string, packaged: nat, indexed: nat)
    | Published(p: Package, time: nat, packaged: nat)

  /** The log tells what the environment answered: a verified version had the
      checksum of the local package, was not yanked and was in the index; a
      published one packaged locally and was missing. */
  ghost predicate Truthful(w: World, e: Event) {
    match e
    case Seen(p, t, released) => p in w.registry(t) && w.registry(t)[p] == released
    case Verified(p, t, checksum, packaged, indexed) =>
      p in w.registry(t) && w.registry(t)[p] == Released(checksum, false) &&
      w.checksum(p, packaged) == Some(checksum) && w.indexed(p, indexed) == Some(true)
    case Published(p, t, packaged) =>
      w.token && w.checksum(p, packaged).Some? && !w.lookupFails(t) && p !in w.registry(t)
  }

  /** `log` shows that `q` is available: verified against the locally packaged
      crate if it belongs to the release, seen and not yanked otherwise. */
  ghost predicate Available(log: seq<Event>, q: Package, expected: string) {
    exists e :: e in log && e.p == q &&
      (if q.version == expected then e.Verified? else e.Seen? && !e.released.yanked)
  }

  ghost predicate AllTruthful(w: World, log: seq<Event>, start: nat, now: nat) {
    forall e :: e in log ==> Truthful(w, e) && start <= e.time < now
  }

  ghost predicate Chronological(log: seq<Event>) {
    forall i, j :: 0 <= i < j < |log| ==> log[i].time <= log[j].time
  }

  /** Whenever something was published, it was a release package that was still
      missing after the session began, and everything published it depends on
      had been found available before. */
  ghost predicate Safe(w: World, g: Graph, plan: seq<Package>, expected: string, log: seq<Event>, start: nat) {
    forall i :: 0 <= i < |log| && log[i].Published? ==>
      log[i].p in plan && log[i].p.version == expected && log[i].p.name in g &&
      log[i].p !in w.registry(start) &&
      forall q :: q in plan && q.name in g[log[i].p.name] ==> Available(log[..i], q, expected)
  }

  lemma AvailableLater(log: seq<Event>, more: seq<Event>, q: Package, expected: string)
    requires Available(log, q, expected)
    ensures Available(log + more, q, expected)
  {
    var e :| e in log && e.p == q && (if q.version == expected then e.Verified? else e.Seen? && !e.released.yanked);
    assert e in log + more;
  }

  lemma SafeAppend(w: World, g: Graph, plan: seq<Package>, expected: string, log: seq<Event>, start: nat, e: Event)
    requires Safe(w, g, plan, expected, log, start)
    requires e.Published? ==>
             e.p in plan && e.p.version == expected && e.p.name in g && e.p !in w.registry(start) &&
             forall q :: q in plan && q.name in g[e.p.name] ==> Available(log, q, expected)
    ensures Safe(w, g, plan, expected, log + [e], start)
  {
    var after := log + [e];
    forall i | 0 <= i < |after| && after[i].Published?
      ensures after[i].p in plan && after[i].p.version == expected && after[i].p.name in g &&
              after[i].p !in w.registry(start) &&
              forall q :: q in plan && q.name in g[after[i].p.name] ==> Available(after[..i], q, expected)
    {
      if i < |log| {
        assert after[..i] == log[..i] && after[i] == log[i];
      } else {
        assert after[..i] == log;
      }
    }
  }

  function Answer(w: World, t: nat, p: Package): Lookup {
    if w.lookupFails(t) then Unreachable
    else if p in w.registry(t) then Found(w.registry(t)[p])
    else Missing
  }

  // ---------- what preflight asks ----------

  /** Asked from time `t` on, the registry and cargo give a package no reason to
      stop: a version that is there is not yanked and, if it belongs to the
      release, has the checksum of the local package; one that is missing belongs
      to the release and packages.  A forecast also looks the crate up. */
  predicate PassesAt(w: World, p: Package, expected: string, forecast: bool, t: nat) {
    match Answer(w, t, p)
    case Unreachable => false
    case Found(released) =>
      !released.yanked && (p.version == expected ==> w.checksum(p, t + 1) == Some(released.checksum))
    case Missing =>
      p.version == expected &&
      if forecast then !w.lookupFails(t + 1) && w.packages(p, t + 2) else w.packages(p, t + 1)
  }

  ghost predicate Passed(w: World, p: Package, expected: string, forecast: bool, from: nat, to: nat) {
    exists t :: from <= t < to && PassesAt(w, p, expected, forecast, t)
  }

  ghost predicate Refused(w: World, p: Package, expected: string, forecast: bool, from: nat, to: nat) {
    exists t :: from <= t < to && !PassesAt(w, p, expected, forecast, t)
  }

  lemma PassedWithin(w: World, p: Package, expected: string, forecast: bool, from: nat, to: nat, from': nat, to': nat)
    requires from' <= from && to <= to' && Passed(w, p, expected, forecast, from, to)
    ensures Passed(w, p, expected, forecast, from', to')
  {
    var t :| from <= t < to && PassesAt(w, p, expected, forecast, t);
    assert from' <= t < to' && PassesAt(w, p, expected, forecast, t);
  }

  ghost predicate AllPassed(w: World, plan: seq<Package>, expected: string, forecast: bool, from: nat, to: nat) {
    forall p :: p in plan ==> Passed(w, p, expected, forecast, from, to)
  }

  /** The row that describes what the registry says of a package from `t` on. */
  function Described(w: World, p: Package, expected: string, t: nat): Row {
    var lookup := Answer(w, t, p);
    ForecastRow(p, expected, if lookup.Found? then Some(lookup.released) else None,
                lookup.Found? || exists v :: v in w.registry(t + 1) && v.name == p.name)
  }

  ghost predicate DescribedWithin(w: World, r: Row, p: Package, expected: string, from: nat, to: nat) {
    exists t :: from <= t < to && r == Described(w, p, expected, t)
  }

  ghost predicate AllDescribed(w: World, plan: seq<Package>, rows: seq<Row>, n: nat, expected: string, from: nat, to: nat) {
    n <= |plan| && n <= |rows| && forall i :: 0 <= i < n ==> DescribedWithin(w, rows[i], plan[i], expected, from, to)
  }

  lemma NextPassed(w: World, done: seq<Package>, p: Package, expected: string, forecast: bool,
                   from: nat, now: nat, to: nat)
    requires from <= now < to && AllPassed(w, done, expected, forecast, from, now)
    ensures AllPassed(w, done, expected, forecast, from, to)
    ensures PassesAt(w, p, expected, forecast, now) ==> AllPassed(w, done + [p], expected, forecast, from, to)
    ensures !PassesAt(w, p, expected, forecast, now) ==> Refused(w, p, expected, forecast, from, to)
  {
    forall q | q in done ensures Passed(w, q, expected, forecast, from, to) {
      PassedWithin(w, q, expected, forecast, from, now, from, to);
    }
  }

  /** What passed before preflight ended had passed when something was published. */
  lemma PassedBefore(w: World, plan: seq<Package>, expected: string, start: nat, checked: nat, log: seq<Event>)
    requires AllPassed(w, plan, expected, false, start, checked)
    requires forall e :: e in log && e.Published? ==> checked <= e.time
    ensures forall e :: e in log && e.Published? ==> AllPassed(w, plan, expected, false, start, e.time)
  {
    forall e, p | e in log && e.Published? && p in plan ensures Passed(w, p, expected, false, start, e.time) {
      PassedWithin(w, p, expected, false, start, checked, start, e.time);
    }
  }

  lemma NextDescribed(w: World, plan: seq<Package>, rows: seq<Row>, row: Row, n: nat, expected: string,
                      from: nat, now: nat, to: nat)
    requires from <= now < to && n < |plan| && |rows| == n && AllDescribed(w, plan, rows, n, expected, from, now)
    ensures AllDescribed(w, plan, rows + [row], n, expected, from, to)
    ensures row == Described(w, plan[n], expected, now) ==> AllDescribed(w, plan, rows + [row], n + 1, expected, from, to)
  {
    var after := rows + [row];
    forall i | 0 <= i < n ensures DescribedWithin(w, after[i], plan[i], expected, from, to) {
      assert after[i] == rows[i];
      var t :| from <= t < now && rows[i] == Described(w, plan[i], expected, t);
    }
  }

  // ---------- plans ----------

  /** What a package depends on comes earlier in the plan. */
  lemma DependencyEarlier(g: Graph, plan: seq<Package>, i: nat, q: Package) returns (j: nat)
    requires Ordered(g, plan) && i < |plan| && plan[i].name in g && q in plan && q.name in g[plan[i].name]
    ensures j < i && plan[j] == q
  {
    var names := PlanNames(plan);
    assert DependenciesBefore(g, names, i);
    j :| 0 <= j < i && names[..i][j] == q.name;
    var m :| 0 <= m < |plan| && plan[m] == q;
    assert names[m] == names[j];
    assert m == j;
  }

  // ---------- an environment in which nothing goes wrong ----------

  /** From `start` on, packaging a package gives the same checksum every time,
      which is the one in the registry once it is there; it is never yanked; an
      independent version is there already. */
  ghost predicate HealthyAt(w: World, p: Package, expected: string, start: nat, t: nat) {
    !w.lookupFails(t) && w.indexed(p, t).Some? && w.publishes(p, t) &&
    (p in w.registry(t) ==> !w.registry(t)[p].yanked) &&
    if p.version != expected then p in w.registry(t)
    else
      w.packages(p, t) && w.checksum(p, start).Some? && w.checksum(p, t) == w.checksum(p, start) &&
      (p in w.registry(t) ==> Some(w.registry(t)[p].checksum) == w.checksum(p, start) && Settles(w, p, t))
  }

  const SETTLING := 600

  /** Ten minutes after `t` at the latest the version is there and in the index. */
  ghost predicate Settles(w: World, p: Package, t: nat) {
    forall u: nat :: t + SETTLING <= u ==> SettledAt(w, p, u)
  }

  ghost predicate SettledAt(w: World, p: Package, t: nat) {
    p in w.registry(t) && w.indexed(p, t) == Some(true)
  }

  ghost predicate Healthy(w: World, p: Package, expected: string, start: nat) {
    w.token && forall t: nat :: start <= t ==> HealthyAt(w, p, expected, start, t)
  }

  ghost predicate AllHealthy(w: World, plan: seq<Package>, expected: string, start: nat) {
    forall p :: p in plan ==> Healthy(w, p, expected, start)
  }

  /** What the log says was published shows up in time. */
  ghost predicate Responsive(w: World, log: seq<Event>) {
    forall e :: e in log && e.Published? ==> Settles(w, e.p, e.time)
  }

  ghost predicate VersionsFit(plan: seq<Package>, expected: string) {
    forall p :: p in plan ==> p.version == expected || p.name in INDEPENDENT_VERSION_PACKAGES
  }

  /** A look at time `t` meets no error. */
  ghost predicate Visible(w: World, p: Package, checksum: string, t: nat) {
    !w.lookupFails(t) && w.indexed(p, t + 1).Some? &&
    (p in w.registry(t) ==> w.registry(t)[p] == Released(checksum, false))
  }

  lemma HealthyLook(w: World, p: Package, expected: string, start: nat, checksum: string, packaged: nat, t: nat)
    requires Healthy(w, p, expected, start) && p.version == expected && start <= packaged && start <= t
    requires w.checksum(p, packaged) == Some(checksum)
    ensures Visible(w, p, checksum, t)
  {
    assert HealthyAt(w, p, expected, start, packaged);
    assert HealthyAt(w, p, expected, start, t);
    assert HealthyAt(w, p, expected, start, t + 1);
  }

  lemma HealthyPasses(w: World, p: Package, expected: string, start: nat, forecast: bool, t: nat)
    requires Healthy(w, p, expected, start) && start <= t
    ensures PassesAt(w, p, expected, forecast, t)
  {
    assert HealthyAt(w, p, expected, start, t);
    assert HealthyAt(w, p, expected, start, t + 1);
    assert HealthyAt(w, p, expected, start, t + 2);
  }

  /** How long the first `i` delays take. */
  function Waited(i: nat): nat
    requires i <= |VISIBILITY_DELAYS|
  {
    if i == 0 then 0 else Waited(i - 1) + VISIBILITY_DELAYS[i - 1]
  }

  lemma WaitedLongEnough()
    ensures Waited(|VISIBILITY_DELAYS|) >= SETTLING
  {
    assert Waited(2) == 5;
    assert Waited(4) == 35;
    assert Waited(6) == 155;
  }

  // ---------- over whole histories of runs ----------

  /** A run of `publish`, or the part of one before it was interrupted. */
  datatype Run = Run(plan: seq<Package>, graph: Graph, expected: string, start: nat, end: nat, log: seq<Event>)

  ghost predicate SafeRun(w: World, r: Run) {
    AllTruthful(w, r.log, r.start, r.end) && Chronological(r.log) &&
    Safe(w, r.graph, r.plan, r.expected, r.log, r.start)
  }

  /** Interrupting a run anywhere leaves a safe run. */
  lemma InterruptedRunIsSafe(w: World, r: Run, k: nat)
    requires SafeRun(w, r) && k <= |r.log|
    ensures SafeRun(w, r.(log := r.log[..k]))
  {
    var cut := r.log[..k];
    forall i | 0 <= i < |cut| && cut[i].Published?
      ensures forall q :: q in r.plan && r.log[i].p.name in r.graph && q.name in r.graph[r.log[i].p.name] ==>
                Available(cut[..i], q, r.expected)
    {
      assert cut[i] == r.log[i] && cut[..i] == r.log[..i];
    }
  }

  /** Whenever a run published something, everything published it depends on was
      in the registry at that time: at the release version with the checksum the
      run had computed itself, at an independent version as it was seen. */
  lemma DependenciesInRegistry(w: World, r: Run, i: nat, q: Package) returns (e: Event)
    requires Lasting(w) && SafeRun(w, r) && i < |r.log| && r.log[i].Published?
    requires q in r.plan && r.log[i].p.name in r.graph && q.name in r.graph[r.log[i].p.name]
    ensures e in r.log[..i] && e.p == q && e.time <= r.log[i].time && q in w.registry(r.log[i].time)
    ensures q.version == r.expected ==>
            e.Verified? && w.checksum(q, e.packaged) == Some(w.registry(r.log[i].time)[q].checksum)
    ensures q.version != r.expected ==> e.Seen? && !e.released.yanked
  {
    var before := r.log[..i];
    assert Available(before, q, r.expected);
    e :| e in before && e.p == q && (if q.version == r.expected then e.Verified? else e.Seen? && !e.released.yanked);
    var j :| 0 <= j < i && r.log[j] == e;
    assert e in r.log;
    StillThere(w, e.time, r.log[i].time);
  }

  /** Runs may be interrupted and repeated: what one run has seen or verified in
      the registry, no later run publishes again. */
  lemma NeverPublishedAgain(w: World, earlier: Run, later: Run, p: Package)
    requires Lasting(w) && SafeRun(w, earlier) && SafeRun(w, later) && earlier.end <= later.start
    requires exists e :: e in earlier.log && e.p == p && !e.Published?
    ensures forall e :: e in later.log && e.p == p ==> !e.Published?
  {
    var e :| e in earlier.log && e.p == p && !e.Published?;
    assert p in w.registry(e.time);
    StillThere(w, e.time, later.start);
    forall f | f in later.log && f.p == p ensures !f.Published? {
      var k :| 0 <= k < |later.log| && later.log[k] == f;
    }
  }

  class Session {
    const world: World
    ghost const start: nat
    var clock: nat
    var log: seq<Event>

    ghost predicate Valid()
      reads this
    {
      start <= clock && AllTruthful(world, log, start, clock) && Chronological(log)
    }

    constructor (world: World, now: nat)
      ensures this.world == world && start == clock == now && log == [] && Valid()
    {
      this.world, this.start, this.clock, this.log := world, now, now, [];
    }

    method Query(p: Package) returns (r: Lookup)
      modifies this`clock
      ensures r == Answer(world, old(clock), p) && clock == old(clock) + 1
    {
      r := Answer(world, clock, p);
      clock := clock + 1;
    }

    method PackageChecksum(p: Package) returns (r: Option<string>)
      modifies this`clock
      ensures r == world.checksum(p, old(clock)) && clock == old(clock) + 1
    {
      r := world.checksum(p, clock);
      clock := clock + 1;
    }

    /** Passes only what `publish` can build on: an independent version that is
        there, a release version that matches, or a missing one that packages. */
    method PreflightPackage(p: Package, expected: string, version: Option<Released>) returns (ok: bool)
      modifies this`clock
      ensures clock >= old(clock)
      ensures ok <==>
              if version.Some? then
                !version.value.yanked &&
                (p.version == expected ==> world.checksum(p, old(clock)) == Some(version.value.checksum))
              else p.version == expected && world.packages(p, old(clock))
    {
      if p.version != expected {
        return version.Some? && !version.value.yanked;
      }
      if version.Some? {
        if version.value.yanked {
          return false;
        }
        var checksum := PackageChecksum(p);
        return checksum == Some(version.value.checksum);
      }
      ok := world.packages(p, clock);
      clock := clock + 1;
    }

    /** Checks every package of the plan, writing the forecast as it goes, up to
        the first that does not pass: `at` of them did. */
    method Preflight(plan: seq<Package>, expected: string, forecast: bool)
      returns (ok: bool, rows: seq<Row>, ghost at: nat)
      requires Valid()
      modifies this
      ensures Valid() && old(clock) <= clock
      ensures forall e :: e in log ==> e in old(log) || e.Seen?
      ensures ok ==> forall q :: q in plan && q.version != expected ==> Available(log, q, expected)
      ensures at <= |plan| && AllPassed(world, plan[..at], expected, forecast, old(clock), clock)
      ensures ok <==> at == |plan|
      ensures !ok ==> Refused(world, plan[at], expected, forecast, old(clock), clock)
      ensures forecast && ok ==> Clear(plan, rows)
      ensures forecast && !ok ==> BlockedAtLast(plan, rows) && |rows| == at + 1
      ensures forecast ==> AllDescribed(world, plan, rows, at, expected, old(clock), clock)
      ensures !forecast ==> rows == []
      ensures AllHealthy(world, plan, expected, start) ==> ok
    {
      rows := [];
      ok := true;
      at := 0;
      for i := 0 to |plan|
        invariant ok && Valid() && old(clock) <= clock && at == i
        invariant forall e :: e in log ==> e in old(log) || e.Seen?
        invariant forall j :: 0 <= j < i && plan[j].version != expected ==> Available(log, plan[j], expected)
        invariant AllPassed(world, plan[..i], expected, forecast, old(clock), clock)
        invariant if forecast then Clear(plan[..i], rows) && AllDescribed(world, plan, rows, i, expected, old(clock), clock)
                  else rows == []
      {
        var row;
        ghost var now := clock;
        ok, row := PreflightOne(plan[i], expected, forecast);
        if forecast {
          NextRow(plan, i, rows, row);
          NextDescribed(world, plan, rows, row, i, expected, old(clock), now, clock);
          rows := rows + [row];
        }
        if !ok {
          NextPassed(world, plan[..i], plan[i], expected, forecast, old(clock), now, clock);
          assert plan[i] in plan;
          return;
        }
        NextPassed(world, plan[..i], plan[i], expected, forecast, old(clock), now, clock);
        assert plan[..i + 1] == plan[..i] + [plan[i]];
        at := i + 1;
      }
      assert plan[..|plan|] == plan;
    }

    /** One package: its lookup, its row and its check. */
    method PreflightOne(p: Package, expected: string, forecast: bool) returns (ok: bool, row: Row)
      requires Valid()
      modifies this
      ensures Valid() && old(clock) < clock
      ensures forall e :: e in log ==> e in old(log) || e.Seen?
      ensures forall q :: Available(old(log), q, expected) ==> Available(log, q, expected)
      ensures ok <==> PassesAt(world, p, expected, forecast, old(clock))
      ensures ok && p.version != expected ==> Available(log, p, expected)
      ensures forecast ==> RowOf(row, p) && (row.action == BLOCKED <==> !ok)
      ensures forecast && ok ==> row == Described(world, p, expected, old(clock))
      ensures Healthy(world, p, expected, start) ==> ok
    {
      var now := clock;
      if Healthy(world, p, expected, start) {
        HealthyPasses(world, p, expected, start, forecast, now);
      }
      var lookup := Query(p);
      if lookup == Unreachable {
        return false, Row(p.name, p.version, "Version lookup failed", BLOCKED);
      }
      var version := if lookup.Found? then Some(lookup.released) else None;
      if lookup.Found? {
        NoteSeen(p, now, lookup.released, expected);
      }
      var crateExists := Some(true);
      if forecast && version == None {
        crateExists := CrateExists(p);
        if crateExists == None {
          return false, Row(p.name, p.version, "Crate lookup failed", BLOCKED);
        }
      }
      row := ForecastRow(p, expected, version, crateExists.value);
      ok := PreflightPackage(p, expected, version);
      if !ok {
        row := row.(action := BLOCKED);
      }
    }

    method CrateExists(p: Package) returns (r: Option<bool>)
      modifies this`clock
      ensures clock == old(clock) + 1 && (r == None <==> world.lookupFails(old(clock)))
      ensures r.Some? ==> r.value == exists v :: v in world.registry(old(clock)) && v.name == p.name
    {
      if world.lookupFails(clock) {
        r := None;
      } else {
        r := Some(exists v :: v in world.registry(clock) && v.name == p.name);
      }
      clock := clock + 1;
    }

    method NoteSeen(p: Package, now: nat, released: Released, ghost expected: string)
      requires Valid() && start <= now && now + 1 == clock && AllTruthful(world, log, start, now)
      requires p in world.registry(now) && world.registry(now)[p] == released
      modifies this`log
      ensures Valid() && log == old(log) + [Seen(p, now, released)]
      ensures forall q :: Available(old(log), q, expected) ==> Available(log, q, expected)
      ensures p.version != expected && !released.yanked ==> Available(log, p, expected)
    {
      forall q | Available(log, q, expected) ensures Available(log + [Seen(p, now, released)], q, expected) {
        AvailableLater(log, [Seen(p, now, released)], q, expected);
      }
      log := log + [Seen(p, now, released)];
      assert log[|log| - 1] in log;
    }

    /** Adds an event; what was safe and available stays so. */
    method Note(e: Event, ghost g: Graph, ghost plan: seq<Package>, ghost expected: string)
      requires Valid() && Truthful(world, e) && start <= e.time < clock && AllTruthful(world, log, start, e.time)
      requires Safe(world, g, plan, expected, log, start)
      requires e.Published? ==>
               e.p in plan && e.p.version == expected && e.p.name in g && e.p !in world.registry(start) &&
               forall q :: q in plan && q.name in g[e.p.name] ==> Available(log, q, expected)
      modifies this`log
      ensures Valid() && Safe(world, g, plan, expected, log, start) && log == old(log) + [e]
      ensures forall q :: q in plan && Available(old(log), q, expected) ==> Available(log, q, expected)
    {
      SafeAppend(world, g, plan, expected, log, start, e);
      forall q | q in plan && Available(log, q, expected) ensures Available(log + [e], q, expected) {
        AvailableLater(log, [e], q, expected);
      }
      log := log + [e];
    }

    /** One look at the registry and the index: ready, not yet, or failed. */
    method Look(p: Package, checksum: string) returns (r: Option<bool>)
      modifies this`clock
      ensures old(clock) < clock
      ensures r == Some(true) ==>
                clock == old(clock) + 2 && p in world.registry(old(clock)) &&
                world.registry(old(clock))[p] == Released(checksum, false) &&
                world.indexed(p, old(clock) + 1) == Some(true)
      ensures Visible(world, p, checksum, old(clock)) ==> r.Some?
      ensures Visible(world, p, checksum, old(clock)) && SettledAt(world, p, old(clock)) && SettledAt(world, p, old(clock) + 1) ==>
                r == Some(true)
    {
      var lookup := Query(p);
      if !lookup.Found? {
        return Some(false);
      }
      if lookup.released.yanked || lookup.released.checksum != checksum {
        return None;
      }
      r := world.indexed(p, clock);
      clock := clock + 1;
    }

    /** Looks until the version is there, matches and is in the index, or the
        delays run out; `packaged` is when the checksum was computed. */
    method WaitUntilReady(p: Package, checksum: string, packaged: nat,
                          ghost g: Graph, ghost plan: seq<Package>, ghost expected: string)
      returns (ok: bool)
      requires Valid() && Safe(world, g, plan, expected, log, start) && p.version == expected
      requires start <= packaged && world.checksum(p, packaged) == Some(checksum)
      modifies this
      ensures Valid() && Safe(world, g, plan, expected, log, start) && old(clock) <= clock
      ensures forall q :: q in plan && Available(old(log), q, expected) ==> Available(log, q, expected)
      ensures ok ==> Available(log, p, expected)
      ensures !ok ==> log == old(log)
      ensures forall e :: e in log && e.Published? ==> e in old(log)
      ensures Healthy(world, p, expected, start) && Settles(world, p, old(clock)) ==> ok
    {
      ghost var healthy := Healthy(world, p, expected, start) && Settles(world, p, old(clock));
      for i := 0 to |VISIBILITY_DELAYS|
        invariant Valid() && log == old(log) && old(clock) + Waited(i) <= clock
        invariant healthy ==> i < |VISIBILITY_DELAYS| || Waited(i) < SETTLING
      {
        clock := clock + VISIBILITY_DELAYS[i];
        var now := clock;
        if healthy {
          HealthyLook(world, p, expected, start, checksum, packaged, now);
          assert Waited(i + 1) >= SETTLING ==> SettledAt(world, p, now) && SettledAt(world, p, now + 1);
        }
        var ready := Look(p, checksum);
        if ready == None {
          return false;
        }
        if ready.value {
          Note(Verified(p, now, checksum, packaged, now + 1), g, plan, expected);
          assert log[|log| - 1] in log;
          return true;
        }
      }
      WaitedLongEnough();
      ok := false;
    }

    /** Publishes a release package that is missing, or confirms the one there. */
    method PublishOne(p: Package, ghost g: Graph, ghost plan: seq<Package>, expected: string) returns (ok: bool)
      requires Lasting(world) && Valid() && Safe(world, g, plan, expected, log, start)
      requires p in plan && p.version == expected && p.name in g
      requires forall q :: q in plan && q.name in g[p.name] ==> Available(log, q, expected)
      modifies this
      ensures Valid() && Safe(world, g, plan, expected, log, start) && old(clock) <= clock
      ensures forall q :: q in plan && Available(old(log), q, expected) ==> Available(log, q, expected)
      ensures ok ==> Available(log, p, expected)
      ensures forall e :: e in log && e.Published? ==>
                e in old(log) || (old(clock) <= e.time && (ok ==> world.publishes(e.p, e.time)))
      ensures Healthy(world, p, expected, start) && Responsive(world, log) ==> ok
    {
      ghost var healthy := Healthy(world, p, expected, start);
      var packaged := clock;
      assert healthy ==> HealthyAt(world, p, expected, start, packaged);
      var checksum := PackageChecksum(p);
      if checksum == None {
        return false;
      }
      var now := clock;
      assert healthy ==> HealthyAt(world, p, expected, start, now);
      var lookup := Query(p);
      match lookup {
        case Unreachable => return false;
        case Found(released) =>
          if released.yanked || released.checksum != checksum.value {
            return false;
          }
        case Missing =>
          if !world.token {
            return false;
          }
          StillThere(world, start, now);
          assert p !in world.registry(start);
          clock := clock + 1;
          Note(Published(p, now, packaged), g, plan, expected);
          assert log[|log| - 1] in log;
          if !world.publishes(p, now) {
            return false;
          }
      }
      assert healthy && lookup.Found? ==> Settles(world, p, now);
      ok := WaitUntilReady(p, checksum.value, packaged, g, plan, expected);
      assert !ok && lookup.Missing? ==> Published(p, now, packaged) in log;
    }

    /** A whole run of `publish`.  It publishes only after every package of the
        plan has passed.  However it ends, everything it published was
        missing when it began and had its dependencies available before; when it
        succeeds, every package of the plan is available.  It does succeed when
        nothing goes wrong and what it publishes shows up within ten minutes;
        run again on what is there already, it publishes nothing. */
    method Publish(plan: seq<Package>, ghost g: Graph, expected: string) returns (ok: bool)
      requires Lasting(world) && Valid() && log == [] && clock == start && Ordered(g, plan)
      modifies this
      ensures Valid() && Safe(world, g, plan, expected, log, start)
      ensures ok ==> VersionsFit(plan, expected) && forall q :: q in plan ==> Available(log, q, expected)
      ensures forall e :: e in log && e.Published? ==>
                VersionsFit(plan, expected) && AllPassed(world, plan, expected, false, start, e.time) &&
                (ok ==> world.publishes(e.p, e.time))
      ensures VersionsFit(plan, expected) && AllHealthy(world, plan, expected, start) && Responsive(world, log) ==> ok
      ensures (forall q :: q in plan ==> q in world.registry(start)) ==> forall e :: e in log ==> !e.Published?
    {
      ok := EnsurePlanVersion(plan, expected);
      if !ok {
        return;
      }
      var rows;
      ghost var at;
      ok, rows, at := Preflight(plan, expected, false);
      if !ok {
        return;
      }
      assert plan[..at] == plan;
      ghost var checked := clock;
      ok := PublishAll(plan, g, expected, checked);
      PassedBefore(world, plan, expected, start, checked, log);
    }

    /** The loop over the plan, once preflight has passed. */
    method PublishAll(plan: seq<Package>, ghost g: Graph, expected: string, ghost checked: nat) returns (ok: bool)
      requires Lasting(world) && Valid() && Ordered(g, plan) && Safe(world, g, plan, expected, log, start)
      requires checked == clock && forall e :: e in log ==> !e.Published?
      requires forall q :: q in plan && q.version != expected ==> Available(log, q, expected)
      modifies this
      ensures Valid() && Safe(world, g, plan, expected, log, start)
      ensures ok ==> forall q :: q in plan ==> Available(log, q, expected)
      ensures forall e :: e in log && e.Published? ==> checked <= e.time && (ok ==> world.publishes(e.p, e.time))
      ensures AllHealthy(world, plan, expected, start) && Responsive(world, log) ==> ok
    {
      ok := true;
      for i := 0 to |plan|
        invariant checked <= clock && forall e :: e in log && e.Published? ==> checked <= e.time && world.publishes(e.p, e.time)
        invariant ok && Valid() && Safe(world, g, plan, expected, log, start)
        invariant forall q :: q in plan && q.version != expected ==> Available(log, q, expected)
        invariant forall j :: 0 <= j < i ==> Available(log, plan[j], expected)
      {
        if plan[i].version == expected {
          assert PlanNames(plan)[i] == plan[i].name;
          forall q | q in plan && q.name in g[plan[i].name] ensures Available(log, q, expected) {
            var j := DependencyEarlier(g, plan, i, q);
          }
          assert forall j :: 0 <= j < i ==> plan[j] in plan;
          ok := PublishOne(plan[i], g, plan, expected);
          if !ok {
            assert plan[i] in plan;
            return;
          }
        } else {
          assert plan[i] in plan;
        }
      }
    }

    /** Only the listed packages may have a version of their own. */
    method EnsurePlanVersion(plan: seq<Package>, expected: string) returns (ok: bool)
      ensures ok <==> VersionsFit(plan, expected)
    {
      for i := 0 to |plan|
        invariant forall j :: 0 <= j < i ==> plan[j].version == expected || plan[j].name in INDEPENDENT_VERSION_PACKAGES
      {
        if plan[i].version != expected && plan[i].name !in INDEPENDENT_VERSION_PACKAGES {
          assert plan[i] in plan;
          return false;
        }
      }
      ok := true;
    }
  }

  /** `publish` from the workspace on: plan the release, then publish it. */
  method Release(world: World, now: nat, workspace: seq<Member>, policy: seq<string>,
                 includes: (string, string) -> Option<bool>, expected: string)
    returns (ok: bool, plan: seq<Package>, log: seq<Event>, end: nat)
    requires Lasting(world)
    ensures ok ==> Acceptable(workspace, policy, includes) && forall q :: q in plan ==> Available(log, q, expected)
    ensures SafeRun(world, Run(plan, PlanGraph(workspace), expected, now, end, log))
  {
    plan, log, end := [], [], now;
    var built := BuildPlan(workspace, policy, includes);
    if built == None {
      ok := false;
      return;
    }
    plan := built.value;
    var session := new Session(world, now);
    ok := session.Publish(plan, PlanGraph(workspace), expected);
    log, end := session.log, session.clock;
  }
}
