/** Spreading of dependency charts (chartversion.go:156-167, 255-340,
    chart.go:65-76): each pass over a chart puts the dependencies of its
    versions into the version lists of the dependency charts. */
module SubCharts {

  datatype Triple = Triple(repo: string, chart: string, version: string)

  datatype ChartKey = ChartKey(repo: string, chart: string)

  /** The Chart resources, by repository and chart name, with their versions. */
  type Charts = map<ChartKey, seq<string>>

  /** The dependencies of each chart version, in the order of its index entry. */
  type Index = map<Triple, seq<Triple>>

  function KeyOf(t: Triple): ChartKey {
    ChartKey(t.repo, t.chart)
  }

  /** The index lists dep as a dependency of t. */
  ghost predicate DependsOn(ix: Index, t: Triple, dep: Triple) {
    t in ix && dep in ix[t]
  }

  function DepsOf(ix: Index, t: Triple): seq<Triple> {
    if t in ix then ix[t] else []
  }

  ghost predicate Has(c: Charts, t: Triple) {
    KeyOf(t) in c && t.version in c[KeyOf(t)]
  }

  /** createOrUpdateSubChart: create the chart, append the version, or return. */
  function Spread(c: Charts, dep: Triple): Charts {
    var k := KeyOf(dep);
    if k !in c then c[k := [dep.version]]
    else if dep.version in c[k] then c
    else c[k := c[k] + [dep.version]]
  }

  function SpreadAll(c: Charts, deps: seq<Triple>): Charts
    decreases |deps|
  {
    if deps == [] then c else SpreadAll(Spread(c, deps[0]), deps[1..])
  }

  // -------------------------------------------------------------------
  // The passes
  // -------------------------------------------------------------------

  /** The dependencies of all versions of a chart, as CreateOrUpdateSubCharts
      of chart.go visits them. */
  function PassDeps(ix: Index, k: ChartKey, versions: seq<string>): seq<Triple> {
    if versions == [] then []
    else PassDeps(ix, k, versions[..|versions| - 1]) + DepsOf(ix, Triple(k.repo, k.chart, versions[|versions| - 1]))
  }

  lemma {:induction false} SpreadAllConcat(c: Charts, a: seq<Triple>, b: seq<Triple>)
    ensures SpreadAll(c, a + b) == SpreadAll(SpreadAll(c, a), b)
    decreases |a|
  {
    if a == [] {
      assert a + b == b;
    } else {
      assert (a + b)[1..] == a[1..] + b;
      SpreadAllConcat(Spread(c, a[0]), a[1..], b);
    }
  }

  /** One step adds at most its own dependency. */
  lemma SpreadHas(c: Charts, dep: Triple)
    ensures forall t :: Has(Spread(c, dep), t) <==> Has(c, t) || t == dep
    ensures Grows(c, Spread(c, dep))
    ensures NoDuplicates(c) ==> NoDuplicates(Spread(c, dep))
  {
  }

  lemma {:induction false} SpreadAllHas(c: Charts, deps: seq<Triple>)
    ensures forall t :: Has(SpreadAll(c, deps), t) <==> Has(c, t) || t in deps
    decreases |deps|
  {
    if deps != [] {
      SpreadHas(c, deps[0]);
      SpreadAllHas(Spread(c, deps[0]), deps[1..]);
      assert deps == [deps[0]] + deps[1..];
    }
  }

  ghost predicate InPass(ix: Index, k: ChartKey, versions: seq<string>, dep: Triple) {
    exists v :: v in versions && DependsOn(ix, Triple(k.repo, k.chart, v), dep)
  }

  /** A pass handles the dependencies of all versions and no others. */
  lemma {:induction false} PassDepsAre(ix: Index, k: ChartKey, versions: seq<string>, dep: Triple)
    ensures dep in PassDeps(ix, k, versions) <==> InPass(ix, k, versions, dep)
    decreases |versions|
  {
    if versions != [] {
      var n := |versions| - 1;
      PassDepsAre(ix, k, versions[..n], dep);
      assert versions == versions[..n] + [versions[n]];
      if InPass(ix, k, versions, dep) {
        var v :| v in versions && DependsOn(ix, Triple(k.repo, k.chart, v), dep);
        assert v in versions[..n] || v == versions[n];
      }
      if InPass(ix, k, versions[..n], dep) {
        var v :| v in versions[..n] && DependsOn(ix, Triple(k.repo, k.chart, v), dep);
        assert v in versions;
      }
      assert versions[n] in versions;
    }
  }

  class ChartStore {
    var charts: Charts

    constructor (charts: Charts)
      ensures this.charts == charts
    {
      this.charts := charts;
    }

    method CreateOrUpdateSubChart(dep: Triple)
      modifies this
      ensures charts == Spread(old(charts), dep)
    {
      var k := KeyOf(dep);
      if k !in charts {
        charts := charts[k := [dep.version]];
        return;
      }
      var current := charts[k];
      if dep.version in current {
        return;
      }
      charts := charts[k := current + [dep.version]];
    }

    /** The dependencies of one chart version. */
    method CreateOrUpdateSubCharts(deps: seq<Triple>)
      modifies this
      ensures charts == SpreadAll(old(charts), deps)
    {
      for i := 0 to |deps|
        invariant charts == SpreadAll(old(charts), deps[..i])
      {
        assert deps[..i + 1] == deps[..i] + [deps[i]];
        SpreadAllConcat(old(charts), deps[..i], [deps[i]]);
        CreateOrUpdateSubChart(deps[i]);
      }
      assert deps[..|deps|] == deps;
    }

    /** The pass over a chart; versions is its list when the pass begins. */
    method Pass(ix: Index, k: ChartKey, versions: seq<string>)
      modifies this
      ensures charts == SpreadAll(old(charts), PassDeps(ix, k, versions))
      ensures forall t :: Has(charts, t) <==> Has(old(charts), t) || InPass(ix, k, versions, t)
    {
      for i := 0 to |versions|
        invariant charts == SpreadAll(old(charts), PassDeps(ix, k, versions[..i]))
      {
        var deps := DepsOf(ix, Triple(k.repo, k.chart, versions[i]));
        assert versions[..i + 1][..i] == versions[..i];
        SpreadAllConcat(old(charts), PassDeps(ix, k, versions[..i]), deps);
        CreateOrUpdateSubCharts(deps);
      }
      assert versions[..|versions|] == versions;
      SpreadAllHas(old(charts), PassDeps(ix, k, versions));
      forall t ensures t in PassDeps(ix, k, versions) <==> InPass(ix, k, versions, t) {
        PassDepsAre(ix, k, versions, t);
      }
    }
  }

  // -------------------------------------------------------------------
  // Steps of any passes in any order
  // -------------------------------------------------------------------

  /** A pass over a chart that lists t handles one dependency of t. */
  ghost predicate CanSpread(ix: Index, c: Charts, t: Triple, dep: Triple) {
    Has(c, t) && DependsOn(ix, t, dep)
  }

  ghost predicate Follows(ix: Index, c: Charts, c': Charts) {
    exists t, dep :: CanSpread(ix, c, t, dep) && c' == Spread(c, dep)
  }

  ghost predicate IsRun(ix: Index, c: Charts, run: seq<Charts>) {
    run != [] && run[0] == c && forall i :: 0 < i < |run| ==> Follows(ix, run[i - 1], run[i])
  }

  /** No step changes anything any more. */
  ghost predicate Quiet(ix: Index, c: Charts) {
    forall t, dep :: CanSpread(ix, c, t, dep) ==> Spread(c, dep) == c
  }

  /** Lists only grow at the end. */
  ghost predicate Grows(c: Charts, c': Charts) {
    forall k :: k in c ==> k in c' && c[k] <= c'[k]
  }

  ghost predicate NoDuplicates(c: Charts) {
    forall k :: k in c ==> forall i, j :: 0 <= i < j < |c[k]| ==> c[k][i] != c[k][j]
  }

  /** A dependency path in the index. */
  ghost predicate IsPath(ix: Index, path: seq<Triple>) {
    path != [] && forall i :: 0 < i < |path| ==> DependsOn(ix, path[i - 1], path[i])
  }

  /** t is in the transitive closure of what c lists. */
  ghost predicate Reachable(ix: Index, c: Charts, t: Triple) {
    exists path :: PathTo(ix, c, t, path)
  }

  ghost predicate PathTo(ix: Index, c: Charts, t: Triple, path: seq<Triple>) {
    IsPath(ix, path) && Has(c, path[0]) && path[|path| - 1] == t
  }

  lemma ReachableExtends(ix: Index, c: Charts, t: Triple, dep: Triple)
    requires Reachable(ix, c, t) && DependsOn(ix, t, dep)
    ensures Reachable(ix, c, dep)
  {
    var path :| PathTo(ix, c, t, path);
    assert PathTo(ix, c, dep, path + [dep]);
  }

  /** Whatever the order of the passes: lists only grow, no list gets a
      duplicate, and everything listed is reachable from the start. */
  lemma {:induction false} RunIsSound(ix: Index, c: Charts, run: seq<Charts>)
    requires IsRun(ix, c, run)
    ensures Grows(c, run[|run| - 1])
    ensures NoDuplicates(c) ==> NoDuplicates(run[|run| - 1])
    ensures forall t :: Has(run[|run| - 1], t) ==> Reachable(ix, c, t)
    decreases |run|
  {
    var n := |run| - 1;
    if n == 0 {
      forall t | Has(c, t) ensures Reachable(ix, c, t) {
        assert PathTo(ix, c, t, [t]);
      }
    } else {
      DropLast(ix, c, run);
      RunIsSound(ix, c, run[..n]);
      assert Follows(ix, run[n - 1], run[n]);
      var s, dep :| CanSpread(ix, run[n - 1], s, dep) && run[n] == Spread(run[n - 1], dep);
      SpreadHas(run[n - 1], dep);
      ReachableExtends(ix, c, s, dep);
    }
  }

  lemma DropLast(ix: Index, c: Charts, run: seq<Charts>)
    requires IsRun(ix, c, run) && |run| > 1
    ensures var n := |run| - 1; IsRun(ix, c, run[..n]) && run[..n][n - 1] == run[n - 1]
  {
    var init := run[..|run| - 1];
    forall i | 0 < i < |init| ensures Follows(ix, init[i - 1], init[i]) {
      assert Follows(ix, run[i - 1], run[i]);
    }
  }

  ghost predicate CanSpreadAll(ix: Index, c: Charts, deps: seq<Triple>) {
    forall dep :: dep in deps ==> HasSource(ix, c, dep)
  }

  ghost predicate HasSource(ix: Index, c: Charts, dep: Triple) {
    exists t :: CanSpread(ix, c, t, dep)
  }

  lemma {:induction false} SpreadAllIsRun(ix: Index, c: Charts, deps: seq<Triple>) returns (run: seq<Charts>)
    requires CanSpreadAll(ix, c, deps)
    ensures IsRun(ix, c, run) && run[|run| - 1] == SpreadAll(c, deps)
    decreases |deps|
  {
    run := [c];
    if deps != [] {
      var next := Spread(c, deps[0]);
      SpreadHas(c, deps[0]);
      forall dep | dep in deps[1..] ensures HasSource(ix, next, dep) {
        assert dep in deps && HasSource(ix, c, dep);
        var t :| CanSpread(ix, c, t, dep);
        assert CanSpread(ix, next, t, dep);
      }
      var rest := SpreadAllIsRun(ix, next, deps[1..]);
      assert deps[0] in deps && HasSource(ix, c, deps[0]);
      var s :| CanSpread(ix, c, s, deps[0]);
      assert Follows(ix, c, next);
      run := [c] + rest;
      forall i | 0 < i < |run| ensures Follows(ix, run[i - 1], run[i]) {
        assert i > 1 ==> Follows(ix, rest[i - 2], rest[i - 1]);
      }
    }
  }

  lemma {:induction false} PassDepsCanSpread(ix: Index, c: Charts, k: ChartKey, versions: seq<string>)
    requires k in c && forall v :: v in versions ==> v in c[k]
    ensures CanSpreadAll(ix, c, PassDeps(ix, k, versions))
  {
    if versions != [] {
      var n := |versions| - 1;
      PassDepsCanSpread(ix, c, k, versions[..n]);
      var t := Triple(k.repo, k.chart, versions[n]);
      forall dep | dep in DepsOf(ix, t) ensures HasSource(ix, c, dep) {
        assert CanSpread(ix, c, t, dep);
      }
    }
  }

  /** A pass over a listed chart is a run of such steps. */
  lemma PassIsRun(ix: Index, c: Charts, k: ChartKey) returns (run: seq<Charts>)
    requires k in c
    ensures IsRun(ix, c, run) && run[|run| - 1] == SpreadAll(c, PassDeps(ix, k, c[k]))
  {
    PassDepsCanSpread(ix, c, k, c[k]);
    run := SpreadAllIsRun(ix, c, PassDeps(ix, k, c[k]));
  }

  lemma {:induction false} QuietIsClosed(ix: Index, c: Charts, path: seq<Triple>)
    requires Quiet(ix, c) && IsPath(ix, path) && Has(c, path[0])
    ensures Has(c, path[|path| - 1])
    decreases |path|
  {
    var n := |path| - 1;
    if n > 0 {
      QuietIsClosed(ix, c, path[..n]);
      assert CanSpread(ix, c, path[n - 1], path[n]);
      SpreadHas(c, path[n]);
    }
  }

  /** When the steps, interleaved in any way, have come to rest, the lists hold
      exactly the transitive closure of the charts they started from. */
  lemma QuietRunIsClosure(ix: Index, c: Charts, run: seq<Charts>, t: Triple)
    requires IsRun(ix, c, run) && Quiet(ix, run[|run| - 1])
    ensures Has(run[|run| - 1], t) <==> Reachable(ix, c, t)
  {
    var last := run[|run| - 1];
    RunIsSound(ix, c, run);
    if Reachable(ix, c, t) {
      var path :| PathTo(ix, c, t, path);
      assert Has(last, path[0]);
      QuietIsClosed(ix, last, path);
    }
  }

  // -------------------------------------------------------------------
  // The passes come to rest
  // -------------------------------------------------------------------

  /** universe contains what c lists and is closed under dependencies. */
  ghost predicate Bounds(ix: Index, c: Charts, universe: set<Triple>) {
    (forall t :: Has(c, t) ==> t in universe) &&
    (forall t, dep :: t in universe && DependsOn(ix, t, dep) ==> dep in universe)
  }

  /** What is listed, and every dependency in the index. */
  ghost function Universe(ix: Index, c: Charts): set<Triple> {
    (set k, v | k in c && v in c[k] :: Triple(k.repo, k.chart, v)) + (set t, dep | t in ix && dep in ix[t] :: dep)
  }

  lemma UniverseBounds(ix: Index, c: Charts)
    ensures Bounds(ix, c, Universe(ix, c))
  {
    forall t | Has(c, t) ensures t in Universe(ix, c) {
      assert KeyOf(t) in c && t.version in c[KeyOf(t)];
    }
    forall t, dep | DependsOn(ix, t, dep) ensures dep in Universe(ix, c) {
    }
  }

  ghost function Missing(c: Charts, universe: set<Triple>): set<Triple> {
    set t | t in universe && !Has(c, t)
  }

  ghost predicate AllChange(run: seq<Charts>) {
    forall i :: 0 < i < |run| ==> run[i] != run[i - 1]
  }

  lemma ChangeFillsOne(ix: Index, c: Charts, universe: set<Triple>, t: Triple, dep: Triple)
    requires Bounds(ix, c, universe) && CanSpread(ix, c, t, dep) && Spread(c, dep) != c
    ensures Bounds(ix, Spread(c, dep), universe)
    ensures |Missing(Spread(c, dep), universe)| + 1 == |Missing(c, universe)|
  {
    SpreadHas(c, dep);
    assert dep in universe && !Has(c, dep);
    assert Missing(c, universe) == Missing(Spread(c, dep), universe) + {dep};
  }

  lemma {:induction false} ChangesFill(ix: Index, c: Charts, universe: set<Triple>, run: seq<Charts>)
    requires Bounds(ix, c, universe) && IsRun(ix, c, run) && AllChange(run)
    ensures Bounds(ix, run[|run| - 1], universe)
    ensures |run| - 1 + |Missing(run[|run| - 1], universe)| == |Missing(c, universe)|
    decreases |run|
  {
    var n := |run| - 1;
    if n > 0 {
      DropLast(ix, c, run);
      ChangesFill(ix, c, universe, run[..n]);
      assert Follows(ix, run[n - 1], run[n]);
      var t, dep :| CanSpread(ix, run[n - 1], t, dep) && run[n] == Spread(run[n - 1], dep);
      ChangeFillsOne(ix, run[n - 1], universe, t, dep);
    }
  }

  /** On every finite index, at most as many steps change something as there are
      chart versions missing at the start. */
  lemma ChangesRunOut(ix: Index, c: Charts, run: seq<Charts>)
    requires IsRun(ix, c, run) && AllChange(run)
    ensures |run| - 1 <= |Missing(c, Universe(ix, c))|
  {
    UniverseBounds(ix, c);
    ChangesFill(ix, c, Universe(ix, c), run);
  }
}
