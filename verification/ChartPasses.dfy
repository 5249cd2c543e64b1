/** Whole passes over charts: in any order they come to rest, and at rest the
    version lists hold exactly the transitive closure of what they started
    from (chart.go:65-76, chartversion.go:156-167). */
module ChartPasses {
  import opened SubCharts

  /** One reconcile of the chart k; nothing happens if there is no such chart. */
  function AfterPass(ix: Index, c: Charts, k: ChartKey): Charts {
    if k in c then SpreadAll(c, PassDeps(ix, k, c[k])) else c
  }

  function AfterPasses(ix: Index, c: Charts, ks: seq<ChartKey>): Charts
    decreases |ks|
  {
    if ks == [] then c else AfterPasses(ix, AfterPass(ix, c, ks[0]), ks[1..])
  }

  method Reconcile(ix: Index, store: ChartStore, k: ChartKey)
    modifies store
    ensures store.charts == AfterPass(ix, old(store.charts), k)
    ensures forall t :: Has(store.charts, t) <==>
      Has(old(store.charts), t) || (k in old(store.charts) && InPass(ix, k, old(store.charts)[k], t))
  {
    if k in store.charts {
      store.Pass(ix, k, store.charts[k]);
    }
  }

  /** No pass changes anything any more. */
  ghost predicate AtRest(ix: Index, c: Charts) {
    forall k :: k in c ==> AfterPass(ix, c, k) == c
  }

  // -------------------------------------------------------------------
  // Passes are runs of steps
  // -------------------------------------------------------------------

  lemma JoinRuns(ix: Index, c: Charts, run: seq<Charts>, c': Charts, run': seq<Charts>)
    requires IsRun(ix, c, run) && run[|run| - 1] == c' && IsRun(ix, c', run')
    ensures IsRun(ix, c, run + run'[1..])
    ensures var all := run + run'[1..]; all[|all| - 1] == run'[|run'| - 1]
  {
    var all := run + run'[1..];
    forall i | 0 < i < |all| ensures Follows(ix, all[i - 1], all[i]) {
      if i < |run| {
        assert Follows(ix, run[i - 1], run[i]);
      } else {
        assert Follows(ix, run'[i - |run|], run'[i - |run| + 1]);
      }
    }
  }

  lemma {:induction false} PassesAreRun(ix: Index, c: Charts, ks: seq<ChartKey>) returns (run: seq<Charts>)
    ensures IsRun(ix, c, run) && run[|run| - 1] == AfterPasses(ix, c, ks)
    decreases |ks|
  {
    run := [c];
    if ks != [] {
      if ks[0] in c {
        run := PassIsRun(ix, c, ks[0]);
      }
      var rest := PassesAreRun(ix, AfterPass(ix, c, ks[0]), ks[1..]);
      JoinRuns(ix, c, run, AfterPass(ix, c, ks[0]), rest);
      run := run + rest[1..];
    }
  }

  /** Any sequence of passes only appends to lists, gives them no duplicates,
      and lists only what the start reaches. */
  lemma PassesAreSound(ix: Index, c: Charts, ks: seq<ChartKey>)
    ensures Grows(c, AfterPasses(ix, c, ks))
    ensures NoDuplicates(c) ==> NoDuplicates(AfterPasses(ix, c, ks))
    ensures forall t :: Has(AfterPasses(ix, c, ks), t) ==> Reachable(ix, c, t)
  {
    var run := PassesAreRun(ix, c, ks);
    RunIsSound(ix, c, run);
  }

  // -------------------------------------------------------------------
  // Rest
  // -------------------------------------------------------------------

  lemma {:induction false} SpreadAllIdle(c: Charts, deps: seq<Triple>)
    requires forall dep :: dep in deps ==> Spread(c, dep) == c
    ensures SpreadAll(c, deps) == c
    decreases |deps|
  {
    if deps != [] {
      assert deps[0] in deps;
      SpreadAllIdle(c, deps[1..]);
    }
  }

  /** Passes change nothing if and only if single steps of them do not. */
  lemma AtRestIffQuiet(ix: Index, c: Charts)
    ensures AtRest(ix, c) <==> Quiet(ix, c)
  {
    if AtRest(ix, c) {
      forall t, dep | CanSpread(ix, c, t, dep) ensures Spread(c, dep) == c {
        var k := KeyOf(t);
        PassDepsAre(ix, k, c[k], dep);
        SpreadAllHas(c, PassDeps(ix, k, c[k]));
        assert AfterPass(ix, c, k) == c && Has(c, dep);
      }
    }
    if Quiet(ix, c) {
      forall k | k in c ensures AfterPass(ix, c, k) == c {
        var deps := PassDeps(ix, k, c[k]);
        PassDepsCanSpread(ix, c, k, c[k]);
        forall dep | dep in deps ensures Spread(c, dep) == c {
          assert HasSource(ix, c, dep);
        }
        SpreadAllIdle(c, deps);
      }
    }
  }

  /** At rest after any sequence of passes, the lists hold exactly the
      transitive closure of what was listed at the start. */
  lemma RestIsClosure(ix: Index, c: Charts, ks: seq<ChartKey>)
    requires AtRest(ix, AfterPasses(ix, c, ks))
    ensures forall t :: Has(AfterPasses(ix, c, ks), t) <==> Reachable(ix, c, t)
  {
    var run := PassesAreRun(ix, c, ks);
    AtRestIffQuiet(ix, AfterPasses(ix, c, ks));
    forall t ensures Has(AfterPasses(ix, c, ks), t) <==> Reachable(ix, c, t) {
      QuietRunIsClosure(ix, c, run, t);
    }
  }

  // -------------------------------------------------------------------
  // Rest is reached
  // -------------------------------------------------------------------

  /** c' is c, or lists more of the universe. */
  ghost predicate Progresses(ix: Index, c: Charts, c': Charts, universe: set<Triple>) {
    Bounds(ix, c', universe) && (c' == c || |Missing(c', universe)| < |Missing(c, universe)|)
  }

  lemma {:induction false} RunProgresses(ix: Index, c: Charts, run: seq<Charts>, universe: set<Triple>)
    requires IsRun(ix, c, run) && Bounds(ix, c, universe)
    ensures Progresses(ix, c, run[|run| - 1], universe)
    decreases |run|
  {
    var n := |run| - 1;
    if n > 0 {
      DropLast(ix, c, run);
      RunProgresses(ix, c, run[..n], universe);
      assert Follows(ix, run[n - 1], run[n]);
      var t, dep :| CanSpread(ix, run[n - 1], t, dep) && run[n] == Spread(run[n - 1], dep);
      if run[n] != run[n - 1] {
        ChangeFillsOne(ix, run[n - 1], universe, t, dep);
      }
    }
  }

  lemma PassesProgress(ix: Index, c: Charts, ks: seq<ChartKey>, universe: set<Triple>)
    requires Bounds(ix, c, universe)
    ensures Progresses(ix, c, AfterPasses(ix, c, ks), universe)
  {
    var run := PassesAreRun(ix, c, ks);
    RunProgresses(ix, c, run, universe);
  }

  lemma OnePass(ix: Index, c: Charts, k: ChartKey)
    ensures AfterPasses(ix, c, [k]) == AfterPass(ix, c, k)
  {
    assert [k][1..] == [];
  }

  /** The number of passes that change something. */
  ghost function Changes(ix: Index, c: Charts, ks: seq<ChartKey>): nat
    decreases |ks|
  {
    if ks == [] then 0
    else
      var next := AfterPass(ix, c, ks[0]);
      (if next != c then 1 else 0) + Changes(ix, next, ks[1..])
  }

  lemma {:induction false} ChangesAreBounded(ix: Index, c: Charts, ks: seq<ChartKey>, universe: set<Triple>)
    requires Bounds(ix, c, universe)
    ensures Changes(ix, c, ks) <= |Missing(c, universe)|
    decreases |ks|
  {
    if ks != [] {
      OnePass(ix, c, ks[0]);
      PassesProgress(ix, c, [ks[0]], universe);
      ChangesAreBounded(ix, AfterPass(ix, c, ks[0]), ks[1..], universe);
    }
  }

  /** Passes that change nothing together change nothing one by one. */
  lemma {:induction false} IdlePasses(ix: Index, c: Charts, ks: seq<ChartKey>)
    requires AfterPasses(ix, c, ks) == c
    ensures forall k :: k in ks ==> AfterPass(ix, c, k) == c
    decreases |ks|
  {
    if ks != [] {
      var next, universe := AfterPass(ix, c, ks[0]), Universe(ix, c);
      UniverseBounds(ix, c);
      OnePass(ix, c, ks[0]);
      PassesProgress(ix, c, [ks[0]], universe);
      PassesProgress(ix, next, ks[1..], universe);
      IdlePasses(ix, next, ks[1..]);
    }
  }

  /** Rounds of passes, each over every chart there is when it begins, in any
      order and possibly more than once. */
  ghost predicate AreRounds(ix: Index, c: Charts, rounds: seq<seq<ChartKey>>)
    decreases |rounds|
  {
    rounds == [] ||
    ((forall k :: k in c ==> k in rounds[0]) && AreRounds(ix, AfterPasses(ix, c, rounds[0]), rounds[1..]))
  }

  function Joined(rounds: seq<seq<ChartKey>>): seq<ChartKey> {
    if rounds == [] then [] else rounds[0] + Joined(rounds[1..])
  }

  lemma {:induction false} PassesConcat(ix: Index, c: Charts, a: seq<ChartKey>, b: seq<ChartKey>)
    ensures AfterPasses(ix, c, a + b) == AfterPasses(ix, AfterPasses(ix, c, a), b)
    decreases |a|
  {
    if a == [] {
      assert a + b == b;
    } else {
      assert (a + b)[1..] == a[1..] + b;
      PassesConcat(ix, AfterPass(ix, c, a[0]), a[1..], b);
    }
  }

  lemma {:induction false} RestStays(ix: Index, c: Charts, ks: seq<ChartKey>)
    requires AtRest(ix, c)
    ensures AfterPasses(ix, c, ks) == c
    decreases |ks|
  {
    if ks != [] {
      RestStays(ix, c, ks[1..]);
    }
  }

  lemma {:induction false} RoundsComeToRest(ix: Index, c: Charts, rounds: seq<seq<ChartKey>>, universe: set<Triple>)
    requires Bounds(ix, c, universe) && AreRounds(ix, c, rounds) && |rounds| > |Missing(c, universe)|
    ensures AtRest(ix, AfterPasses(ix, c, Joined(rounds)))
    decreases |rounds|
  {
    var next := AfterPasses(ix, c, rounds[0]);
    PassesConcat(ix, c, rounds[0], Joined(rounds[1..]));
    if next == c {
      IdlePasses(ix, c, rounds[0]);
      RestStays(ix, c, Joined(rounds[1..]));
    } else {
      PassesProgress(ix, c, rounds[0], universe);
      RoundsComeToRest(ix, next, rounds[1..], universe);
    }
  }

  /** On every finite index and from every chart map: in any sequence of passes
      at most as many change something as chart versions are missing, and after
      more rounds than that the lists hold exactly the transitive closure of
      the start and nothing changes any more. */
  lemma PassesReachClosure(ix: Index, c: Charts, rounds: seq<seq<ChartKey>>)
    ensures forall ks :: Changes(ix, c, ks) <= |Missing(c, Universe(ix, c))|
    ensures AreRounds(ix, c, rounds) && |rounds| > |Missing(c, Universe(ix, c))| ==>
      AtRest(ix, AfterPasses(ix, c, Joined(rounds))) &&
      forall t :: Has(AfterPasses(ix, c, Joined(rounds)), t) <==> Reachable(ix, c, t)
  {
    UniverseBounds(ix, c);
    forall ks ensures Changes(ix, c, ks) <= |Missing(c, Universe(ix, c))| {
      ChangesAreBounded(ix, c, ks, Universe(ix, c));
    }
    if AreRounds(ix, c, rounds) && |rounds| > |Missing(c, Universe(ix, c))| {
      RoundsComeToRest(ix, c, rounds, Universe(ix, c));
      RestIsClosure(ix, c, Joined(rounds));
    }
  }
}
