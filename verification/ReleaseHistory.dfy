/** Release.Update over time: install, upgrade or leave alone, decided by a
    comparison of values (internal/release/release.go:120-173, 188-207,
    internal/release/values.go:28-58). */
module ReleaseHistory {
  import opened JsonTree

  /** The release that Helm has stored: its revision and its values. */
  datatype Stored = Stored(revision: nat, values: Tree)

  /** valuesChanged. */
  predicate ValuesChanged(installed: Tree, vals: Tree) {
    !(|vals| < 1 && |installed| < 1) && installed != vals
  }

  /** Values have changed exactly if they are not the same; two empty maps are. */
  lemma ChangedIffDifferent(installed: Tree, vals: Tree)
    ensures ValuesChanged(installed, vals) <==> installed != vals
  {
    NotEmpty(installed);
    NotEmpty(vals);
  }

  /** What Update leaves behind.  Helm's treatment of an upgrade with empty
      values is not part of this repository; onEmpty stands for it. */
  function Updated(s: Option<Stored>, vals: Tree, onEmpty: Tree -> Tree): Stored {
    match s
    case None => Stored(1, vals)
    case Some(r) =>
      if ValuesChanged(r.values, vals) then Stored(r.revision + 1, if vals == map[] then onEmpty(r.values) else vals)
      else r
  }

  class Release {
    var stored: Option<Stored>
    var revision: nat
    var chartLoaded: bool
    const dryRun: bool

    constructor (stored: Option<Stored>, chartLoaded: bool, dryRun: bool)
      ensures this.stored == stored && this.revision == 0 && this.chartLoaded == chartLoaded && this.dryRun == dryRun
    {
      this.stored, this.revision, this.chartLoaded, this.dryRun := stored, 0, chartLoaded, dryRun;
    }

    /** An error, and no effect, if the chart is not loaded.  A dry run reports
        the revision and stores nothing. */
    method Update(vals: Tree, onEmpty: Tree -> Tree) returns (ok: bool)
      modifies this
      ensures ok == old(chartLoaded) && chartLoaded == old(chartLoaded)
      ensures !ok ==> stored == old(stored) && revision == old(revision)
      ensures ok ==> revision == Updated(old(stored), vals, onEmpty).revision
      ensures ok ==> stored == if dryRun then old(stored) else Some(Updated(old(stored), vals, onEmpty))
    {
      if !chartLoaded {
        return false;
      }
      if stored.Some? {
        var changed := ValuesChanged(stored.value.values, vals);
        revision := stored.value.revision;
        if changed {
          Upgrade(vals, onEmpty);
        }
        return true;
      }
      if !dryRun {
        stored := Some(Stored(1, vals));
      }
      revision := 1;
      return true;
    }

    method Upgrade(vals: Tree, onEmpty: Tree -> Tree)
      requires stored.Some?
      modifies this
      ensures stored == if dryRun then old(stored) else
        Some(Stored(old(stored).value.revision + 1, if vals == map[] then onEmpty(old(stored).value.values) else vals))
      ensures revision == old(stored).value.revision + 1 && chartLoaded == old(chartLoaded)
    {
      revision := stored.value.revision + 1;
      if !dryRun {
        stored := Some(Stored(revision, if vals == map[] then onEmpty(stored.value.values) else vals));
      }
    }
  }

  /** What is stored after a run of successful calls. */
  function AfterCalls(start: Option<Stored>, calls: seq<Tree>, onEmpty: Tree -> Tree): Option<Stored> {
    if calls == [] then start
    else Some(Updated(AfterCalls(start, calls[..|calls| - 1], onEmpty), calls[|calls| - 1], onEmpty))
  }

  /** The places at which values differ from those before them. */
  ghost function Changes(values: seq<Tree>): set<nat> {
    set i: nat | i < |values| && ChangesAt(values, i)
  }

  predicate ChangesAt(values: seq<Tree>, i: nat) {
    0 < i < |values| && values[i - 1] != values[i]
  }

  /** The values that were stored, followed by those of the calls. */
  function History(start: Option<Stored>, calls: seq<Tree>): seq<Tree> {
    (if start.Some? then [start.value.values] else []) + calls
  }

  lemma ChangesSnoc(values: seq<Tree>, last: Tree)
    ensures |Changes(values + [last])| ==
      |Changes(values)| + if values != [] && values[|values| - 1] != last then 1 else 0
  {
    var all, n := values + [last], |values|;
    if n > 0 && values[n - 1] != last {
      assert Changes(all) == Changes(values) + {n};
    } else {
      assert Changes(all) == Changes(values);
    }
  }

  lemma OneMoreChange(start: Option<Stored>, calls: seq<Tree>)
    requires calls != []
    ensures
      var n := |calls| - 1;
      var before := History(start, calls[..n]);
      |Changes(History(start, calls))| ==
        |Changes(before)| + if before != [] && before[|before| - 1] != calls[n] then 1 else 0
  {
    var n := |calls| - 1;
    ChangesSnoc(History(start, calls[..n]), calls[n]);
    assert History(start, calls) == History(start, calls[..n]) + [calls[n]];
  }

  /** From any stored release, with empty or other values, or from none: after
      calls with non-empty values the stored values are the last ones passed,
      and the revision has grown by the number of changes. */
  lemma {:induction false} RevisionCountsChanges(start: Option<Stored>, calls: seq<Tree>, onEmpty: Tree -> Tree)
    requires calls != [] && forall v :: v in calls ==> v != map[]
    ensures AfterCalls(start, calls, onEmpty) ==
      Some(Stored((if start.Some? then start.value.revision else 1) + |Changes(History(start, calls))|, calls[|calls| - 1]))
    decreases |calls|
  {
    var n := |calls| - 1;
    var init := calls[..n];
    assert calls[n] in calls;
    OneMoreChange(start, calls);
    NotEmpty(calls[n]);
    if n == 0 {
      assert init == [];
      assert Changes(History(start, [])) == {};
    } else {
      forall v | v in init ensures v != map[] {
        assert v in calls;
      }
      RevisionCountsChanges(start, init, onEmpty);
    }
  }

  lemma NotEmpty(t: Tree)
    ensures t != map[] <==> |t| >= 1
  {
    if |t| == 0 {
      assert t.Keys == {};
    }
  }

  /** Update for one set of values after the other; the calls succeed if the
      chart is loaded. */
  method UpdateAll(release: Release, calls: seq<Tree>, onEmpty: Tree -> Tree) returns (ok: bool)
    requires !release.dryRun && calls != []
    modifies release
    ensures ok == old(release.chartLoaded)
    ensures ok ==> release.stored == AfterCalls(old(release.stored), calls, onEmpty) &&
                   release.stored.Some? && release.revision == release.stored.value.revision
    ensures !ok ==> release.stored == old(release.stored) && release.revision == old(release.revision)
    ensures ok && (forall v :: v in calls ==> v != map[]) ==>
      release.stored.value.values == calls[|calls| - 1] &&
      release.revision ==
        (if old(release.stored).Some? then old(release.stored).value.revision else 1) +
        |Changes(History(old(release.stored), calls))|
  {
    ok := true;
    for i := 0 to |calls|
      invariant release.chartLoaded == old(release.chartLoaded)
      invariant i > 0 ==> ok == release.chartLoaded
      invariant i == 0 || ok ==> release.stored == AfterCalls(old(release.stored), calls[..i], onEmpty)
      invariant i > 0 && ok ==> release.stored.Some? && release.revision == release.stored.value.revision
      invariant !(i > 0 && ok) ==> release.stored == old(release.stored) && release.revision == old(release.revision)
    {
      assert calls[..i + 1][..i] == calls[..i];
      ok := release.Update(calls[i], onEmpty);
    }
    assert calls[..|calls|] == calls;
    if ok && forall v :: v in calls ==> v != map[] {
      RevisionCountsChanges(old(release.stored), calls, onEmpty);
    }
  }

  /** Repeating a call changes nothing. */
  lemma RepeatedCallIsIdle(start: Option<Stored>, calls: seq<Tree>, onEmpty: Tree -> Tree)
    requires calls != [] && forall v :: v in calls ==> v != map[]
    ensures AfterCalls(start, calls + [calls[|calls| - 1]], onEmpty) == AfterCalls(start, calls, onEmpty)
  {
    RevisionCountsChanges(start, calls, onEmpty);
    assert calls[|calls| - 1] in calls;
    NotEmpty(calls[|calls| - 1]);
    assert (calls + [calls[|calls| - 1]])[..|calls|] == calls;
  }
}
