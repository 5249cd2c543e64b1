/** manageStruct recurses without a depth limit (values.go:151-155); this module
    says exactly when it returns. */
module CallGraph {
  import opened JsonTree
  import opened ValuesGraph
  import opened Collect

  /** The call for v makes a recursive call for e. */
  ghost predicate Calls(es: seq<Entry>, v: Entry, e: Entry) {
    v.ref.refs != map[] && e in es && e.parent == v.ref.name && e.ref.refs != map[]
  }

  /** The call for v and all calls below it return within depth nested calls. */
  ghost predicate Halts(es: seq<Entry>, v: Entry, depth: nat)
    decreases depth
  {
    depth > 0 && forall e :: Calls(es, v, e) ==> Halts(es, e, depth - 1)
  }

  ghost predicate Returns(es: seq<Entry>, v: Entry) {
    exists depth: nat :: Halts(es, v, depth)
  }

  ghost predicate IsCallPath(es: seq<Entry>, path: seq<Entry>) {
    path != [] && forall i :: 0 < i < |path| ==> Calls(es, path[i - 1], path[i])
  }

  /** A chain of nested calls from v that comes back to an entry. */
  ghost predicate Loops(es: seq<Entry>, v: Entry, path: seq<Entry>) {
    IsCallPath(es, path) && path[0] == v && Repeats(path)
  }

  ghost predicate LoopFree(es: seq<Entry>, v: Entry) {
    forall path :: !Loops(es, v, path)
  }

  ghost predicate Repeats(path: seq<Entry>) {
    exists i, j :: 0 <= i < j < |path| && path[i] == path[j]
  }

  lemma {:induction false} HaltsBoundsPaths(es: seq<Entry>, v: Entry, depth: nat, path: seq<Entry>)
    requires Halts(es, v, depth) && IsCallPath(es, path) && path[0] == v
    ensures |path| <= depth
    decreases depth
  {
    if |path| > 1 {
      assert Calls(es, path[1 - 1], path[1]);
      forall i | 0 < i < |path[1..]| ensures Calls(es, path[1..][i - 1], path[1..][i]) {
        assert Calls(es, path[i], path[i + 1]);
      }
      HaltsBoundsPaths(es, path[1], depth - 1, path[1..]);
    }
  }

  /** A loop can be run through any number of times. */
  lemma {:induction false} Pump(es: seq<Entry>, path: seq<Entry>, i: nat, j: nat, length: nat)
      returns (longer: seq<Entry>)
    requires IsCallPath(es, path) && i < j < |path| && path[i] == path[j]
    ensures IsCallPath(es, longer) && longer[0] == path[0] && |longer| >= length
    decreases length - |path|
  {
    if |path| >= length {
      longer := path;
    } else {
      var once := path[..j] + path[i..];
      forall n | 0 < n < |once| ensures Calls(es, once[n - 1], once[n]) {
        if n < j {
          assert Calls(es, path[n - 1], path[n]);
        } else if n == j {
          assert Calls(es, path[j - 1], path[j]);
        } else {
          assert Calls(es, path[n - j + i - 1], path[n - j + i]);
        }
      }
      assert once[i] == once[j];
      longer := Pump(es, once, i, j, length);
    }
  }

  lemma {:induction false} DeepPath(es: seq<Entry>, v: Entry, depth: nat) returns (path: seq<Entry>)
    requires !Halts(es, v, depth)
    ensures IsCallPath(es, path) && path[0] == v && |path| == depth + 1
    decreases depth
  {
    path := [v];
    if depth > 0 {
      var e :| Calls(es, v, e) && !Halts(es, e, depth - 1);
      var rest := DeepPath(es, e, depth - 1);
      path := [v] + rest;
      forall i | 0 < i < |path| ensures Calls(es, path[i - 1], path[i]) {
        if i > 1 {
          assert Calls(es, rest[i - 2], rest[i - 1]);
        }
      }
    }
  }

  lemma RepeatsGrows(path: seq<Entry>, n: nat)
    requires n <= |path|
    ensures Repeats(path[..n]) ==> Repeats(path)
  {
    if Repeats(path[..n]) {
      var i, j :| 0 <= i < j < n && path[..n][i] == path[..n][j];
      assert path[i] == path[j];
    }
  }

  lemma {:induction false} Pigeonhole(path: seq<Entry>, pool: set<Entry>)
    requires !Repeats(path) && forall e :: e in path ==> e in pool
    ensures |path| <= |pool|
    decreases |path|
  {
    if path != [] {
      var n := |path| - 1;
      forall e | e in path[..n] ensures e in pool - {path[n]} {
        var i :| 0 <= i < n && path[i] == e;
        assert path[i] != path[n];
      }
      RepeatsGrows(path, n);
      Pigeonhole(path[..n], pool - {path[n]});
    }
  }

  /** The call for a collected entry returns if and only if no chain of nested
      calls from it comes back to an entry. */
  lemma HaltsIffNoLoop(es: seq<Entry>, v: Entry)
    requires v in es
    ensures Returns(es, v) <==> LoopFree(es, v)
  {
    if Returns(es, v) {
      var depth: nat :| Halts(es, v, depth);
      forall path ensures !Loops(es, v, path) {
        LoopNeverHalts(es, v, depth, path);
      }
    } else {
      var path := LongRunLoops(es, v);
    }
  }

  lemma LoopNeverHalts(es: seq<Entry>, v: Entry, depth: nat, path: seq<Entry>)
    requires Halts(es, v, depth)
    ensures !Loops(es, v, path)
  {
    if Loops(es, v, path) {
      var i, j :| 0 <= i < j < |path| && path[i] == path[j];
      var longer := Pump(es, path, i, j, depth + 1);
      HaltsBoundsPaths(es, v, depth, longer);
    }
  }

  lemma LongRunLoops(es: seq<Entry>, v: Entry) returns (path: seq<Entry>)
    requires v in es && forall depth: nat :: !Halts(es, v, depth)
    ensures Loops(es, v, path)
  {
    var pool := set e | e in es;
    path := DeepPath(es, v, |pool|);
    forall e | e in path ensures e in pool {
      var i :| 0 <= i < |path| && path[i] == e;
      assert i > 0 ==> Calls(es, path[i - 1], path[i]);
    }
    if !Repeats(path) {
      Pigeonhole(path, pool);
    }
  }

  // -------------------------------------------------------------------
  // What is collected
  // -------------------------------------------------------------------

  /** Every entry is a base object or a reference of its parent. */
  ghost predicate CollectedFrom(c: Cluster, es: seq<Entry>) {
    forall e | e in es ::
      e.ref.name in c && e.ref == c[e.ref.name] && (
        e.parent == "base" ||
        (e.parent in c && e.key in c[e.parent].refs && c[e.parent].refs[e.key] == e.ref.name))
  }

  lemma {:induction false} EndInCluster(c: Cluster, o: Values, walk: seq<string>)
    requires WellNamed(c) && IsWalk(c, o, walk) && o.name in c && c[o.name] == o
    ensures var e := EndOf(c, o, walk); e.name in c && c[e.name] == e
    decreases |walk|
  {
    if walk != [] {
      EndInCluster(c, c[o.refs[walk[0]]], walk[1..]);
    }
  }

  lemma BlockCollectedFrom(c: Cluster, root: Values, block: seq<Entry>)
    requires WellNamed(c) && root.name in c && c[root.name] == root && IsBlock(c, root, block)
    ensures CollectedFrom(c, block)
  {
    var below, walks :|
      block == [RootEntry(root)] + below && Unfolds(c, root, MAX_DEPTH, root.refs.Keys, below, walks);
    forall e | e in below
      ensures e.ref.name in c && e.ref == c[e.ref.name] && e.parent in c &&
              e.key in c[e.parent].refs && c[e.parent].refs[e.key] == e.ref.name
    {
      var i :| 0 <= i < |below| && below[i] == e;
      var w := walks[i];
      assert e == EntryAt(c, root, w);
      EntryIsReference(c, root, w);
      EndInCluster(c, root, w);
      EndInCluster(c, root, w[..|w| - 1]);
    }
  }

  lemma {:induction false} CollectedFromAll(c: Cluster, roots: seq<Values>, list: seq<Entry>)
    requires WellNamed(c) && IsRefList(c, roots, list)
    requires forall r :: r in roots ==> r.name in c && c[r.name] == r
    ensures CollectedFrom(c, list)
    decreases |roots|
  {
    if roots != [] {
      var n := SplitList(c, roots, list);
      assert roots[|roots| - 1] in roots;
      CollectedFromAll(c, roots[..|roots| - 1], list[..n]);
      BlockCollectedFrom(c, roots[|roots| - 1], list[n..]);
      JoinCollected(c, list, n);
    }
  }

  lemma SplitList(c: Cluster, roots: seq<Values>, list: seq<Entry>) returns (n: nat)
    requires roots != [] && IsRefList(c, roots, list)
    ensures n <= |list| && IsRefList(c, roots[..|roots| - 1], list[..n]) && IsBlock(c, roots[|roots| - 1], list[n..])
  {
    n :| n <= |list| && ListSplits(c, roots, list, n);
  }

  lemma JoinCollected(c: Cluster, list: seq<Entry>, n: nat)
    requires n <= |list| && CollectedFrom(c, list[..n]) && CollectedFrom(c, list[n..])
    ensures CollectedFrom(c, list)
  {
    assert list == list[..n] + list[n..];
  }
}
