/** References that lead back: collecting always ends, but assembling what was
    collected ends only if no object within reach leads back to itself
    (internal/values/collect.go:60-114, values.go:127-191). */
module Cycles {
  import opened JsonTree
  import opened ValuesGraph
  import opened Collect
  import opened CallGraph

  /** No object leads back to itself. */
  ghost predicate Acyclic(c: Cluster) {
    forall n, walk :: n in c && walk != [] && IsWalk(c, c[n], walk) ==> EndOf(c, c[n], walk).name != n
  }

  /** h bounds the length of the longest walk from o. */
  ghost predicate HeightAtMost(c: Cluster, o: Values, h: nat) {
    forall walk :: IsWalk(c, o, walk) ==> |walk| <= h
  }

  /** n is at most 10 references away from a base object, so that its own
      references are collected. */
  ghost predicate Near(c: Cluster, roots: seq<Values>, n: string) {
    exists r, w :: r in roots && |w| < MAX_DEPTH && IsWalk(c, r, w) && EndOf(c, r, w).name == n
  }

  /** A walk that only leaves objects near a base object. */
  ghost predicate IsNearWalk(c: Cluster, roots: seq<Values>, o: Values, walk: seq<string>): (b: bool)
    ensures b ==> IsWalk(c, o, walk)
    decreases |walk|
  {
    walk == [] ||
    (Near(c, roots, o.name) && walk[0] in o.refs && o.refs[walk[0]] in c &&
     IsNearWalk(c, roots, c[o.refs[walk[0]]], walk[1..]))
  }

  ghost predicate IsNearCycle(c: Cluster, roots: seq<Values>, n: string, walk: seq<string>) {
    n in c && walk != [] && IsNearWalk(c, roots, c[n], walk) && EndOf(c, c[n], walk).name == n
  }

  ghost predicate NoNearCycle(c: Cluster, roots: seq<Values>) {
    forall n, walk :: !IsNearCycle(c, roots, n, walk)
  }

  /** The base objects of a well-named cluster, none of whose objects is called
      base, and what getRefList collects for them. */
  ghost predicate IsCollection(c: Cluster, roots: seq<Values>, list: seq<Entry>) {
    WellNamed(c) && "base" !in c && (forall r :: r in roots ==> r.name in c && c[r.name] == r) &&
    IsRefList(c, roots, list)
  }

  // -------------------------------------------------------------------
  // What is in the list
  // -------------------------------------------------------------------

  lemma {:induction false} BlockInList(c: Cluster, roots: seq<Values>, list: seq<Entry>, r: Values) returns (block: seq<Entry>)
    requires IsRefList(c, roots, list) && r in roots
    ensures IsBlock(c, r, block) && forall e :: e in block ==> e in list
    decreases |roots|
  {
    var n := SplitList(c, roots, list);
    var last := |roots| - 1;
    if r == roots[last] {
      block := list[n..];
    } else {
      assert roots == roots[..last] + [roots[last]];
      block := BlockInList(c, roots[..last], list[..n], r);
    }
  }

  lemma {:induction false} BlockOfEntry(c: Cluster, roots: seq<Values>, list: seq<Entry>, e: Entry)
      returns (r: Values, block: seq<Entry>)
    requires IsRefList(c, roots, list) && e in list
    ensures r in roots && IsBlock(c, r, block) && e in block
    decreases |roots|
  {
    var n := SplitList(c, roots, list);
    var last := |roots| - 1;
    InEitherPart(list, n, e);
    if e in list[n..] {
      r, block := roots[last], list[n..];
    } else {
      r, block := BlockOfEntry(c, roots[..last], list[..n], e);
    }
  }

  lemma InEitherPart(list: seq<Entry>, n: nat, e: Entry)
    requires n <= |list| && e in list
    ensures e in list[..n] || e in list[n..]
  {
    assert list == list[..n] + list[n..];
  }

  lemma EntryAtSnoc(c: Cluster, r: Values, w: seq<string>, k: string)
    requires IsWalk(c, r, w)
    requires var o := EndOf(c, r, w); k in o.refs && o.refs[k] in c
    ensures
      var o := EndOf(c, r, w);
      IsWalk(c, r, w + [k]) && EntryAt(c, r, w + [k]) == Entry(c[o.refs[k]], o.name, k)
  {
    WalkSnoc(c, r, w, k);
    EntryIsReference(c, r, w + [k]);
    assert (w + [k])[..|w|] == w;
  }

  lemma WalkInBlock(c: Cluster, r: Values, block: seq<Entry>, w: seq<string>)
    requires IsBlock(c, r, block) && 1 <= |w| <= MAX_DEPTH && IsWalk(c, r, w)
    ensures EntryAt(c, r, w) in block
  {
    var below: seq<Entry>, walks: seq<seq<string>> :|
      block == [RootEntry(r)] + below && Unfolds(c, r, MAX_DEPTH, r.refs.Keys, below, walks);
    assert w in walks;
    var i :| 0 <= i < |walks| && walks[i] == w;
    assert block[i + 1] == below[i];
  }

  lemma EntryHasWalk(c: Cluster, r: Values, block: seq<Entry>, e: Entry) returns (w: seq<string>)
    requires IsBlock(c, r, block) && e in block && e.parent != "base"
    ensures 1 <= |w| <= MAX_DEPTH && IsWalk(c, r, w) && e == EntryAt(c, r, w)
  {
    var below: seq<Entry>, walks: seq<seq<string>> :|
      block == [RootEntry(r)] + below && Unfolds(c, r, MAX_DEPTH, r.refs.Keys, below, walks);
    assert e in below;
    var i :| 0 <= i < |below| && below[i] == e;
    w := walks[i];
  }

  /** The references of an object near a base object are collected. */
  lemma ReferenceIsCollected(c: Cluster, roots: seq<Values>, list: seq<Entry>, o: Values, k: string)
    requires IsCollection(c, roots, list) && o.name in c && c[o.name] == o && Near(c, roots, o.name)
    requires k in o.refs && o.refs[k] in c
    ensures Entry(c[o.refs[k]], o.name, k) in list
  {
    var r, w :| r in roots && |w| < MAX_DEPTH && IsWalk(c, r, w) && EndOf(c, r, w).name == o.name;
    EndInCluster(c, r, w);
    EntryAtSnoc(c, r, w, k);
    var block := BlockInList(c, roots, list, r);
    WalkInBlock(c, r, block, w + [k]);
  }

  /** And nothing else is, apart from the base objects. */
  lemma CollectedIsReference(c: Cluster, roots: seq<Values>, list: seq<Entry>, e: Entry)
    requires IsCollection(c, roots, list) && e in list && e.parent != "base"
    ensures Near(c, roots, e.parent) && e.parent in c
    ensures e.key in c[e.parent].refs && c[e.parent].refs[e.key] in c && e.ref == c[c[e.parent].refs[e.key]]
  {
    var r, block := BlockOfEntry(c, roots, list, e);
    var w := EntryHasWalk(c, r, block, e);
    EntryIsReference(c, r, w);
    EndInCluster(c, r, w[..|w| - 1]);
  }

  lemma RootIsCollected(c: Cluster, roots: seq<Values>, list: seq<Entry>, r: Values)
    requires IsRefList(c, roots, list) && r in roots
    ensures RootEntry(r) in list
  {
    var block := BlockInList(c, roots, list, r);
    var below: seq<Entry>, walks: seq<seq<string>> :|
      block == [RootEntry(r)] + below && Unfolds(c, r, MAX_DEPTH, r.refs.Keys, below, walks);
    assert block[0] == RootEntry(r);
  }

  // -------------------------------------------------------------------
  // A cycle within reach never ends
  // -------------------------------------------------------------------

  lemma {:induction false} NearWalkJoin(c: Cluster, roots: seq<Values>, o: Values, a: seq<string>, b: seq<string>)
    requires IsNearWalk(c, roots, o, a) && IsNearWalk(c, roots, EndOf(c, o, a), b)
    ensures IsNearWalk(c, roots, o, a + b) && EndOf(c, o, a + b) == EndOf(c, EndOf(c, o, a), b)
    decreases |a|
  {
    if a == [] {
      assert a + b == b;
    } else {
      assert (a + b)[1..] == a[1..] + b;
      NearWalkJoin(c, roots, c[o.refs[a[0]]], a[1..], b);
    }
  }

  /** Short walks from a base object stay near it; done is the part walked. */
  lemma {:induction false} ShortWalkIsNear(c: Cluster, roots: seq<Values>, r: Values, done: seq<string>, walk: seq<string>)
    requires r in roots && IsWalk(c, r, done) && IsWalk(c, EndOf(c, r, done), walk) && |done| + |walk| <= MAX_DEPTH
    ensures IsNearWalk(c, roots, EndOf(c, r, done), walk)
    decreases |walk|
  {
    if walk != [] {
      WalkSnoc(c, r, done, walk[0]);
      ShortWalkIsNear(c, roots, r, done + [walk[0]], walk[1..]);
    }
  }

  lemma {:induction false} RunAround(c: Cluster, roots: seq<Values>, n: string, cycle: seq<string>, length: nat)
      returns (walk: seq<string>)
    requires WellNamed(c) && IsNearCycle(c, roots, n, cycle)
    ensures IsNearWalk(c, roots, c[n], walk) && |walk| >= length
    decreases length
  {
    if length == 0 {
      walk := [];
    } else {
      var rest := RunAround(c, roots, n, cycle, length - 1);
      EndInCluster(c, c[n], cycle);
      NearWalkJoin(c, roots, c[n], cycle, rest);
      walk := cycle + rest;
    }
  }

  lemma {:induction false} LongWalkOutlasts(c: Cluster, roots: seq<Values>, list: seq<Entry>, v: Entry,
                                            walk: seq<string>, depth: nat)
    requires IsCollection(c, roots, list) && v.ref.name in c && c[v.ref.name] == v.ref
    requires IsNearWalk(c, roots, v.ref, walk) && |walk| > depth
    ensures !Halts(list, v, depth)
    decreases depth
  {
    if depth > 0 {
      var k := walk[0];
      var e := Entry(c[v.ref.refs[k]], v.ref.name, k);
      ReferenceIsCollected(c, roots, list, v.ref, k);
      assert walk[1..][0] in e.ref.refs;
      assert Calls(list, v, e);
      LongWalkOutlasts(c, roots, list, e, walk[1..], depth - 1);
    }
  }

  lemma NearCycleNeverEnds(c: Cluster, roots: seq<Values>, list: seq<Entry>, n: string, cycle: seq<string>)
      returns (r: Values)
    requires IsCollection(c, roots, list) && IsNearCycle(c, roots, n, cycle)
    ensures r in roots && !Returns(list, RootEntry(r))
  {
    var w;
    r, w :| r in roots && |w| < MAX_DEPTH && IsWalk(c, r, w) && EndOf(c, r, w).name == n;
    EndInCluster(c, r, w);
    ShortWalkIsNear(c, roots, r, [], w);
    forall depth: nat ensures !Halts(list, RootEntry(r), depth) {
      var around := RunAround(c, roots, n, cycle, depth + 1);
      NearWalkJoin(c, roots, r, w, around);
      LongWalkOutlasts(c, roots, list, RootEntry(r), w + around, depth);
    }
  }

  // -------------------------------------------------------------------
  // A loop of calls is a cycle within reach
  // -------------------------------------------------------------------

  function KeysOf(path: seq<Entry>): (r: seq<string>)
    ensures |r| == |path|
  {
    seq(|path|, i requires 0 <= i < |path| => path[i].key)
  }

  lemma {:induction false} CallsAreWalk(c: Cluster, roots: seq<Values>, list: seq<Entry>, path: seq<Entry>)
    requires IsCollection(c, roots, list) && IsCallPath(list, path)
    requires path[0].ref.name in c && c[path[0].ref.name] == path[0].ref
    ensures IsNearWalk(c, roots, path[0].ref, KeysOf(path[1..]))
    ensures EndOf(c, path[0].ref, KeysOf(path[1..])) == path[|path| - 1].ref
    decreases |path|
  {
    var keys := KeysOf(path[1..]);
    if |path| > 1 {
      assert Calls(list, path[1 - 1], path[1]);
      CollectedIsReference(c, roots, list, path[1]);
      forall i | 0 < i < |path[1..]| ensures Calls(list, path[1..][i - 1], path[1..][i]) {
        assert Calls(list, path[i], path[i + 1]);
      }
      CallsAreWalk(c, roots, list, path[1..]);
      assert keys[1..] == KeysOf(path[1..][1..]);
    }
  }

  lemma LoopIsNearCycle(c: Cluster, roots: seq<Values>, list: seq<Entry>, v: Entry, path: seq<Entry>)
      returns (n: string, cycle: seq<string>)
    requires IsCollection(c, roots, list) && v in list && Loops(list, v, path)
    ensures IsNearCycle(c, roots, n, cycle)
  {
    var i, j :| 0 <= i < j < |path| && path[i] == path[j];
    var part := path[i..j + 1];
    PartOfPath(list, path, i, j);
    assert Calls(list, path[j - 1], path[j]);
    EntryOfCluster(c, roots, list, path[j]);
    CallsAreWalk(c, roots, list, part);
    n, cycle := part[0].ref.name, KeysOf(part[1..]);
  }

  lemma EntryOfCluster(c: Cluster, roots: seq<Values>, list: seq<Entry>, e: Entry)
    requires IsCollection(c, roots, list) && e in list
    ensures e.ref.name in c && c[e.ref.name] == e.ref
  {
    CollectedFromAll(c, roots, list);
  }

  lemma PartOfPath(list: seq<Entry>, path: seq<Entry>, i: nat, j: nat)
    requires IsCallPath(list, path) && i < j < |path|
    ensures IsCallPath(list, path[i..j + 1])
  {
    var part := path[i..j + 1];
    forall m | 0 < m < |part| ensures Calls(list, part[m - 1], part[m]) {
      assert Calls(list, path[i + m - 1], path[i + m]);
    }
  }

  /** The calls for all base objects return if and only if no object within
      reach leads back to itself through objects within reach. */
  lemma AllReturnIffNoNearCycle(c: Cluster, roots: seq<Values>, list: seq<Entry>)
    requires IsCollection(c, roots, list)
    ensures (forall r :: r in roots ==> Returns(list, RootEntry(r))) <==> NoNearCycle(c, roots)
  {
    if NoNearCycle(c, roots) {
      forall r | r in roots ensures Returns(list, RootEntry(r)) {
        RootIsCollected(c, roots, list, r);
        HaltsIffNoLoop(list, RootEntry(r));
        if path :| Loops(list, RootEntry(r), path) {
          var n, cycle := LoopIsNearCycle(c, roots, list, RootEntry(r), path);
        }
      }
    } else {
      var n, cycle :| IsNearCycle(c, roots, n, cycle);
      var r := NearCycleNeverEnds(c, roots, list, n, cycle);
    }
  }

  /** On an acyclic cluster all calls return. */
  lemma AcyclicReturns(c: Cluster, roots: seq<Values>, list: seq<Entry>)
    requires IsCollection(c, roots, list) && Acyclic(c)
    ensures forall r :: r in roots ==> Returns(list, RootEntry(r))
  {
    AllReturnIffNoNearCycle(c, roots, list);
  }

  // -------------------------------------------------------------------
  // Height
  // -------------------------------------------------------------------

  /** Calls are nested no deeper than the longest walk from their object. */
  lemma {:induction false} HeightBoundsNesting(c: Cluster, roots: seq<Values>, list: seq<Entry>, v: Entry, h: nat)
    requires IsCollection(c, roots, list) && v.ref.name in c && c[v.ref.name] == v.ref && HeightAtMost(c, v.ref, h)
    ensures Halts(list, v, h + 1)
    decreases h
  {
    forall e | Calls(list, v, e) ensures Halts(list, e, h) {
      CollectedIsReference(c, roots, list, e);
      assert [e.key][1..] == [] && IsWalk(c, v.ref, [e.key]);
      forall walk | IsWalk(c, e.ref, walk) ensures |walk| <= h - 1 {
        assert ([e.key] + walk)[1..] == walk;
        assert IsWalk(c, v.ref, [e.key] + walk);
      }
      HeightBoundsNesting(c, roots, list, e, h - 1);
    }
  }

  /** An object is unfolded completely if and only if no walk from it is longer
      than 11. */
  lemma CompleteIffShallow(c: Cluster, root: Values, below: seq<Entry>, walks: seq<seq<string>>)
    requires Unfolds(c, root, MAX_DEPTH, root.refs.Keys, below, walks)
    ensures (forall walk :: walk != [] && IsWalk(c, root, walk) ==> walk in walks) <==> HeightAtMost(c, root, 11)
  {
    if forall walk :: walk != [] && IsWalk(c, root, walk) ==> walk in walks {
      forall walk | IsWalk(c, root, walk) ensures |walk| <= MAX_DEPTH {
        if walk != [] {
          assert walk in walks;
        }
      }
    }
  }

  // -------------------------------------------------------------------
  // An object that refers to itself
  // -------------------------------------------------------------------

  const SELF := Values("a", map["x" := Leaf("1")], map["k" := "a"])

  const SELF_CLUSTER: Cluster := map["a" := SELF]

  lemma {:induction false} SelfResolves(levels: nat)
    ensures Resolvable(SELF_CLUSTER, SELF, levels)
  {
    if levels > 0 {
      SelfResolves(levels - 1);
    }
  }

  lemma SelfNeverReturns(list: seq<Entry>)
    requires IsRefList(SELF_CLUSTER, [SELF], list)
    ensures !Returns(list, RootEntry(SELF))
  {
    SelfIsNearCycle();
    AllReturnIffNoNearCycle(SELF_CLUSTER, [SELF], list);
  }

  lemma SelfIsNearCycle()
    ensures IsNearCycle(SELF_CLUSTER, [SELF], "a", ["k"])
  {
    var c, roots := SELF_CLUSTER, [SELF];
    assert SELF in roots && IsWalk(c, SELF, []) && EndOf(c, SELF, []).name == "a";
    assert Near(c, roots, "a");
    assert SELF.refs["k"] == "a" && ["k"][1..] == [];
  }

  /** It is collected without an error, and what was collected is never
      assembled. */
  method CollectSelf(release: string) returns (err: bool, list: seq<Entry>)
    requires ',' !in release
    ensures !err && IsRefList(SELF_CLUSTER, [SELF], list) && !Returns(list, RootEntry(SELF))
  {
    var store := new ValuesStore(SELF_CLUSTER, map[]);
    ghost var n, touched;
    SelfResolves(MAX_DEPTH);
    assert [SELF][..1] == [SELF] && [SELF][..0] == [];
    err, list, n, touched := store.GetRefList([SELF], release, map[]);
    SelfNeverReturns(list);
  }
}
