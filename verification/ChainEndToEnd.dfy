/** From the cluster to the document: collecting a chain of references and
    assembling what was collected. */
module ChainEndToEnd {
  import opened JsonTree
  import opened MergeAlgebra
  import opened MergeOrder
  import opened Nesting
  import opened ValuesGraph
  import opened Collect
  import opened CallGraph
  import opened Cycles
  import opened Assemble
  import opened CollectedWalks
  import opened ChainDocument

  /** objs[0] is a base object, and every other object of the chain is the only
      reference of the one before it.  The chain ends at an object without
      references, or at the depth where collecting stops. */
  ghost predicate ClusterChain(c: Cluster, objs: seq<Values>, keys: seq<string>) {
    |objs| == |keys| + 1 <= MAX_DEPTH + 1 &&
    (forall i :: 0 <= i < |keys| ==> ClusterLink(c, objs, keys, i)) &&
    NamesDiffer(objs) &&
    (forall i :: 0 <= i < |objs| ==> objs[i].name != "base") &&
    (objs[|keys|].refs == map[] || |keys| == MAX_DEPTH)
  }

  ghost predicate ClusterLink(c: Cluster, objs: seq<Values>, keys: seq<string>, i: nat)
    requires i < |keys| && |objs| == |keys| + 1
  {
    objs[i].refs == map[keys[i] := objs[i + 1].name] && keys[i] in objs[i].refs &&
    objs[i + 1].name in c && c[objs[i + 1].name] == objs[i + 1]
  }

  /** The walks of a chain are the prefixes of its keys. */
  lemma {:induction false} ChainWalk(c: Cluster, objs: seq<Values>, keys: seq<string>, i: nat, w: seq<string>)
    requires ClusterChain(c, objs, keys) && i <= |keys| && |w| <= MAX_DEPTH - i
    ensures IsWalk(c, objs[i], w) <==> i + |w| <= |keys| && w == keys[i..i + |w|]
    ensures IsWalk(c, objs[i], w) ==> EndOf(c, objs[i], w) == objs[i + |w|]
    decreases |w|
  {
    if w == [] {
    } else if i == |keys| {
    } else {
      assert ClusterLink(c, objs, keys, i);
      ChainWalk(c, objs, keys, i + 1, w[1..]);
      if i + |w| <= |keys| {
        assert keys[i..i + |w|][1..] == keys[i + 1..i + |w|];
        assert w == [w[0]] + w[1..];
      }
    }
  }

  ghost predicate NamesDiffer(objs: seq<Values>) {
    forall i, j :: 0 <= i < |objs| && 0 <= j < |objs| && i != j ==> objs[i].name != objs[j].name
  }

  /** objs[0] is one of the base objects, and the others follow it. */
  ghost predicate IsPath(c: Cluster, roots: seq<Values>, objs: seq<Values>, keys: seq<string>) {
    |objs| == |keys| + 1 && objs[0] in roots && forall i :: 0 <= i < |keys| ==> ClusterLink(c, objs, keys, i)
  }

  /** All references below the first object were collected once, and nothing
      was collected below the last object. */
  ghost predicate IsUnshared(list: seq<Entry>, objs: seq<Values>) {
    objs != [] && (forall i :: 0 < i < |objs| - 1 ==> IsOnce(list, objs[i])) &&
    (objs[|objs| - 1].refs == map[] || FilterBy(list, objs[|objs| - 1].name) == [])
  }

  lemma PathInCluster(c: Cluster, roots: seq<Values>, list: seq<Entry>, objs: seq<Values>, keys: seq<string>, i: nat)
    requires IsCollection(c, roots, list) && IsPath(c, roots, objs, keys) && i <= |keys|
    ensures objs[i].name in c && c[objs[i].name] == objs[i]
    ensures i < |keys| ==> HasOneReference(c, objs[i], keys[i])
  {
    if i > 0 {
      assert ClusterLink(c, objs, keys, i - 1);
    }
    if i < |keys| {
      assert ClusterLink(c, objs, keys, i);
    }
  }

  /** Whatever was collected for a link of a chain is that link. */
  lemma LinkIsCollected(c: Cluster, roots: seq<Values>, list: seq<Entry>, objs: seq<Values>, keys: seq<string>, i: nat)
    requires IsCollection(c, roots, list) && IsPath(c, roots, objs, keys) && i < |keys|
    ensures FilterBy(list, objs[i].name) != [] ==> IsLink(list, objs, keys, i)
    ensures Near(c, roots, objs[i].name) ==> IsLink(list, objs, keys, i)
  {
    PathInCluster(c, roots, list, objs, keys, i);
    assert ClusterLink(c, objs, keys, i);
    FilterMembers(list, objs[i].name);
    forall e | e in FilterBy(list, objs[i].name) ensures e == LinkEntry(objs, keys, i) {
      CollectedIsReference(c, roots, list, e);
    }
    if Near(c, roots, objs[i].name) {
      ReferenceIsCollected(c, roots, list, objs[i], keys[i]);
      assert LinkEntry(objs, keys, i) in FilterBy(list, objs[i].name);
    }
  }

  lemma RootIsNear(c: Cluster, roots: seq<Values>, r: Values)
    requires r in roots
    ensures Near(c, roots, r.name)
  {
    assert IsWalk(c, r, []) && EndOf(c, r, []) == r;
  }

  /** What is collected for a chain, from any number of base objects, is that
      chain if no other walk shares it. */
  lemma ChainIsCollected(c: Cluster, roots: seq<Values>, list: seq<Entry>, objs: seq<Values>, keys: seq<string>)
    requires IsCollection(c, roots, list) && IsPath(c, roots, objs, keys) && IsUnshared(list, objs)
    ensures IsChain(list, objs, keys)
  {
    forall i | 0 <= i < |keys| ensures IsLink(list, objs, keys, i) {
      RootIsNear(c, roots, objs[0]);
      LinkIsCollected(c, roots, list, objs, keys, i);
      assert i > 0 ==> IsOnce(list, objs[i]);
    }
  }

  /** Collecting for any base objects, one of which begins a chain whose links
      below it were collected once, and assembling the result, delivers the
      document the chain stands for exactly when every complete pair of keys
      is equal. */
  lemma CollectedChainDelivers(c: Cluster, roots: seq<Values>, list: seq<Entry>, objs: seq<Values>, keys: seq<string>,
                               s: Schedule)
    requires IsCollection(c, roots, list) && IsPath(c, roots, objs, keys) && IsUnshared(list, objs)
    requires "" !in keys && KeysUnused(objs, keys)
    requires Fits(list, RootEntry(objs[0]), s) && FirstUndisturbed(list, objs, s)
    ensures Delivered(list, RootEntry(objs[0]), s) == Ideal(objs, keys, 0) <==> PairsEqual(keys)
  {
    ChainIsCollected(c, roots, list, objs, keys);
    ChainIsIdealIffPairsEqual(list, objs, keys, s);
  }

  /** One walk of each length leads along a chain, so a chain that is collected
      alone is shared with nothing. */
  lemma AloneIsUnshared(c: Cluster, list: seq<Entry>, objs: seq<Values>, keys: seq<string>)
    requires ClusterChain(c, objs, keys) && IsCollection(c, [objs[0]], list)
    ensures IsPath(c, [objs[0]], objs, keys) && IsUnshared(list, objs)
    ensures keys != [] ==> IsOnce(list, objs[0])
  {
    var roots := [objs[0]];
    assert objs[0] in roots;
    forall i | 0 <= i < |keys| ensures IsOnce(list, objs[i]) {
      OneLeadsAlong(c, objs, keys, i);
      PathInCluster(c, roots, list, objs, keys, i);
      OnceIffOneLeads(c, roots, list, objs[i], keys[i]);
    }
    if objs[|keys|].refs != map[] {
      EndIsNotNear(c, objs, keys);
      forall e | e in list ensures e.parent != objs[|keys|].name {
        if e.parent != "base" {
          CollectedIsReference(c, roots, list, e);
        }
      }
      FilterNone(list, objs[|keys|].name);
    }
  }

  lemma EndIsNotNear(c: Cluster, objs: seq<Values>, keys: seq<string>)
    requires ClusterChain(c, objs, keys) && |keys| == MAX_DEPTH
    ensures !Near(c, [objs[0]], objs[|keys|].name)
  {
    forall w | |w| < MAX_DEPTH && IsWalk(c, objs[0], w) ensures EndOf(c, objs[0], w).name != objs[|keys|].name {
      ChainWalk(c, objs, keys, 0, w);
    }
  }

  lemma OneLeadsAlong(c: Cluster, objs: seq<Values>, keys: seq<string>, i: nat)
    requires ClusterChain(c, objs, keys) && i < |keys|
    ensures OneLeadsTo(c, [objs[0]], objs[i].name)
  {
    var o := Origin(0, keys[0..i]);
    ChainWalk(c, objs, keys, 0, keys[0..i]);
    assert LeadsTo(c, [objs[0]], o, objs[i].name);
    forall o' | LeadsTo(c, [objs[0]], o', objs[i].name) ensures o' == o {
      ChainWalk(c, objs, keys, 0, o'.walk);
      assert objs[|o'.walk|].name == objs[i].name;
    }
  }

  /** In particular for one base object, a chain of up to 11 references and
      every schedule. */
  lemma ChainAloneDelivers(c: Cluster, list: seq<Entry>, objs: seq<Values>, keys: seq<string>, s: Schedule)
    requires ClusterChain(c, objs, keys) && IsCollection(c, [objs[0]], list)
    requires "" !in keys && KeysUnused(objs, keys) && Fits(list, RootEntry(objs[0]), s)
    ensures Delivered(list, RootEntry(objs[0]), s) == Ideal(objs, keys, 0) <==> PairsEqual(keys)
  {
    AloneIsUnshared(c, list, objs, keys);
    if keys == [] {
      MergeEmpty(objs[0].vals);
    } else {
      CollectedChainDelivers(c, [objs[0]], list, objs, keys, s);
    }
  }

  /** In the cluster, root refers to middle under j, and middle to leaf under k. */
  ghost predicate IsTwoStep(c: Cluster, root: Values, middle: Values, leaf: Values, j: string, k: string) {
    root.refs == map[j := middle.name] && middle.refs == map[k := leaf.name] && leaf.refs == map[] &&
    middle.name in c && c[middle.name] == middle && leaf.name in c && c[leaf.name] == leaf &&
    NamesDiffer([root, middle, leaf]) && root.name != "base" && middle.name != "base" && leaf.name != "base"
  }

  /** A key path that begins with j and goes on ends in nothing at j, k. */
  lemma LongerNestMisses(path: seq<string>, t: Tree, j: string, k: string)
    requires |path| >= 2 && path[0] == j && j != k
    ensures Misses(NestOnEmpty(path, t), [j, k])
  {
    var below: Tree := if path[0] != path[1] then map[] else map[path[1] := Obj(NestOnEmpty(path[2..], t))];
    assert NestOnEmpty(path, t) == map[j := Obj(below)];
    assert [j, k][1..] == [k];
    HeadBelow(NestOnEmpty(path, t), [j, k]);
  }

  lemma PathBeginsWith(v: Entry, n: nat, i: nat, keys: seq<string>)
    requires v.key != "" && |keys| == 1 && keys[0] != ""
    ensures
      var path := Trim(ChildPath(v, [] + Repeat("", n), i, keys));
      |path| >= 2 && path[0] == v.key
  {
    var blanks, own := Repeat("", n), Repeat(v.key, i + 1);
    assert own == [v.key] + own[1..];
    assert ChildPath(v, [] + blanks, i, keys) == blanks + ([v.key] + (own[1..] + keys));
    TrimConcat(blanks, [v.key] + (own[1..] + keys));
    TrimBlanks(n);
    TrimConcat([v.key], own[1..] + keys);
    TrimConcat(own[1..], keys);
    TrimKeeps(keys);
    TrimKeeps([v.key]);
  }

  /** Whatever copies of the second reference there are, and whichever arrives:
      nothing stands at j, k. */
  lemma MiddleMisses(list: seq<Entry>, objs: seq<Values>, j: string, k: string, n: nat, call: Schedule)
    requires |objs| == 3 && j != k && j != "" && k != "" && objs[2].refs == map[]
    requires FilterBy(list, objs[1].name) != [] ==> IsLink(list, objs, [j, k], 1)
    requires Fits(list, LinkEntry(objs, [j, k], 0), call)
    ensures Misses(Struct(list, LinkEntry(objs, [j, k], 0), [] + Repeat("", n), call), [j, k])
  {
    var v, temp, parents := LinkEntry(objs, [j, k], 0), FilterBy(list, objs[1].name), [] + Repeat("", n);
    if temp == [] || v.ref.refs == map[] {
      NothingMisses(j, k);
    } else {
      forall e | e in temp ensures e.ref.refs == map[] {
      }
      OnlyFirstArrives(list, v, parents, call);
      FitsChild(list, v, call, call.first);
      assert temp[call.first] in temp;
      var order := call.children[call.first].order;
      OnlyOrder(order, objs[1].refs, k, objs[2].name);
      if call.sent.Reset? {
        NothingMisses(j, k);
      } else {
        var keys := if call.sent.Overwritten? then call.sent.keys else order;
        PathBeginsWith(v, n, call.first, keys);
        LongerNestMisses(Trim(ChildPath(v, parents, call.first, keys)), temp[call.first].ref.vals, j, k);
      }
    }
  }

  lemma NothingMisses(j: string, k: string)
    ensures Misses(map[], [j, k])
  {
    HeadBelow(map[], [j, k]);
  }

  lemma {:induction false} MiddlesMiss(list: seq<Entry>, objs: seq<Values>, j: string, k: string, s: Schedule, n: nat)
    requires |objs| == 3 && j != k && j != "" && k != "" && objs[2].refs == map[]
    requires IsLink(list, objs, [j, k], 0) && (FilterBy(list, objs[1].name) != [] ==> IsLink(list, objs, [j, k], 1))
    requires Fits(list, RootEntry(objs[0]), s) && n <= |FilterBy(list, objs[0].name)| == |s.children|
    ensures Misses(Nested(list, RootEntry(objs[0]), FilterBy(list, objs[0].name), [], s, n), [j, k])
    decreases n
  {
    if n == 0 {
      NothingMisses(j, k);
    } else {
      var v, temp := RootEntry(objs[0]), FilterBy(list, objs[0].name);
      MiddlesMiss(list, objs, j, k, s, n - 1);
      assert temp[n - 1] in temp;
      FitsChild(list, v, s, n - 1);
      if objs[1].refs != map[] {
        MiddleMisses(list, objs, j, k, n, s.children[n - 1].call);
        MergeMisses(Nested(list, v, temp, [], s, n - 1),
                    Struct(list, LinkEntry(objs, [j, k], 0), [] + Repeat("", n), s.children[n - 1].call), [j, k]);
      }
    }
  }

  /** Two references under different keys: the last object's values are lost,
      whatever else is collected. */
  lemma TwoKeysLoseValues(c: Cluster, roots: seq<Values>, root: Values, middle: Values, leaf: Values, j: string, k: string,
                          list: seq<Entry>, s: Schedule)
    requires IsCollection(c, roots, list) && root in roots
    requires IsTwoStep(c, root, middle, leaf, j, k) && j != k && j != "" && k != ""
    requires j !in root.vals && k !in middle.vals
    requires Fits(list, RootEntry(root), s) && FirstUndisturbed(list, [root], s)
    ensures Delivered(list, RootEntry(root), s) != root.vals[j := Obj(middle.vals[k := Obj(leaf.vals)])]
  {
    TwoStepLinks(c, roots, list, root, middle, leaf, j, k);
    TwoStepMisses(list, [root, middle, leaf], j, k, s);
    WantedReaches(root, middle, leaf, j, k);
  }

  lemma TwoStepLinks(c: Cluster, roots: seq<Values>, list: seq<Entry>, root: Values, middle: Values, leaf: Values,
                     j: string, k: string)
    requires IsCollection(c, roots, list) && root in roots && IsTwoStep(c, root, middle, leaf, j, k)
    ensures IsLink(list, [root, middle, leaf], [j, k], 0)
    ensures FilterBy(list, middle.name) != [] ==> IsLink(list, [root, middle, leaf], [j, k], 1)
  {
    var objs, keys := [root, middle, leaf], [j, k];
    assert ClusterLink(c, objs, keys, 0) && ClusterLink(c, objs, keys, 1) by {
      assert j in root.refs && k in middle.refs;
    }
    RootIsNear(c, roots, root);
    LinkIsCollected(c, roots, list, objs, keys, 0);
    LinkIsCollected(c, roots, list, objs, keys, 1);
  }

  lemma TwoStepMisses(list: seq<Entry>, objs: seq<Values>, j: string, k: string, s: Schedule)
    requires |objs| == 3 && j != k && j != "" && k != "" && objs[2].refs == map[]
    requires IsLink(list, objs, [j, k], 0) && (FilterBy(list, objs[1].name) != [] ==> IsLink(list, objs, [j, k], 1))
    requires j !in objs[0].vals && k !in objs[1].vals
    requires Fits(list, RootEntry(objs[0]), s) && FirstUndisturbed(list, [objs[0]], s)
    ensures Misses(Delivered(list, RootEntry(objs[0]), s), [j, k])
  {
    var v, temp := RootEntry(objs[0]), FilterBy(list, objs[0].name);
    FirstIsNest(list, objs, j, k, s);
    NestMisses([j], objs[1].vals, [j, k]);
    MiddlesMiss(list, objs, j, k, s, |temp|);
    MergeMisses(Nested(list, v, temp, [], s, |temp|), Received(v, temp, [], s), [j, k]);
    NestMisses([], objs[0].vals, [j, k]);
    MergeMisses(objs[0].vals, Struct(list, v, [], s), [j, k]);
  }

  lemma FirstIsNest(list: seq<Entry>, objs: seq<Values>, j: string, k: string, s: Schedule)
    requires |objs| == 3 && j != "" && IsLink(list, objs, [j, k], 0)
    requires Fits(list, RootEntry(objs[0]), s) && FirstUndisturbed(list, [objs[0]], s)
    ensures
      var temp := FilterBy(list, objs[0].name);
      s.first < |temp| == |s.children| &&
      Received(RootEntry(objs[0]), temp, [], s) == Nest([j], objs[1].vals)
  {
    var v, temp := RootEntry(objs[0]), FilterBy(list, objs[0].name);
    FitsChild(list, v, s, 0);
    FitsChild(list, v, s, s.first);
    assert temp[s.first] in temp;
    OnlyOrder(s.children[s.first].order, objs[0].refs, j, objs[1].name);
    BlanksThenKey(s.first + 1, j);
    assert [j][1..] == [];
  }

  lemma WantedReaches(root: Values, middle: Values, leaf: Values, j: string, k: string)
    ensures HeadAt(root.vals[j := Obj(middle.vals[k := Obj(leaf.vals)])], [j, k]) == Object
  {
    assert [j, k][1..] == [k];
    HeadBelow(root.vals[j := Obj(middle.vals[k := Obj(leaf.vals)])], [j, k]);
  }

  const ROOT := Values("a", map[], map["j" := "b"])
  const MIDDLE := Values("b", map[], map["k" := "c"])
  const LEAF := Values("c", map["x" := Leaf("1")], map[])

  /** A cluster of three objects, from collecting to the document, whatever the
      order of collecting and the schedule. */
  lemma TwoKeysExample(list: seq<Entry>, s: Schedule)
    requires IsRefList(map["a" := ROOT, "b" := MIDDLE, "c" := LEAF], [ROOT], list) && Fits(list, RootEntry(ROOT), s)
    ensures Delivered(list, RootEntry(ROOT), s) != map["j" := Obj(map["k" := Obj(map["x" := Leaf("1")])])]
  {
    var c: Cluster := map["a" := ROOT, "b" := MIDDLE, "c" := LEAF];
    assert IsTwoStep(c, ROOT, MIDDLE, LEAF, "j", "k");
    ExampleIsAlone(c, list);
    TwoKeysLoseValues(c, [ROOT], ROOT, MIDDLE, LEAF, "j", "k", list, s);
  }

  lemma ExampleIsAlone(c: Cluster, list: seq<Entry>)
    requires c == map["a" := ROOT, "b" := MIDDLE, "c" := LEAF] && IsRefList(c, [ROOT], list)
    ensures IsCollection(c, [ROOT], list) && IsOnce(list, ROOT)
  {
    ExampleIsChain(c);
    ExampleIsWellNamed(c);
    AloneIsUnshared(c, list, [ROOT, MIDDLE, LEAF], ["j", "k"]);
  }

  lemma ExampleIsWellNamed(c: Cluster)
    requires c == map["a" := ROOT, "b" := MIDDLE, "c" := LEAF]
    ensures WellNamed(c) && "base" !in c && c["a"] == ROOT
  {
  }

  lemma ExampleIsChain(c: Cluster)
    requires c == map["a" := ROOT, "b" := MIDDLE, "c" := LEAF]
    ensures ClusterChain(c, [ROOT, MIDDLE, LEAF], ["j", "k"])
  {
    var objs, keys := [ROOT, MIDDLE, LEAF], ["j", "k"];
    assert "j" in ROOT.refs && "k" in MIDDLE.refs;
    assert ClusterLink(c, objs, keys, 0) && ClusterLink(c, objs, keys, 1);
  }
}
