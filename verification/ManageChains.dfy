/** ManageValues on several base objects that begin chains: the documents the
    chains stand for, merged in any order (internal/values/values.go:65-109). */
module ManageChains {
  import opened JsonTree
  import opened MergeOrder
  import opened ValuesGraph
  import opened Collect
  import opened CallGraph
  import opened Cycles
  import opened Assemble
  import opened CollectedWalks
  import opened ChainEndToEnd
  import opened ManageValues
  import opened SharedChains

  datatype Chain = Chain(objs: seq<Values>, k: string)

  /** A chain from each base object, none of which shares a reference. */
  ghost predicate AreChains(c: Cluster, roots: seq<Values>, chains: seq<Chain>) {
    |chains| == |roots| &&
    forall i :: 0 <= i < |chains| ==> chains[i].objs != [] && IsOwnChain(c, roots, chains[i], roots[i])
  }

  ghost predicate IsOwnChain(c: Cluster, roots: seq<Values>, chain: Chain, root: Values) {
    IsOneKeyChain(c, chain.objs, chain.k) && chain.objs[0] == root &&
    BelowUnshared(c, roots, chain.objs) && FirstHarmless(c, roots, chain.objs)
  }

  ghost function Ideals(c: Cluster, roots: seq<Values>, chains: seq<Chain>): (r: seq<Tree>)
    requires AreChains(c, roots, chains)
    ensures |r| == |chains| && forall i :: 0 <= i < |r| ==> chains[i].objs != [] && r[i] == IdealOf(chains[i].objs, chains[i].k)
  {
    seq(|chains|, i requires 0 <= i < |chains| && chains[i].objs != [] => IdealOf(chains[i].objs, chains[i].k))
  }

  lemma {:induction false} ChainHeight(c: Cluster, objs: seq<Values>, k: string, i: nat, walk: seq<string>)
    requires IsOneKeyChain(c, objs, k) && i < |objs| && IsWalk(c, objs[i], walk)
    ensures |walk| <= |objs| - 1 - i
    decreases |walk|
  {
    if walk != [] && i < |objs| - 1 {
      assert ClusterLink(c, objs, ChainKeys(objs, k), i);
      ChainHeight(c, objs, k, i + 1, walk[1..]);
    }
  }

  lemma ChainReturns(c: Cluster, roots: seq<Values>, list: seq<Entry>, chains: seq<Chain>, e: Entry)
    requires IsCollection(c, roots, list) && AreChains(c, roots, chains) && e in list && e.parent == "base"
    ensures Returns(list, e)
  {
    FilterMembers(list, "base");
    BaseIsRoots(c, roots, list);
    var i :| 0 <= i < |roots| && RootEntries(roots)[i] == e;
    assert IsOwnChain(c, roots, chains[i], roots[i]) && roots[i] in roots;
    var h := |chains[i].objs| - 1;
    forall walk | IsWalk(c, e.ref, walk) ensures |walk| <= h {
      ChainHeight(c, chains[i].objs, chains[i].k, 0, walk);
    }
    HeightBoundsNesting(c, roots, list, e, h);
  }

  lemma ChainCanDeliver(c: Cluster, roots: seq<Values>, list: seq<Entry>, chains: seq<Chain>, i: nat, doc: Tree)
    requires IsCollection(c, roots, list) && AreChains(c, roots, chains) && i < |roots|
    requires CanDeliver(list, RootEntry(roots[i]), doc)
    ensures doc == Ideals(c, roots, chains)[i]
  {
    assert IsOwnChain(c, roots, chains[i], roots[i]) && roots[i] in roots;
    var s :| Fits(list, RootEntry(roots[i]), s) && doc == Delivered(list, RootEntry(roots[i]), s);
    UnsharedDelivers(c, roots, list, chains[i].objs, chains[i].k, s);
  }

  /** ManageValues on what was collected for base objects that begin chains:
      the documents of the chains, merged in the order of their arrival. */
  method ManageChains(ghost c: Cluster, ghost roots: seq<Values>, list: seq<Entry>, ghost chains: seq<Chain>)
      returns (result: Option<Tree>, ghost arrivals: seq<Tree>)
    requires IsCollection(c, roots, list) && AreChains(c, roots, chains)
    ensures result == None <==> roots == []
    ensures result.Some? ==>
      multiset(arrivals) == multiset(Ideals(c, roots, chains)) && result == Some(Fold(arrivals)) &&
      (PairwiseAgree(Ideals(c, roots, chains)) ==> result == Some(Fold(Ideals(c, roots, chains))))
  {
    BaseIsRoots(c, roots, list);
    forall e | e in list && e.parent == "base" ensures Returns(list, e) {
      ChainReturns(c, roots, list, chains, e);
    }
    ghost var docs;
    result, docs, arrivals := ManageValues.ManageValues(list);
    if result.Some? {
      forall i | 0 <= i < |docs| ensures docs[i] == Ideals(c, roots, chains)[i] {
        ChainCanDeliver(c, roots, list, chains, i, docs[i]);
      }
      assert docs == Ideals(c, roots, chains);
    }
  }
}
