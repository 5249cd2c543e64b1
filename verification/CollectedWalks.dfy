/** How often a reference is collected: once for each walk of at most 10
    references that leads from a listed base object to the object that holds
    it (internal/values/collect.go:41-110). */
module CollectedWalks {
  import opened JsonTree
  import opened ValuesGraph
  import opened Collect
  import opened CallGraph
  import opened Cycles
  import opened Assemble

  /** A base object, by its place in the list of base objects, and a walk from it. */
  datatype Origin = Origin(root: nat, walk: seq<string>)

  ghost predicate IsOrigin(c: Cluster, roots: seq<Values>, o: Origin) {
    o.root < |roots| && |o.walk| <= MAX_DEPTH && IsWalk(c, roots[o.root], o.walk)
  }

  /** The entry collected for an origin. */
  ghost function EntryOf(c: Cluster, roots: seq<Values>, o: Origin): Entry
    requires IsOrigin(c, roots, o)
  {
    if o.walk == [] then RootEntry(roots[o.root]) else EntryAt(c, roots[o.root], o.walk)
  }

  ghost predicate IsEntryOf(c: Cluster, roots: seq<Values>, o: Origin, e: Entry) {
    IsOrigin(c, roots, o) && e == EntryOf(c, roots, o)
  }

  ghost predicate Distinct(origins: seq<Origin>) {
    forall p, q :: 0 <= p < q < |origins| ==> origins[p] != origins[q]
  }

  /** The list holds one entry per origin. */
  ghost predicate AreOrigins(c: Cluster, roots: seq<Values>, list: seq<Entry>, origins: seq<Origin>) {
    |origins| == |list| && Distinct(origins) &&
    (forall p :: 0 <= p < |list| ==> IsEntryOf(c, roots, origins[p], list[p])) &&
    (forall o :: IsOrigin(c, roots, o) ==> o in origins)
  }

  /** The origins of a block, that of the base object first. */
  function BlockOrigins(i: nat, walks: seq<seq<string>>): (r: seq<Origin>)
    ensures |r| == |walks| + 1 && r[0] == Origin(i, [])
    ensures forall p :: 0 <= p < |walks| ==> r[p + 1] == Origin(i, walks[p])
  {
    [Origin(i, [])] + seq(|walks|, p requires 0 <= p < |walks| => Origin(i, walks[p]))
  }

  lemma BlockHasOrigins(c: Cluster, roots: seq<Values>, i: nat, block: seq<Entry>) returns (origins: seq<Origin>)
    requires i < |roots| && IsBlock(c, roots[i], block)
    ensures |origins| == |block| && Distinct(origins)
    ensures forall p :: 0 <= p < |block| ==> origins[p].root == i && IsEntryOf(c, roots, origins[p], block[p])
    ensures forall o :: IsOrigin(c, roots, o) && o.root == i ==> o in origins
  {
    var below: seq<Entry>, walks: seq<seq<string>> :|
      block == [RootEntry(roots[i])] + below && Unfolds(c, roots[i], MAX_DEPTH, roots[i].refs.Keys, below, walks);
    origins := BlockOrigins(i, walks);
    BlockEntries(c, roots, i, below, walks);
    WalksDistinct(i, walks);
    forall o | IsOrigin(c, roots, o) && o.root == i ensures o in origins {
      WalkHasOrigin(c, roots[i], i, walks, o.walk);
    }
  }

  lemma BlockEntries(c: Cluster, roots: seq<Values>, i: nat, below: seq<Entry>, walks: seq<seq<string>>)
    requires i < |roots| && Faithful(c, roots[i], MAX_DEPTH, roots[i].refs.Keys, below, walks)
    ensures
      var origins, block := BlockOrigins(i, walks), [RootEntry(roots[i])] + below;
      forall p :: 0 <= p < |block| ==> origins[p].root == i && IsEntryOf(c, roots, origins[p], block[p])
  {
    var origins, block := BlockOrigins(i, walks), [RootEntry(roots[i])] + below;
    forall p | 0 <= p < |block| ensures origins[p].root == i && IsEntryOf(c, roots, origins[p], block[p]) {
      if p > 0 {
        assert origins[p] == Origin(i, walks[p - 1]) && block[p] == below[p - 1];
      }
    }
  }

  lemma WalksDistinct(i: nat, walks: seq<seq<string>>)
    requires ValuesGraph.Distinct(walks) && [] !in walks
    ensures Distinct(BlockOrigins(i, walks))
  {
    var origins := BlockOrigins(i, walks);
    forall p, q | 0 <= p < q < |origins| ensures origins[p] != origins[q] {
      if p > 0 {
        assert origins[p].walk == walks[p - 1] != walks[q - 1] == origins[q].walk;
      } else {
        assert origins[q].walk == walks[q - 1] && walks[q - 1] in walks;
      }
    }
  }

  lemma WalkHasOrigin(c: Cluster, r: Values, i: nat, walks: seq<seq<string>>, w: seq<string>)
    requires Complete(c, r, MAX_DEPTH, r.refs.Keys, walks) && IsWalk(c, r, w) && |w| <= MAX_DEPTH
    ensures Origin(i, w) in BlockOrigins(i, walks)
  {
    var origins := BlockOrigins(i, walks);
    if w == [] {
      assert origins[0] == Origin(i, w);
    } else {
      assert w in walks;
      var p :| 0 <= p < |walks| && walks[p] == w;
      assert origins[p + 1] == Origin(i, w);
    }
  }

  lemma {:induction false} ListHasOrigins(c: Cluster, roots: seq<Values>, list: seq<Entry>) returns (origins: seq<Origin>)
    requires IsRefList(c, roots, list)
    ensures AreOrigins(c, roots, list, origins)
    decreases |roots|
  {
    if roots == [] {
      origins := [];
    } else {
      var n := SplitList(c, roots, list);
      var last := |roots| - 1;
      var before := ListHasOrigins(c, roots[..last], list[..n]);
      var more := BlockHasOrigins(c, roots, last, list[n..]);
      JoinOrigins(c, roots, list, n, before, more);
      origins := before + more;
    }
  }

  lemma JoinOrigins(c: Cluster, roots: seq<Values>, list: seq<Entry>, n: nat, before: seq<Origin>, more: seq<Origin>)
    requires roots != [] && n <= |list|
    requires AreOrigins(c, roots[..|roots| - 1], list[..n], before)
    requires |more| == |list| - n && Distinct(more)
    requires forall p :: 0 <= p < |more| ==> more[p].root == |roots| - 1 && IsEntryOf(c, roots, more[p], list[n..][p])
    requires forall o :: IsOrigin(c, roots, o) && o.root == |roots| - 1 ==> o in more
    ensures AreOrigins(c, roots, list, before + more)
  {
    var all, init := before + more, roots[..|roots| - 1];
    forall p | 0 <= p < |all| ensures IsEntryOf(c, roots, all[p], list[p]) && (p < n <==> all[p].root < |roots| - 1) {
      if p < n {
        assert IsEntryOf(c, init, before[p], list[..n][p]);
      } else {
        assert IsEntryOf(c, roots, more[p - n], list[n..][p - n]);
      }
    }
    forall p, q | 0 <= p < q < |all| ensures all[p] != all[q] {
      if q < n {
        assert before[p] != before[q];
      } else if p >= n {
        assert more[p - n] != more[q - n];
      }
    }
    forall o | IsOrigin(c, roots, o) ensures o in all {
      if o.root < |init| {
        assert IsOrigin(c, init, o);
      }
    }
  }

  // -------------------------------------------------------------------
  // Counting
  // -------------------------------------------------------------------

  /** The walk of o ends at the object n, and that object's references are
      collected for it. */
  ghost predicate LeadsTo(c: Cluster, roots: seq<Values>, o: Origin, n: string) {
    IsOrigin(c, roots, o) && |o.walk| < MAX_DEPTH && EndOf(c, roots[o.root], o.walk).name == n
  }

  ghost predicate OneLeadsTo(c: Cluster, roots: seq<Values>, n: string) {
    exists o :: LeadsTo(c, roots, o, n) && forall o' :: LeadsTo(c, roots, o', n) ==> o' == o
  }

  /** o has one reference, and it resolves. */
  ghost predicate HasOneReference(c: Cluster, o: Values, k: string) {
    o.name in c && c[o.name] == o && k in o.refs && o.refs == map[k := o.refs[k]] && o.refs[k] in c
  }

  function Longer(o: Origin, k: string): Origin {
    Origin(o.root, o.walk + [k])
  }

  lemma LongerIsReference(c: Cluster, roots: seq<Values>, list: seq<Entry>, n: Values, k: string, o: Origin)
    requires IsCollection(c, roots, list) && HasOneReference(c, n, k) && LeadsTo(c, roots, o, n.name)
    ensures IsEntryOf(c, roots, Longer(o, k), Entry(c[n.refs[k]], n.name, k))
  {
    assert roots[o.root] in roots;
    EndInCluster(c, roots[o.root], o.walk);
    EntryAtSnoc(c, roots[o.root], o.walk, k);
  }

  /** Every entry with n as parent comes from an origin that leads to n. */
  lemma ReferenceIsLonger(c: Cluster, roots: seq<Values>, list: seq<Entry>, n: Values, k: string, o: Origin, e: Entry)
      returns (shorter: Origin)
    requires IsCollection(c, roots, list) && HasOneReference(c, n, k)
    requires IsEntryOf(c, roots, o, e) && e.parent == n.name
    ensures LeadsTo(c, roots, shorter, n.name) && o == Longer(shorter, k)
  {
    var r := roots[o.root];
    assert r in roots && o.walk != [];
    var m := |o.walk| - 1;
    EntryIsReference(c, r, o.walk);
    EndInCluster(c, r, o.walk[..m]);
    shorter := Origin(o.root, o.walk[..m]);
    assert o.walk == o.walk[..m] + [k];
  }

  /** A reference is collected once if and only if one origin leads to the
      object that holds it. */
  lemma OnceIffOneLeads(c: Cluster, roots: seq<Values>, list: seq<Entry>, n: Values, k: string)
    requires IsCollection(c, roots, list) && HasOneReference(c, n, k)
    ensures |FilterBy(list, n.name)| == 1 <==> OneLeadsTo(c, roots, n.name)
  {
    var origins := ListHasOrigins(c, roots, list);
    if OneLeadsTo(c, roots, n.name) {
      OnceIfOneLeads(c, roots, list, n, k, origins);
    }
    if |FilterBy(list, n.name)| == 1 {
      OneLeadsIfOnce(c, roots, list, n, k, origins);
    }
  }

  lemma OnceIfOneLeads(c: Cluster, roots: seq<Values>, list: seq<Entry>, n: Values, k: string, origins: seq<Origin>)
    requires IsCollection(c, roots, list) && HasOneReference(c, n, k) && AreOrigins(c, roots, list, origins)
    requires OneLeadsTo(c, roots, n.name)
    ensures |FilterBy(list, n.name)| == 1
  {
    var o :| LeadsTo(c, roots, o, n.name) && forall o' :: LeadsTo(c, roots, o', n.name) ==> o' == o;
    LongerIsReference(c, roots, list, n, k, o);
    assert Longer(o, k) in origins;
    var p :| 0 <= p < |origins| && origins[p] == Longer(o, k);
    assert IsEntryOf(c, roots, origins[p], list[p]);
    forall q | 0 <= q < |list| && list[q].parent == n.name ensures q == p {
      var o' := ReferenceIsLonger(c, roots, list, n, k, origins[q], list[q]);
      assert origins[q] == Longer(o, k);
    }
    FilterOne(list, n.name, p);
  }

  lemma OneLeadsIfOnce(c: Cluster, roots: seq<Values>, list: seq<Entry>, n: Values, k: string, origins: seq<Origin>)
    requires IsCollection(c, roots, list) && HasOneReference(c, n, k) && AreOrigins(c, roots, list, origins)
    requires |FilterBy(list, n.name)| == 1
    ensures OneLeadsTo(c, roots, n.name)
  {
    FilterMembers(list, n.name);
    assert FilterBy(list, n.name)[0] in list;
    var p :| 0 <= p < |list| && list[p] == FilterBy(list, n.name)[0];
    assert list[p] in FilterBy(list, n.name);
    var o := ReferenceIsLonger(c, roots, list, n, k, origins[p], list[p]);
    forall o' | LeadsTo(c, roots, o', n.name) ensures o' == o {
      LongerIsReference(c, roots, list, n, k, o');
      assert Longer(o', k) in origins;
      var q :| 0 <= q < |origins| && origins[q] == Longer(o', k);
      assert IsEntryOf(c, roots, origins[q], list[q]);
      FilterTwo(list, n.name, p, q);
      assert o'.walk == Longer(o', k).walk[..|o'.walk|] && o.walk == Longer(o, k).walk[..|o.walk|];
    }
  }

  // -------------------------------------------------------------------
  // The base objects
  // -------------------------------------------------------------------

  function RootEntries(roots: seq<Values>): (r: seq<Entry>)
    ensures |r| == |roots| && forall i :: 0 <= i < |r| ==> r[i] == RootEntry(roots[i])
  {
    seq(|roots|, i requires 0 <= i < |roots| => RootEntry(roots[i]))
  }

  lemma {:induction false} FilterConcat(a: seq<Entry>, b: seq<Entry>, parent: string)
    ensures FilterBy(a + b, parent) == FilterBy(a, parent) + FilterBy(b, parent)
    decreases |b|
  {
    if b == [] {
      assert a + b == a;
    } else {
      var n := |b| - 1;
      assert (a + b)[..|a + b| - 1] == a + b[..n];
      FilterConcat(a, b[..n], parent);
    }
  }

  /** The base objects of the list, in their order. */
  lemma {:induction false} BaseIsRoots(c: Cluster, roots: seq<Values>, list: seq<Entry>)
    requires IsCollection(c, roots, list)
    ensures FilterBy(list, "base") == RootEntries(roots)
    decreases |roots|
  {
    if roots != [] {
      var n := SplitList(c, roots, list);
      var last := |roots| - 1;
      assert IsCollection(c, roots[..last], list[..n]);
      BaseIsRoots(c, roots[..last], list[..n]);
      assert roots[last] in roots;
      BlockBase(c, roots[last], list[n..]);
      FilterParts(list, n, "base");
      RootEntriesSnoc(roots);
    }
  }

  lemma FilterParts(list: seq<Entry>, n: nat, parent: string)
    requires n <= |list|
    ensures FilterBy(list, parent) == FilterBy(list[..n], parent) + FilterBy(list[n..], parent)
  {
    var a, b := list[..n], list[n..];
    FilterConcat(a, b, parent);
    assert a + b == list;
  }

  lemma RootEntriesSnoc(roots: seq<Values>)
    requires roots != []
    ensures RootEntries(roots) == RootEntries(roots[..|roots| - 1]) + [RootEntry(roots[|roots| - 1])]
  {
  }

  lemma BlockBase(c: Cluster, r: Values, block: seq<Entry>)
    requires WellNamed(c) && "base" !in c && r.name in c && c[r.name] == r && IsBlock(c, r, block)
    ensures FilterBy(block, "base") == [RootEntry(r)]
  {
    var origins := BlockHasOrigins(c, [r], 0, block);
    assert block != [];
    var below: seq<Entry>, walks: seq<seq<string>> :|
      block == [RootEntry(r)] + below && Unfolds(c, r, MAX_DEPTH, r.refs.Keys, below, walks);
    forall p | 0 < p < |block| ensures block[p].parent != "base" {
      assert block[p] == below[p - 1] == EntryAt(c, r, walks[p - 1]);
      EntryIsReference(c, r, walks[p - 1]);
      EndInCluster(c, r, walks[p - 1][..|walks[p - 1]| - 1]);
    }
    FilterOne(block, "base", 0);
  }
}
