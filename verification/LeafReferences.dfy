/** A base object whose references are all objects without references: what
    arrives of them in the document, whatever other base objects there are
    (internal/values/values.go:111-191). */
module LeafReferences {
  import opened JsonTree
  import opened MergeAlgebra
  import opened MergeOrder
  import opened Nesting
  import opened ValuesGraph
  import opened Collect
  import opened CallGraph
  import opened Cycles
  import opened Assemble
  import opened CollectedWalks
  import opened ChainDocument
  import opened ChainEndToEnd
  import opened SharedChains

  /** root refers to leaves only, under keys that its own values do not define. */
  ghost predicate HasLeaves(c: Cluster, root: Values) {
    forall k :: k in root.refs ==>
      k != "" && k !in root.vals && root.refs[k] in c && c[root.refs[k]].refs == map[]
  }

  /** root is one of the base objects of a collection. */
  ghost predicate IsLeafRoot(c: Cluster, roots: seq<Values>, list: seq<Entry>, root: Values) {
    IsCollection(c, roots, list) && root in roots && HasLeaves(c, root)
  }

  /** The document root stands for: each key mapped to its object's values. */
  function Wanted(c: Cluster, root: Values): Tree
    requires forall k :: k in root.refs ==> root.refs[k] in c
  {
    root.vals + map k | k in root.refs :: Obj(c[root.refs[k]].vals)
  }

  /** The children of root are the entries of its references. */
  lemma LeafEntries(c: Cluster, roots: seq<Values>, list: seq<Entry>, root: Values)
    requires IsLeafRoot(c, roots, list, root)
    ensures forall e :: e in FilterBy(list, root.name) ==>
      e.key in root.refs && e.ref == c[root.refs[e.key]] && e.ref.name == root.refs[e.key]
    ensures root.refs != map[] ==> FilterBy(list, root.name) != []
  {
    FilterMembers(list, root.name);
    forall e | e in FilterBy(list, root.name)
      ensures e.key in root.refs && e.ref == c[root.refs[e.key]] && e.ref.name == root.refs[e.key]
    {
      CollectedIsReference(c, roots, list, e);
    }
    if root.refs != map[] {
      var k :| k in root.refs;
      RootIsNear(c, roots, root);
      ReferenceIsCollected(c, roots, list, root, k);
      assert Entry(c[root.refs[k]], root.name, k) in FilterBy(list, root.name);
    }
  }

  lemma OrderLists(order: seq<string>, refs: map<string, string>, name: string)
    requires IsKeyOrder(order, refs, name)
    ensures forall k :: k in order <==> k in refs && refs[k] == name
    ensures |order| >= 2 ==> order[0] != order[1]
    ensures |order| == |KeysFor(refs, name)|
  {
    forall k ensures k in order <==> k in KeysFor(refs, name) {
      assert k in order <==> k in multiset(order);
    }
    assert |order| == |multiset(order)|;
    if |order| >= 2 {
      assert order == [order[0]] + ([order[1]] + order[2..]);
      assert multiset(order)[order[0]] >= 1 + if order[1] == order[0] then 1 else 0;
      assert multiset(KeysFor(refs, name))[order[0]] <= 1;
    }
  }

  /** What nests under a list of different keys. */
  lemma NestOrder(order: seq<string>, refs: map<string, string>, name: string, vals: Tree)
    requires IsKeyOrder(order, refs, name) && order != []
    ensures NestOnEmpty(order, vals) == map[order[0] := Obj(if KeysFor(refs, name) == {order[0]} then vals else map[])]
  {
    OrderLists(order, refs, name);
    if KeysFor(refs, name) == {order[0]} {
      assert |order| == 1;
    } else {
      var k :| k in KeysFor(refs, name) && k != order[0];
      assert k in order && |order| > 1;
    }
  }

  /** What arrives first: nothing, or the values of one object under keys that
      are read as CanRead says. */
  ghost predicate IsFirst(c: Cluster, root: Values, s: Schedule, name: string, order: seq<string>, t: Tree) {
    name in c && IsKeyOrder(order, root.refs, name) && order != [] &&
    match s.sent
    case Own => t == NestOnEmpty(order, c[name].vals)
    case Reset => t == map[]
    case Overwritten(keys) => CanRead(RootEntry(root), order, keys) && t == NestOnEmpty(Trim(keys), c[name].vals)
  }

  lemma FirstMessage(c: Cluster, roots: seq<Values>, list: seq<Entry>, root: Values, s: Schedule)
      returns (name: string, order: seq<string>)
    requires IsLeafRoot(c, roots, list, root) && root.refs != map[] && Fits(list, RootEntry(root), s)
    ensures IsFirst(c, root, s, name, order, Struct(list, RootEntry(root), [], s))
  {
    var v, temp := RootEntry(root), FilterBy(list, root.name);
    LeafEntries(c, roots, list, root);
    OnlyFirstArrives(list, v, [], s);
    FitsChild(list, v, s, s.first);
    var e := temp[s.first];
    assert e in temp;
    order, name := s.children[s.first].order, e.ref.name;
    OrderLists(order, root.refs, name);
    assert e.key in order;
    TrimChildPath(v, s.first, if s.sent.Overwritten? then s.sent.keys else order);
    TrimKeeps(order);
  }

  lemma TrimChildPath(v: Entry, i: nat, keys: seq<string>)
    requires v.key == ""
    ensures Trim(ChildPath(v, [], i, keys)) == Trim(keys)
  {
    var blanks := Repeat("", i + 1);
    assert ChildPath(v, [], i, keys) == blanks + keys;
    TrimConcat(blanks, keys);
    TrimBlanks(i + 1);
    assert [] + Trim(keys) == Trim(keys);
  }

  /** What arrives under key k: the values of its object, if it is referenced
      under no other key, and an empty object otherwise. */
  function Arrival(c: Cluster, refs: map<string, string>, k: string): Json
    requires k in refs && refs[k] in c
  {
    Obj(if KeysFor(refs, refs[k]) == {k} then c[refs[k]].vals else map[])
  }

  lemma MergeNewKey(t: Tree, k: string, j: Json)
    requires k !in t
    ensures Merge(t, map[k := j]) == t[k := j]
  {
  }

  /** If the first message is as it was meant, exactly one of the references
      arrives, under one key. */
  lemma OneReferenceArrives(c: Cluster, roots: seq<Values>, list: seq<Entry>, root: Values, s: Schedule)
      returns (k: string)
    requires IsLeafRoot(c, roots, list, root) && root.refs != map[]
    requires Fits(list, RootEntry(root), s) && s.sent.Own?
    ensures k in root.refs && Delivered(list, RootEntry(root), s) == root.vals[k := Arrival(c, root.refs, k)]
  {
    var name, order := FirstMessage(c, roots, list, root, s);
    OrderLists(order, root.refs, name);
    NestOrder(order, root.refs, name, c[name].vals);
    k := order[0];
    assert k in order;
    MergeNewKey(root.vals, k, Arrival(c, root.refs, k));
  }

  /** For every schedule at most one of the objects arrives. */
  lemma AtMostOneArrives(c: Cluster, roots: seq<Values>, list: seq<Entry>, root: Values, s: Schedule)
      returns (path: seq<string>, name: string)
    requires IsLeafRoot(c, roots, list, root) && root.refs != map[] && Fits(list, RootEntry(root), s)
    ensures (exists k :: k in root.refs && root.refs[k] == name) && name in c
    ensures Delivered(list, RootEntry(root), s) == root.vals ||
            Delivered(list, RootEntry(root), s) == Merge(root.vals, NestOnEmpty(path, c[name].vals))
  {
    var order;
    name, order := FirstMessage(c, roots, list, root, s);
    OrderLists(order, root.refs, name);
    assert order[0] in order;
    path := if s.sent.Overwritten? then Trim(s.sent.keys) else order;
    MergeEmpty(root.vals);
  }

  /** A document cannot stand inside itself: values that land at the top level
      are not those that should stand under the key. */
  lemma TopLevelIsNotWanted(c: Cluster, root: Values, k: string)
    requires HasLeaves(c, root) && k in root.refs
    ensures Merge(root.vals, c[root.refs[k]].vals) != Wanted(c, root)
  {
    var vals := c[root.refs[k]].vals;
    if k in vals {
      ChildIsShallower(vals, k);
      assert Merge(root.vals, vals)[k] == vals[k];
      assert vals[k] != Obj(vals);
    }
    assert k in Wanted(c, root) && Wanted(c, root)[k] == Obj(vals);
  }

  /** Of two references, every schedule loses one. */
  lemma NotAllArrive(c: Cluster, roots: seq<Values>, list: seq<Entry>, root: Values, s: Schedule)
    requires IsLeafRoot(c, roots, list, root) && |root.refs| > 1 && Fits(list, RootEntry(root), s)
    ensures Delivered(list, RootEntry(root), s) != Wanted(c, root)
  {
    assert root.refs != map[];
    var name, order := FirstMessage(c, roots, list, root, s);
    FirstIsNotAll(c, root, s, name, order, Struct(list, RootEntry(root), [], s));
  }

  lemma FirstIsNotAll(c: Cluster, root: Values, s: Schedule, name: string, order: seq<string>, t: Tree)
    requires HasLeaves(c, root) && |root.refs| > 1 && IsFirst(c, root, s, name, order, t)
    ensures Merge(root.vals, t) != Wanted(c, root)
  {
    OrderLists(order, root.refs, name);
    assert order[0] in order;
    if s.sent.Overwritten? && Trim(s.sent.keys) == [] {
      TopLevelIsNotWanted(c, root, order[0]);
    } else {
      NestHasOneKey(if s.sent.Overwritten? then Trim(s.sent.keys) else order, c[name].vals);
      OneKeyIsNotAll(c, root, t);
    }
  }

  lemma NestHasOneKey(path: seq<string>, t: Tree)
    requires path != []
    ensures NestOnEmpty(path, t).Keys == {path[0]}
  {
  }

  lemma OneKeyIsNotAll(c: Cluster, root: Values, t: Tree)
    requires HasLeaves(c, root) && |root.refs| > 1 && |t.Keys| <= 1
    ensures Merge(root.vals, t) != Wanted(c, root)
  {
    if root.refs.Keys <= t.Keys {
      SubsetSize(root.refs.Keys, t.Keys);
    }
    var k :| k in root.refs && k !in t;
    assert k in Wanted(c, root) && k !in Merge(root.vals, t);
  }

  lemma {:induction false} SubsetSize(a: set<string>, b: set<string>)
    requires a <= b
    ensures |a| <= |b|
  {
    assert b == a + (b - a);
  }

  /** Every schedule whose first message is as it was meant delivers the
      document root stands for if and only if root has at most one reference. */
  lemma AllArriveIffAtMostOne(c: Cluster, roots: seq<Values>, list: seq<Entry>, root: Values, s: Schedule)
    requires IsLeafRoot(c, roots, list, root) && Fits(list, RootEntry(root), s) && s.sent.Own?
    ensures Delivered(list, RootEntry(root), s) == Wanted(c, root) <==> |root.refs| <= 1
  {
    if root.refs == map[] {
      MergeEmpty(root.vals);
    } else {
      var k := OneReferenceArrives(c, roots, list, root, s);
      OneIsAllIff(c, root, k);
    }
  }

  lemma OneIsAllIff(c: Cluster, root: Values, k: string)
    requires HasLeaves(c, root) && k in root.refs
    ensures root.vals[k := Arrival(c, root.refs, k)] == Wanted(c, root) <==> |root.refs| <= 1
  {
    var rest := root.refs.Keys - {k};
    assert root.refs.Keys == rest + {k};
    if rest == {} {
      assert KeysFor(root.refs, root.refs[k]) == {k};
    } else {
      var j :| j in rest;
      assert j in Wanted(c, root) && j !in root.vals[k := Arrival(c, root.refs, k)];
      assert |root.refs| == |rest| + 1;
    }
  }

  // -------------------------------------------------------------------
  // Every schedule at all
  // -------------------------------------------------------------------

  lemma {:induction false} SomeOrder(keys: set<string>) returns (order: seq<string>)
    ensures multiset(order) == multiset(keys)
    decreases keys
  {
    order := [];
    if keys != {} {
      var k :| k in keys;
      order := SomeOrder(keys - {k});
      assert keys == (keys - {k}) + {k};
      order := order + [k];
    }
  }

  lemma {:induction false} SomeChildren(refs: map<string, string>, temp: seq<Entry>) returns (children: seq<ChildSchedule>)
    ensures |children| == |temp|
    ensures forall i :: 0 <= i < |temp| ==> IsKeyOrder(children[i].order, refs, temp[i].ref.name)
    decreases |temp|
  {
    children := [];
    if temp != [] {
      var n := |temp| - 1;
      children := SomeChildren(refs, temp[..n]);
      var order := SomeOrder(KeysFor(refs, temp[n].ref.name));
      children := children + [ChildSchedule(order, Schedule(0, Own, []))];
    }
  }

  lemma SomeSchedule(c: Cluster, roots: seq<Values>, list: seq<Entry>, root: Values, sent: Sent) returns (s: Schedule)
    requires IsLeafRoot(c, roots, list, root) && root.refs != map[]
    requires sent.Own? || (sent.Reset? && |FilterBy(list, root.name)| > 1)
    ensures Fits(list, RootEntry(root), s) && s.sent == sent
  {
    var temp := FilterBy(list, root.name);
    LeafEntries(c, roots, list, root);
    var children := SomeChildren(root.refs, temp);
    s := Schedule(0, sent, children);
    forall i | 0 <= i < |temp| ensures temp[i].ref.refs == map[] {
      assert temp[i] in temp;
    }
  }

  /** Every schedule delivers the document root stands for if and only if root
      has no reference, or one that was collected once. */
  lemma EveryScheduleDeliversIff(c: Cluster, roots: seq<Values>, list: seq<Entry>, root: Values)
    requires IsLeafRoot(c, roots, list, root)
    ensures (forall s :: Delivers(list, RootEntry(root), s, Wanted(c, root)))
       <==> root.refs == map[] || (|root.refs| == 1 && OneLeadsTo(c, roots, root.name))
  {
    if root.refs == map[] {
      forall s ensures Delivers(list, RootEntry(root), s, Wanted(c, root)) {
        MergeEmpty(root.vals);
      }
    } else if |root.refs| > 1 {
      var s := SomeSchedule(c, roots, list, root, Own);
      NotAllArrive(c, roots, list, root, s);
      assert !Delivers(list, RootEntry(root), s, Wanted(c, root));
    } else {
      OneReferenceDeliversIff(c, roots, list, root);
    }
  }

  lemma OneReferenceDeliversIff(c: Cluster, roots: seq<Values>, list: seq<Entry>, root: Values)
    requires IsLeafRoot(c, roots, list, root) && |root.refs| == 1
    ensures (forall s :: Delivers(list, RootEntry(root), s, Wanted(c, root))) <==> OneLeadsTo(c, roots, root.name)
  {
    var k := OnlyKey(root.refs);
    OnceIffOneLeads(c, roots, list, root, k);
    LeafEntries(c, roots, list, root);
    if OneLeadsTo(c, roots, root.name) {
      forall s ensures Delivers(list, RootEntry(root), s, Wanted(c, root)) {
        if Fits(list, RootEntry(root), s) {
          FitsChild(list, RootEntry(root), s, 0);
          AllArriveIffAtMostOne(c, roots, list, root, s);
        }
      }
    } else {
      var s := SomeSchedule(c, roots, list, root, Reset);
      var name, order := FirstMessage(c, roots, list, root, s);
      MergeEmpty(root.vals);
      assert k in Wanted(c, root) && k !in root.vals;
      assert !Delivers(list, RootEntry(root), s, Wanted(c, root));
    }
  }

  lemma OnlyKey(refs: map<string, string>) returns (k: string)
    requires |refs| == 1
    ensures k in refs && refs == map[k := refs[k]]
  {
    assert refs.Keys != {};
    k :| k in refs.Keys;
    assert |refs.Keys - {k}| == 0;
    assert refs.Keys == {k};
  }

  // -------------------------------------------------------------------
  // Examples
  // -------------------------------------------------------------------

  /** "a" refers to "b" under "j" and to other under "k". */
  function ExampleRoot(other: string): Values {
    Values("a", map[], map["j" := "b", "k" := other])
  }

  function ExampleCluster(other: string): Cluster {
    map["a" := ExampleRoot(other), "b" := Values("b", map["x" := Leaf("1")], map[]),
        "c" := Values("c", map["y" := Leaf("2")], map[])]
  }

  lemma ExampleIsLeafRoot(other: string, list: seq<Entry>)
    requires other == "b" || other == "c"
    requires IsRefList(ExampleCluster(other), [ExampleRoot(other)], list)
    ensures IsLeafRoot(ExampleCluster(other), [ExampleRoot(other)], list, ExampleRoot(other))
    ensures |ExampleRoot(other).refs| > 1 && ExampleRoot(other).refs != map[]
  {
    ExampleHasLeaves(other);
    ExampleIsWellNamed(other);
    OnlyRoot(ExampleCluster(other), ExampleRoot(other), list);
  }

  lemma OnlyRoot(c: Cluster, root: Values, list: seq<Entry>)
    requires WellNamed(c) && "base" !in c && root.name in c && c[root.name] == root
    requires IsRefList(c, [root], list) && HasLeaves(c, root)
    ensures IsLeafRoot(c, [root], list, root)
  {
    assert root in [root];
  }

  lemma ExampleIsWellNamed(other: string)
    ensures WellNamed(ExampleCluster(other)) && "base" !in ExampleCluster(other)
    ensures "a" in ExampleCluster(other) && ExampleCluster(other)["a"] == ExampleRoot(other)
  {
  }

  lemma ExampleHasLeaves(other: string)
    requires other == "b" || other == "c"
    ensures HasLeaves(ExampleCluster(other), ExampleRoot(other))
    ensures |ExampleRoot(other).refs| > 1 && ExampleRoot(other).refs != map[]
  {
    var refs := ExampleRoot(other).refs;
    assert refs.Keys == {"j", "k"} && refs["j"] == "b" && refs["k"] == other;
    assert |refs.Keys| == 2;
  }

  /** Two references to different leaves: every schedule loses one of them. */
  lemma TwoLeavesExample(list: seq<Entry>, s: Schedule)
    requires IsRefList(ExampleCluster("c"), [ExampleRoot("c")], list) && Fits(list, RootEntry(ExampleRoot("c")), s)
    ensures Delivered(list, RootEntry(ExampleRoot("c")), s) != Wanted(ExampleCluster("c"), ExampleRoot("c"))
    ensures
      var doc := Delivered(list, RootEntry(ExampleRoot("c")), s);
      s.sent.Own? ==> doc == map["j" := Obj(map["x" := Leaf("1")])] || doc == map["k" := Obj(map["y" := Leaf("2")])]
  {
    var c, root := ExampleCluster("c"), ExampleRoot("c");
    ExampleIsLeafRoot("c", list);
    NotAllArrive(c, [root], list, root, s);
    if s.sent.Own? {
      var k := OneReferenceArrives(c, [root], list, root, s);
      TwoLeavesArrival(k);
    }
  }

  lemma TwoLeavesArrival(k: string)
    requires k in ExampleRoot("c").refs
    ensures ExampleRoot("c").refs[k] in ExampleCluster("c")
    ensures
      var doc: Tree := map[k := Arrival(ExampleCluster("c"), ExampleRoot("c").refs, k)];
      doc == map["j" := Obj(map["x" := Leaf("1")])] || doc == map["k" := Obj(map["y" := Leaf("2")])]
  {
    var refs := ExampleRoot("c").refs;
    assert KeysFor(refs, "b") == {"j"} && KeysFor(refs, "c") == {"k"};
  }

  /** One leaf under two keys: no schedule delivers it under both, and one whose
      first message is as it was meant loses its values. */
  lemma TwoKeysOneObjectExample(list: seq<Entry>, s: Schedule)
    requires IsRefList(ExampleCluster("b"), [ExampleRoot("b")], list) && Fits(list, RootEntry(ExampleRoot("b")), s)
    ensures Delivered(list, RootEntry(ExampleRoot("b")), s) != Wanted(ExampleCluster("b"), ExampleRoot("b"))
    ensures
      var doc := Delivered(list, RootEntry(ExampleRoot("b")), s);
      s.sent.Own? ==> doc == map["j" := Obj(map[])] || doc == map["k" := Obj(map[])]
  {
    var c, root := ExampleCluster("b"), ExampleRoot("b");
    ExampleIsLeafRoot("b", list);
    NotAllArrive(c, [root], list, root, s);
    if s.sent.Own? {
      var k := OneReferenceArrives(c, [root], list, root, s);
      TwoKeysArrival(k);
    }
  }

  lemma TwoKeysArrival(k: string)
    requires k in ExampleRoot("b").refs
    ensures ExampleRoot("b").refs[k] in ExampleCluster("b")
    ensures
      var doc: Tree := map[k := Arrival(ExampleCluster("b"), ExampleRoot("b").refs, k)];
      doc == map["j" := Obj(map[])] || doc == map["k" := Obj(map[])]
  {
    var refs := ExampleRoot("b").refs;
    assert "j" in KeysFor(refs, "b") && "k" in KeysFor(refs, "b");
  }
}
