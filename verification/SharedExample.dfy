/** Two base objects with a common reference: a value ends up one key too deep
    (internal/values/values.go:151-169). */
module SharedExample {
  import opened JsonTree
  import opened MergeAlgebra
  import opened Nesting
  import opened ValuesGraph
  import opened Collect
  import opened Assemble
  import opened CollectedWalks
  import opened ChainDocument
  import opened SharedChains

  const BASE := Values("a", map[], map["k" := "c"])
  const OTHER := Values("b", map[], map["k" := "c"])
  const COMMON := Values("c", map[], map["k" := "d"])
  const LAST := Values("d", map["x" := Leaf("1")], map[])

  const CLUSTER: Cluster := map["a" := BASE, "b" := OTHER, "c" := COMMON, "d" := LAST]

  function BelowOf(r: Values): seq<Entry> {
    [Entry(LAST, "c", "k"), Entry(COMMON, r.name, "k")]
  }

  function BlockOf(r: Values): seq<Entry> {
    [RootEntry(r)] + BelowOf(r)
  }

  /** What is collected for BASE and OTHER: the reference of COMMON twice. */
  const COLLECTED: seq<Entry> := BlockOf(BASE) + BlockOf(OTHER)

  lemma SharedBlock(r: Values)
    requires r.refs == map["k" := "c"]
    ensures IsBlock(CLUSTER, r, BlockOf(r))
  {
    var walks := [["k", "k"], ["k"]];
    SharedFaithful(r, walks);
    SharedComplete(r, walks);
    UnfoldingIsBlock(CLUSTER, r, BelowOf(r), walks);
  }

  lemma UnfoldingIsBlock(c: Cluster, r: Values, below: seq<Entry>, walks: seq<seq<string>>)
    requires Unfolds(c, r, MAX_DEPTH, r.refs.Keys, below, walks)
    ensures IsBlock(c, r, [RootEntry(r)] + below)
  {
  }

  lemma SharedComplete(r: Values, walks: seq<seq<string>>)
    requires r.refs == map["k" := "c"] && walks == [["k", "k"], ["k"]]
    ensures Complete(CLUSTER, r, MAX_DEPTH, r.refs.Keys, walks)
  {
    forall w | w != [] && IsWalk(CLUSTER, r, w) ensures w in walks {
      SharedWalk(r, w);
    }
  }

  lemma SharedFaithful(r: Values, walks: seq<seq<string>>)
    requires r.refs == map["k" := "c"] && walks == [["k", "k"], ["k"]]
    ensures Faithful(CLUSTER, r, MAX_DEPTH, r.refs.Keys, BelowOf(r), walks)
    ensures ValuesGraph.Distinct(walks) && ExtensionsFirst(walks)
  {
    assert ["k", "k"][1..] == ["k"] && ["k"][1..] == [];
    assert IsWalk(CLUSTER, COMMON, ["k"]) && IsWalk(CLUSTER, r, ["k", "k"]);
  }

  lemma SharedWalk(r: Values, w: seq<string>)
    requires r.refs == map["k" := "c"] && w != [] && IsWalk(CLUSTER, r, w)
    ensures w == ["k"] || w == ["k", "k"]
  {
    assert w[0] == "k" && IsWalk(CLUSTER, COMMON, w[1..]);
    if |w| > 1 {
      assert w[1..][0] == "k" && IsWalk(CLUSTER, LAST, w[1..][1..]);
    }
  }

  lemma TwoBlocks(c: Cluster, r: Values, r': Values, block: seq<Entry>, block': seq<Entry>)
    requires IsBlock(c, r, block) && IsBlock(c, r', block')
    ensures IsRefList(c, [r, r'], block + block')
  {
    assert [] + [r] == [r] && [r] + [r'] == [r, r'] && [] + block == block;
    RefListSnoc(c, [], r, [], block);
    RefListSnoc(c, [r], r', block, block');
  }

  /** The second reference of a chain collected twice: taking the second copy
      moves the last object's values one key deeper. */
  lemma MovesDeeper(es: seq<Entry>, a: Values, b: Values, d: Values, k: string) returns (s: Schedule)
    requires a.refs == map[k := b.name] && b.refs == map[k := d.name] && d.refs == map[] && k != ""
    requires FilterBy(es, a.name) == [Entry(b, a.name, k)]
    requires FilterBy(es, b.name) == [Entry(d, b.name, k), Entry(d, b.name, k)]
    requires a.vals == map[] && b.vals == map[]
    ensures Fits(es, RootEntry(a), s) && Undisturbed(s)
    ensures Delivered(es, RootEntry(a), s) == map[k := Obj(map[k := Obj(map[k := Obj(d.vals)])])]
  {
    var call := TakesSecond(es, a, b, d, k);
    s := Schedule(0, Own, [ChildSchedule([k], call)]);
    OnlyKeyOrder(a.refs, k, b.name);
    assert k in a.refs;
    OneLinkDelivers(es, a, Entry(b, a.name, k), s);
    ThreeDeep(k, d.vals);
  }

  lemma OneLinkDelivers(es: seq<Entry>, a: Values, child: Entry, s: Schedule)
    requires Fits(es, RootEntry(a), s) && FilterBy(es, a.name) == [child] && child.key != ""
    requires a.refs == map[child.key := child.ref.name] && child.key in a.refs && child.ref.refs != map[]
    ensures |s.children| == 1 && Delivered(es, RootEntry(a), s) ==
      Merge(a.vals, Merge(Merge(map[], Struct(es, child, [""], s.children[0].call)), NestOnEmpty([child.key], child.ref.vals)))
  {
    LinkStruct(es, RootEntry(a), child, [], s);
    assert [] + [""] == [""];
    BlanksThenKey(1, child.key);
    assert [] + Repeat("", 1) + [child.key] == [""] + [child.key];
  }

  lemma ThreeDeep(k: string, t: Tree)
    ensures
      var deep: Tree := map[k := Obj(map[k := Obj(map[k := Obj(t)])])];
      Merge(map[], Merge(Merge(map[], deep), NestOnEmpty([k], map[]))) == deep
  {
    var deep: Tree := map[k := Obj(map[k := Obj(map[k := Obj(t)])])];
    MergeEmpty(deep);
    MergeOneKey(k, map[k := Obj(map[k := Obj(t)])], map[]);
    MergeEmpty(map[k := Obj(map[k := Obj(t)])]);
  }

  lemma TakesSecond(es: seq<Entry>, a: Values, b: Values, d: Values, k: string) returns (call: Schedule)
    requires b.refs == map[k := d.name] && d.refs == map[] && k != ""
    requires FilterBy(es, b.name) == [Entry(d, b.name, k), Entry(d, b.name, k)]
    ensures Fits(es, Entry(b, a.name, k), call) && Undisturbed(call)
    ensures Struct(es, Entry(b, a.name, k), [""], call) == map[k := Obj(map[k := Obj(map[k := Obj(d.vals)])])]
  {
    var leaf := ChildSchedule([k], Schedule(0, Own, []));
    var v := Entry(b, a.name, k);
    call := Schedule(1, Own, [leaf, leaf]);
    OnlyKeyOrder(b.refs, k, d.name);
    assert k in b.refs;
    OnlyFirstArrives(es, v, [""], call);
    assert Trim([""]) == [] == Repeat(k, 0) by { assert [""][1..] == []; }
    CopyPath(v, [""], k, 0, 1);
    NestThree(k, d.vals);
  }

  lemma NestThree(k: string, t: Tree)
    ensures NestOnEmpty(Repeat(k, 3), t) == map[k := Obj(map[k := Obj(map[k := Obj(t)])])]
  {
    assert Repeat(k, 3) == [k, k, k] && [k, k, k][2..] == [k];
  }

  lemma SharedFilters()
    ensures FilterBy(COLLECTED, "a") == [Entry(COMMON, "a", "k")]
    ensures FilterBy(COLLECTED, "c") == [Entry(LAST, "c", "k"), Entry(LAST, "c", "k")]
  {
    FilterOne(BlockOf(BASE), "a", 2);
    FilterNone(BlockOf(OTHER), "a");
    FilterConcat(BlockOf(BASE), BlockOf(OTHER), "a");
    FilterOne(BlockOf(BASE), "c", 1);
    FilterOne(BlockOf(OTHER), "c", 1);
    FilterConcat(BlockOf(BASE), BlockOf(OTHER), "c");
  }

  /** Collected for BASE and OTHER, one key, a chain of two references, and no values
      that define the key: a schedule delivers LAST's values for BASE under k, k, k
      in place of k, k. */
  lemma SharedChainExample() returns (s: Schedule)
    ensures IsRefList(CLUSTER, [BASE, OTHER], COLLECTED)
    ensures Fits(COLLECTED, RootEntry(BASE), s) && Undisturbed(s)
    ensures Delivered(COLLECTED, RootEntry(BASE), s) ==
      map["k" := Obj(map["k" := Obj(map["k" := Obj(map["x" := Leaf("1")])])])]
  {
    SharedBlock(BASE);
    SharedBlock(OTHER);
    TwoBlocks(CLUSTER, BASE, OTHER, BlockOf(BASE), BlockOf(OTHER));
    SharedFilters();
    s := MovesDeeper(COLLECTED, BASE, COMMON, LAST, "k");
  }
}
