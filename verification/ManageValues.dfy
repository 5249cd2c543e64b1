/** manageStruct, parse and ManageValues (internal/values/values.go:65-201) as
    methods, with every choice of the Go scheduler left open. */
module ManageValues {
  import opened JsonTree
  import opened MergeAlgebra
  import opened MergeOrder
  import opened Nesting
  import opened ValuesGraph
  import opened Assemble
  import opened CallGraph

  /** The keys of refMap are visited in any order. */
  method GetRefKeyByValue(parents: seq<string>, value: string, refMap: map<string, string>)
      returns (path: seq<string>, ghost order: seq<string>)
    ensures path == parents + order && IsKeyOrder(order, refMap, value)
    ensures parents <= path && multiset(path[|parents|..]) == multiset(KeysFor(refMap, value))
  {
    path, order := parents, [];
    var todo := refMap.Keys;
    while todo != {}
      invariant todo <= refMap.Keys
      invariant path == parents + order
      invariant multiset(order) == multiset(KeysFor(refMap, value) - todo)
      decreases todo
    {
      var k :| k in todo;
      OneKeyLess(refMap, value, todo, k);
      if refMap[k] == value {
        path, order := path + [k], order + [k];
      }
      todo := todo - {k};
    }
    assert KeysFor(refMap, value) - {} == KeysFor(refMap, value);
  }

  lemma OneKeyLess(refMap: map<string, string>, value: string, todo: set<string>, k: string)
    requires k in todo && todo <= refMap.Keys
    ensures multiset(KeysFor(refMap, value) - (todo - {k}))
         == multiset(KeysFor(refMap, value) - todo) + if refMap[k] == value then multiset{k} else multiset{}
  {
    var keys := KeysFor(refMap, value);
    if refMap[k] == value {
      assert keys - (todo - {k}) == (keys - todo) + {k};
    } else {
      assert keys - (todo - {k}) == keys - todo;
    }
  }

  lemma {:induction false} NestedKeepsPrefix(es: seq<Entry>, v: Entry, temp: seq<Entry>, parents: seq<string>,
                                             s: Schedule, s': Schedule, n: nat)
    requires n <= |temp| && n <= |s.children| && s.children <= s'.children
    ensures Nested(es, v, temp, parents, s, n) == Nested(es, v, temp, parents, s', n)
    decreases n
  {
    if n > 0 {
      NestedKeepsPrefix(es, v, temp, parents, s, s', n - 1);
    }
  }

  /** doc is what some schedule makes of the call. */
  ghost predicate CanReturn(es: seq<Entry>, v: Entry, parents: seq<string>, doc: Tree) {
    exists s :: Fits(es, v, s) && doc == Struct(es, v, parents, s)
  }

  method ManageStruct(es: seq<Entry>, v: Entry, parents: seq<string>, ghost depth: nat)
      returns (vals: Tree, ghost s: Schedule)
    requires Halts(es, v, depth)
    ensures Fits(es, v, s) && vals == Struct(es, v, parents, s)
    ensures CanReturn(es, v, parents, vals)
    decreases depth, 2
  {
    vals, s := map[], Schedule(0, Own, []);
    if v.ref.refs != map[] {
      var temp := Filter(es, v.ref.name);
      if temp == [] {
        return;
      }
      var refKeys;
      ghost var children;
      vals, refKeys, children := ManageChildren(es, v, temp, parents, depth);
      var message;
      ghost var first, sent;
      message, first, sent := ReceiveFirst(v, temp, parents, refKeys, children);
      vals := Merge(vals, message);
      s := Schedule(first, sent, children);
      NestedKeepsPrefix(es, v, temp, parents, Schedule(0, Own, children), s, |temp|);
      FitsChildren(es, v, s);
    }
  }

  /** Any child may be the first.  While its goroutine builds and sends its
      document, later rounds of the loop may write to what they share. */
  method ReceiveFirst(v: Entry, temp: seq<Entry>, parents: seq<string>, refKeys: seq<seq<string>>,
                      ghost children: seq<ChildSchedule>)
      returns (message: Tree, ghost first: nat, ghost sent: Sent)
    requires temp != [] && |refKeys| == |children| == |temp|
    requires forall j :: 0 <= j < |temp| ==> refKeys[j] == children[j].order
    ensures first < |temp| && CanSend(v, |temp|, first, children[first].order, sent)
    ensures message == Received(v, temp, parents, Schedule(first, sent, children))
  {
    var i: nat :| i < |temp|;
    first, sent := i, Own;
    message := NestOnEmpty(Trim(parents + Repeat(v.key, i + 1) + refKeys[i]), temp[i].ref.vals);
    if i + 1 < |temp| {
      var keys := ReadKeys(v, refKeys[i]);
      message, sent := NestOnEmpty(Trim(parents + Repeat(v.key, i + 1) + keys), temp[i].ref.vals), Overwritten(keys);
    }
    var disturbed: bool := *;
    if disturbed && |temp| > 1 {
      message, sent := map[], Reset;
    }
  }

  /** The keys of a goroutine whose array later rounds may write to. */
  method ReadKeys(v: Entry, refKey: seq<string>) returns (keys: seq<string>)
    ensures CanRead(v, refKey, keys)
  {
    keys := [];
    for i := 0 to |refKey|
      invariant |keys| == i && (i > 0 ==> keys[0] == refKey[0] || keys[0] == v.key)
    {
      var written: bool := *;
      var key := refKey[i];
      if written && i == 0 {
        key := v.key;
      } else if written {
        key := *;
      }
      keys := keys + [key];
    }
  }

  lemma FitsChildren(es: seq<Entry>, v: Entry, s: Schedule)
    requires s.first < |FilterBy(es, v.ref.name)| && AllFit(es, v, FilterBy(es, v.ref.name), s.children)
    requires |s.children| == |FilterBy(es, v.ref.name)|
    requires CanSend(v, |s.children|, s.first, s.children[s.first].order, s.sent)
    ensures Fits(es, v, s)
  {
    var temp := FilterBy(es, v.ref.name);
    forall i | 0 <= i < |temp|
      ensures IsKeyOrder(s.children[i].order, v.ref.refs, temp[i].ref.name) &&
              (temp[i].ref.refs != map[] ==> Fits(es, temp[i], s.children[i].call))
    {
      assert ChildFits(es, v, temp[i], s.children[i]);
    }
  }

  ghost predicate AllFit(es: seq<Entry>, v: Entry, temp: seq<Entry>, children: seq<ChildSchedule>) {
    |children| <= |temp| && forall j :: 0 <= j < |children| ==> ChildFits(es, v, temp[j], children[j])
  }

  /** vals after the rounds described by children. */
  function Progress(es: seq<Entry>, v: Entry, temp: seq<Entry>, parents: seq<string>, children: seq<ChildSchedule>): Tree
    requires |children| <= |temp|
  {
    Nested(es, v, temp, parents, Schedule(0, Own, children), |children|)
  }

  /** The loop over the children: documents of nested calls are merged, and
      each child's keys are handed to a goroutine. */
  method ManageChildren(es: seq<Entry>, v: Entry, temp: seq<Entry>, parents: seq<string>, ghost depth: nat)
      returns (vals: Tree, refKeys: seq<seq<string>>, ghost children: seq<ChildSchedule>)
    requires v.ref.refs != map[] && Halts(es, v, depth) && temp == FilterBy(es, v.ref.name)
    ensures |children| == |refKeys| == |temp| && AllFit(es, v, temp, children)
    ensures vals == Progress(es, v, temp, parents, children)
    ensures forall j :: 0 <= j < |temp| ==> refKeys[j] == children[j].order
    decreases depth, 1, 0
  {
    FilterMembers(es, v.ref.name);
    vals, refKeys, children := map[], [], [];
    for i := 0 to |temp|
      invariant |children| == |refKeys| == i
      invariant vals == Progress(es, v, temp, parents, children)
      invariant AllFit(es, v, temp, children)
      invariant forall j :: 0 <= j < i ==> refKeys[j] == children[j].order
    {
      var refKey;
      ghost var child;
      vals, refKey, child := ManageChild(es, v, temp, i, parents, vals, children, depth);
      OneMoreChild(es, v, temp, children, child);
      refKeys, children := refKeys + [refKey], children + [child];
    }
  }

  lemma OneMoreChild(es: seq<Entry>, v: Entry, temp: seq<Entry>, children: seq<ChildSchedule>, child: ChildSchedule)
    requires |children| < |temp| && AllFit(es, v, temp, children) && ChildFits(es, v, temp[|children|], child)
    ensures AllFit(es, v, temp, children + [child])
  {
  }

  /** The schedule of one child has the shape of that child. */
  ghost predicate ChildFits(es: seq<Entry>, v: Entry, child: Entry, c: ChildSchedule) {
    IsKeyOrder(c.order, v.ref.refs, child.ref.name) &&
    (child.ref.refs != map[] ==> Fits(es, child, c.call))
  }

  /** One round of the loop over the children. */
  method ManageChild(es: seq<Entry>, v: Entry, temp: seq<Entry>, i: nat, parents: seq<string>, vals: Tree,
                     ghost children: seq<ChildSchedule>, ghost depth: nat)
      returns (merged: Tree, refKey: seq<string>, ghost child: ChildSchedule)
    requires v.ref.refs != map[] && Halts(es, v, depth)
    requires i < |temp| && i == |children| && temp[i] in es && temp[i].parent == v.ref.name
    requires vals == Progress(es, v, temp, parents, children)
    ensures ChildFits(es, v, temp[i], child)
    ensures refKey == child.order
    ensures merged == Progress(es, v, temp, parents, children + [child])
    decreases depth, 0
  {
    var entry, down := temp[i], parents + Repeat(v.key, i + 1);
    merged := vals;
    ghost var call := Schedule(0, Own, []);
    if entry.ref.refs != map[] {
      assert Calls(es, v, entry);
      var sv;
      sv, call := ManageStruct(es, entry, down, depth - 1);
      merged := Merge(vals, sv);
    }
    var path;
    ghost var order;
    path, order := GetRefKeyByValue(down, entry.ref.name, v.ref.refs);
    refKey := path[|down|..];
    child := ChildSchedule(order, call);
    AddRound(es, v, temp, parents, children, child);
  }

  lemma AddRound(es: seq<Entry>, v: Entry, temp: seq<Entry>, parents: seq<string>,
                 children: seq<ChildSchedule>, child: ChildSchedule)
    requires |children| < |temp|
    ensures
      var i := |children|;
      var before := Progress(es, v, temp, parents, children);
      Progress(es, v, temp, parents, children + [child]) ==
        if temp[i].ref.refs == map[] then before
        else Merge(before, Struct(es, temp[i], parents + Repeat(v.key, i + 1), child.call))
  {
    var i, all := |children|, children + [child];
    NestedKeepsPrefix(es, v, temp, parents, Schedule(0, Own, children), Schedule(0, Own, all), i);
    assert all[i] == child;
  }

  /** docs[i] is a document that parse may send for base[i]. */
  ghost predicate CanDeliver(es: seq<Entry>, root: Entry, doc: Tree) {
    exists s :: Fits(es, root, s) && doc == Delivered(es, root, s)
  }

  /** The documents of the base objects, merged in the order of their arrival;
      None is the error for a list without base objects. */
  method ManageValues(es: seq<Entry>)
      returns (result: Option<Tree>, ghost docs: seq<Tree>, ghost arrivals: seq<Tree>)
    requires forall e :: e in es && e.parent == "base" ==> Returns(es, e)
    ensures result == None <==> FilterBy(es, "base") == []
    ensures result.Some? ==>
      |docs| == |FilterBy(es, "base")| &&
      (forall i :: 0 <= i < |docs| ==> CanDeliver(es, FilterBy(es, "base")[i], docs[i])) &&
      multiset(arrivals) == multiset(docs) && result == Some(Fold(arrivals)) &&
      (PairwiseAgree(docs) ==> result == Some(Fold(docs)))
  {
    docs, arrivals := [], [];
    var base := Filter(es, "base");
    if base == [] {
      return None, docs, arrivals;
    }
    FilterMembers(es, "base");
    var pending: seq<Tree> := [];
    for i := 0 to |base|
      invariant |pending| == i
      invariant forall j :: 0 <= j < i ==> CanDeliver(es, base[j], pending[j])
    {
      assert base[i] in es && Returns(es, base[i]);
      ghost var depth: nat :| Halts(es, base[i], depth);
      var sv;
      ghost var s;
      sv, s := ManageStruct(es, base[i], [], depth);
      var values := Merge(base[i].ref.vals, sv);
      assert values == Delivered(es, base[i], s);
      pending := pending + [values];
    }
    docs := pending;
    var merged: Tree;
    merged, arrivals := Receive(pending);
    if PairwiseAgree(docs) {
      FoldPermutes(docs, arrivals);
    }
    result := Some(merged);
  }

  /** merged is the fold of docs in some order. */
  ghost predicate IsFoldOf(docs: seq<Tree>, merged: Tree) {
    exists arrivals :: multiset(arrivals) == multiset(docs) && merged == Fold(arrivals)
  }

  /** The receiving loop: any pending document may arrive next. */
  method Receive(docs: seq<Tree>) returns (merged: Tree, ghost arrivals: seq<Tree>)
    ensures multiset(arrivals) == multiset(docs) && merged == Fold(arrivals)
    ensures IsFoldOf(docs, merged)
  {
    merged, arrivals := map[], [];
    var pending := docs;
    while pending != []
      invariant multiset(arrivals) + multiset(pending) == multiset(docs)
      invariant merged == Fold(arrivals)
      decreases |pending|
    {
      var i: nat :| i < |pending|;
      WithoutMultiset(pending, i);
      FoldSnoc(arrivals, pending[i]);
      merged, arrivals := Merge(pending[i], merged), arrivals + [pending[i]];
      pending := Without(pending, i);
    }
  }
}
