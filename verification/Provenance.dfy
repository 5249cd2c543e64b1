/** Whatever the graph and the schedule, a delivered document holds nothing but
    leaves of the base object and of collected objects. */
module Provenance {
  import opened JsonTree
  import opened MergeAlgebra
  import opened MergeOrder
  import opened Nesting
  import opened ValuesGraph
  import opened Assemble

  /** The leaf text stands somewhere in t. */
  ghost predicate Holds(t: Tree, text: string)
    decreases Rank(t)
  {
    exists k :: k in t && HoldsAt(t, k, text)
  }

  ghost predicate HoldsAt(t: Tree, k: string, text: string)
    requires k in t
    decreases Rank(t), 0
  {
    match t[k]
    case Leaf(x) => x == text
    case Obj(m) => ChildIsShallower(t, k); Holds(m, text)
  }

  ghost predicate StandsAt(t: Tree, text: string, path: seq<string>) {
    path != [] && Lookup(t, path) == Some(Leaf(text))
  }

  /** That is, under some key path. */
  lemma HoldsIffLookup(t: Tree, text: string)
    ensures Holds(t, text) <==> exists path :: StandsAt(t, text, path)
  {
    if Holds(t, text) {
      var path := PathOfLeaf(t, text);
    }
    if path :| StandsAt(t, text, path) {
      LeafIsHeld(t, text, path);
    }
  }

  lemma {:induction false} PathOfLeaf(t: Tree, text: string) returns (path: seq<string>)
    requires Holds(t, text)
    ensures StandsAt(t, text, path)
    decreases Rank(t)
  {
    var k :| k in t && HoldsAt(t, k, text);
    path := [k];
    if t[k].Obj? {
      ChildIsShallower(t, k);
      var rest := PathOfLeaf(t[k].m, text);
      path := [k] + rest;
      assert path[1..] == rest;
    }
  }

  lemma {:induction false} LeafIsHeld(t: Tree, text: string, path: seq<string>)
    requires StandsAt(t, text, path)
    ensures Holds(t, text)
    decreases |path|
  {
    if |path| > 1 {
      LeafIsHeld(t[path[0]].m, text, path[1..]);
    }
    assert HoldsAt(t, path[0], text);
  }

  lemma {:induction false} MergeHolds(a: Tree, b: Tree, text: string)
    requires Holds(Merge(a, b), text)
    ensures Holds(a, text) || Holds(b, text)
    decreases Rank(a) + Rank(b)
  {
    var m := Merge(a, b);
    var k :| k in m && HoldsAt(m, k, text);
    if k in a && k in b && a[k].Obj? && b[k].Obj? {
      ChildIsShallower(a, k);
      ChildIsShallower(b, k);
      MergeHolds(b[k].m, a[k].m, text);
      assert HoldsAt(a, k, text) || HoldsAt(b, k, text);
    } else if k in a {
      assert m[k] == a[k];
      assert HoldsAt(a, k, text);
    } else {
      assert m[k] == b[k];
      assert HoldsAt(b, k, text);
    }
  }

  lemma {:induction false} NestHolds(keys: seq<string>, t: Tree, text: string)
    requires Holds(NestOnEmpty(keys, t), text)
    ensures Holds(t, text)
    decreases |keys|
  {
    if keys == [] {
    } else if |keys| == 1 {
      HoldsOne(keys[0], t, text);
    } else if keys[0] != keys[1] {
      HoldsOne(keys[0], map[], text);
    } else {
      var below := NestOnEmpty(keys[2..], t);
      HoldsOne(keys[0], map[keys[1] := Obj(below)], text);
      HoldsOne(keys[1], below, text);
      NestHolds(keys[2..], t, text);
    }
  }

  lemma HoldsOne(k: string, t: Tree, text: string)
    ensures Holds(map[k := Obj(t)], text) ==> Holds(t, text)
  {
    var r: Tree := map[k := Obj(t)];
    if Holds(r, text) {
      var k' :| k' in r && HoldsAt(r, k', text);
      assert r[k'] == Obj(t);
    }
  }

  lemma ReceivedHolds(v: Entry, temp: seq<Entry>, parents: seq<string>, s: Schedule, text: string)
    requires s.first < |temp| == |s.children| && Holds(Received(v, temp, parents, s), text)
    ensures Holds(temp[s.first].ref.vals, text)
  {
    if !s.sent.Reset? {
      var keys := if s.sent.Overwritten? then s.sent.keys else s.children[s.first].order;
      NestHolds(Trim(ChildPath(v, parents, s.first, keys)), temp[s.first].ref.vals, text);
    }
  }

  /** Some collected object holds the leaf. */
  ghost predicate Collected(es: seq<Entry>, text: string) {
    exists e :: e in es && Holds(e.ref.vals, text)
  }

  lemma {:induction false} StructHolds(es: seq<Entry>, v: Entry, parents: seq<string>, s: Schedule, text: string)
    requires Holds(Struct(es, v, parents, s), text)
    ensures Collected(es, text)
    decreases s, 1, 0
  {
    var temp := FilterBy(es, v.ref.name);
    if v.ref.refs != map[] && s.first < |temp| == |s.children| {
      var received := Received(v, temp, parents, s);
      MergeHolds(Nested(es, v, temp, parents, s, |temp|), received, text);
      if Holds(received, text) {
        ReceivedHolds(v, temp, parents, s, text);
        FilterMembers(es, v.ref.name);
        assert temp[s.first] in es;
      } else {
        NestedHolds(es, v, temp, parents, s, |temp|, text);
      }
    }
  }

  lemma {:induction false} NestedHolds(es: seq<Entry>, v: Entry, temp: seq<Entry>, parents: seq<string>, s: Schedule,
                                       n: nat, text: string)
    requires n <= |temp| && n <= |s.children|
    requires Holds(Nested(es, v, temp, parents, s, n), text)
    ensures Collected(es, text)
    decreases s, 0, n
  {
    if n > 0 {
      var before := Nested(es, v, temp, parents, s, n - 1);
      var child := temp[n - 1];
      if Holds(before, text) {
        NestedHolds(es, v, temp, parents, s, n - 1, text);
      } else if child.ref.refs != map[] {
        var down := parents + Repeat(v.key, n);
        MergeHolds(before, Struct(es, child, down, s.children[n - 1].call), text);
        StructHolds(es, child, down, s.children[n - 1].call, text);
      }
    }
  }

  /** No schedule invents a value. */
  lemma DeliveredHolds(es: seq<Entry>, root: Entry, s: Schedule, text: string)
    requires root in es && Holds(Delivered(es, root, s), text)
    ensures Collected(es, text)
  {
    MergeHolds(root.ref.vals, Struct(es, root, [], s), text);
    if !Holds(root.ref.vals, text) {
      StructHolds(es, root, [], s, text);
    }
  }

  /** Nor does merging what several base objects deliver, in any order. */
  lemma {:induction false} FoldHolds(docs: seq<Tree>, text: string)
    requires Holds(Fold(docs), text)
    ensures exists d :: d in docs && Holds(d, text)
  {
    if docs != [] {
      var n := |docs| - 1;
      MergeHolds(docs[n], Fold(docs[..n]), text);
      if !Holds(docs[n], text) {
        FoldHolds(docs[..n], text);
      }
    }
  }
}
