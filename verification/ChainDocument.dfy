/** The document delivered for a chain of references, for every schedule. */
module ChainDocument {
  import opened JsonTree
  import opened MergeAlgebra
  import opened MergeOrder
  import opened Nesting
  import opened ValuesGraph
  import opened Assemble

  function LinkEntry(objs: seq<Values>, keys: seq<string>, i: nat): Entry
    requires i < |keys| && |objs| == |keys| + 1
  {
    Entry(objs[i + 1], objs[i].name, keys[i])
  }

  /** objs[i] refers to objs[i + 1] under keys[i] and to nothing else, and that
      is what was collected for it, once or more often. */
  ghost predicate IsLink(es: seq<Entry>, objs: seq<Values>, keys: seq<string>, i: nat)
    requires i < |keys| && |objs| == |keys| + 1
  {
    objs[i].refs == map[keys[i] := objs[i + 1].name] && keys[i] in objs[i].refs &&
    FilterBy(es, objs[i].name) != [] &&
    forall e :: e in FilterBy(es, objs[i].name) ==> e == LinkEntry(objs, keys, i)
  }

  ghost predicate IsOnce(es: seq<Entry>, o: Values) {
    |FilterBy(es, o.name)| == 1
  }

  /** A chain of such links; nothing is collected below the last object. */
  ghost predicate IsLinked(es: seq<Entry>, objs: seq<Values>, keys: seq<string>) {
    |objs| == |keys| + 1 &&
    (forall i :: 0 <= i < |keys| ==> IsLink(es, objs, keys, i)) &&
    (objs[|keys|].refs == map[] || FilterBy(es, objs[|keys|].name) == [])
  }

  /** Below the first object every reference was collected once. */
  ghost predicate IsChain(es: seq<Entry>, objs: seq<Values>, keys: seq<string>) {
    IsLinked(es, objs, keys) && forall i :: 0 < i < |keys| ==> IsOnce(es, objs[i])
  }

  /** No object's own values define the key of its reference. */
  ghost predicate KeysUnused(objs: seq<Values>, keys: seq<string>) {
    |objs| == |keys| + 1 && forall i :: 0 <= i < |keys| ==> keys[i] !in objs[i].vals
  }

  /** The document a chain stands for: each object's values, with its key
      mapped to the next object's document. */
  function Ideal(objs: seq<Values>, keys: seq<string>, i: nat): (t: Tree)
    requires |objs| == |keys| + 1 && i <= |keys|
    decreases |keys| - i
  {
    if i == |keys| then objs[i].vals
    else objs[i].vals[keys[i] := Obj(Ideal(objs, keys, i + 1))]
  }

  /** What the objects from position d on contribute. */
  function Below(objs: seq<Values>, keys: seq<string>, d: nat): Tree
    requires |objs| == |keys| + 1 && 1 <= d <= |keys|
    decreases |keys| - d
  {
    Merge(if d == |keys| then map[] else Below(objs, keys, d + 1), NestOnEmpty(keys[..d], objs[d].vals))
  }

  lemma OnlyOrder(order: seq<string>, refs: map<string, string>, k: string, name: string)
    requires refs == map[k := name] && IsKeyOrder(order, refs, name)
    ensures order == [k]
  {
    var keys := KeysFor(refs, name);
    assert keys == {k};
    assert |order| == |multiset(order)| == 1;
    assert order[0] in multiset(order);
  }

  lemma LinkIsOnly(es: seq<Entry>, objs: seq<Values>, keys: seq<string>, i: nat)
    requires i < |keys| && |objs| == |keys| + 1 && IsLink(es, objs, keys, i) && IsOnce(es, objs[i])
    ensures FilterBy(es, objs[i].name) == [LinkEntry(objs, keys, i)]
  {
    assert FilterBy(es, objs[i].name)[0] in FilterBy(es, objs[i].name);
  }

  /** What the objects behind position d contribute. */
  function Rest(objs: seq<Values>, keys: seq<string>, d: nat): Tree
    requires |objs| == |keys| + 1 && d <= |keys|
  {
    if d == |keys| then map[] else Below(objs, keys, d + 1)
  }

  lemma {:induction false} ChainStruct(es: seq<Entry>, objs: seq<Values>, keys: seq<string>,
                                       i: nat, v: Entry, parents: seq<string>, s: Schedule)
    requires IsChain(es, objs, keys) && 0 < i <= |keys| && "" !in keys
    requires v.ref == objs[i] && Trim(parents + [v.key]) == keys[..i]
    requires Fits(es, v, s)
    ensures Struct(es, v, parents, s) == Rest(objs, keys, i)
    decreases |keys| - i
  {
    if i < |keys| {
      var child := LinkEntry(objs, keys, i);
      var down := parents + [v.key];
      assert IsLink(es, objs, keys, i) && IsOnce(es, objs[i]);
      LinkIsOnly(es, objs, keys, i);
      assert i + 1 < |keys| ==> IsLink(es, objs, keys, i + 1);
      LinkStruct(es, v, child, parents, s);
      OneKeyDeeper(down, keys, i);
      if child.ref.refs != map[] {
        ChainStruct(es, objs, keys, i + 1, child, down, s.children[0].call);
        MergeEmpty(Struct(es, child, down, s.children[0].call));
      }
    }
  }

  lemma OneKeyDeeper(down: seq<string>, keys: seq<string>, i: nat)
    requires i < |keys| && "" !in keys && Trim(down) == keys[..i]
    ensures Trim(down + [keys[i]]) == keys[..i + 1]
  {
    TrimConcat(down, [keys[i]]);
    TrimKeeps([keys[i]]);
  }

  /** One call of manageStruct whose object has a single reference. */
  lemma LinkStruct(es: seq<Entry>, v: Entry, child: Entry, parents: seq<string>, s: Schedule)
    requires Fits(es, v, s) && FilterBy(es, v.ref.name) == [child]
    requires v.ref.refs == map[child.key := child.ref.name] && child.key in v.ref.refs
    ensures |s.children| == 1 && (child.ref.refs != map[] ==> Fits(es, child, s.children[0].call))
    ensures
      var down := parents + [v.key];
      var nested := if child.ref.refs == map[] then map[]
                    else Merge(map[], Struct(es, child, down, s.children[0].call));
      Struct(es, v, parents, s) == Merge(nested, NestOnEmpty(Trim(down + [child.key]), child.ref.vals))
  {
    FitsChild(es, v, s, 0);
    OnlyOrder(s.children[0].order, v.ref.refs, child.key, child.ref.name);
    assert Repeat(v.key, 1) == [v.key];
    assert Nested(es, v, [child], parents, s, 0) == map[];
    assert ChildPath(v, parents, 0, [child.key]) == parents + [v.key] + [child.key];
  }

  /** A base object whose reference was collected more than once: the copies of
      the first link contribute the same. */
  lemma {:induction false} CopiesNested(es: seq<Entry>, objs: seq<Values>, keys: seq<string>, temp: seq<Entry>,
                                        s: Schedule, n: nat)
    requires IsChain(es, objs, keys) && keys != [] && "" !in keys && temp == FilterBy(es, objs[0].name)
    requires Fits(es, Entry(objs[0], "base", ""), s) && n <= |temp| == |s.children|
    ensures Nested(es, Entry(objs[0], "base", ""), temp, [], s, n) == if n == 0 then map[] else Rest(objs, keys, 1)
    decreases n
  {
    if n > 0 {
      CopiesNested(es, objs, keys, temp, s, n - 1);
      CopyContributes(es, objs, keys, temp, s, n);
      OneMoreCopy(es, Entry(objs[0], "base", ""), temp, s, n, Rest(objs, keys, 1));
    }
  }

  lemma OneMoreCopy(es: seq<Entry>, v: Entry, temp: seq<Entry>, s: Schedule, n: nat, r: Tree)
    requires 0 < n <= |temp| && n <= |s.children|
    requires Nested(es, v, temp, [], s, n - 1) == if n == 1 then map[] else r
    requires if temp[n - 1].ref.refs == map[] then r == map[]
             else Struct(es, temp[n - 1], [] + Repeat(v.key, n), s.children[n - 1].call) == r
    ensures Nested(es, v, temp, [], s, n) == r
  {
    MergeEmpty(r);
    MergeIdempotent(r);
  }

  lemma CopyContributes(es: seq<Entry>, objs: seq<Values>, keys: seq<string>, temp: seq<Entry>, s: Schedule, n: nat)
    requires IsChain(es, objs, keys) && keys != [] && "" !in keys && temp == FilterBy(es, objs[0].name)
    requires Fits(es, Entry(objs[0], "base", ""), s) && 0 < n <= |temp| == |s.children|
    ensures if temp[n - 1].ref.refs == map[] then Rest(objs, keys, 1) == map[]
            else Struct(es, temp[n - 1], [] + Repeat("", n), s.children[n - 1].call) == Rest(objs, keys, 1)
  {
    assert IsLink(es, objs, keys, 0);
    assert temp[n - 1] in temp;
    FitsChild(es, Entry(objs[0], "base", ""), s, n - 1);
    if temp[n - 1].ref.refs != map[] {
      BlanksThenKey(n, keys[0]);
      assert [keys[0]] == keys[..1];
      ChainStruct(es, objs, keys, 1, LinkEntry(objs, keys, 0), [] + Repeat("", n), s.children[n - 1].call);
    } else {
      assert |keys| > 1 ==> IsLink(es, objs, keys, 1);
    }
  }

  lemma {:induction false} TrimBlanks(n: nat)
    ensures Trim(Repeat("", n)) == []
  {
    if n > 0 {
      assert Repeat("", n)[1..] == Repeat("", n - 1);
      TrimBlanks(n - 1);
    }
  }

  lemma BlanksThenKey(n: nat, k: string)
    requires k != ""
    ensures Trim([] + Repeat("", n) + [k]) == [k]
  {
    assert [] + Repeat("", n) == Repeat("", n);
    TrimConcat(Repeat("", n), [k]);
    TrimBlanks(n);
    TrimKeeps([k]);
  }

  /** The call for the base object of a chain. */
  lemma RootStruct(es: seq<Entry>, objs: seq<Values>, keys: seq<string>, s: Schedule)
    requires IsChain(es, objs, keys) && "" !in keys && keys != []
    requires Fits(es, Entry(objs[0], "base", ""), s)
    ensures
      var v, temp := Entry(objs[0], "base", ""), FilterBy(es, objs[0].name);
      s.first < |temp| == |s.children| &&
      CanSend(v, |temp|, s.first, [keys[0]], s.sent) &&
      Struct(es, v, [], s) == Merge(Rest(objs, keys, 1), Received(v, temp, [], s)) &&
      (s.sent.Own? ==> Received(v, temp, [], s) == NestOnEmpty(keys[..1], objs[1].vals))
  {
    var v, temp := Entry(objs[0], "base", ""), FilterBy(es, objs[0].name);
    assert IsLink(es, objs, keys, 0);
    FitsChild(es, v, s, 0);
    FitsChild(es, v, s, s.first);
    assert temp[s.first] in temp;
    OnlyOrder(s.children[s.first].order, objs[0].refs, keys[0], objs[1].name);
    CopiesNested(es, objs, keys, temp, s, |temp|);
    BlanksThenKey(s.first + 1, keys[0]);
    assert keys[..1] == [keys[0]];
  }

  /** The message for the base object is as it was meant; it always is if the
      base object's reference was collected once. */
  ghost predicate FirstUndisturbed(es: seq<Entry>, objs: seq<Values>, s: Schedule) {
    objs != [] && (s.sent.Own? || |FilterBy(es, objs[0].name)| <= 1)
  }

  /** The delivered document, whatever the keys are. */
  lemma ChainDelivered(es: seq<Entry>, objs: seq<Values>, keys: seq<string>, s: Schedule)
    requires IsChain(es, objs, keys) && "" !in keys
    requires Fits(es, Entry(objs[0], "base", ""), s) && FirstUndisturbed(es, objs, s)
    ensures Delivered(es, Entry(objs[0], "base", ""), s) == Merge(objs[0].vals, Rest(objs, keys, 0))
  {
    if keys != [] {
      RootStruct(es, objs, keys, s);
    }
  }

  // -------------------------------------------------------------------
  // Equal pairs: the delivered document is the ideal one
  // -------------------------------------------------------------------

  lemma MergeDisjoint(a: Tree, b: Tree)
    requires a.Keys !! b.Keys
    ensures Merge(a, b) == a + b && Merge(b, a) == a + b
  {
  }

  lemma {:induction false} MergeUnderPath(path: seq<string>, a: Tree, b: Tree)
    requires a.Keys !! b.Keys
    ensures Merge(Nest(path, a), Nest(path, b)) == Nest(path, a + b)
    ensures Merge(Nest(path, b), Nest(path, a)) == Nest(path, a + b)
    decreases |path|
  {
    if path == [] {
      MergeDisjoint(a, b);
    } else {
      var k, rest := path[0], path[1..];
      MergeUnderPath(rest, a, b);
      MergeOneKey(k, Nest(rest, a), Nest(rest, b));
      MergeOneKey(k, Nest(rest, b), Nest(rest, a));
    }
  }

  lemma MergeOneKey(k: string, x: Tree, y: Tree)
    ensures Merge(map[k := Obj(x)], map[k := Obj(y)]) == map[k := Obj(Merge(y, x))]
  {
  }

  lemma {:induction false} NestSnoc(path: seq<string>, k: string, t: Tree)
    ensures Nest(path + [k], t) == Nest(path, map[k := Obj(t)])
    decreases |path|
  {
    if path == [] {
      assert ([] + [k])[1..] == [];
    } else {
      assert (path + [k])[1..] == path[1..] + [k];
      NestSnoc(path[1..], k, t);
    }
  }

  lemma PairsOfPrefix(keys: seq<string>, d: nat)
    requires PairsEqual(keys) && d <= |keys|
    ensures PairsEqual(keys[..d])
  {
  }

  lemma {:induction false} BelowIsIdeal(objs: seq<Values>, keys: seq<string>, d: nat)
    requires KeysUnused(objs, keys) && PairsEqual(keys) && 1 <= d <= |keys|
    ensures Below(objs, keys, d) == Nest(keys[..d], Ideal(objs, keys, d))
    decreases |keys| - d
  {
    PairsOfPrefix(keys, d);
    EqualPairsNest(keys[..d], objs[d].vals);
    if d == |keys| {
      MergeEmpty(Nest(keys[..d], objs[d].vals));
    } else {
      BelowIsIdeal(objs, keys, d + 1);
      assert keys[..d + 1] == keys[..d] + [keys[d]];
      MergeNextDocument(keys[..d], keys[d], Ideal(objs, keys, d + 1), objs[d].vals);
    }
  }

  lemma MergeNextDocument(path: seq<string>, k: string, next: Tree, vals: Tree)
    requires k !in vals
    ensures Merge(Nest(path + [k], next), Nest(path, vals)) == Nest(path, vals[k := Obj(next)])
  {
    NestSnoc(path, k, next);
    MergeUnderPath(path, map[k := Obj(next)], vals);
    assert map[k := Obj(next)] + vals == vals[k := Obj(next)];
  }

  // -------------------------------------------------------------------
  // An unequal pair: the second key of the pair is missing
  // -------------------------------------------------------------------

  /** t shows nothing at path and has no leaf on the way to it. */
  ghost predicate Misses(t: Tree, path: seq<string>) {
    path != [] && Clear(t, path) && HeadAt(t, path) == Absent
  }

  lemma MergeMisses(a: Tree, b: Tree, path: seq<string>)
    requires Misses(a, path) && Misses(b, path)
    ensures Misses(Merge(a, b), path)
  {
    MergeClear(a, b, path);
    MergeHead(a, b, path);
  }

  lemma {:induction false} NestMisses(short: seq<string>, t: Tree, path: seq<string>)
    requires |short| < |path| && short == path[..|short|] && path[|short|] !in t
    ensures Misses(Nest(short, t), path)
    decreases |short|
  {
    if short != [] {
      assert path[1..][..|short| - 1] == short[1..];
      NestMisses(short[1..], t, path[1..]);
      HeadBelow(Nest(short, t), path);
    }
  }

  lemma {:induction false} SplitOfPrefix(keys: seq<string>, d: nat)
    requires !PairsEqual(keys) && d <= |keys|
    ensures d >= FirstSplit(keys) + 2 ==> !PairsEqual(keys[..d]) && FirstSplit(keys[..d]) == FirstSplit(keys)
    ensures d < FirstSplit(keys) + 2 ==> PairsEqual(keys[..d])
  {
    var n := FirstSplit(keys);
    if d >= n + 2 {
      var m := n / 2;
      assert keys[..d][2 * m] != keys[..d][2 * m + 1];
      SplitIsFirst(keys[..d], n);
    } else {
      forall i | 0 <= i && 2 * i + 1 < d ensures keys[..d][2 * i] == keys[..d][2 * i + 1] {
        assert keys[..n][2 * i] == keys[..n][2 * i + 1];
      }
    }
  }

  lemma SplitIsFirst(keys: seq<string>, n: nat)
    requires n % 2 == 0 && n + 1 < |keys| && keys[n] != keys[n + 1] && PairsEqual(keys[..n])
    requires !PairsEqual(keys)
    ensures FirstSplit(keys) == n
  {
    OneSplit(keys, n, FirstSplit(keys));
    OneSplit(keys, FirstSplit(keys), n);
  }

  lemma OneSplit(keys: seq<string>, n: nat, f: nat)
    requires n <= |keys| && PairsEqual(keys[..n]) && f % 2 == 0 && f + 1 < |keys| && keys[f] != keys[f + 1]
    requires n % 2 == 0
    ensures f >= n
  {
    if f < n {
      EvenPair(keys, n, f);
    }
  }

  lemma EvenPair(keys: seq<string>, n: nat, i: nat)
    requires n <= |keys| && PairsEqual(keys[..n]) && i % 2 == 0 && i + 1 < n
    ensures keys[i] == keys[i + 1]
  {
    var half := i / 2;
    assert keys[..n][2 * half] == keys[..n][2 * half + 1];
  }

  lemma {:induction false} BelowMisses(objs: seq<Values>, keys: seq<string>, d: nat)
    requires KeysUnused(objs, keys) && !PairsEqual(keys) && 1 <= d <= |keys|
    ensures Misses(Below(objs, keys, d), keys[..FirstSplit(keys) + 2])
    decreases |keys| - d
  {
    var path := keys[..FirstSplit(keys) + 2];
    ContributionMisses(keys, d, objs[d].vals);
    if d == |keys| {
      NestMisses([], map[], path);
      MergeMisses(map[], NestOnEmpty(keys[..d], objs[d].vals), path);
    } else {
      BelowMisses(objs, keys, d + 1);
      MergeMisses(Below(objs, keys, d + 1), NestOnEmpty(keys[..d], objs[d].vals), path);
    }
  }

  lemma ContributionMisses(keys: seq<string>, d: nat, vals: Tree)
    requires !PairsEqual(keys) && d <= |keys| && (d < |keys| ==> keys[d] !in vals)
    ensures Misses(NestOnEmpty(keys[..d], vals), keys[..FirstSplit(keys) + 2])
  {
    var n := FirstSplit(keys);
    var path := keys[..n + 2];
    SplitOfPrefix(keys, d);
    if d >= n + 2 {
      UnequalPairDrops(keys[..d], vals);
      assert keys[..d][..n + 1] == path[..n + 1];
      NestMisses(path[..n + 1], map[], path);
    } else {
      EqualPairsNest(keys[..d], vals);
      assert keys[..d] == path[..d];
      NestMisses(path[..d], vals, path);
    }
  }

  lemma {:induction false} IdealReaches(objs: seq<Values>, keys: seq<string>, i: nat, n: nat)
    requires |objs| == |keys| + 1 && i < n <= |keys|
    ensures HeadAt(Ideal(objs, keys, i), keys[i..n]) == Object
    decreases n - i
  {
    if i + 1 < n {
      IdealReaches(objs, keys, i + 1, n);
      assert keys[i..n][1..] == keys[i + 1..n];
      HeadBelow(Ideal(objs, keys, i), keys[i..n]);
    }
  }

  lemma EqualPairsIdeal(objs: seq<Values>, keys: seq<string>)
    requires KeysUnused(objs, keys) && keys != [] && PairsEqual(keys)
    ensures Merge(objs[0].vals, Below(objs, keys, 1)) == Ideal(objs, keys, 0)
  {
    BelowIsIdeal(objs, keys, 1);
    var next: Tree := map[keys[0] := Obj(Ideal(objs, keys, 1))];
    assert keys[..1][1..] == [];
    assert Nest(keys[..1], Ideal(objs, keys, 1)) == next;
    MergeDisjoint(objs[0].vals, next);
  }

  lemma UnequalPairNotIdeal(objs: seq<Values>, keys: seq<string>)
    requires KeysUnused(objs, keys) && !PairsEqual(keys)
    ensures keys != [] && Merge(objs[0].vals, Below(objs, keys, 1)) != Ideal(objs, keys, 0)
  {
    var n := FirstSplit(keys) + 2;
    BelowMisses(objs, keys, 1);
    NestMisses([], objs[0].vals, keys[..n]);
    MergeMisses(objs[0].vals, Below(objs, keys, 1), keys[..n]);
    assert keys[0..n] == keys[..n];
    IdealReaches(objs, keys, 0, n);
  }

  /** The delivered document of a chain is the one the chain stands for if and
      only if keys 2i and 2i + 1 are equal for every complete pair; a chain
      whose references all use one key is the common case. */
  lemma ChainIsIdealIffPairsEqual(es: seq<Entry>, objs: seq<Values>, keys: seq<string>, s: Schedule)
    requires IsChain(es, objs, keys) && "" !in keys && KeysUnused(objs, keys)
    requires Fits(es, Entry(objs[0], "base", ""), s) && FirstUndisturbed(es, objs, s)
    ensures Delivered(es, Entry(objs[0], "base", ""), s) == Ideal(objs, keys, 0) <==> PairsEqual(keys)
  {
    ChainDelivered(es, objs, keys, s);
    if keys == [] {
      MergeEmpty(objs[0].vals);
    } else if PairsEqual(keys) {
      EqualPairsIdeal(objs, keys);
    } else {
      UnequalPairNotIdeal(objs, keys);
    }
  }

  lemma OneKeyChainIsIdeal(es: seq<Entry>, objs: seq<Values>, keys: seq<string>, k: string, s: Schedule)
    requires IsChain(es, objs, keys) && k != "" && (forall x :: x in keys ==> x == k)
    requires forall i :: 0 <= i < |keys| ==> k !in objs[i].vals
    requires Fits(es, Entry(objs[0], "base", ""), s) && FirstUndisturbed(es, objs, s)
    ensures Delivered(es, Entry(objs[0], "base", ""), s) == Ideal(objs, keys, 0)
  {
    forall i | 0 <= i < |keys| ensures keys[i] == k {
      assert keys[i] in keys;
    }
    ChainIsIdealIffPairsEqual(es, objs, keys, s);
  }
}
