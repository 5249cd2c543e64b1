/** Chains of references among several base objects: the list that is assembled
    holds a reference once for each walk that leads to it (collect.go:41-58,
    values.go:138-153), and a reference it holds twice moves values. */
module SharedChains {
  import opened JsonTree
  import opened MergeAlgebra
  import opened MergeOrder
  import opened Nesting
  import opened ValuesGraph
  import opened Collect
  import opened CallGraph
  import opened Cycles
  import opened Assemble
  import opened CollectedWalks
  import opened ChainDocument
  import opened ChainEndToEnd

  /** A chain of at most 11 references, all under k, that ends at an object
      without references; no object's own values define k. */
  ghost predicate IsOneKeyChain(c: Cluster, objs: seq<Values>, k: string) {
    0 < |objs| <= MAX_DEPTH + 1 && k != "" &&
    (forall i :: 0 <= i < |objs| - 1 ==> ClusterLink(c, objs, ChainKeys(objs, k), i)) &&
    objs[|objs| - 1].refs == map[] &&
    forall i :: 0 <= i < |objs| ==> k !in objs[i].vals
  }

  function ChainKeys(objs: seq<Values>, k: string): (keys: seq<string>)
    requires objs != []
    ensures |keys| == |objs| - 1 && forall i :: 0 <= i < |keys| ==> keys[i] == k
    ensures k != "" ==> "" !in keys
  {
    Repeat(k, |objs| - 1)
  }

  function IdealOf(objs: seq<Values>, k: string): Tree
    requires objs != []
  {
    Ideal(objs, ChainKeys(objs, k), 0)
  }

  // -------------------------------------------------------------------
  // Every link is collected
  // -------------------------------------------------------------------

  lemma {:induction false} ChainIsNear(c: Cluster, roots: seq<Values>, objs: seq<Values>, k: string, i: nat)
    requires IsOneKeyChain(c, objs, k) && objs[0] in roots && i < |objs|
    ensures IsWalk(c, objs[0], Repeat(k, i)) && EndOf(c, objs[0], Repeat(k, i)) == objs[i]
    ensures i < MAX_DEPTH ==> Near(c, roots, objs[i].name)
    decreases i
  {
    if i > 0 {
      ChainIsNear(c, roots, objs, k, i - 1);
      assert ClusterLink(c, objs, ChainKeys(objs, k), i - 1);
      WalkSnoc(c, objs[0], Repeat(k, i - 1), k);
      assert Repeat(k, i - 1) + [k] == Repeat(k, i);
    }
  }

  lemma ChainIsLinked(c: Cluster, roots: seq<Values>, list: seq<Entry>, objs: seq<Values>, k: string)
    requires IsCollection(c, roots, list) && IsOneKeyChain(c, objs, k) && objs[0] in roots
    ensures IsLinked(list, objs, ChainKeys(objs, k))
  {
    forall i | 0 <= i < |objs| - 1 ensures IsLink(list, objs, ChainKeys(objs, k), i) {
      ChainIsNear(c, roots, objs, k, i);
      LinkIsCollected(c, roots, list, objs, ChainKeys(objs, k), i);
    }
  }

  /** No other walk leads to an object below the first that has a reference. */
  ghost predicate BelowUnshared(c: Cluster, roots: seq<Values>, objs: seq<Values>) {
    forall i :: 0 < i < |objs| - 1 ==> OneLeadsTo(c, roots, objs[i].name)
  }

  /** Nor to the first object; or the message that a copy of its reference can
      disturb is not missed, since it would be empty. */
  ghost predicate FirstHarmless(c: Cluster, roots: seq<Values>, objs: seq<Values>)
    requires objs != []
  {
    |objs| == 1 || OneLeadsTo(c, roots, objs[0].name) || (|objs| > 2 && objs[1].vals == map[])
  }

  lemma OnceIsUnshared(c: Cluster, roots: seq<Values>, list: seq<Entry>, objs: seq<Values>, k: string, i: nat)
    requires IsCollection(c, roots, list) && IsOneKeyChain(c, objs, k) && objs[0] in roots && i < |objs| - 1
    ensures IsOnce(list, objs[i]) <==> OneLeadsTo(c, roots, objs[i].name)
  {
    PathInCluster(c, roots, list, objs, ChainKeys(objs, k), i);
    OnceIffOneLeads(c, roots, list, objs[i], k);
  }

  // -------------------------------------------------------------------
  // A chain that is not shared
  // -------------------------------------------------------------------

  lemma UnsharedDelivers(c: Cluster, roots: seq<Values>, list: seq<Entry>, objs: seq<Values>, k: string, s: Schedule)
    requires IsCollection(c, roots, list) && IsOneKeyChain(c, objs, k) && objs[0] in roots
    requires BelowUnshared(c, roots, objs) && Fits(list, RootEntry(objs[0]), s)
    requires Undisturbed(s) || FirstHarmless(c, roots, objs)
    ensures Delivered(list, RootEntry(objs[0]), s) == IdealOf(objs, k)
  {
    var keys := ChainKeys(objs, k);
    if |objs| == 1 {
      MergeEmpty(objs[0].vals);
    } else {
      forall i | 0 <= i < |keys| ensures IsOnce(list, objs[i]) <==> OneLeadsTo(c, roots, objs[i].name) {
        OnceIsUnshared(c, roots, list, objs, k, i);
      }
      ChainIsLinked(c, roots, list, objs, k);
      if FirstUndisturbed(list, objs, s) {
        ChainIsIdealIffPairsEqual(list, objs, keys, s);
      } else {
        DisturbedDelivers(list, objs, k, s);
      }
    }
  }

  /** A disturbed message for an object without values adds nothing. */
  lemma DisturbedDelivers(list: seq<Entry>, objs: seq<Values>, k: string, s: Schedule)
    requires |objs| > 2 && k != "" && objs[1].vals == map[] && KeysUnused(objs, ChainKeys(objs, k))
    requires IsChain(list, objs, ChainKeys(objs, k)) && Fits(list, RootEntry(objs[0]), s)
    ensures Delivered(list, RootEntry(objs[0]), s) == IdealOf(objs, k)
  {
    var keys, v, temp := ChainKeys(objs, k), RootEntry(objs[0]), FilterBy(list, objs[0].name);
    RootStruct(list, objs, keys, s);
    assert IsLink(list, objs, keys, 0);
    assert temp[s.first] in temp;
    assert keys[..1] == [k];
    MessageIsEmpty(v, temp, k, s, objs[1]);
    RestOfTwo(objs, k);
    EmptyMessageAdds(k, Ideal(objs, keys, 2));
    EqualPairsIdeal(objs, keys);
  }

  lemma RestOfTwo(objs: seq<Values>, k: string)
    requires |objs| > 2 && k != "" && KeysUnused(objs, ChainKeys(objs, k))
    ensures
      var keys := ChainKeys(objs, k);
      Rest(objs, keys, 1) == map[k := Obj(map[k := Obj(Ideal(objs, keys, 2))])] &&
      Below(objs, keys, 1) == Merge(Rest(objs, keys, 1), NestOnEmpty([k], objs[1].vals))
  {
    var keys := ChainKeys(objs, k);
    BelowIsIdeal(objs, keys, 2);
    assert keys[..2] == [k, k] && keys[..1] == [k];
    NestTwo(k, [], Ideal(objs, keys, 2));
    assert [k, k] + [] == [k, k];
  }

  lemma EmptyMessageAdds(k: string, below: Tree)
    ensures
      var rest: Tree := map[k := Obj(map[k := Obj(below)])];
      Merge(rest, map[]) == rest && Merge(rest, map[k := Obj(map[])]) == rest
  {
    var rest: Tree := map[k := Obj(map[k := Obj(below)])];
    MergeEmpty(rest);
    MergeEmpty(map[k := Obj(below)]);
    MergeOneKey(k, map[k := Obj(below)], map[]);
  }

  lemma MessageIsEmpty(v: Entry, temp: seq<Entry>, k: string, s: Schedule, o: Values)
    requires v.key == "" && k != "" && o.vals == map[] && s.first < |temp| == |s.children|
    requires temp[s.first].ref == o && CanSend(v, |temp|, s.first, [k], s.sent)
    requires s.sent.Own? ==> Received(v, temp, [], s) == NestOnEmpty([k], o.vals)
    ensures Received(v, temp, [], s) == map[] || Received(v, temp, [], s) == map[k := Obj(map[])]
  {
    if s.sent.Overwritten? {
      var key := s.sent.keys[0];
      assert s.sent.keys == [key];
      if key == k {
        BlanksThenKey(s.first + 1, k);
      } else {
        assert [] + Repeat("", s.first + 1) + [""] == Repeat("", s.first + 2);
        TrimBlanks(s.first + 2);
      }
    }
  }

  // -------------------------------------------------------------------
  // A chain that is shared: how deep k reaches
  // -------------------------------------------------------------------

  /** The number of nested objects under k. */
  ghost function Run(t: Tree, k: string): nat
    decreases Rank(t)
  {
    if k in t && t[k].Obj? then
      ChildIsShallower(t, k);
      1 + Run(t[k].m, k)
    else 0
  }

  /** k never holds a leaf there. */
  ghost predicate Smooth(t: Tree, k: string)
    decreases Rank(t)
  {
    k in t ==> t[k].Obj? && (ChildIsShallower(t, k); Smooth(t[k].m, k))
  }

  function Max(a: nat, b: nat): nat {
    if a < b then b else a
  }

  lemma {:induction false} MergeRun(a: Tree, b: Tree, k: string)
    requires Smooth(a, k) && Smooth(b, k)
    ensures Smooth(Merge(a, b), k) && Run(Merge(a, b), k) == Max(Run(a, k), Run(b, k))
    decreases Rank(a) + Rank(b)
  {
    if k in a && k in b {
      ChildIsShallower(a, k);
      ChildIsShallower(b, k);
      MergeRun(b[k].m, a[k].m, k);
      assert Merge(a, b)[k] == Obj(Merge(b[k].m, a[k].m));
    } else if k in a {
      assert Merge(a, b)[k] == a[k];
    } else if k in b {
      assert Merge(a, b)[k] == b[k];
    }
  }

  lemma {:induction false} NestRun(n: nat, t: Tree, k: string)
    requires k !in t
    ensures Smooth(Nest(Repeat(k, n), t), k) && Run(Nest(Repeat(k, n), t), k) == n
    decreases n
  {
    if n > 0 {
      assert Repeat(k, n)[1..] == Repeat(k, n - 1);
      NestRun(n - 1, t, k);
      var r := Nest(Repeat(k, n), t);
      assert r[k] == Obj(Nest(Repeat(k, n - 1), t));
    }
  }

  lemma {:induction false} IdealRun(objs: seq<Values>, k: string, i: nat)
    requires i < |objs| && forall j :: 0 <= j < |objs| ==> k !in objs[j].vals
    ensures Run(Ideal(objs, ChainKeys(objs, k), i), k) == |objs| - 1 - i
    decreases |objs| - i
  {
    if i + 1 < |objs| {
      IdealRun(objs, k, i + 1);
      assert Ideal(objs, ChainKeys(objs, k), i)[k] == Obj(Ideal(objs, ChainKeys(objs, k), i + 1));
    }
  }

  // -------------------------------------------------------------------
  // A schedule that takes the last copy everywhere
  // -------------------------------------------------------------------

  /** How many keys n copies of the caller's key put into a path. */
  function Times(key: string, n: nat): nat {
    if key == "" then 0 else n
  }

  lemma {:induction false} TrimRepeat(k: string, n: nat)
    ensures Trim(Repeat(k, n)) == if k == "" then [] else Repeat(k, n)
  {
    if k == "" {
      TrimBlanks(n);
    } else {
      TrimKeeps(Repeat(k, n));
    }
  }

  /** The key path of a copy, when all keys so far are blank or k. */
  lemma TrimDown(parents: seq<string>, key: string, k: string, p: nat, n: nat)
    requires k != "" && (key == "" || key == k) && Trim(parents) == Repeat(k, p)
    ensures Trim(parents + Repeat(key, n)) == Repeat(k, p + Times(key, n))
  {
    TrimConcat(parents, Repeat(key, n));
    TrimRepeat(key, n);
    assert Repeat(k, p) + (if key == "" then [] else Repeat(k, n)) == Repeat(k, p + Times(key, n));
  }

  /** The document of the i-th copy. */
  lemma CopyDocument(v: Entry, child: Entry, parents: seq<string>, k: string, p: nat, i: nat)
    requires k != "" && (v.key == "" || v.key == k) && Trim(parents) == Repeat(k, p) && k !in child.ref.vals
    ensures
      var doc := Document(v, child, parents, i, [k]);
      Smooth(doc, k) && Run(doc, k) == p + Times(v.key, i + 1) + 1
  {
    var n := p + Times(v.key, i + 1);
    CopyPath(v, parents, k, p, i);
    EqualPairsNest(Repeat(k, n + 1), child.ref.vals);
    NestRun(n + 1, child.ref.vals, k);
  }

  lemma CopyPath(v: Entry, parents: seq<string>, k: string, p: nat, i: nat)
    requires k != "" && (v.key == "" || v.key == k) && Trim(parents) == Repeat(k, p)
    ensures Trim(ChildPath(v, parents, i, [k])) == Repeat(k, p + Times(v.key, i + 1) + 1)
  {
    TrimDown(parents, v.key, k, p, i + 1);
    TrimConcat(parents + Repeat(v.key, i + 1), [k]);
    TrimKeeps([k]);
    assert Repeat(k, p + Times(v.key, i + 1)) + [k] == Repeat(k, p + Times(v.key, i + 1) + 1);
  }

  /** Some reference from position from on was collected more than once. */
  ghost predicate HasCopies(es: seq<Entry>, objs: seq<Values>, from: nat) {
    exists j :: from <= j < |objs| - 1 && |FilterBy(es, objs[j].name)| > 1
  }

  ghost function Extra(es: seq<Entry>, objs: seq<Values>, from: nat): nat {
    if HasCopies(es, objs, from) then 1 else 0
  }

  lemma ExtraHere(es: seq<Entry>, objs: seq<Values>, i: nat)
    requires i < |objs| - 1
    ensures Extra(es, objs, i) == if |FilterBy(es, objs[i].name)| > 1 then 1 else Extra(es, objs, i + 1)
  {
    if HasCopies(es, objs, i) && |FilterBy(es, objs[i].name)| <= 1 {
      var j :| i <= j < |objs| - 1 && |FilterBy(es, objs[j].name)| > 1;
      assert i + 1 <= j;
    }
    if HasCopies(es, objs, i + 1) {
      var j :| i + 1 <= j < |objs| - 1 && |FilterBy(es, objs[j].name)| > 1;
      assert i <= j;
    }
  }

  /** What a schedule is to reach for the call at position i. */
  ghost predicate Reaches(es: seq<Entry>, objs: seq<Values>, k: string, i: nat, v: Entry, parents: seq<string>, p: nat,
                          s: Schedule) {
    Fits(es, v, s) && Undisturbed(s) && Smooth(Struct(es, v, parents, s), k) && i < |objs| &&
    Run(Struct(es, v, parents, s), k) >=
      p + Times(v.key, 1) + (|objs| - 1 - i) + Extra(es, objs, if v.key == "" then i + 1 else i)
  }

  /** A call at position i of a linked chain. */
  ghost predicate IsCallAt(es: seq<Entry>, objs: seq<Values>, k: string, i: nat, v: Entry, parents: seq<string>, p: nat) {
    objs != [] && i + 1 < |objs| && k != "" && IsLinked(es, objs, ChainKeys(objs, k)) && objs[|objs| - 1].refs == map[] &&
    (forall j :: 0 <= j < |objs| ==> k !in objs[j].vals) &&
    v.ref == objs[i] && (v.key == "" || v.key == k) && Trim(parents) == Repeat(k, p)
  }

  lemma OnlyKeyOrder(refs: map<string, string>, k: string, name: string)
    requires refs == map[k := name]
    ensures IsKeyOrder([k], refs, name)
  {
    assert KeysFor(refs, name) == {k};
  }

  lemma {:induction false} DeepSchedule(es: seq<Entry>, objs: seq<Values>, k: string, i: nat, v: Entry,
                                        parents: seq<string>, p: nat) returns (s: Schedule)
    requires IsCallAt(es, objs, k, i, v, parents, p)
    ensures Reaches(es, objs, k, i, v, parents, p, s)
    ensures s.first + 1 == |FilterBy(es, objs[i].name)| == |s.children|
    decreases |objs| - i, 1
  {
    var temp := FilterBy(es, objs[i].name);
    assert IsLink(es, objs, ChainKeys(objs, k), i);
    var children := DeepChildren(es, objs, k, i, v, parents, p, |temp|);
    s := Schedule(|temp| - 1, Own, children);
    DeepFits(es, objs, k, i, v, parents, p, s);
    DeepStruct(es, objs, k, i, v, parents, p, s);
    ExtraHere(es, objs, i);
  }

  lemma DeepStruct(es: seq<Entry>, objs: seq<Values>, k: string, i: nat, v: Entry, parents: seq<string>, p: nat, s: Schedule)
    requires IsCallAt(es, objs, k, i, v, parents, p) && s.sent.Own? && v.ref.refs != map[]
    requires s.first + 1 == |s.children| == |FilterBy(es, objs[i].name)|
    requires AreDeep(es, objs, k, i, v, parents, p, s.children)
    ensures Smooth(Struct(es, v, parents, s), k)
    ensures Run(Struct(es, v, parents, s), k) >=
      p + Times(v.key, |s.children|) + (|objs| - 1 - i) + Extra(es, objs, i + 1)
  {
    var temp := FilterBy(es, objs[i].name);
    assert IsLink(es, objs, ChainKeys(objs, k), i);
    assert temp[s.first] in temp;
    assert IsDeep(es, objs, k, i, v, parents, p, s.first, s.children[s.first]);
    CopyDocument(v, temp[s.first], parents, k, p, s.first);
    NestedRun(es, objs, k, i, v, temp, parents, p, s, |temp|);
    MergeRun(Nested(es, v, temp, parents, s, |temp|), Received(v, temp, parents, s), k);
  }

  /** The schedules of the first n copies. */
  ghost predicate AreDeep(es: seq<Entry>, objs: seq<Values>, k: string, i: nat, v: Entry, parents: seq<string>, p: nat,
                          children: seq<ChildSchedule>) {
    forall c :: 0 <= c < |children| ==> IsDeep(es, objs, k, i, v, parents, p, c, children[c])
  }

  ghost predicate IsDeep(es: seq<Entry>, objs: seq<Values>, k: string, i: nat, v: Entry, parents: seq<string>, p: nat,
                         c: nat, child: ChildSchedule) {
    child.order == [k] && Undisturbed(child.call) && i + 1 < |objs| && v.ref == objs[i] &&
    (i + 2 < |objs| ==>
      Reaches(es, objs, k, i + 1, Entry(objs[i + 1], objs[i].name, k), parents + Repeat(v.key, c + 1),
              p + Times(v.key, c + 1), child.call))
  }

  lemma {:induction false} DeepChildren(es: seq<Entry>, objs: seq<Values>, k: string, i: nat, v: Entry,
                                        parents: seq<string>, p: nat, n: nat) returns (children: seq<ChildSchedule>)
    requires IsCallAt(es, objs, k, i, v, parents, p)
    ensures |children| == n && AreDeep(es, objs, k, i, v, parents, p, children)
    decreases |objs| - i, 0, n + 1
  {
    children := [];
    if n > 0 {
      children := DeepChildren(es, objs, k, i, v, parents, p, n - 1);
      var call := DeepCall(es, objs, k, i, v, parents, p, n);
      children := children + [ChildSchedule([k], call)];
    }
  }

  lemma {:induction false} DeepCall(es: seq<Entry>, objs: seq<Values>, k: string, i: nat, v: Entry,
                                    parents: seq<string>, p: nat, n: nat) returns (call: Schedule)
    requires IsCallAt(es, objs, k, i, v, parents, p) && n > 0
    ensures IsDeep(es, objs, k, i, v, parents, p, n - 1, ChildSchedule([k], call))
    decreases |objs| - i, 0, 0
  {
    call := Schedule(0, Own, []);
    if i + 2 < |objs| {
      TrimDown(parents, v.key, k, p, n);
      call := DeepSchedule(es, objs, k, i + 1, Entry(objs[i + 1], objs[i].name, k), parents + Repeat(v.key, n),
                           p + Times(v.key, n));
    }
  }

  lemma DeepFits(es: seq<Entry>, objs: seq<Values>, k: string, i: nat, v: Entry, parents: seq<string>, p: nat, s: Schedule)
    requires IsCallAt(es, objs, k, i, v, parents, p) && s.sent.Own? && s.first < |s.children|
    requires |s.children| == |FilterBy(es, objs[i].name)| && AreDeep(es, objs, k, i, v, parents, p, s.children)
    ensures Fits(es, v, s) && Undisturbed(s)
  {
    var temp := FilterBy(es, objs[i].name);
    assert IsLink(es, objs, ChainKeys(objs, k), i);
    OnlyKeyOrder(v.ref.refs, k, objs[i + 1].name);
    forall c | 0 <= c < |temp|
      ensures IsKeyOrder(s.children[c].order, v.ref.refs, temp[c].ref.name) && Undisturbed(s.children[c].call) &&
              (temp[c].ref.refs != map[] ==> Fits(es, temp[c], s.children[c].call))
    {
      assert temp[c] in temp;
      assert IsDeep(es, objs, k, i, v, parents, p, c, s.children[c]);
    }
  }

  lemma {:induction false} NestedSmooth(es: seq<Entry>, v: Entry, temp: seq<Entry>, parents: seq<string>, s: Schedule,
                                        k: string, n: nat)
    requires n <= |temp| && n <= |s.children|
    requires forall c :: 0 <= c < n ==> Smooth(ChildCall(es, v, temp, parents, s, c), k)
    ensures Smooth(Nested(es, v, temp, parents, s, n), k)
    ensures n > 0 ==> Run(Nested(es, v, temp, parents, s, n), k) >= Run(ChildCall(es, v, temp, parents, s, n - 1), k)
    decreases n
  {
    if n > 0 {
      NestedSmooth(es, v, temp, parents, s, k, n - 1);
      MergeRun(Nested(es, v, temp, parents, s, n - 1), ChildCall(es, v, temp, parents, s, n - 1), k);
    }
  }

  lemma NestedRun(es: seq<Entry>, objs: seq<Values>, k: string, i: nat, v: Entry, temp: seq<Entry>,
                  parents: seq<string>, p: nat, s: Schedule, n: nat)
    requires IsCallAt(es, objs, k, i, v, parents, p) && temp == FilterBy(es, objs[i].name)
    requires |s.children| == |temp| && AreDeep(es, objs, k, i, v, parents, p, s.children) && 0 < n <= |temp|
    ensures Smooth(Nested(es, v, temp, parents, s, n), k)
    ensures i + 2 < |objs| ==>
      Run(Nested(es, v, temp, parents, s, n), k) >=
        p + Times(v.key, n) + (|objs| - 1 - i) + Extra(es, objs, i + 1)
  {
    forall c | 0 <= c < n ensures Smooth(ChildCall(es, v, temp, parents, s, c), k) {
      CopyRun(es, objs, k, i, v, temp, parents, p, s, c + 1);
    }
    CopyRun(es, objs, k, i, v, temp, parents, p, s, n);
    NestedSmooth(es, v, temp, parents, s, k, n);
  }

  lemma CopyRun(es: seq<Entry>, objs: seq<Values>, k: string, i: nat, v: Entry, temp: seq<Entry>,
                parents: seq<string>, p: nat, s: Schedule, n: nat)
    requires IsCallAt(es, objs, k, i, v, parents, p) && temp == FilterBy(es, objs[i].name)
    requires |s.children| == |temp| && AreDeep(es, objs, k, i, v, parents, p, s.children) && 0 < n <= |temp|
    ensures
      var nested := ChildCall(es, v, temp, parents, s, n - 1);
      Smooth(nested, k) &&
      (i + 2 < |objs| ==> Run(nested, k) >= p + Times(v.key, n) + (|objs| - 1 - i) + Extra(es, objs, i + 1))
  {
    assert IsLink(es, objs, ChainKeys(objs, k), i);
    assert temp[n - 1] in temp && IsDeep(es, objs, k, i, v, parents, p, n - 1, s.children[n - 1]);
    if i + 2 < |objs| {
      assert IsLink(es, objs, ChainKeys(objs, k), i + 1);
    }
  }

  // -------------------------------------------------------------------
  // Exactly when a chain is delivered
  // -------------------------------------------------------------------

  ghost predicate Delivers(list: seq<Entry>, root: Entry, s: Schedule, doc: Tree) {
    Fits(list, root, s) ==> Delivered(list, root, s) == doc
  }

  /** A reference below the first object that was collected twice: some schedule
      without disturbed messages moves values one key deeper. */
  lemma SharedMisplaces(c: Cluster, roots: seq<Values>, list: seq<Entry>, objs: seq<Values>, k: string)
      returns (s: Schedule)
    requires IsCollection(c, roots, list) && IsOneKeyChain(c, objs, k) && objs[0] in roots
    requires !BelowUnshared(c, roots, objs)
    ensures Undisturbed(s) && !Delivers(list, RootEntry(objs[0]), s, IdealOf(objs, k))
  {
    var i :| 0 < i < |objs| - 1 && !OneLeadsTo(c, roots, objs[i].name);
    ChainIsLinked(c, roots, list, objs, k);
    OnceIsUnshared(c, roots, list, objs, k, i);
    assert IsLink(list, objs, ChainKeys(objs, k), i);
    assert HasCopies(list, objs, 1);
    var v := RootEntry(objs[0]);
    s := DeepSchedule(list, objs, k, 0, v, [], 0);
    MergeRun(objs[0].vals, Struct(list, v, [], s), k);
    IdealRun(objs, k, 0);
  }

  /** The reference of the first object collected twice: its message can be
      disturbed, and the second object's values are lost. */
  lemma DisturbedLoses(c: Cluster, roots: seq<Values>, list: seq<Entry>, objs: seq<Values>, k: string)
      returns (s: Schedule)
    requires IsCollection(c, roots, list) && IsOneKeyChain(c, objs, k) && objs[0] in roots
    requires BelowUnshared(c, roots, objs) && !FirstHarmless(c, roots, objs)
    ensures !Delivers(list, RootEntry(objs[0]), s, IdealOf(objs, k))
  {
    var v, keys, temp := RootEntry(objs[0]), ChainKeys(objs, k), FilterBy(list, objs[0].name);
    forall i | 0 <= i < |keys| ensures IsOnce(list, objs[i]) <==> OneLeadsTo(c, roots, objs[i].name) {
      OnceIsUnshared(c, roots, list, objs, k, i);
    }
    ChainIsLinked(c, roots, list, objs, k);
    assert IsLink(list, objs, keys, 0);
    var calm := DeepSchedule(list, objs, k, 0, v, [], 0);
    s := calm.(sent := Reset);
    ResetFits(list, v, calm);
    RootStruct(list, objs, keys, s);
    MergeEmpty(Rest(objs, keys, 1));
    RestIsNotIdeal(objs, k);
  }

  lemma ResetFits(list: seq<Entry>, v: Entry, s: Schedule)
    requires Fits(list, v, s) && |FilterBy(list, v.ref.name)| > 1
    ensures Fits(list, v, s.(sent := Reset))
  {
    var r := s.(sent := Reset);
    var temp := FilterBy(list, v.ref.name);
    if v.ref.refs != map[] {
      FitsChild(list, v, s, 0);
      forall i | 0 <= i < |temp|
        ensures IsKeyOrder(r.children[i].order, v.ref.refs, temp[i].ref.name) &&
                (temp[i].ref.refs != map[] ==> Fits(list, temp[i], r.children[i].call))
      {
        FitsChild(list, v, s, i);
      }
    }
  }

  lemma RestIsNotIdeal(objs: seq<Values>, k: string)
    requires |objs| > 1 && k != "" && (forall i :: 0 <= i < |objs| ==> k !in objs[i].vals)
    requires |objs| > 2 ==> objs[1].vals != map[]
    ensures Merge(objs[0].vals, Rest(objs, ChainKeys(objs, k), 1)) != IdealOf(objs, k)
  {
    var keys, doc := ChainKeys(objs, k), Merge(objs[0].vals, Rest(objs, ChainKeys(objs, k), 1));
    if |objs| == 2 {
      MergeEmpty(objs[0].vals);
      assert k in IdealOf(objs, k) && k !in doc;
    } else {
      RestOfTwo(objs, k);
      var x :| x in objs[1].vals;
      assert doc[k] == Obj(map[k := Obj(Ideal(objs, keys, 2))]);
      assert IdealOf(objs, k)[k] == Obj(Ideal(objs, keys, 1));
      assert Ideal(objs, keys, 1) == objs[1].vals[k := Obj(Ideal(objs, keys, 2))];
      assert IdealOf(objs, k)[k] == Obj(objs[1].vals[k := Obj(Ideal(objs, keys, 2))]);
      assert x in IdealOf(objs, k)[k].m && x !in doc[k].m;
    }
  }

  /** Among any base objects, a chain's document is delivered by every schedule
      without disturbed messages if and only if no other walk of at most 10
      references leads to an object below the first one; and by every schedule
      at all if and only if moreover none leads to the first one, or the message
      that could be disturbed is empty and not missed. */
  lemma ChainDeliversIffUnshared(c: Cluster, roots: seq<Values>, list: seq<Entry>, objs: seq<Values>, k: string)
    requires IsCollection(c, roots, list) && IsOneKeyChain(c, objs, k) && objs[0] in roots
    ensures (forall s :: Undisturbed(s) ==> Delivers(list, RootEntry(objs[0]), s, IdealOf(objs, k)))
       <==> BelowUnshared(c, roots, objs)
    ensures (forall s :: Delivers(list, RootEntry(objs[0]), s, IdealOf(objs, k)))
       <==> BelowUnshared(c, roots, objs) && FirstHarmless(c, roots, objs)
  {
    if BelowUnshared(c, roots, objs) {
      forall s | Undisturbed(s) || FirstHarmless(c, roots, objs)
        ensures Delivers(list, RootEntry(objs[0]), s, IdealOf(objs, k))
      {
        if Fits(list, RootEntry(objs[0]), s) {
          UnsharedDelivers(c, roots, list, objs, k, s);
        }
      }
      if !FirstHarmless(c, roots, objs) {
        var s := DisturbedLoses(c, roots, list, objs, k);
      }
    } else {
      var s := SharedMisplaces(c, roots, list, objs, k);
    }
  }
}
