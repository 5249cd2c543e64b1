/** internal/values/collect.go: the objects a release refers to are collected
    by a depth-limited traversal that also maintains the reverse index. */
module Collect {
  import opened JsonTree
  import opened ReverseIndex
  import opened ValuesGraph

  function AnnotationOf(annotations: map<string, string>, name: string): Option<string> {
    if name in annotations then Some(annotations[name]) else None
  }

  /** start, with release recorded on the named objects and on no others. */
  ghost function Recorded(start: map<string, string>, names: set<string>, release: string): map<string, string> {
    start + map n | n in names :: Annotated(AnnotationOf(start, n), release)
  }

  function Levels(count: nat): nat {
    if count > 10 then 0 else MAX_DEPTH - count
  }

  function RootEntry(o: Values): Entry {
    Entry(o, "base", "")
  }

  ghost function NamesOf(list: seq<Entry>): set<string> {
    set e | e in list :: e.ref.name
  }

  /** The entries of one base object: itself, then its complete unfolding. */
  ghost predicate IsBlock(c: Cluster, root: Values, block: seq<Entry>) {
    exists below, walks ::
      block == [RootEntry(root)] + below && Unfolds(c, root, MAX_DEPTH, root.refs.Keys, below, walks)
  }

  lemma RecordedOneMore(start: map<string, string>, names: set<string>, name: string, release: string)
    ensures Recorded(start, names + {name}, release)
         == Recorded(start, names, release)[name := Annotated(AnnotationOf(start, name), release)]
    ensures AnnotationOf(Recorded(start, names, release), name)
         == if name in names then Some(Annotated(AnnotationOf(start, name), release)) else AnnotationOf(start, name)
  {
  }

  /** After a successful collection exactly the collected objects have gained
      the release: its name is appended where it was missing, and no name is
      removed, moved or listed twice by it. */
  lemma RecordedIndex(start: map<string, string>, names: set<string>, release: string, n: string)
    requires ',' !in release
    ensures
      var before := Listed(AnnotationOf(start, n));
      var after := Listed(AnnotationOf(Recorded(start, names, release), n));
      after == if n in names && release !in before then before + [release] else before
    ensures n in names ==> release in Listed(AnnotationOf(Recorded(start, names, release), n))
  {
    AnnotatedLists(AnnotationOf(start, n), release);
    if n in names {
      assert AnnotationOf(Recorded(start, names, release), n) == Some(Annotated(AnnotationOf(start, n), release));
    } else {
      assert AnnotationOf(Recorded(start, names, release), n) == AnnotationOf(start, n);
    }
  }

  lemma NamesOfAppend(a: seq<Entry>, b: seq<Entry>)
    ensures NamesOf(a + b) == NamesOf(a) + NamesOf(b)
  {
  }

  /** The reference under k resolves, and so does all that is below it. */
  ghost predicate BranchResolves(c: Cluster, o: Values, k: string, levels: nat)
    requires levels > 0 && k in o.refs
  {
    o.refs[k] in c && Resolvable(c, c[o.refs[k]], levels - 1)
  }

  lemma ResolvesByBranch(c: Cluster, o: Values, levels: nat)
    requires levels > 0
    ensures Resolvable(c, o, levels) <==> forall k :: k in o.refs ==> BranchResolves(c, o, k, levels)
  {
  }

  /** The entries below a reference, and its own. */
  lemma OwnEntry(c: Cluster, o: Values, levels: nat, k: string, nested: seq<Entry>, walks: seq<seq<string>>)
    requires levels > 0 && k in o.refs && o.refs[k] in c
    requires var child := c[o.refs[k]]; Unfolds(c, child, levels - 1, child.refs.Keys, nested, walks)
    ensures
      var child := c[o.refs[k]];
      var branch := nested + [Entry(child, o.name, k)];
      Unfolds(c, o, levels, {k}, branch, Prepend(k, walks) + [[k]]) &&
      NamesOf(branch) == {child.name} + NamesOf(nested)
  {
    BranchUnfolds(c, o, levels, k, nested, walks);
    NamesOfSnoc(nested, Entry(c[o.refs[k]], o.name, k));
  }

  lemma NamesOfSnoc(list: seq<Entry>, e: Entry)
    ensures NamesOf(list + [e]) == {e.ref.name} + NamesOf(list)
  {
    NamesOfAppend(list, [e]);
    assert NamesOf([e]) == {e.ref.name};
  }

  lemma NothingToUnfold(c: Cluster, o: Values, levels: nat)
    requires o.refs == map[] || levels == 0
    ensures Resolvable(c, o, levels) && Unfolds(c, o, levels, o.refs.Keys, [], [])
  {
  }

  /** list is one block per root, in the order of the roots. */
  ghost predicate IsRefList(c: Cluster, roots: seq<Values>, list: seq<Entry>) {
    if roots == [] then list == []
    else exists n :: 0 <= n <= |list| && ListSplits(c, roots, list, n)
  }

  ghost predicate ListSplits(c: Cluster, roots: seq<Values>, list: seq<Entry>, n: nat)
    requires roots != [] && n <= |list|
  {
    IsRefList(c, roots[..|roots| - 1], list[..n]) && IsBlock(c, roots[|roots| - 1], list[n..])
  }

  lemma RefListSnoc(c: Cluster, roots: seq<Values>, root: Values, list: seq<Entry>, block: seq<Entry>)
    requires IsRefList(c, roots, list) && IsBlock(c, root, block)
    ensures IsRefList(c, roots + [root], list + block)
  {
    assert (roots + [root])[..|roots|] == roots;
    assert (list + block)[..|list|] == list && (list + block)[|list|..] == block;
    assert ListSplits(c, roots + [root], list + block, |list|);
  }

  /** Everything within reach of every base object resolves. */
  ghost predicate AllResolve(c: Cluster, roots: seq<Values>) {
    forall r :: r in roots ==> Resolvable(c, r, MAX_DEPTH)
  }

  lemma AllResolveSnoc(c: Cluster, roots: seq<Values>, root: Values)
    ensures AllResolve(c, roots + [root]) <==> AllResolve(c, roots) && Resolvable(c, root, MAX_DEPTH)
  {
    assert root in roots + [root];
    assert forall r :: r in roots ==> r in roots + [root];
  }

  lemma FailureStays(c: Cluster, roots: seq<Values>, i: nat)
    requires i <= |roots| && !AllResolve(c, roots[..i])
    ensures !AllResolve(c, roots)
  {
  }

  /** list holds the objects that the names in refs lead to, in the order of
      the names and as often as they occur; at says where each name stands. */
  ghost predicate AreExisting(c: Cluster, refs: seq<string>, list: seq<Values>, at: seq<nat>) {
    |at| == |list| &&
    (forall i :: 0 <= i < |at| ==> at[i] < |refs| && refs[at[i]] in c && list[i] == c[refs[at[i]]]) &&
    (forall i, j :: 0 <= i < j < |at| ==> at[i] < at[j]) &&
    (forall p: nat :: p < |refs| && refs[p] in c ==> p in at)
  }

  class ValuesStore {
    const objects: Cluster
    var annotations: map<string, string>

    constructor (objects: Cluster, annotations: map<string, string>)
      ensures this.objects == objects && this.annotations == annotations
    {
      this.objects := objects;
      this.annotations := annotations;
    }

    /** current is the annotation in the caller's copy of the object. */
    method UpdateValuesAnnotations(name: string, current: Option<string>, release: string)
      modifies this
      ensures annotations ==
        if current.Some? && release in Split(current.value) then old(annotations)
        else old(annotations)[name := Annotated(current, release)]
    {
      match current {
        case None =>
          annotations := annotations[name := release];
        case Some(value) =>
          if release !in Split(value) {
            annotations := annotations[name := value + "," + release];
          }
      }
    }

    /** Recording release on one more object, from a copy of its annotation
        that is current or dates from the start of the collection. */
    method Record(name: string, current: Option<string>, release: string,
                  ghost start: map<string, string>, ghost before: set<string>)
      requires ',' !in release
      requires annotations == Recorded(start, before, release)
      requires current == AnnotationOf(annotations, name) || current == AnnotationOf(start, name)
      modifies this
      ensures annotations == Recorded(start, before + {name}, release)
    {
      RecordedOneMore(start, before, name, release);
      AnnotatedIdempotent(AnnotationOf(start, name), release);
      AnnotatedLists(AnnotationOf(start, name), release);
      UpdateValuesAnnotations(name, current, release);
    }

    method CollectValues(spec: Values, count: nat, release: string,
                         ghost start: map<string, string>, ghost before: set<string>)
        returns (err: bool, list: seq<Entry>, ghost below: seq<Entry>, ghost walks: seq<seq<string>>,
                 ghost touched: set<string>)
      requires ',' !in release && WellNamed(objects)
      requires annotations == Recorded(start, before, release)
      modifies this
      ensures err <==> !Resolvable(objects, spec, Levels(count))
      ensures !err ==> list == if count == 0 then [RootEntry(spec)] + below else below
      ensures !err ==> Unfolds(objects, spec, Levels(count), spec.refs.Keys, below, walks) &&
                       touched == before + NamesOf(below)
      ensures annotations == Recorded(start, touched, release)
      decreases Levels(count), 2
    {
      if count > 10 {
        NothingToUnfold(objects, spec, Levels(count));
        return false, [], [], [], before;
      }
      var references;
      err, references, walks, touched := CollectReferences(spec, count, release, start, before);
      list := if count == 0 then [RootEntry(spec)] + references else references;
      below := references;
    }

    /** The loop over the references, in any order. */
    method CollectReferences(spec: Values, count: nat, release: string,
                             ghost start: map<string, string>, ghost before: set<string>)
        returns (err: bool, list: seq<Entry>, ghost walks: seq<seq<string>>, ghost touched: set<string>)
      requires ',' !in release && WellNamed(objects) && count <= 10
      requires annotations == Recorded(start, before, release)
      modifies this
      ensures err <==> !Resolvable(objects, spec, Levels(count))
      ensures !err ==> Unfolds(objects, spec, Levels(count), spec.refs.Keys, list, walks) &&
                       touched == before + NamesOf(list)
      ensures annotations == Recorded(start, touched, release)
      decreases Levels(count), 1
    {
      list, walks, touched, err := [], [], before, false;
      ghost var done: set<string> := {};
      var todo := spec.refs.Keys;
      while todo != {} && !err
        invariant forall k :: k in spec.refs <==> k in todo || k in done
        invariant forall k :: k in todo ==> k !in done
        invariant err <==> exists k :: k in done && !BranchResolves(objects, spec, k, Levels(count))
        invariant !err ==> Unfolds(objects, spec, Levels(count), done, list, walks) && touched == before + NamesOf(list)
        invariant annotations == Recorded(start, touched, release)
        decreases todo
      {
        var k :| k in todo;
        var branch;
        ghost var inner;
        err, branch, inner, touched := CollectReference(spec, k, count, release, start, touched);
        if !err {
          JoinBranches(objects, spec, Levels(count), done, k, list, walks, branch, inner);
          NamesOfAppend(list, branch);
          list, walks := list + branch, walks + inner;
        }
        todo, done := todo - {k}, done + {k};
      }
      ResolvesByBranch(objects, spec, Levels(count));
      assert !err ==> done == spec.refs.Keys;
    }

    /** One round of the loop: the referenced object is fetched, annotated and
        collected, and its own entry comes last. */
    method CollectReference(spec: Values, k: string, count: nat, release: string,
                            ghost start: map<string, string>, ghost before: set<string>)
        returns (err: bool, branch: seq<Entry>, ghost walks: seq<seq<string>>, ghost touched: set<string>)
      requires ',' !in release && WellNamed(objects) && count <= 10 && k in spec.refs
      requires annotations == Recorded(start, before, release)
      modifies this
      ensures err <==> !BranchResolves(objects, spec, k, Levels(count))
      ensures !err ==> Unfolds(objects, spec, Levels(count), {k}, branch, walks) &&
                       touched == before + NamesOf(branch)
      ensures annotations == Recorded(start, touched, release)
      decreases Levels(count), 0, 2
    {
      if spec.refs[k] !in objects {
        return true, [], [], before;
      }
      var child := objects[spec.refs[k]];
      var nested;
      err, nested, walks, touched := CollectChild(child, count, release, start, before);
      branch := nested + [Entry(child, spec.name, k)];
      if !err {
        OwnEntry(objects, spec, Levels(count), k, nested, walks);
        walks := Prepend(k, walks) + [[k]];
      }
    }

    method CollectChild(child: Values, count: nat, release: string,
                        ghost start: map<string, string>, ghost before: set<string>)
        returns (err: bool, nested: seq<Entry>, ghost walks: seq<seq<string>>, ghost touched: set<string>)
      requires ',' !in release && WellNamed(objects) && count <= 10
      requires annotations == Recorded(start, before, release)
      modifies this
      ensures err <==> !Resolvable(objects, child, Levels(count) - 1)
      ensures !err ==> Unfolds(objects, child, Levels(count) - 1, child.refs.Keys, nested, walks) &&
                       touched == before + {child.name} + NamesOf(nested)
      ensures annotations == Recorded(start, touched, release)
      decreases Levels(count), 0, 1
    {
      Record(child.name, AnnotationOf(annotations, child.name), release, start, before);
      err, nested, walks, touched := false, [], [], before + {child.name};
      if child.refs != map[] {
        err, nested, walks, touched := CollectNested(child, count, release, start, touched);
      } else {
        NothingToUnfold(objects, child, Levels(count) - 1);
      }
    }

    /** The recursive call. */
    method CollectNested(child: Values, count: nat, release: string,
                         ghost start: map<string, string>, ghost before: set<string>)
        returns (err: bool, nested: seq<Entry>, ghost walks: seq<seq<string>>, ghost touched: set<string>)
      requires ',' !in release && WellNamed(objects) && count <= 10
      requires annotations == Recorded(start, before, release)
      modifies this
      ensures err <==> !Resolvable(objects, child, Levels(count) - 1)
      ensures !err ==> Unfolds(objects, child, Levels(count) - 1, child.refs.Keys, nested, walks) &&
                       touched == before + NamesOf(nested)
      ensures annotations == Recorded(start, touched, release)
      decreases Levels(count), 0, 0
    {
      ghost var below;
      assert Levels(count + 1) == Levels(count) - 1;
      err, nested, below, walks, touched := CollectValues(child, count + 1, release, start, before);
    }

    /** Base objects are fetched first; names without an object are skipped. */
    method GetValuesByReference(refs: seq<string>) returns (list: seq<Values>, ghost at: seq<nat>)
      ensures AreExisting(objects, refs, list, at)
      ensures forall o :: o in list <==> exists p :: 0 <= p < |refs| && refs[p] in objects && objects[refs[p]] == o
    {
      list, at := [], [];
      for i := 0 to |refs|
        invariant AreExisting(objects, refs[..i], list, at)
      {
        if refs[i] in objects {
          list, at := list + [objects[refs[i]]], at + [i];
        }
      }
      assert refs[..|refs|] == refs;
    }

    /** copies holds the annotations as they were when the base objects were
        fetched, before anything was collected. */
    method GetRefList(valuesList: seq<Values>, release: string, copies: map<string, string>)
        returns (err: bool, refList: seq<Entry>, ghost n: nat, ghost touched: set<string>)
      requires ',' !in release && WellNamed(objects)
      requires copies == annotations
      modifies this
      ensures err <==> !AllResolve(objects, valuesList)
      ensures n <= |valuesList| && IsRefList(objects, valuesList[..n], refList)
      ensures !err ==> n == |valuesList| && touched == NamesOf(refList)
      ensures annotations == Recorded(old(annotations), touched, release)
    {
      err, refList, n, touched := false, [], 0, {};
      ghost var start := annotations;
      assert annotations == Recorded(start, {}, release);
      var i := 0;
      while i < |valuesList| && !err
        invariant 0 <= n <= i <= |valuesList| && (!err ==> n == i)
        invariant err <==> !AllResolve(objects, valuesList[..i])
        invariant IsRefList(objects, valuesList[..n], refList)
        invariant !err ==> touched == NamesOf(refList)
        invariant annotations == Recorded(start, touched, release)
      {
        var root, sub := valuesList[i], [];
        assert valuesList[..i + 1] == valuesList[..i] + [root];
        err, sub, touched := CollectRoot(root, release, copies, start, touched);
        AllResolveSnoc(objects, valuesList[..i], root);
        if !err {
          NamesOfAppend(refList, sub);
          RefListSnoc(objects, valuesList[..i], root, refList, sub);
          refList, n := refList + sub, n + 1;
        }
        i := i + 1;
      }
      if err {
        FailureStays(objects, valuesList, i);
      }
      assert !err ==> valuesList[..i] == valuesList;
    }

    method CollectRoot(root: Values, release: string, copies: map<string, string>,
                       ghost start: map<string, string>, ghost before: set<string>)
        returns (err: bool, sub: seq<Entry>, ghost touched: set<string>)
      requires ',' !in release && WellNamed(objects) && copies == start
      requires annotations == Recorded(start, before, release)
      modifies this
      ensures err <==> !Resolvable(objects, root, MAX_DEPTH)
      ensures !err ==> IsBlock(objects, root, sub) && touched == before + NamesOf(sub)
      ensures annotations == Recorded(start, touched, release)
    {
      ghost var below, walks;
      err, sub, below, walks, touched := CollectValues(root, 0, release, start, before);
      if !err {
        Record(root.name, AnnotationOf(copies, root.name), release, start, touched);
        touched := touched + {root.name};
        NamesOfAppend([RootEntry(root)], below);
        assert NamesOf([RootEntry(root)]) == {root.name};
      }
    }
  }
}
