/** ManageValues merges the documents of its goroutines in the order in which
    they arrive (internal/values/values.go:95-102).  This module says exactly
    when that order cannot be observed. */
module MergeOrder {
  import opened JsonTree
  import opened MergeAlgebra

  /** The accumulator after the given arrivals, the first one at index 0. */
  function Fold(docs: seq<Tree>): Tree {
    if docs == [] then map[]
    else Merge(docs[|docs| - 1], Fold(docs[..|docs| - 1]))
  }

  ghost predicate PairwiseAgree(docs: seq<Tree>) {
    forall x, y :: x in docs && y in docs ==> Agree(x, y)
  }

  ghost predicate SameFold(arrivals: seq<Tree>, docs: seq<Tree>) {
    multiset(arrivals) == multiset(docs) ==> Fold(arrivals) == Fold(docs)
  }

  ghost predicate OrderIrrelevant(docs: seq<Tree>) {
    forall arrivals :: SameFold(arrivals, docs)
  }

  function Without(docs: seq<Tree>, i: nat): (r: seq<Tree>)
    requires i < |docs|
    ensures forall d :: d in r ==> d in docs
  {
    docs[..i] + docs[i + 1..]
  }

  lemma WithoutMultiset(docs: seq<Tree>, i: nat)
    requires i < |docs|
    ensures multiset(docs) == multiset(Without(docs, i)) + multiset{docs[i]}
  {
    assert docs == docs[..i] + [docs[i]] + docs[i + 1..];
  }

  lemma FoldSnoc(docs: seq<Tree>, last: Tree)
    ensures Fold(docs + [last]) == Merge(last, Fold(docs))
  {
    assert (docs + [last])[..|docs|] == docs;
  }

  // -------------------------------------------------------------------
  // Agreement makes the order irrelevant
  // -------------------------------------------------------------------

  lemma {:induction false} FoldAgrees(docs: seq<Tree>, c: Tree)
    requires PairwiseAgree(docs)
    requires forall d :: d in docs ==> Agree(d, c)
    ensures Agree(Fold(docs), c)
  {
    if docs != [] {
      var init, last := docs[..|docs| - 1], docs[|docs| - 1];
      FoldAgrees(init, c);
      FoldAgrees(init, last);
      AgreeSymmetric(Fold(init), last);
      MergeKeepsAgreement(last, Fold(init), c);
    }
  }

  lemma ExchangeArrivals(x: Tree, y: Tree, rest: Tree)
    requires Agree(x, y) && Agree(rest, x) && Agree(rest, y)
    ensures Merge(x, Merge(y, rest)) == Merge(y, Merge(x, rest))
  {
    AgreeSymmetric(x, y); AgreeSymmetric(rest, x); AgreeSymmetric(rest, y);
    AgreeIsSameKinds(x, y); AgreeIsSameKinds(y, x); AgreeIsSameKinds(x, rest); AgreeIsSameKinds(y, rest);
    MergeAssociates(x, y, rest);
    MergeAssociates(y, x, rest);
    MergeCommutesIffAgree(x, y);
  }

  /** Any arrival may be taken to be the last one. */
  lemma {:induction false} FoldPullsOut(docs: seq<Tree>, i: nat)
    requires i < |docs| && PairwiseAgree(docs)
    ensures Fold(docs) == Merge(docs[i], Fold(Without(docs, i)))
  {
    var n := |docs| - 1;
    if i == n {
      assert Without(docs, i) == docs[..n];
    } else {
      var init, last := docs[..n], docs[n];
      var inner := Without(init, i);
      SomeAgree(docs, init);
      SomeAgree(docs, inner);
      FoldPullsOut(init, i);
      PullPastLast(inner, docs[i], last);
      WithoutEarlier(docs, i);
    }
  }

  lemma WithoutEarlier(docs: seq<Tree>, i: nat)
    requires i + 1 < |docs|
    ensures Without(docs, i) == Without(docs[..|docs| - 1], i) + [docs[|docs| - 1]]
  {
  }

  lemma SomeAgree(docs: seq<Tree>, some: seq<Tree>)
    requires PairwiseAgree(docs) && forall d :: d in some ==> d in docs
    ensures PairwiseAgree(some)
  {
  }

  lemma PullPastLast(inner: seq<Tree>, x: Tree, last: Tree)
    requires PairwiseAgree(inner) && Agree(x, last)
    requires forall d :: d in inner ==> Agree(d, x) && Agree(d, last)
    ensures Merge(last, Merge(x, Fold(inner))) == Merge(x, Fold(inner + [last]))
  {
    FoldAgrees(inner, last);
    FoldAgrees(inner, x);
    AgreeSymmetric(x, last);
    ExchangeArrivals(last, x, Fold(inner));
    FoldSnoc(inner, last);
  }

  lemma {:induction false} FoldPermutes(docs: seq<Tree>, arrivals: seq<Tree>)
    requires PairwiseAgree(docs) && multiset(arrivals) == multiset(docs)
    ensures Fold(arrivals) == Fold(docs)
    decreases |arrivals|
  {
    if arrivals == [] {
      assert |multiset(docs)| == |docs|;
    } else {
      var n := |arrivals| - 1;
      assert arrivals == arrivals[..n] + [arrivals[n]];
      assert arrivals[n] in multiset(docs);
      var i :| 0 <= i < |docs| && docs[i] == arrivals[n];
      WithoutMultiset(docs, i);
      assert multiset(arrivals[..n]) == multiset(arrivals) - multiset{docs[i]} == multiset(Without(docs, i));
      FoldPermutes(Without(docs, i), arrivals[..n]);
      FoldPullsOut(docs, i);
    }
  }

  // -------------------------------------------------------------------
  // Disagreement makes it relevant
  // -------------------------------------------------------------------

  /** What a tree shows at a path, without looking inside objects. */
  datatype Head = Absent | Object | Value(text: string)

  function HeadAt(t: Tree, path: seq<string>): Head
    requires path != []
  {
    match Lookup(t, path)
    case None => Absent
    case Some(Leaf(text)) => Value(text)
    case Some(Obj(_)) => Object
  }

  /** No leaf of t stands on a proper prefix of path. */
  ghost predicate Clear(t: Tree, path: seq<string>)
    requires path != []
    decreases |path|
  {
    |path| == 1 || path[0] !in t || (t[path[0]].Obj? && Clear(t[path[0]].m, path[1..]))
  }

  /** The head a merge shows: odd path lengths prefer the first argument. */
  function Winner(length: nat, s: Head, d: Head): Head {
    if s == Absent then d
    else if d == Absent || length % 2 == 1 then s
    else d
  }

  lemma WinnerSwaps(length: nat, s: Head, d: Head)
    ensures Winner(length, d, s) == Winner(length + 1, s, d)
  {
  }

  lemma HeadBelow(t: Tree, path: seq<string>)
    requires |path| > 1
    ensures HeadAt(t, path) ==
      if path[0] in t && t[path[0]].Obj? then HeadAt(t[path[0]].m, path[1..]) else Absent
  {
  }

  lemma {:induction false} MergeClear(source: Tree, dest: Tree, path: seq<string>)
    requires path != [] && Clear(source, path) && Clear(dest, path)
    ensures Clear(Merge(source, dest), path)
    decreases |path|
  {
    var k := path[0];
    if |path| > 1 && k in source && k in dest {
      MergeClear(dest[k].m, source[k].m, path[1..]);
    }
  }

  lemma {:induction false} MergeHead(source: Tree, dest: Tree, path: seq<string>)
    requires path != [] && Clear(source, path) && Clear(dest, path)
    ensures HeadAt(Merge(source, dest), path) == Winner(|path|, HeadAt(source, path), HeadAt(dest, path))
    decreases |path|
  {
    var m, k := Merge(source, dest), path[0];
    if |path| == 1 {
      KeyLaw(source, dest, k);
      assert path == [k];
    } else if k in source && k in dest {
      var s, d, rest := source[k].m, dest[k].m, path[1..];
      assert m[k] == Obj(Merge(d, s));
      HeadBelow(m, path);
      HeadBelow(source, path);
      HeadBelow(dest, path);
      MergeHead(d, s, rest);
      WinnerSwaps(|rest|, HeadAt(s, rest), HeadAt(d, rest));
    } else {
      HeadBelow(m, path);
      HeadBelow(source, path);
      HeadBelow(dest, path);
      assert k in source ==> m[k] == source[k];
      assert k in dest ==> m[k] == dest[k];
    }
  }

  lemma {:induction false} FoldClear(docs: seq<Tree>, path: seq<string>)
    requires path != [] && forall d :: d in docs ==> Clear(d, path)
    ensures Clear(Fold(docs), path)
  {
    if docs != [] {
      FoldClear(docs[..|docs| - 1], path);
      MergeClear(docs[|docs| - 1], Fold(docs[..|docs| - 1]), path);
    }
  }

  /** At an odd path length the last arrival wins, at an even one the first. */
  lemma {:induction false} LastWinsOdd(docs: seq<Tree>, last: Tree, path: seq<string>)
    requires path != [] && |path| % 2 == 1 && HeadAt(last, path) != Absent
    requires Clear(last, path) && forall d :: d in docs ==> Clear(d, path)
    ensures HeadAt(Fold(docs + [last]), path) == HeadAt(last, path)
  {
    FoldClear(docs, path);
    FoldSnoc(docs, last);
    MergeHead(last, Fold(docs), path);
  }

  lemma {:induction false} FirstWinsEven(first: Tree, docs: seq<Tree>, path: seq<string>)
    requires path != [] && |path| % 2 == 0 && HeadAt(first, path) != Absent
    requires Clear(first, path) && forall d :: d in docs ==> Clear(d, path)
    ensures HeadAt(Fold([first] + docs), path) == HeadAt(first, path)
  {
    if docs == [] {
      assert [first] + docs == [] + [first];
      FoldSnoc([], first);
      MergeHead(first, map[], path);
    } else {
      var n := |docs| - 1;
      FirstWinsEven(first, docs[..n], path);
      assert [first] + docs == ([first] + docs[..n]) + [docs[n]];
      FoldSnoc([first] + docs[..n], docs[n]);
      FoldClear([first] + docs[..n], path);
      MergeHead(docs[n], Fold([first] + docs[..n]), path);
    }
  }

  ghost predicate Conflict(a: Tree, b: Tree, path: seq<string>) {
    path != [] && HeadAt(a, path) != Absent && HeadAt(b, path) != Absent && HeadAt(a, path) != HeadAt(b, path)
  }

  lemma {:induction false} DisagreementHasPath(a: Tree, b: Tree) returns (path: seq<string>)
    requires !Agree(a, b)
    ensures Conflict(a, b, path)
    decreases Rank(a)
  {
    var k :| k in a && k in b &&
      !(if a[k].Obj? && b[k].Obj? then (ChildIsShallower(a, k); Agree(a[k].m, b[k].m)) else a[k] == b[k]);
    path := [k];
    if a[k].Obj? && b[k].Obj? {
      ChildIsShallower(a, k);
      var rest := DisagreementHasPath(a[k].m, b[k].m);
      path := [k] + rest;
      assert path[1..] == rest;
    }
  }

  /** Where a has something at path and t has a leaf in the way, they already
      conflict at that leaf. */
  lemma {:induction false} BlockedIsConflict(t: Tree, a: Tree, path: seq<string>) returns (shorter: seq<string>)
    requires path != [] && !Clear(t, path) && HeadAt(a, path) != Absent
    ensures Conflict(t, a, shorter) && |shorter| < |path|
    decreases |path|
  {
    var k := path[0];
    if t[k].Leaf? {
      shorter := [k];
    } else {
      var rest := BlockedIsConflict(t[k].m, a[k].m, path[1..]);
      shorter := [k] + rest;
      assert shorter[1..] == rest;
    }
  }

  /** A shortest conflict is not shadowed by any other document. */
  lemma {:induction false} ShortestConflict(docs: seq<Tree>, i: nat, j: nat, path: seq<string>)
      returns (i': nat, j': nat, path': seq<string>)
    requires i < |docs| && j < |docs| && Conflict(docs[i], docs[j], path)
    ensures i' < |docs| && j' < |docs| && Conflict(docs[i'], docs[j'], path')
    ensures forall d :: d in docs ==> Clear(d, path')
    decreases |path|
  {
    if k: nat :| k < |docs| && !Clear(docs[k], path) {
      var shorter := BlockedIsConflict(docs[k], docs[i], path);
      i', j', path' := ShortestConflict(docs, k, i, shorter);
    } else {
      i', j', path' := i, j, path;
    }
  }

  lemma {:induction false} SplitPair(docs: seq<Tree>, i: nat, j: nat) returns (rest: seq<Tree>)
    requires i < |docs| && j < |docs| && i != j
    ensures multiset(docs) == multiset(rest) + multiset{docs[i], docs[j]}
    ensures forall d :: d in rest ==> d in docs
  {
    WithoutMultiset(docs, i);
    var once := Without(docs, i);
    var j' := if j < i then j else j - 1;
    assert once[j'] == docs[j];
    WithoutMultiset(once, j');
    rest := Without(once, j');
  }

  lemma BothOrders(a: Tree, b: Tree, rest: seq<Tree>)
    ensures multiset((rest + [a]) + [b]) == multiset((rest + [b]) + [a]) == multiset(rest) + multiset{a, b}
    ensures multiset([a] + ([b] + rest)) == multiset([b] + ([a] + rest)) == multiset(rest) + multiset{a, b}
  {
  }

  /** Two orders that show different heads at the conflicting path. */
  lemma {:induction false} ConflictingOrders(a: Tree, b: Tree, rest: seq<Tree>, path: seq<string>)
      returns (one: seq<Tree>, two: seq<Tree>)
    requires Conflict(a, b, path) && Clear(a, path) && Clear(b, path)
    requires forall d :: d in rest ==> Clear(d, path)
    ensures multiset(one) == multiset(two) == multiset(rest) + multiset{a, b}
    ensures Fold(one) != Fold(two)
  {
    BothOrders(a, b, rest);
    if |path| % 2 == 1 {
      one, two := (rest + [a]) + [b], (rest + [b]) + [a];
      LastWinsOdd(rest + [a], b, path);
      LastWinsOdd(rest + [b], a, path);
    } else {
      one, two := [a] + ([b] + rest), [b] + ([a] + rest);
      FirstWinsEven(a, [b] + rest, path);
      FirstWinsEven(b, [a] + rest, path);
    }
    assert HeadAt(Fold(one), path) != HeadAt(Fold(two), path);
  }

  lemma {:induction false} ConflictIsObservable(docs: seq<Tree>, i: nat, j: nat, path: seq<string>)
    requires i < |docs| && j < |docs| && Conflict(docs[i], docs[j], path)
    requires forall d :: d in docs ==> Clear(d, path)
    ensures !OrderIrrelevant(docs)
  {
    var rest := SplitPair(docs, i, j);
    var one, two := ConflictingOrders(docs[i], docs[j], rest, path);
    assert !SameFold(one, docs) || !SameFold(two, docs);
  }

  /** Every arrival order gives the same document if and only if the
      delivered documents agree wherever they share a path. */
  lemma ArrivalOrderIrrelevantIffAgree(docs: seq<Tree>)
    ensures OrderIrrelevant(docs) <==> PairwiseAgree(docs)
  {
    if PairwiseAgree(docs) {
      forall arrivals ensures SameFold(arrivals, docs) {
        if multiset(arrivals) == multiset(docs) {
          FoldPermutes(docs, arrivals);
        }
      }
    } else {
      var x, y :| x in docs && y in docs && !Agree(x, y);
      var i: nat :| i < |docs| && docs[i] == x;
      var j: nat :| j < |docs| && docs[j] == y;
      var path := DisagreementHasPath(docs[i], docs[j]);
      var i', j', path' := ShortestConflict(docs, i, j, path);
      ConflictIsObservable(docs, i', j', path');
    }
  }
}
