/** utils.MergeMaps as a function on trees, and its algebra. */
module MergeAlgebra {
  import opened JsonTree

  /** The recursive call swaps its arguments, as internal/utils/config.go:119 does. */
  function Merge(source: Tree, dest: Tree): (r: Tree)
    ensures r.Keys == source.Keys + dest.Keys
    decreases Rank(source) + Rank(dest)
  {
    map k | k in source.Keys + dest.Keys ::
      if k !in source then dest[k]
      else if source[k].Obj? && k in dest && dest[k].Obj? then
        ChildIsShallower(source, k); ChildIsShallower(dest, k);
        Obj(Merge(dest[k].m, source[k].m))
      else source[k]
  }

  // -------------------------------------------------------------------
  // The path law
  // -------------------------------------------------------------------

  /** Every non-empty proper prefix of path is an object in t. */
  ghost predicate Descends(t: Tree, path: seq<string>)
    requires path != []
    decreases |path|
  {
    |path| == 1 || (path[0] in t && t[path[0]].Obj? && Descends(t[path[0]].m, path[1..]))
  }

  /** What the merged tree holds where source holds s and dest holds d. */
  function Resolve(s: Option<Json>, d: Option<Json>, length: nat): Option<Json> {
    if s.None? then d
    else if d.None? then s
    else if s.value.Obj? && d.value.Obj? then
      Some(Obj(if length % 2 == 1 then Merge(d.value.m, s.value.m) else Merge(s.value.m, d.value.m)))
    else if length % 2 == 1 then s
    else d
  }

  lemma ResolveSwaps(s: Option<Json>, d: Option<Json>, length: nat)
    ensures Resolve(d, s, length) == Resolve(s, d, length + 1)
  {
  }

  /** Precedence alternates with depth: at an odd path length the first
      argument wins a conflict, at an even one the second. */
  lemma {:induction false} PathLaw(source: Tree, dest: Tree, path: seq<string>)
    requires path != [] && Descends(source, path) && Descends(dest, path)
    ensures Lookup(Merge(source, dest), path)
         == Resolve(Lookup(source, path), Lookup(dest, path), |path|)
    decreases |path|
  {
    var k, rest := path[0], path[1..];
    if |path| > 1 {
      var s, d := source[k].m, dest[k].m;
      MergedEntry(source, dest, k);
      LookupBelow(source, path);
      LookupBelow(dest, path);
      LookupBelow(Merge(source, dest), path);
      PathLaw(d, s, rest);
      var inS, inD, merged := Lookup(s, rest), Lookup(d, rest), Lookup(Merge(d, s), rest);
      assert merged == Resolve(inD, inS, |rest|);
      ResolveSwaps(inS, inD, |rest|);
    } else {
      KeyLaw(source, dest, k);
      assert path == [k];
    }
  }

  lemma LookupBelow(t: Tree, path: seq<string>)
    requires |path| > 1 && path[0] in t && t[path[0]].Obj?
    ensures Lookup(t, path) == Lookup(t[path[0]].m, path[1..])
  {
  }

  lemma KeyLaw(source: Tree, dest: Tree, k: string)
    ensures Lookup(Merge(source, dest), [k]) == Resolve(Lookup(source, [k]), Lookup(dest, [k]), 1)
  {
    var merged := Merge(source, dest);
    MergedEntry(source, dest, k);
    LookupKey(source, k);
    LookupKey(dest, k);
    LookupKey(merged, k);
    EntryLaw(if k in source then Some(source[k]) else None, if k in dest then Some(dest[k]) else None,
             if k in merged then Some(merged[k]) else None);
  }

  /** The same for the entries alone. */
  lemma EntryLaw(s: Option<Json>, d: Option<Json>, m: Option<Json>)
    requires s.Some? && d.Some? && s.value.Obj? && d.value.Obj? ==> m == Some(Obj(Merge(d.value.m, s.value.m)))
    requires s.Some? && !(d.Some? && s.value.Obj? && d.value.Obj?) ==> m == s
    requires s.None? ==> m == d
    ensures m == Resolve(s, d, 1)
  {
  }

  lemma LookupKey(t: Tree, k: string)
    ensures Lookup(t, [k]) == if k in t then Some(t[k]) else None
  {
  }

  lemma MergedEntry(source: Tree, dest: Tree, k: string)
    ensures k in source && k in dest && source[k].Obj? && dest[k].Obj? ==>
      Merge(source, dest)[k] == Obj(Merge(dest[k].m, source[k].m))
    ensures k in source && !(k in dest && source[k].Obj? && dest[k].Obj?) ==> Merge(source, dest)[k] == source[k]
    ensures k !in source && k in dest ==> Merge(source, dest)[k] == dest[k]
  {
  }

  // -------------------------------------------------------------------
  // Agreement
  // -------------------------------------------------------------------

  /** a and b never hold an object and a leaf at the same shared path. */
  ghost predicate SameKinds(a: Tree, b: Tree)
    decreases Rank(a)
  {
    forall k :: k in a && k in b ==>
      a[k].Obj? == b[k].Obj? &&
      (a[k].Obj? ==> (ChildIsShallower(a, k); SameKinds(a[k].m, b[k].m)))
  }

  /** SameKinds, and leaves at a shared path are equal. */
  ghost predicate Agree(a: Tree, b: Tree)
    decreases Rank(a)
  {
    forall k :: k in a && k in b ==>
      if a[k].Obj? && b[k].Obj? then (ChildIsShallower(a, k); Agree(a[k].m, b[k].m)) else a[k] == b[k]
  }

  lemma {:induction false} MergeIdempotent(t: Tree)
    ensures Merge(t, t) == t
    decreases Rank(t)
  {
    forall k | k in t && t[k].Obj? ensures Merge(t[k].m, t[k].m) == t[k].m {
      ChildIsShallower(t, k);
      MergeIdempotent(t[k].m);
    }
  }

  lemma MergeEmpty(t: Tree)
    ensures Merge(t, map[]) == t && Merge(map[], t) == t
  {
    assert forall k :: k in t ==> Merge(t, map[])[k] == t[k];
    assert forall k :: k in t ==> Merge(map[], t)[k] == t[k];
  }

  /** MergeMaps commutes on exactly the pairs of trees that agree. */
  lemma {:induction false} MergeCommutesIffAgree(a: Tree, b: Tree)
    ensures Merge(a, b) == Merge(b, a) <==> Agree(a, b)
    decreases Rank(a)
  {
    forall k | k in a && k in b
      ensures Merge(a, b)[k] == Merge(b, a)[k] <==>
              (if a[k].Obj? && b[k].Obj? then Agree(a[k].m, b[k].m) else a[k] == b[k])
    {
      ChildIsShallower(a, k);
      if a[k].Obj? && b[k].Obj? {
        MergeCommutesIffAgree(a[k].m, b[k].m);
      }
    }
    assert forall k :: k in a && k !in b ==> Merge(a, b)[k] == Merge(b, a)[k];
    assert forall k :: k !in a && k in b ==> Merge(a, b)[k] == Merge(b, a)[k];
    if Agree(a, b) {
      assert Merge(a, b) == Merge(b, a);
    }
    if Merge(a, b) == Merge(b, a) {
      assert forall k :: k in a && k in b ==> Merge(a, b)[k] == Merge(b, a)[k];
    }
  }

  // -------------------------------------------------------------------
  // Associativity
  // -------------------------------------------------------------------

  /** Merging t into the tree changes nothing: t has no key of its own, and
      where it wins a conflict it holds what the tree holds. */
  ghost predicate AddsNothing(t: Tree, into: Tree, wins: bool)
    decreases Rank(into)
  {
    forall k :: k in t ==>
      k in into &&
      if t[k].Obj? && into[k].Obj? then (ChildIsShallower(into, k); AddsNothing(t[k].m, into[k].m, !wins))
      else wins ==> t[k] == into[k]
  }

  lemma {:induction false} AbsorbsIffAddsNothing(t: Tree, into: Tree, wins: bool)
    ensures (if wins then Merge(t, into) else Merge(into, t)) == into <==> AddsNothing(t, into, wins)
    decreases Rank(into)
  {
    var r := if wins then Merge(t, into) else Merge(into, t);
    forall k | k in t && k in into
      ensures r[k] == into[k] <==>
              (if t[k].Obj? && into[k].Obj? then AddsNothing(t[k].m, into[k].m, !wins) else wins ==> t[k] == into[k])
    {
      ChildIsShallower(into, k);
      if t[k].Obj? && into[k].Obj? {
        AbsorbsIffAddsNothing(t[k].m, into[k].m, !wins);
      }
    }
    if AddsNothing(t, into, wins) {
      assert forall k :: k in r ==> k in into && r[k] == into[k];
    }
    if r == into {
      assert forall k :: k in t ==> k in r;
    }
  }

  /** At no path that is reached in all three trees does a leaf of b stand
      between an object of a and an object of c that would change it. */
  ghost predicate Regroups(a: Tree, b: Tree, c: Tree)
    decreases Rank(a) + Rank(b) + Rank(c)
  {
    forall k :: k in a && k in b && k in c && a[k].Obj? && c[k].Obj? ==>
      if b[k].Obj? then
        ChildIsShallower(a, k); ChildIsShallower(b, k); ChildIsShallower(c, k);
        Regroups(c[k].m, b[k].m, a[k].m)
      else AddsNothing(c[k].m, a[k].m, true)
  }

  /** MergeMaps is associative on exactly these trees. */
  lemma {:induction false} MergeAssociatesIffRegroups(a: Tree, b: Tree, c: Tree)
    ensures Merge(Merge(a, b), c) == Merge(a, Merge(b, c)) <==> Regroups(a, b, c)
    decreases Rank(a) + Rank(b) + Rank(c)
  {
    var l, r := Merge(Merge(a, b), c), Merge(a, Merge(b, c));
    forall k | k in l && !(k in a && k in b && k in c && a[k].Obj? && c[k].Obj?) ensures l[k] == r[k] {
    }
    forall k | k in a && k in b && k in c && a[k].Obj? && c[k].Obj?
      ensures l[k] == r[k] <==>
              (if b[k].Obj? then Regroups(c[k].m, b[k].m, a[k].m) else AddsNothing(c[k].m, a[k].m, true))
    {
      RegroupAt(a, b, c, k);
      if b[k].Obj? {
        ChildIsShallower(a, k); ChildIsShallower(b, k); ChildIsShallower(c, k);
        MergeAssociatesIffRegroups(c[k].m, b[k].m, a[k].m);
      } else {
        AbsorbsIffAddsNothing(c[k].m, a[k].m, true);
      }
    }
    if Regroups(a, b, c) {
      assert forall k :: k in l ==> l[k] == r[k];
    }
    if l == r {
      assert forall k :: k in l ==> l[k] == r[k];
    }
  }

  lemma RegroupAt(a: Tree, b: Tree, c: Tree, k: string)
    requires k in a && k in b && k in c && a[k].Obj? && c[k].Obj?
    ensures Merge(Merge(a, b), c)[k] ==
            Obj(Merge(c[k].m, if b[k].Obj? then Merge(b[k].m, a[k].m) else a[k].m))
    ensures Merge(a, Merge(b, c))[k] ==
            if b[k].Obj? then Obj(Merge(Merge(c[k].m, b[k].m), a[k].m)) else a[k]
  {
  }

  /** In particular on trees of pairwise equal kinds. */
  lemma MergeAssociates(a: Tree, b: Tree, c: Tree)
    requires SameKinds(a, b) && SameKinds(a, c) && SameKinds(b, c)
    ensures Merge(Merge(a, b), c) == Merge(a, Merge(b, c))
  {
    SameKindsRegroup(a, b, c);
    MergeAssociatesIffRegroups(a, b, c);
  }

  lemma {:induction false} SameKindsRegroup(a: Tree, b: Tree, c: Tree)
    requires SameKinds(a, b) && SameKinds(a, c) && SameKinds(b, c)
    ensures Regroups(a, b, c)
    decreases Rank(a) + Rank(b) + Rank(c)
  {
    forall k | k in a && k in b && k in c && a[k].Obj? && c[k].Obj?
      ensures b[k].Obj? && Regroups(c[k].m, b[k].m, a[k].m)
    {
      ChildIsShallower(a, k); ChildIsShallower(b, k); ChildIsShallower(c, k);
      SameKindsSymmetric(a[k].m, b[k].m);
      SameKindsSymmetric(a[k].m, c[k].m);
      SameKindsSymmetric(b[k].m, c[k].m);
      SameKindsRegroup(c[k].m, b[k].m, a[k].m);
    }
  }

  lemma {:induction false} SameKindsSymmetric(a: Tree, b: Tree)
    requires SameKinds(a, b)
    ensures SameKinds(b, a)
    decreases Rank(a)
  {
    forall k | k in a && k in b && a[k].Obj? ensures SameKinds(b[k].m, a[k].m) {
      ChildIsShallower(a, k);
      SameKindsSymmetric(a[k].m, b[k].m);
    }
  }

  /** A leaf between two objects: grouping matters. */
  lemma MergeDoesNotAssociate()
    ensures
      var a: Tree := map["k" := Obj(map["x" := Leaf("1")])];
      var b: Tree := map["k" := Leaf("2")];
      var c: Tree := map["k" := Obj(map["y" := Leaf("3")])];
      Merge(Merge(a, b), c) != Merge(a, Merge(b, c))
  {
    var a: Tree := map["k" := Obj(map["x" := Leaf("1")])];
    var b: Tree := map["k" := Leaf("2")];
    var c: Tree := map["k" := Obj(map["y" := Leaf("3")])];
    assert "y" in c["k"].m && "y" !in a["k"].m;
    assert !AddsNothing(c["k"].m, a["k"].m, true);
    MergeAssociatesIffRegroups(a, b, c);
  }

  lemma {:induction false} AgreeSymmetric(a: Tree, b: Tree)
    requires Agree(a, b)
    ensures Agree(b, a)
    decreases Rank(a)
  {
    forall k | k in a && k in b && a[k].Obj? && b[k].Obj? ensures Agree(b[k].m, a[k].m) {
      ChildIsShallower(a, k);
      AgreeSymmetric(a[k].m, b[k].m);
    }
  }

  lemma {:induction false} AgreeIsSameKinds(a: Tree, b: Tree)
    requires Agree(a, b)
    ensures SameKinds(a, b)
    decreases Rank(a)
  {
    forall k | k in a && k in b && a[k].Obj? ensures b[k].Obj? && SameKinds(a[k].m, b[k].m) {
      ChildIsShallower(a, k);
      if b[k].Obj? {
        AgreeIsSameKinds(a[k].m, b[k].m);
      }
    }
  }

  /** Merging two trees that agree keeps the agreement with a third. */
  lemma {:induction false} MergeKeepsAgreement(a: Tree, b: Tree, c: Tree)
    requires Agree(a, b) && Agree(a, c) && Agree(b, c)
    ensures Agree(Merge(a, b), c)
    decreases Rank(a) + Rank(b)
  {
    var m := Merge(a, b);
    forall k | k in m && k in c
      ensures if m[k].Obj? && c[k].Obj? then Agree(m[k].m, c[k].m) else m[k] == c[k]
    {
      if k in a && k in b && a[k].Obj? && b[k].Obj? && c[k].Obj? {
        ChildIsShallower(a, k); ChildIsShallower(b, k);
        AgreeSymmetric(a[k].m, b[k].m);
        MergeKeepsAgreement(b[k].m, a[k].m, c[k].m);
      }
    }
  }
}
