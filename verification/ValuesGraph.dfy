/** The reference graph of the Values objects of a namespace, its walks, and
    what it means to unfold it to a bounded depth. */
module ValuesGraph {
  import opened JsonTree

  /** vals is the parsed spec.json document; refs maps keys to object names.
      A nil map of references behaves like an empty one. */
  datatype Values = Values(name: string, vals: Tree, refs: map<string, string>)

  type Cluster = map<string, Values>

  /** ValuesRef of internal/values/types.go. */
  datatype Entry = Entry(ref: Values, parent: string, key: string)

  /** An object fetched by name carries that name. */
  ghost predicate WellNamed(c: Cluster) {
    forall n :: n in c ==> c[n].name == n
  }

  /** The cut-off of collectValues: nothing is collected at depth 11. */
  const MAX_DEPTH := 11

  /** Following the keys of walk from o, every reference resolves. */
  predicate IsWalk(c: Cluster, o: Values, walk: seq<string>)
    decreases |walk|
  {
    walk == [] || (walk[0] in o.refs && o.refs[walk[0]] in c && IsWalk(c, c[o.refs[walk[0]]], walk[1..]))
  }

  function EndOf(c: Cluster, o: Values, walk: seq<string>): Values
    requires IsWalk(c, o, walk)
    decreases |walk|
  {
    if walk == [] then o else EndOf(c, c[o.refs[walk[0]]], walk[1..])
  }

  /** Every reference within the given number of levels resolves. */
  ghost predicate Resolvable(c: Cluster, o: Values, levels: nat)
    decreases levels, o
  {
    levels == 0 ||
    forall k :: k in o.refs ==> o.refs[k] in c && Resolvable(c, c[o.refs[k]], levels - 1)
  }

  /** A walk that ends before a reference without an object. */
  ghost predicate IsDangling(c: Cluster, o: Values, walk: seq<string>, k: string) {
    IsWalk(c, o, walk) && k in EndOf(c, o, walk).refs && EndOf(c, o, walk).refs[k] !in c
  }

  /** Every reference resolves if and only if no walk within reach ends before
      one that does not. */
  lemma {:induction false} ResolvableIffNothingDangles(c: Cluster, o: Values, levels: nat)
    ensures Resolvable(c, o, levels) <==> forall walk, k :: |walk| < levels ==> !IsDangling(c, o, walk, k)
    decreases levels
  {
    if levels > 0 {
      if Resolvable(c, o, levels) {
        forall walk, k | |walk| < levels ensures !IsDangling(c, o, walk, k) {
          if walk != [] && IsWalk(c, o, walk) {
            ResolvableIffNothingDangles(c, c[o.refs[walk[0]]], levels - 1);
            assert !IsDangling(c, c[o.refs[walk[0]]], walk[1..], k);
          }
        }
      } else {
        var k :| k in o.refs && !(o.refs[k] in c && Resolvable(c, c[o.refs[k]], levels - 1));
        if o.refs[k] !in c {
          assert IsDangling(c, o, [], k);
        } else {
          ResolvableIffNothingDangles(c, c[o.refs[k]], levels - 1);
          var walk, j :| |walk| < levels - 1 && IsDangling(c, c[o.refs[k]], walk, j);
          assert ([k] + walk)[1..] == walk;
          assert IsDangling(c, o, [k] + walk, j);
        }
      }
    }
  }

  lemma {:induction false} WalkPrefix(c: Cluster, o: Values, walk: seq<string>, n: nat)
    requires IsWalk(c, o, walk) && n <= |walk|
    ensures IsWalk(c, o, walk[..n])
    ensures IsWalk(c, EndOf(c, o, walk[..n]), walk[n..])
    ensures EndOf(c, o, walk) == EndOf(c, EndOf(c, o, walk[..n]), walk[n..])
    decreases |walk|
  {
    if n == 0 {
      assert walk[0..] == walk;
    } else {
      WalkPrefix(c, c[o.refs[walk[0]]], walk[1..], n - 1);
      assert walk[..n][1..] == walk[1..][..n - 1];
      assert walk[1..][n - 1..] == walk[n..];
    }
  }

  lemma {:induction false} WalkSnoc(c: Cluster, o: Values, walk: seq<string>, k: string)
    requires IsWalk(c, o, walk)
    requires var e := EndOf(c, o, walk); k in e.refs && e.refs[k] in c
    ensures IsWalk(c, o, walk + [k])
    ensures EndOf(c, o, walk + [k]) == c[EndOf(c, o, walk).refs[k]]
    decreases |walk|
  {
    if walk == [] {
      assert (walk + [k])[1..] == [];
    } else {
      WalkSnoc(c, c[o.refs[walk[0]]], walk[1..], k);
      assert (walk + [k])[1..] == walk[1..] + [k];
    }
  }

  /** The entry collected for the last reference of a walk. */
  function EntryAt(c: Cluster, o: Values, walk: seq<string>): (e: Entry)
    requires walk != [] && IsWalk(c, o, walk)
    ensures e.ref == EndOf(c, o, walk)
    decreases |walk|
  {
    if |walk| == 1 then Entry(c[o.refs[walk[0]]], o.name, walk[0])
    else EntryAt(c, c[o.refs[walk[0]]], walk[1..])
  }

  /** The entry's parent is the object before the last step, and the parent's
      reference under the entry's key leads to the entry's object. */
  lemma {:induction false} EntryIsReference(c: Cluster, o: Values, walk: seq<string>)
    requires walk != [] && IsWalk(c, o, walk)
    ensures
      var e := EntryAt(c, o, walk);
      var n := |walk| - 1;
      IsWalk(c, o, walk[..n]) &&
      var parent := EndOf(c, o, walk[..n]);
      e.parent == parent.name && e.key == walk[n] &&
      e.key in parent.refs && parent.refs[e.key] in c && e.ref == c[parent.refs[e.key]]
    decreases |walk|
  {
    var n := |walk| - 1;
    WalkPrefix(c, o, walk, n);
    if n == 0 {
      assert walk[..n] == [];
    } else {
      EntryIsReference(c, c[o.refs[walk[0]]], walk[1..]);
      assert walk[..n][1..] == walk[1..][..n - 1];
    }
  }

  // -------------------------------------------------------------------
  // Unfoldings
  // -------------------------------------------------------------------

  /** The entry at index i is that of walks[i], a walk of length 1 to levels
      that leaves o by one of keys. */
  ghost predicate Faithful(c: Cluster, o: Values, levels: nat, keys: set<string>, list: seq<Entry>, walks: seq<seq<string>>) {
    |list| == |walks| &&
    forall i :: 0 <= i < |walks| ==>
      1 <= |walks[i]| <= levels && walks[i][0] in keys && IsWalk(c, o, walks[i]) && list[i] == EntryAt(c, o, walks[i])
  }

  ghost predicate Distinct(walks: seq<seq<string>>) {
    forall i, j :: 0 <= i < j < |walks| ==> walks[i] != walks[j]
  }

  /** Every walk comes after all its extensions. */
  ghost predicate ExtensionsFirst(walks: seq<seq<string>>) {
    forall i, j :: 0 <= i < |walks| && 0 <= j < |walks| && walks[i] < walks[j] ==> j < i
  }

  ghost predicate Complete(c: Cluster, o: Values, levels: nat, keys: set<string>, walks: seq<seq<string>>) {
    forall w :: 1 <= |w| <= levels && IsWalk(c, o, w) && w[0] in keys ==> w in walks
  }

  /** list holds exactly one entry per walk of length 1 to levels that leaves o
      by one of keys; entries of longer walks stand before those they extend. */
  ghost predicate Unfolds(c: Cluster, o: Values, levels: nat, keys: set<string>, list: seq<Entry>, walks: seq<seq<string>>) {
    Faithful(c, o, levels, keys, list, walks) && Distinct(walks) && ExtensionsFirst(walks) &&
    Complete(c, o, levels, keys, walks)
  }

  function Prepend(k: string, walks: seq<seq<string>>): (r: seq<seq<string>>)
    ensures |r| == |walks| && forall i :: 0 <= i < |r| ==> r[i] == [k] + walks[i]
  {
    seq(|walks|, i requires 0 <= i < |walks| => [k] + walks[i])
  }

  lemma BranchFaithful(c: Cluster, o: Values, levels: nat, k: string, nested: seq<Entry>, inner: seq<seq<string>>)
    requires levels > 0 && k in o.refs && o.refs[k] in c
    requires var child := c[o.refs[k]]; Faithful(c, child, levels - 1, child.refs.Keys, nested, inner)
    ensures Faithful(c, o, levels, {k}, nested + [Entry(c[o.refs[k]], o.name, k)], Prepend(k, inner) + [[k]])
  {
    var list, outer := nested + [Entry(c[o.refs[k]], o.name, k)], Prepend(k, inner) + [[k]];
    forall i | 0 <= i < |outer|
      ensures 1 <= |outer[i]| <= levels && outer[i][0] == k && IsWalk(c, o, outer[i]) && list[i] == EntryAt(c, o, outer[i])
    {
      assert outer[i] == [k] + if i < |inner| then inner[i] else [];
      assert outer[i][1..] == if i < |inner| then inner[i] else [];
    }
  }

  lemma PrependKeepsPrefix(k: string, a: seq<string>, b: seq<string>)
    ensures [k] + a < [k] + b <==> a < b
    ensures [k] + a == [k] + b <==> a == b
  {
    assert ([k] + a)[1..] == a && ([k] + b)[1..] == b;
    if a < b {
      assert [k] + b == ([k] + a) + b[|a|..];
    }
  }

  lemma BranchOrder(k: string, inner: seq<seq<string>>)
    requires Distinct(inner) && ExtensionsFirst(inner) && [] !in inner
    ensures Distinct(Prepend(k, inner) + [[k]])
    ensures ExtensionsFirst(Prepend(k, inner) + [[k]])
  {
    var outer := Prepend(k, inner) + [[k]];
    forall i, j | 0 <= i < |outer| && 0 <= j < |outer|
      ensures i < j ==> outer[i] != outer[j]
      ensures outer[i] < outer[j] ==> j < i
    {
      if i < |inner| && j < |inner| {
        PrependKeepsPrefix(k, inner[i], inner[j]);
      } else if i < |inner| {
        assert |inner[i]| > 0;
      }
    }
  }

  lemma BranchComplete(c: Cluster, o: Values, levels: nat, k: string, inner: seq<seq<string>>)
    requires levels > 0 && k in o.refs && o.refs[k] in c
    requires var child := c[o.refs[k]]; Complete(c, child, levels - 1, child.refs.Keys, inner)
    ensures Complete(c, o, levels, {k}, Prepend(k, inner) + [[k]])
  {
    var outer := Prepend(k, inner) + [[k]];
    forall w | 1 <= |w| <= levels && IsWalk(c, o, w) && w[0] == k ensures w in outer {
      assert w == [k] + w[1..];
      if |w| == 1 {
        assert w == [k] == outer[|inner|];
      } else {
        var v, child := w[1..], c[o.refs[k]];
        assert IsWalk(c, child, v) && v[0] in child.refs.Keys;
        var i :| 0 <= i < |inner| && inner[i] == v;
        assert outer[i] == w;
      }
    }
  }

  /** Walks that leave by k: those of the referenced object, then k itself. */
  lemma BranchUnfolds(c: Cluster, o: Values, levels: nat, k: string, nested: seq<Entry>, inner: seq<seq<string>>)
    requires levels > 0 && k in o.refs && o.refs[k] in c
    requires var child := c[o.refs[k]]; Unfolds(c, child, levels - 1, child.refs.Keys, nested, inner)
    ensures Unfolds(c, o, levels, {k}, nested + [Entry(c[o.refs[k]], o.name, k)], Prepend(k, inner) + [[k]])
  {
    BranchFaithful(c, o, levels, k, nested, inner);
    BranchOrder(k, inner);
    BranchComplete(c, o, levels, k, inner);
  }

  lemma JoinOrder(walks: seq<seq<string>>, walks': seq<seq<string>>, k: string)
    requires Distinct(walks) && ExtensionsFirst(walks) && Distinct(walks') && ExtensionsFirst(walks')
    requires forall i :: 0 <= i < |walks| ==> walks[i] != [] && walks[i][0] != k
    requires forall i :: 0 <= i < |walks'| ==> walks'[i] != [] && walks'[i][0] == k
    ensures Distinct(walks + walks') && ExtensionsFirst(walks + walks')
  {
    var all, n := walks + walks', |walks|;
    forall i, j | 0 <= i < |all| && 0 <= j < |all|
      ensures i < j ==> all[i] != all[j]
      ensures all[i] < all[j] ==> j < i
    {
      if i < n && j < n {
        assert all[i] == walks[i] && all[j] == walks[j];
      } else if n <= i && n <= j {
        assert all[i] == walks'[i - n] && all[j] == walks'[j - n];
      } else {
        assert all[i][0] != all[j][0];
      }
    }
  }

  /** Branches through different keys are put one after the other. */
  lemma JoinBranches(c: Cluster, o: Values, levels: nat, keys: set<string>, k: string,
                     list: seq<Entry>, walks: seq<seq<string>>, list': seq<Entry>, walks': seq<seq<string>>)
    requires k !in keys
    requires Unfolds(c, o, levels, keys, list, walks)
    requires Unfolds(c, o, levels, {k}, list', walks')
    ensures Unfolds(c, o, levels, keys + {k}, list + list', walks + walks')
  {
    JoinFaithful(c, o, levels, keys, k, list, walks, list', walks');
    JoinOrder(walks, walks', k);
    JoinComplete(c, o, levels, keys, k, walks, walks');
  }

  lemma JoinFaithful(c: Cluster, o: Values, levels: nat, keys: set<string>, k: string,
                     list: seq<Entry>, walks: seq<seq<string>>, list': seq<Entry>, walks': seq<seq<string>>)
    requires Faithful(c, o, levels, keys, list, walks) && Faithful(c, o, levels, {k}, list', walks')
    ensures Faithful(c, o, levels, keys + {k}, list + list', walks + walks')
  {
    var all, n := walks + walks', |walks|;
    forall i | 0 <= i < |all|
      ensures 1 <= |all[i]| <= levels && all[i][0] in keys + {k} && IsWalk(c, o, all[i]) &&
              (list + list')[i] == EntryAt(c, o, all[i])
    {
      assert all[i] == if i < n then walks[i] else walks'[i - n];
    }
  }

  lemma JoinComplete(c: Cluster, o: Values, levels: nat, keys: set<string>, k: string,
                     walks: seq<seq<string>>, walks': seq<seq<string>>)
    requires Complete(c, o, levels, keys, walks) && Complete(c, o, levels, {k}, walks')
    ensures Complete(c, o, levels, keys + {k}, walks + walks')
  {
    forall w | 1 <= |w| <= levels && IsWalk(c, o, w) && w[0] in keys + {k} ensures w in walks + walks' {
      assert w in walks || w in walks';
    }
  }
}
