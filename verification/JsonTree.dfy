/** Parsed JSON documents, as encoding/json delivers them: an object is a
    string-keyed map, and every other value (string, number, boolean, null,
    array) is a leaf that the values engine never looks into. */
module JsonTree {

  datatype Json = Leaf(text: string) | Obj(m: map<string, Json>)

  type Tree = map<string, Json>

  datatype Option<+T> = None | Some(value: T)

  ghost function MaxOf(s: set<nat>): (m: nat)
    ensures forall x :: x in s ==> x <= m
  {
    if s == {} then
      0
    else
      var x :| x in s;
      var rest := MaxOf(s - {x});
      assert s == (s - {x}) + {x};
      if x > rest then x else rest
  }

  /** Nesting depth; a child is strictly shallower than the object holding it. */
  ghost function Depth(j: Json): (d: nat)
    ensures j.Obj? ==> forall k :: k in j.m ==> Depth(j.m[k]) < d
  {
    match j
    case Leaf(_) => 0
    case Obj(m) =>
      var depths := set k | k in m :: Depth(m[k]);
      assert forall k :: k in m ==> Depth(m[k]) in depths;
      1 + MaxOf(depths)
  }

  ghost function Rank(t: Tree): nat {
    Depth(Obj(t))
  }

  lemma ChildIsShallower(t: Tree, k: string)
    requires k in t
    ensures Depth(t[k]) < Rank(t)
    ensures t[k].Obj? ==> Rank(t[k].m) < Rank(t)
  {
    assert Obj(t).m == t;
    assert t[k].Obj? ==> Obj(t[k].m) == t[k];
  }

  /** The value at a key path, None when the path leaves the tree. */
  function Lookup(t: Tree, path: seq<string>): (r: Option<Json>)
    requires path != []
    decreases |path|
  {
    if path[0] !in t then None
    else if |path| == 1 then Some(t[path[0]])
    else if t[path[0]].Obj? then Lookup(t[path[0]].m, path[1..])
    else None
  }
}
