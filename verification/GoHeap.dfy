/** internal/utils/config.go on Go's mutable maps: a map is an object, a value
    of type interface{} is an atom or a reference to a map, and writing into a
    nested map is seen through every reference to it. */
module GoHeap {
  import opened JsonTree
  import opened MergeAlgebra
  import opened Nesting

  datatype Val = Atom(text: string) | Ref(o: GoMap)

  class GoMap {
    var m: map<string, Val>

    constructor (entries: map<string, Val>)
      ensures m == entries
    {
      m := entries;
    }
  }

  /** The map o, whose nested maps all lie in repr, spells out the tree t. */
  ghost predicate Represents(o: GoMap, t: Tree, repr: set<GoMap>)
    reads repr
    decreases Rank(t)
  {
    o in repr && o.m.Keys == t.Keys &&
    forall k :: k in t ==> (
      ChildIsShallower(t, k);
      match t[k]
      case Leaf(text) => o.m[k] == Atom(text)
      case Obj(sub) => o.m[k].Ref? && Represents(o.m[k].o, sub, repr))
  }

  ghost predicate RepresentsVal(v: Val, j: Json, repr: set<GoMap>)
    reads repr
  {
    match j
    case Leaf(text) => v == Atom(text)
    case Obj(sub) => v.Ref? && Represents(v.o, sub, repr)
  }

  lemma {:induction false} RepresentsGrows(o: GoMap, t: Tree, small: set<GoMap>, large: set<GoMap>)
    requires small <= large && Represents(o, t, small)
    ensures Represents(o, t, large)
    decreases Rank(t)
  {
    forall k | k in t && t[k].Obj? ensures Represents(o.m[k].o, t[k].m, large) {
      ChildIsShallower(t, k);
      RepresentsGrows(o.m[k].o, t[k].m, small, large);
    }
  }

  lemma RepresentsByEntry(o: GoMap, t: Tree, repr: set<GoMap>)
    requires o in repr && o.m.Keys == t.Keys
    requires forall k :: k in t ==> RepresentsVal(o.m[k], t[k], repr)
    ensures Represents(o, t, repr)
  {
  }

  lemma EntryRepresents(o: GoMap, t: Tree, repr: set<GoMap>, k: string)
    requires Represents(o, t, repr) && k in t
    ensures RepresentsVal(o.m[k], t[k], repr)
  {
  }

  /** for k, v := range source { target[k] = v } */
  method CopyInto(target: GoMap, source: GoMap)
    modifies target
    ensures target.m == old(target.m) + old(source.m)
  {
    var todo := source.m.Keys;
    while todo != {}
      invariant todo <= old(source.m).Keys
      invariant source != target ==> source.m == old(source.m)
      invariant forall k :: k in todo ==> k in source.m && source.m[k] == old(source.m)[k]
      invariant target.m == old(target.m) + map k | k in old(source.m) && k !in todo :: old(source.m)[k]
      decreases todo
    {
      var k :| k in todo;
      target.m := target.m[k := source.m[k]];
      todo := todo - {k};
    }
  }

  /** utils.CopyUntypedMap; a nil source gives an empty map. */
  method CopyUntypedMap(source: GoMap?) returns (vals: GoMap)
    ensures fresh(vals)
    ensures vals.m == if source == null then map[] else source.m
  {
    vals := new GoMap(map[]);
    if source != null {
      CopyInto(vals, source);
    }
  }

  /** All entries of t are spelled out by entries. */
  ghost predicate RepresentsAll(entries: map<string, Val>, t: Tree, keys: set<string>, repr: set<GoMap>)
    reads repr
  {
    forall k :: k in keys && k in t ==> k in entries && RepresentsVal(entries[k], t[k], repr)
  }

  lemma RepresentsAllGrows(entries: map<string, Val>, t: Tree, keys: set<string>, small: set<GoMap>, large: set<GoMap>)
    requires small <= large && RepresentsAll(entries, t, keys, small)
    ensures RepresentsAll(entries, t, keys, large)
  {
    forall k | k in keys && k in t && t[k].Obj? ensures Represents(entries[k].o, t[k].m, large) {
      RepresentsGrows(entries[k].o, t[k].m, small, large);
    }
  }

  lemma OneMore(entries: map<string, Val>, t: Tree, keys: set<string>, k: string, entry: Val,
                small: set<GoMap>, large: set<GoMap>)
    requires small <= large && RepresentsAll(entries, t, keys, small)
    requires k in t && RepresentsVal(entry, t[k], large)
    ensures RepresentsAll(entries[k := entry], t, keys + {k}, large)
  {
    RepresentsAllGrows(entries, t, keys, small, large);
  }

  /** utils.MergeMaps.  It has no modifies clause: neither argument, nor any
      map nested in them, is written.  The map being built is local until it
      is returned. */
  method MergeMaps(source: GoMap?, dest: GoMap?, ghost s: Tree, ghost d: Tree, ghost repr: set<GoMap>)
      returns (copy: GoMap?, ghost reached: set<GoMap>)
    requires source != null ==> Represents(source, s, repr)
    requires dest != null ==> Represents(dest, d, repr)
    ensures source == null || dest == null ==> copy == dest && reached == repr
    ensures source != null && dest != null ==> copy != null && fresh(copy) && Represents(copy, Merge(s, d), reached)
    ensures repr <= reached && fresh(reached - repr)
    decreases Rank(s) + Rank(d), 2
  {
    if source == null || dest == null {
      return dest, repr;
    }
    var entries;
    entries, reached := MergeEntries(source, dest, s, d, repr);
    copy, reached := Allocate(entries, Merge(s, d), reached);
  }

  /** Both loops of MergeMaps. */
  method MergeEntries(source: GoMap, dest: GoMap, ghost s: Tree, ghost d: Tree, ghost repr: set<GoMap>)
      returns (entries: map<string, Val>, ghost reached: set<GoMap>)
    requires Represents(source, s, repr) && Represents(dest, d, repr)
    ensures entries.Keys == Merge(s, d).Keys && RepresentsAll(entries, Merge(s, d), entries.Keys, reached)
    ensures repr <= reached && fresh(reached - repr)
    decreases Rank(s) + Rank(d), 1
  {
    reached := repr;
    entries := dest.m;
    ghost var merged := Merge(s, d);
    var todo := source.m.Keys;
    ghost var done: set<string> := {};
    assert RepresentsAll(dest.m, d, d.Keys, repr);
    while todo != {}
      invariant forall k :: k in s <==> k in done || k in todo
      invariant forall k :: k in todo ==> k !in done
      invariant repr <= reached && fresh(reached - repr)
      invariant forall k :: k in entries <==> k in d || k in done
      invariant forall k :: k in d && k !in done ==> entries[k] == dest.m[k]
      invariant RepresentsAll(entries, merged, done, reached)
      decreases todo
    {
      var k :| k in todo;
      ghost var before := reached;
      var entry := source.m[k];
      EntryRepresents(source, s, repr, k);
      if entry.Ref? {
        var merge: GoMap? := if k in entries && entries[k].Ref? then entries[k].o else null;
        entry, reached := MergeNested(source, dest, merge, entry.o, k, s, d, repr, reached);
      }
      OneMore(entries, merged, done, k, entry, before, reached);
      entries := entries[k := entry];
      todo := todo - {k};
      done := done + {k};
    }
    RepresentsAllGrows(dest.m, d, d.Keys, repr, reached);
  }

  method Allocate(entries: map<string, Val>, ghost t: Tree, ghost repr: set<GoMap>)
      returns (copy: GoMap, ghost reached: set<GoMap>)
    requires entries.Keys == t.Keys && RepresentsAll(entries, t, t.Keys, repr)
    ensures fresh(copy) && reached == repr + {copy} && Represents(copy, t, reached)
  {
    copy := new GoMap(entries);
    reached := repr + {copy};
    RepresentsAllGrows(entries, t, t.Keys, repr, reached);
    RepresentsByEntry(copy, t, reached);
  }

  /** The branch of MergeMaps for a value that is itself a map. */
  method MergeNested(source: GoMap, dest: GoMap, merge: GoMap?, temp: GoMap, k: string,
                     ghost s: Tree, ghost d: Tree, ghost repr: set<GoMap>, ghost before: set<GoMap>)
      returns (entry: Val, ghost reached: set<GoMap>)
    requires Represents(source, s, repr) && Represents(dest, d, repr) && repr <= before
    requires k in s && source.m[k] == Ref(temp)
    requires merge == if k in d && dest.m[k].Ref? then dest.m[k].o else null
    ensures before <= reached && fresh(reached - before)
    ensures RepresentsVal(entry, Merge(s, d)[k], reached)
    decreases Rank(s) + Rank(d), 0
  {
    ghost var left: Tree := if merge == null then map[] else d[k].m;
    ChildIsShallower(s, k);
    if merge != null {
      ChildIsShallower(d, k);
      RepresentsGrows(merge, left, repr, before);
    }
    RepresentsGrows(temp, s[k].m, repr, before);
    var nested;
    nested, reached := MergeMaps(merge, temp, left, s[k].m, before);
    entry := Ref(nested);
  }

  // -------------------------------------------------------------------
  // utils.MergeUntypedMaps
  // -------------------------------------------------------------------

  /** Every map nested anywhere below the entries lies in region. */
  ghost predicate Below(entries: map<string, Val>, region: set<GoMap>)
    reads region
  {
    (forall k :: k in entries && entries[k].Ref? ==> entries[k].o in region) &&
    (forall o, k :: o in region && k in o.m && o.m[k].Ref? ==> o.m[k].o in region)
  }

  method TrimKeys(keys: seq<string>) returns (trimmed: seq<string>)
    ensures trimmed == Trim(keys)
  {
    trimmed := [];
    for i := 0 to |keys|
      invariant trimmed == Trim(keys[..i])
    {
      assert keys[..i + 1] == keys[..i] + [keys[i]];
      TrimConcat(keys[..i], [keys[i]]);
      if keys[i] != "" {
        trimmed := trimmed + [keys[i]];
      }
    }
    assert keys[..|keys|] == keys;
  }

  lemma SameEntries(o: GoMap, o': GoMap, t: Tree, repr: set<GoMap>, large: set<GoMap>)
    requires Represents(o, t, repr) && o'.m == o.m && repr <= large && o' in large
    ensures Represents(o', t, large)
  {
    RepresentsGrows(o, t, repr, large);
  }

  lemma OneEntry(o: GoMap, k: string, sub: GoMap, t: Tree, repr: set<GoMap>)
    requires o in repr && o.m == map[k := Ref(sub)] && Represents(sub, t, repr)
    ensures Represents(o, map[k := Obj(t)], repr)
  {
    RepresentsByEntry(o, map[k := Obj(t)], repr);
  }

  /** utils.MergeUntypedMaps.  Maps nested in dest (all in region) are written
      in place; an empty dest has none, and then the result is NestOnEmpty.
      The loop over the trimmed keys does nothing after its second round
      (config.go:176-178), so its two rounds are written out. */
  method MergeUntypedMaps(dest: GoMap, source: GoMap, keys: seq<string>,
                          ghost region: set<GoMap>, ghost s: Tree, ghost repr: set<GoMap>)
      returns (copy: GoMap, ghost reached: set<GoMap>)
    requires Below(dest.m, region)
    requires Represents(source, s, repr)
    modifies region
    ensures fresh(copy)
    ensures old(dest.m) == map[] ==>
      repr <= reached && fresh(reached - repr) && Represents(copy, NestOnEmpty(Trim(keys), s), reached) &&
      forall o :: o in region ==> o.m == old(o.m)
    ensures Trim(keys) == [] ==>
      copy.m == old(dest.m) + old(source.m) && forall o :: o in region ==> o.m == old(o.m)
    ensures |Trim(keys)| == 1 ==>
      var k := Trim(keys)[0];
      k in copy.m && copy.m[k].Ref? &&
      copy.m == old(dest.m)[k := copy.m[k]] &&
      (forall o :: o in region && o != copy.m[k].o ==> o.m == old(o.m)) &&
      if k in old(dest.m) && old(dest.m)[k].Ref? then
        copy.m[k] == old(dest.m)[k] && copy.m[k].o.m == old(dest.m[k].o.m) + old(source.m)
      else
        fresh(copy.m[k].o) && copy.m[k].o.m == old(source.m)
    decreases |keys|, 3
  {
    var trimmed := TrimKeys(keys);
    TrimKeeps(trimmed);
    copy, reached := MergeTrimmed(dest, source, trimmed, region, s, repr);
  }

  /** MergeUntypedMaps once the blank keys are gone. */
  method MergeTrimmed(dest: GoMap, source: GoMap, trimmed: seq<string>,
                      ghost region: set<GoMap>, ghost s: Tree, ghost repr: set<GoMap>)
      returns (copy: GoMap, ghost reached: set<GoMap>)
    requires trimmed == Trim(trimmed) && Below(dest.m, region)
    requires Represents(source, s, repr)
    modifies region
    ensures fresh(copy)
    ensures old(dest.m) == map[] ==>
      repr <= reached && fresh(reached - repr) && Represents(copy, NestOnEmpty(trimmed, s), reached) &&
      forall o :: o in region ==> o.m == old(o.m)
    ensures trimmed == [] ==>
      copy.m == old(dest.m) + old(source.m) && forall o :: o in region ==> o.m == old(o.m)
    ensures |trimmed| == 1 ==>
      var k := trimmed[0];
      k in copy.m && copy.m[k].Ref? &&
      copy.m == old(dest.m)[k := copy.m[k]] &&
      (forall o :: o in region && o != copy.m[k].o ==> o.m == old(o.m)) &&
      if k in old(dest.m) && old(dest.m)[k].Ref? then
        copy.m[k] == old(dest.m)[k] && copy.m[k].o.m == old(dest.m[k].o.m) + old(source.m)
      else
        fresh(copy.m[k].o) && copy.m[k].o.m == old(source.m)
    decreases |trimmed|, 2
  {
    copy := CopyUntypedMap(dest);
    if trimmed == [] {
      reached := WriteAll(copy, source, s, repr);
    } else if |trimmed| == 1 {
      reached := OnlyRound(copy, trimmed[0], source, region, s, repr);
    } else {
      reached := BothRounds(copy, source, trimmed, region, s, repr);
    }
  }

  method BothRounds(copy: GoMap, source: GoMap, trimmed: seq<string>,
                    ghost region: set<GoMap>, ghost s: Tree, ghost repr: set<GoMap>)
      returns (ghost reached: set<GoMap>)
    requires |trimmed| >= 2 && trimmed == Trim(trimmed)
    requires Below(copy.m, region) && copy !in region && copy !in repr
    requires Represents(source, s, repr)
    modifies copy, region
    ensures old(copy.m) == map[] ==>
      repr <= reached && fresh(reached - repr - {copy}) && Represents(copy, NestOnEmpty(trimmed, s), reached) &&
      forall o :: o in region ==> o.m == old(o.m)
    decreases |trimmed|, 1
  {
    var helper := FirstRound(copy, trimmed[0]);
    reached := SecondRound(copy, helper, source, trimmed, region, s, repr);
  }

  /** One key: the whole effect of the first round. */
  method OnlyRound(copy: GoMap, k: string, source: GoMap, ghost region: set<GoMap>, ghost s: Tree, ghost repr: set<GoMap>)
      returns (ghost reached: set<GoMap>)
    requires Represents(source, s, repr) && copy !in region && copy !in repr
    requires k in copy.m && copy.m[k].Ref? ==> copy.m[k].o in region
    modifies copy, region
    ensures k in copy.m && copy.m[k].Ref? && copy.m == old(copy.m)[k := copy.m[k]]
    ensures forall o :: o in region && o != copy.m[k].o ==> o.m == old(o.m)
    ensures if k in old(copy.m) && old(copy.m)[k].Ref? then
              copy.m[k] == old(copy.m)[k] && copy.m[k].o.m == old(copy.m[k].o.m) + old(source.m)
            else
              fresh(copy.m[k].o) && copy.m[k].o.m == old(source.m)
    ensures old(copy.m) == map[] ==>
      repr + {copy} <= reached && fresh(reached - repr - {copy}) && Represents(copy, map[k := Obj(s)], reached)
  {
    ghost var blank := copy.m == map[];
    var helper := FirstRound(copy, k);
    ghost var inner := WriteAll(helper, source, s, repr);
    reached := inner + {copy};
    if blank {
      RepresentsGrows(helper, s, inner, reached);
      OneEntry(copy, k, helper, s, reached);
    }
  }

  method WriteAll(target: GoMap, source: GoMap, ghost s: Tree, ghost repr: set<GoMap>)
      returns (ghost reached: set<GoMap>)
    requires Represents(source, s, repr)
    modifies target
    ensures target.m == old(target.m) + old(source.m)
    ensures reached == repr + {target}
    ensures old(target.m) == map[] && target !in repr ==> Represents(target, s, reached)
  {
    ghost var blank := target.m == map[] && target !in repr;
    CopyInto(target, source);
    reached := repr + {target};
    if blank {
      assert target.m == source.m;
      SameEntries(source, target, s, repr, reached);
    }
  }

  /** The first round: copy[k] is the nested map to write in. */
  method FirstRound(copy: GoMap, k: string) returns (helper: GoMap)
    modifies copy
    ensures copy.m == old(copy.m)[k := Ref(helper)]
    ensures if k in old(copy.m) && old(copy.m)[k].Ref? then helper == old(copy.m)[k].o
            else fresh(helper) && helper.m == map[]
  {
    if !(k in copy.m && copy.m[k].Ref?) {
      var empty := new GoMap(map[]);
      copy.m := copy.m[k := Ref(empty)];
    }
    helper := copy.m[k].o;
  }

  lemma TrimTail(trimmed: seq<string>)
    requires |trimmed| >= 2 && trimmed == Trim(trimmed)
    ensures trimmed[2..] == Trim(trimmed[2..])
  {
    TrimKeeps(trimmed[2..]);
  }

  /** The second round of the loop: the second key is looked up in copy, but
      written in helper. */
  method SecondRound(copy: GoMap, helper: GoMap, source: GoMap, trimmed: seq<string>,
                     ghost region: set<GoMap>, ghost s: Tree, ghost repr: set<GoMap>)
      returns (ghost reached: set<GoMap>)
    requires |trimmed| >= 2 && trimmed == Trim(trimmed)
    requires copy != helper && copy !in region && copy !in repr
    requires Below(helper.m, region)
    requires Represents(source, s, repr)
    modifies region, helper
    ensures !(trimmed[1] in copy.m && copy.m[trimmed[1]].Ref?) ==>
      forall o :: o in region + {helper} ==> o.m == old(o.m)
    ensures old(helper.m) == map[] && helper !in repr && copy.m == map[trimmed[0] := Ref(helper)] ==>
      repr <= reached && fresh(reached - repr - {copy, helper}) &&
      Represents(copy, NestOnEmpty(trimmed, s), reached) &&
      forall o :: o in region && o != helper ==> o.m == old(o.m)
    decreases |trimmed|, 0
  {
    TrimTail(trimmed);
    ghost var onEmpty := helper.m == map[] && helper !in repr && copy.m == map[trimmed[0] := Ref(helper)];
    var k, second := trimmed[0], trimmed[1];
    ghost var t: Tree := map[];
    reached := repr + {copy, helper};
    if second in copy.m && copy.m[second].Ref? {
      var nested: GoMap;
      ghost var inner;
      nested, inner := Innermost(helper, second, source, trimmed[2..], region, s, repr);
      helper.m := helper.m[second := Ref(nested)];
      if onEmpty {
        ghost var below := NestOnEmpty(trimmed[2..], s);
        reached := inner + {copy, helper};
        t := map[second := Obj(below)];
        RepresentsGrows(nested, below, inner, reached);
        OneEntry(helper, second, nested, below, reached);
      }
    }
    if onEmpty {
      OneEntry(copy, k, helper, t, reached);
    }
  }

  /** What the second key is set to: for the last key the source itself or the
      map that is there, else the merge under the remaining keys. */
  method Innermost(helper: GoMap, second: string, source: GoMap, rest: seq<string>,
                   ghost region: set<GoMap>, ghost s: Tree, ghost repr: set<GoMap>)
      returns (nested: GoMap, ghost inner: set<GoMap>)
    requires rest == Trim(rest) && Below(helper.m, region) && Represents(source, s, repr)
    modifies region
    ensures old(helper.m) == map[] ==>
      repr <= inner && fresh(inner - repr) && Represents(nested, NestOnEmpty(rest, s), inner) &&
      forall o :: o in region ==> o.m == old(o.m)
    decreases |rest|, 4
  {
    inner := repr;
    if rest != [] {
      nested, inner := MergeUntypedMaps(helper, source, rest, region, s, repr);
    } else if second in helper.m && helper.m[second].Ref? {
      nested := helper.m[second].o;
      CopyInto(nested, source);
    } else {
      nested := source;
    }
  }
}
