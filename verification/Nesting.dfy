/** Where utils.MergeUntypedMaps puts its source when the destination is
    empty, the only destination the values engine passes
    (internal/values/values.go:223-225 with hv.Values empty). */
module Nesting {
  import opened JsonTree

  /** Blank keys are dropped first (internal/utils/config.go:151-156). */
  function Trim(keys: seq<string>): (r: seq<string>)
    ensures "" !in r && |r| <= |keys|
  {
    if keys == [] then []
    else (if keys[0] == "" then [] else [keys[0]]) + Trim(keys[1..])
  }

  lemma {:induction false} TrimConcat(a: seq<string>, b: seq<string>)
    ensures Trim(a + b) == Trim(a) + Trim(b)
  {
    if a == [] {
      assert a + b == b;
    } else {
      var k, rest := a[0], a[1..];
      assert (a + b)[0] == k && (a + b)[1..] == rest + b;
      TrimConcat(rest, b);
      var head := if k == "" then [] else [k];
      assert head + (Trim(rest) + Trim(b)) == (head + Trim(rest)) + Trim(b);
    }
  }

  lemma {:induction false} TrimKeeps(keys: seq<string>)
    requires "" !in keys
    ensures Trim(keys) == keys
  {
    if keys != [] {
      TrimKeeps(keys[1..]);
    }
  }

  /** The branches of MergeUntypedMaps on an empty destination: the second key
      is tested at the top level (config.go:179), where only the first key is. */
  function NestOnEmpty(keys: seq<string>, source: Tree): Tree {
    if keys == [] then source
    else if |keys| == 1 then map[keys[0] := Obj(source)]
    else if keys[0] != keys[1] then map[keys[0] := Obj(map[])]
    else map[keys[0] := Obj(map[keys[1] := Obj(NestOnEmpty(keys[2..], source))])]
  }

  /** source wrapped in one object per key. */
  function Nest(keys: seq<string>, source: Tree): Tree {
    if keys == [] then source else map[keys[0] := Obj(Nest(keys[1..], source))]
  }

  /** Keys 2i and 2i+1 are equal for every complete pair. */
  ghost predicate PairsEqual(keys: seq<string>) {
    forall i :: 0 <= i && 2 * i + 1 < |keys| ==> keys[2 * i] == keys[2 * i + 1]
  }

  /** The first key of the first unequal pair is at this index. */
  ghost function FirstSplit(keys: seq<string>): (n: nat)
    requires !PairsEqual(keys)
    ensures n % 2 == 0 && n + 1 < |keys| && keys[n] != keys[n + 1] && PairsEqual(keys[..n])
    decreases |keys|
  {
    if keys[0] != keys[1] then 0
    else
      PairsFromTail(keys);
      var rest := FirstSplit(keys[2..]);
      PairsFromTail(keys[..rest + 2]);
      assert keys[..rest + 2][2..] == keys[2..][..rest];
      rest + 2
  }

  lemma PairsFromTail(keys: seq<string>)
    requires |keys| >= 2 && keys[0] == keys[1]
    ensures PairsEqual(keys) <==> PairsEqual(keys[2..])
  {
    if PairsEqual(keys[2..]) {
      forall i | 0 <= i && 2 * i + 1 < |keys| ensures keys[2 * i] == keys[2 * i + 1] {
        if i > 0 {
          assert keys[2..][2 * (i - 1)] == keys[2..][2 * (i - 1) + 1];
        }
      }
    }
    if PairsEqual(keys) {
      forall i | 0 <= i && 2 * i + 1 < |keys[2..]| ensures keys[2..][2 * i] == keys[2..][2 * i + 1] {
        assert keys[2 * (i + 1)] == keys[2 * (i + 1) + 1];
      }
    }
  }

  lemma NestTwo(k: string, keys: seq<string>, source: Tree)
    ensures Nest([k, k] + keys, source) == map[k := Obj(map[k := Obj(Nest(keys, source))])]
  {
    assert ([k, k] + keys)[1..] == [k] + keys;
    assert ([k] + keys)[1..] == keys;
  }

  /** Equal pairs: the source ends up under exactly the key path. */
  lemma {:induction false} EqualPairsNest(keys: seq<string>, source: Tree)
    requires PairsEqual(keys)
    ensures NestOnEmpty(keys, source) == Nest(keys, source)
    decreases |keys|
  {
    if |keys| >= 2 {
      assert keys[2 * 0] == keys[2 * 0 + 1];
      PairsFromTail(keys);
      EqualPairsNest(keys[2..], source);
      assert keys == [keys[0], keys[0]] + keys[2..];
      NestTwo(keys[0], keys[2..], source);
    }
  }

  /** An unequal pair: the source is lost, and an empty object stands under
      the path up to the pair's first key. */
  lemma {:induction false} UnequalPairDrops(keys: seq<string>, source: Tree)
    requires !PairsEqual(keys)
    ensures NestOnEmpty(keys, source) == Nest(keys[..FirstSplit(keys) + 1], map[])
    decreases |keys|
  {
    if keys[0] != keys[1] {
      assert keys[..1][1..] == [];
    } else {
      PairsFromTail(keys);
      var rest := FirstSplit(keys[2..]);
      UnequalPairDrops(keys[2..], source);
      assert keys[..rest + 3] == [keys[0], keys[0]] + keys[2..][..rest + 1];
      NestTwo(keys[0], keys[2..][..rest + 1], map[]);
    }
  }

  lemma {:induction false} NestReaches(keys: seq<string>, source: Tree)
    requires keys != []
    ensures Lookup(Nest(keys, source), keys) == Some(Obj(source))
  {
    if |keys| > 1 {
      NestReaches(keys[1..], source);
    } else {
      assert keys[1..] == [];
    }
  }

  lemma {:induction false} ShortNestMisses(short: seq<string>, keys: seq<string>)
    requires short != [] && |short| < |keys| && short == keys[..|short|]
    ensures Lookup(Nest(short, map[]), keys) == None
    decreases |short|
  {
    if |short| > 1 {
      ShortNestMisses(short[1..], keys[1..]);
    } else {
      assert Nest(short, map[]) == map[keys[0] := Obj(map[])] by { assert short[1..] == []; }
    }
  }

  /** MergeUntypedMaps nests under the key path if and only if every complete
      pair of keys is equal. */
  lemma NestsIffPairsEqual(keys: seq<string>, source: Tree)
    ensures NestOnEmpty(keys, source) == Nest(keys, source) <==> PairsEqual(keys)
  {
    if PairsEqual(keys) {
      EqualPairsNest(keys, source);
    } else {
      UnequalPairDrops(keys, source);
      ShortNestMisses(keys[..FirstSplit(keys) + 1], keys);
      NestReaches(keys, source);
    }
  }
}
