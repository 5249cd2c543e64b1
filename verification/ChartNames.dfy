/** Names of chart files: how createTemplateConfigMap takes them apart
    (internal/chartversion/configmaps.go:142-184), and which names it keeps. */
module ChartNames {
  import opened JsonTree

  /** strings.SplitAfter(s, "/"). */
  function SplitAfter(s: string): (r: seq<string>)
    ensures r != []
  {
    if s == "" then [""]
    else if s[0] == '/' then ["/"] + SplitAfter(s[1..])
    else
      var rest := SplitAfter(s[1..]);
      [[s[0]] + rest[0]] + rest[1..]
  }

  /** strings.Replace(s, "/", "", 1). */
  function DropSlash(s: string): string {
    if s == "" then ""
    else if s[0] == '/' then s[1..]
    else [s[0]] + DropSlash(s[1..])
  }

  /** Where createTemplateConfigMap puts a file: nowhere, or under a key of the
      base ConfigMap (no directory) or of the directory's ConfigMap. */
  datatype Place = Skipped | At(dir: Option<string>, key: string)

  function PlaceOf(name: string): Place
    requires |SplitAfter(name)| > 1
  {
    var path := SplitAfter(name);
    if |path| > 3 then Skipped
    else if |path| == 2 then At(None, path[1])
    else
      var dir := DropSlash(path[1]);
      if dir == "tests" then Skipped else At(Some(dir), DropSlash(path[2]))
  }

  function Root(kind: string): string {
    if kind == "crds" then "crds/" else "templates/"
  }

  // -------------------------------------------------------------------
  // Places are names
  // -------------------------------------------------------------------

  /** Every piece but the last ends with its only slash; the last has none. */
  lemma {:induction false} Pieces(s: string)
    ensures
      var r := SplitAfter(s);
      (forall i :: 0 <= i < |r| - 1 ==> EndsWithSlash(r[i])) && '/' !in r[|r| - 1]
  {
    if s != "" {
      Pieces(s[1..]);
      var r := SplitAfter(s[1..]);
      if s[0] != '/' && |r| > 1 {
        assert EndsWithSlash(r[0]);
      }
    }
  }

  ghost predicate EndsWithSlash(s: string) {
    s != "" && s[|s| - 1] == '/' && '/' !in s[..|s| - 1]
  }

  function Concat(parts: seq<string>): string {
    if parts == [] then "" else parts[0] + Concat(parts[1..])
  }

  lemma {:induction false} ConcatSplit(s: string)
    ensures Concat(SplitAfter(s)) == s
  {
    if s != "" {
      ConcatSplit(s[1..]);
      assert s == [s[0]] + s[1..];
      if s[0] == '/' {
        assert (["/"] + SplitAfter(s[1..]))[1..] == SplitAfter(s[1..]);
      } else {
        ConcatHead(s[0], SplitAfter(s[1..]));
      }
    }
  }

  lemma ConcatHead(c: char, rest: seq<string>)
    requires rest != []
    ensures Concat([[c] + rest[0]] + rest[1..]) == [c] + Concat(rest)
  {
    assert ([[c] + rest[0]] + rest[1..])[1..] == rest[1..];
    assert ([c] + rest[0]) + Concat(rest[1..]) == [c] + (rest[0] + Concat(rest[1..]));
  }

  lemma {:induction false} DropSlashPlain(s: string)
    requires '/' !in s
    ensures DropSlash(s) == s
  {
    if s != "" {
      DropSlashPlain(s[1..]);
      assert [s[0]] + s[1..] == s;
    }
  }

  lemma {:induction false} DropSlashLast(s: string)
    requires EndsWithSlash(s)
    ensures DropSlash(s) + "/" == s
  {
    if |s| > 1 {
      assert s[..|s| - 1][0] == s[0];
      assert s[1..][..|s| - 2] == s[..|s| - 1][1..];
      DropSlashLast(s[1..]);
      assert [s[0]] + (DropSlash(s[1..]) + "/") == ([s[0]] + DropSlash(s[1..])) + "/";
      assert [s[0]] + s[1..] == s;
    }
  }

  /** The name of a file spelled from its root and its place. */
  function NameAt(root: string, dir: Option<string>, key: string): string {
    root + (match dir case None => "" case Some(d) => d + "/") + key
  }

  lemma NameFromPlace(name: string)
    requires |SplitAfter(name)| > 1 && PlaceOf(name).At?
    ensures name == NameAt(SplitAfter(name)[0], PlaceOf(name).dir, PlaceOf(name).key)
  {
    var path := SplitAfter(name);
    Pieces(name);
    ConcatSplit(name);
    if |path| == 2 {
      assert path == [path[0], path[1]];
      ConcatTwo(path[0], path[1]);
    } else {
      assert path == [path[0], path[1], path[2]];
      ConcatThree(path[0], path[1], path[2]);
      DropSlashLast(path[1]);
      DropSlashPlain(path[2]);
    }
  }

  lemma ConcatTwo(a: string, b: string)
    ensures Concat([a, b]) == a + b
  {
    assert [b][1..] == [] && b + "" == b;
    assert Concat([b]) == b;
    assert [a, b][1..] == [b];
  }

  lemma ConcatThree(a: string, b: string, c: string)
    ensures Concat([a, b, c]) == a + b + c
  {
    assert [a, b, c][1..] == [b, c];
    ConcatTwo(b, c);
    assert a + (b + c) == a + b + c;
  }

  // -------------------------------------------------------------------
  // The names that are kept
  // -------------------------------------------------------------------

  /** name is that of a file in the root directory of its kind, or in a
      directory below it that is not called tests; nothing is any deeper. */
  ghost predicate Spells(kind: string, name: string, dir: Option<string>, key: string) {
    '/' !in key &&
    name == (if kind == "crds" then "crds/" else "templates/") + (if dir.Some? then dir.value + "/" else "") + key &&
    (dir.Some? ==> '/' !in dir.value && dir.value != "tests")
  }

  lemma {:induction false} SplitPlain(s: string)
    requires '/' !in s
    ensures SplitAfter(s) == [s]
  {
    if s != "" {
      SplitPlain(s[1..]);
      assert [s[0]] + s[1..] == s;
    }
  }

  lemma {:induction false} SplitFirst(a: string, b: string)
    requires EndsWithSlash(a)
    ensures SplitAfter(a + b) == [a] + SplitAfter(b)
    decreases |a|
  {
    assert (a + b)[0] == a[0] && (a + b)[1..] == a[1..] + b;
    if |a| > 1 {
      assert a[..|a| - 1][0] == a[0];
      assert a[1..][..|a| - 2] == a[..|a| - 1][1..];
      SplitFirst(a[1..], b);
      assert [a[0]] + a[1..] == a;
      assert ([a[1..]] + SplitAfter(b))[1..] == SplitAfter(b);
    } else {
      assert a == "/" && a[1..] + b == b;
    }
  }

  lemma SlashEnds(d: string)
    requires '/' !in d
    ensures EndsWithSlash(d + "/") && DropSlash(d + "/") == d
  {
    var s := d + "/";
    assert s[..|s| - 1] == d;
    DropSlashLast(s);
    assert (DropSlash(s) + "/")[..|s| - 1] == DropSlash(s);
  }

  lemma RootEnds(kind: string)
    ensures EndsWithSlash(Root(kind))
  {
    assert |"crds/"| == 5 && "crds/"[4] == '/' && "crds/"[..4] == "crds";
    assert |"templates/"| == 10 && "templates/"[9] == '/' && "templates/"[..9] == "templates";
    assert '/' !in "crds" && '/' !in "templates";
  }

  /** What a kept name is split into. */
  lemma SplitOfSpelled(kind: string, name: string, dir: Option<string>, key: string)
    requires Spells(kind, name, dir, key)
    ensures SplitAfter(name) == if dir.Some? then [Root(kind), dir.value + "/", key] else [Root(kind), key]
  {
    RootEnds(kind);
    SplitPlain(key);
    if dir.Some? {
      SplitBelow(Root(kind), dir.value, key);
      assert name == Root(kind) + (dir.value + "/") + key;
    } else {
      SplitFirst(Root(kind), key);
      assert name == Root(kind) + key;
    }
  }

  lemma SplitBelow(root: string, d: string, key: string)
    requires EndsWithSlash(root) && '/' !in d && '/' !in key
    ensures SplitAfter(root + (d + "/") + key) == [root, d + "/", key]
  {
    SplitPlain(key);
    SlashEnds(d);
    SplitFirst(d + "/", key);
    SplitFirst(root, d + "/" + key);
    assert root + (d + "/") + key == root + (d + "/" + key);
  }

  /** A name that starts with the root of its kind is put at a place if and only
      if it spells it. */
  lemma PlaceIffSpells(kind: string, name: string, dir: Option<string>, key: string)
    requires |SplitAfter(name)| > 1 && SplitAfter(name)[0] == Root(kind)
    ensures PlaceOf(name) == At(dir, key) <==> Spells(kind, name, dir, key)
  {
    if PlaceOf(name) == At(dir, key) {
      PlaceIsSpelled(kind, name);
    }
    if Spells(kind, name, dir, key) {
      SplitOfSpelled(kind, name, dir, key);
      DropSlashPlain(key);
      if dir.Some? {
        SlashEnds(dir.value);
      }
    }
  }

  lemma PlaceIsSpelled(kind: string, name: string)
    requires |SplitAfter(name)| > 1 && SplitAfter(name)[0] == Root(kind) && PlaceOf(name).At?
    ensures Spells(kind, name, PlaceOf(name).dir, PlaceOf(name).key)
  {
    var path := SplitAfter(name);
    NameFromPlace(name);
    Pieces(name);
    if |path| == 3 {
      DropSlashPlain(path[2]);
      DropSlashLast(path[1]);
      assert (DropSlash(path[1]) + "/")[..|path[1]| - 1] == DropSlash(path[1]);
    }
  }
}
