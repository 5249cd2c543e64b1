/** Reading the ConfigMaps of a chart version back into files
    (internal/chartversion/files.go:16-95), and what survives the round trip. */
module ChartFilesReload {
  import opened JsonTree
  import opened ChartNames
  import opened ChartFiles

  function BaseName(kind: string, cm: ConfigMap): string {
    Root(kind) + if cm.subName != "" then cm.subName + "/" else ""
  }

  /** at[n] says which ConfigMap and key the n-th file was read from. */
  ghost predicate IsReading(kind: string, cms: seq<ConfigMap>, out: seq<File>, at: seq<(nat, string)>) {
    |at| == |out| &&
    (forall n :: 0 <= n < |at| ==> ReadFrom(kind, cms, out[n], at[n])) &&
    (forall n, m :: 0 <= n < m < |at| ==> at[n] != at[m]) &&
    (forall c: nat, key :: c < |cms| && key in cms[c].files ==> (c, key) in at)
  }

  ghost predicate ReadFrom(kind: string, cms: seq<ConfigMap>, f: File, at: (nat, string)) {
    at.0 < |cms| && at.1 in cms[at.0].files &&
    f == File(BaseName(kind, cms[at.0]) + at.1, cms[at.0].files[at.1])
  }

  ghost predicate CanRead(kind: string, cms: seq<ConfigMap>, out: seq<File>) {
    exists at :: IsReading(kind, cms, out, at)
  }

  /** appendFilesFromConfigMap: ConfigMaps in the order of the list call, the
      keys of each in any order. */
  method AppendFiles(kind: string, cms: seq<ConfigMap>) returns (out: seq<File>, ghost at: seq<(nat, string)>)
    ensures IsReading(kind, cms, out, at)
    ensures CanRead(kind, cms, out)
  {
    out, at := [], [];
    for c := 0 to |cms|
      invariant IsReading(kind, cms[..c], out, at)
    {
      var more;
      ghost var keys;
      more, keys := AppendMap(kind, cms[c]);
      AppendReading(kind, cms, c, out, at, more, keys);
      out, at := out + more, at + Tag(c, keys);
    }
    assert cms[..|cms|] == cms;
  }

  function Tag(c: nat, keys: seq<string>): (r: seq<(nat, string)>)
    ensures |r| == |keys| && forall n :: 0 <= n < |r| ==> r[n] == (c, keys[n])
  {
    seq(|keys|, n requires 0 <= n < |keys| => (c, keys[n]))
  }

  ghost predicate IsMapReading(kind: string, cm: ConfigMap, out: seq<File>, keys: seq<string>) {
    |keys| == |out| &&
    (forall n :: 0 <= n < |keys| ==>
      keys[n] in cm.files && out[n] == File(BaseName(kind, cm) + keys[n], cm.files[keys[n]])) &&
    (forall n, m :: 0 <= n < m < |keys| ==> keys[n] != keys[m]) &&
    (forall key :: key in cm.files ==> key in keys)
  }

  method AppendMap(kind: string, cm: ConfigMap) returns (out: seq<File>, ghost keys: seq<string>)
    ensures IsMapReading(kind, cm, out, keys)
  {
    out, keys := [], [];
    var baseName := BaseName(kind, cm);
    var todo := cm.files.Keys;
    while todo != {}
      invariant todo <= cm.files.Keys && |keys| == |out|
      invariant forall n :: 0 <= n < |keys| ==>
        keys[n] in cm.files && out[n] == File(baseName + keys[n], cm.files[keys[n]])
      invariant forall n, m :: 0 <= n < m < |keys| ==> keys[n] != keys[m]
      invariant forall key :: key in cm.files ==> (key in keys <==> key !in todo)
      decreases todo
    {
      var key :| key in todo;
      out, keys := out + [File(baseName + key, cm.files[key])], keys + [key];
      todo := todo - {key};
    }
  }

  lemma AppendReading(kind: string, cms: seq<ConfigMap>, c: nat, out: seq<File>, at: seq<(nat, string)>,
                      more: seq<File>, keys: seq<string>)
    requires c < |cms| && IsReading(kind, cms[..c], out, at) && IsMapReading(kind, cms[c], more, keys)
    ensures IsReading(kind, cms[..c + 1], out + more, at + Tag(c, keys))
  {
    var all, files := at + Tag(c, keys), out + more;
    forall n | 0 <= n < |all|
      ensures ReadFrom(kind, cms[..c + 1], files[n], all[n])
      ensures n < |at| ==> all[n].0 < c
      ensures n >= |at| ==> all[n].0 == c
    {
      if n < |at| {
        assert ReadFrom(kind, cms[..c], out[n], at[n]);
      } else {
        assert all[n] == (c, keys[n - |at|]);
      }
    }
    forall n, m | 0 <= n < m < |all| ensures all[n] != all[m] {
      if m < |at| {
        assert at[n] != at[m];
      } else if n >= |at| {
        assert keys[n - |at|] != keys[m - |at|];
      }
    }
    AllRead(kind, cms, c, out, at, more, keys);
  }

  lemma AllRead(kind: string, cms: seq<ConfigMap>, c: nat, out: seq<File>, at: seq<(nat, string)>,
                more: seq<File>, keys: seq<string>)
    requires c < |cms| && IsReading(kind, cms[..c], out, at) && IsMapReading(kind, cms[c], more, keys)
    ensures forall d: nat, key :: d < c + 1 && key in cms[..c + 1][d].files ==> (d, key) in at + Tag(c, keys)
  {
    forall d: nat, key | d < c + 1 && key in cms[..c + 1][d].files ensures (d, key) in at + Tag(c, keys) {
      if d < c {
        assert key in cms[..c][d].files;
      } else {
        var n :| 0 <= n < |keys| && keys[n] == key;
        assert (at + Tag(c, keys))[|at| + n] == (d, key);
      }
    }
  }

  // -------------------------------------------------------------------
  // The round trip
  // -------------------------------------------------------------------

  predicate IsFiled(f: File)
    requires |SplitAfter(f.name)| > 1
  {
    PlaceOf(f.name).At?
  }

  /** The files that createTemplateConfigMap does not skip. */
  ghost function Filed(list: seq<File>): set<nat>
    requires Storable(list)
  {
    set i: nat | i < |list| && IsFiled(list[i])
  }

  /** No two of them have the same name. */
  ghost predicate FiledUnique(list: seq<File>)
    requires Storable(list)
  {
    forall i: nat, j: nat :: i in Filed(list) && j in Filed(list) && list[i].name == list[j].name ==> i == j
  }

  /** No two files go to the same place. */
  ghost predicate PlacesDiffer(ps: seq<Placed>) {
    forall i: nat, j: nat, p: Place :: p.At? && Holds(ps, p, i) && Holds(ps, p, j) ==> i == j
  }

  lemma PlacesDifferIffNamesDo(kind: string, list: seq<File>)
    requires OneKind(kind, list)
    ensures PlacesDiffer(Places(list)) <==> FiledUnique(list)
  {
    var ps := Places(list);
    if FiledUnique(list) {
      forall i: nat, j: nat, p: Place | p.At? && Holds(ps, p, i) && Holds(ps, p, j) ensures i == j {
        assert list[i] in list && list[j] in list;
        NameFromPlace(list[i].name);
        NameFromPlace(list[j].name);
        assert i in Filed(list) && j in Filed(list);
      }
    }
    if PlacesDiffer(ps) {
      forall i: nat, j: nat | i in Filed(list) && j in Filed(list) && list[i].name == list[j].name ensures i == j {
        assert Holds(ps, PlaceOf(list[i].name), i) && Holds(ps, PlaceOf(list[i].name), j);
      }
    }
  }

  /** At different places nothing is overwritten. */
  lemma {:induction false} FilesInAt(ps: seq<Placed>, dir: Option<string>, key: string, i: nat)
    requires PlacesDiffer(ps) && Holds(ps, At(dir, key), i)
    ensures key in FilesIn(ps, dir) && FilesIn(ps, dir)[key] == ps[i].data
  {
    var n := |ps| - 1;
    var init, last := ps[..n], ps[n];
    assert ps == init + [last];
    PlaceSnoc(init, last, dir);
    if i < n {
      forall i: nat, j: nat, p: Place | p.At? && Holds(init, p, i) && Holds(init, p, j) ensures i == j {
        assert Holds(ps, p, i) && Holds(ps, p, j);
      }
      assert Holds(init, At(dir, key), i);
      FilesInAt(init, dir, key, i);
      assert !Holds(ps, At(dir, key), n);
    }
  }

  /** What a stored file comes back as: its bytes under root and base name. */
  function Returned(kind: string, f: File): File
    requires |SplitAfter(f.name)| > 1 && IsFiled(f)
  {
    File(Root(kind) + PlaceOf(f.name).key, f.data)
  }

  /** A file keeps its name if and only if it lies directly in the root. */
  lemma NameKeptIffInRoot(kind: string, f: File)
    requires |SplitAfter(f.name)| > 1 && IsFiled(f) && SplitAfter(f.name)[0] == Root(kind)
    ensures Returned(kind, f).name == f.name <==> PlaceOf(f.name).dir == None
  {
    NameFromPlace(f.name);
    if PlaceOf(f.name).dir.Some? {
      assert |f.name| > |Root(kind) + PlaceOf(f.name).key|;
    }
  }

  /** from is a bijection from the files read to the files stored, that is all
      but the skipped ones; each comes back once, with its bytes. */
  ghost predicate ConservesFiled(kind: string, list: seq<File>, out: seq<File>, from: seq<nat>)
    requires Storable(list)
  {
    |from| == |out| &&
    (forall n :: 0 <= n < |from| ==> from[n] in Filed(list) && out[n] == Returned(kind, list[from[n]])) &&
    Unrepeated(from) &&
    (forall i :: i in Filed(list) ==> i in from)
  }

  // -------------------------------------------------------------------
  // The same by names
  // -------------------------------------------------------------------

  /** A name that is kept when the files of a kind are stored. */
  ghost predicate IsKept(kind: string, name: string) {
    exists dir, key :: Spells(kind, name, dir, key)
  }

  /** out has the bytes of f, under the root and the last part of its name. */
  ghost predicate IsReturned(kind: string, f: File, out: File) {
    exists dir, key :: Spells(kind, f.name, dir, key) &&
      out == File((if kind == "crds" then "crds/" else "templates/") + key, f.data)
  }

  /** No two kept files have the same name. */
  ghost predicate NamesUnique(kind: string, list: seq<File>) {
    forall i, j :: 0 <= i < |list| && 0 <= j < |list| && IsKept(kind, list[i].name) && list[i].name == list[j].name ==> i == j
  }

  /** from is a bijection from the files read to the files with kept names. */
  ghost predicate Conserves(kind: string, list: seq<File>, out: seq<File>, from: seq<nat>) {
    |from| == |out| && Unrepeated(from) &&
    (forall n :: 0 <= n < |from| ==> from[n] < |list| && IsReturned(kind, list[from[n]], out[n])) &&
    (forall i: nat :: i < |list| && IsKept(kind, list[i].name) ==> i in from)
  }

  /** out holds each file with a kept name exactly once, with its bytes, and
      nothing else, in some order. */
  ghost predicate ComesBack(kind: string, list: seq<File>, out: seq<File>) {
    exists from :: Conserves(kind, list, out, from)
  }

  lemma KeptIsFiled(kind: string, list: seq<File>, i: nat)
    requires OneKind(kind, list) && i < |list|
    ensures IsKept(kind, list[i].name) <==> i in Filed(list)
    ensures i in Filed(list) ==> forall out :: IsReturned(kind, list[i], out) <==> out == Returned(kind, list[i])
  {
    var name := list[i].name;
    assert list[i] in list;
    if IsFiled(list[i]) {
      PlaceIffSpells(kind, name, PlaceOf(name).dir, PlaceOf(name).key);
      forall dir, key | Spells(kind, name, dir, key) ensures key == PlaceOf(name).key {
        PlaceIffSpells(kind, name, dir, key);
      }
    }
    if IsKept(kind, name) {
      var dir, key :| Spells(kind, name, dir, key);
      PlaceIffSpells(kind, name, dir, key);
    }
  }

  lemma UniqueByNames(kind: string, list: seq<File>)
    requires OneKind(kind, list)
    ensures NamesUnique(kind, list) <==> FiledUnique(list)
  {
    forall i: nat | i < |list| ensures IsKept(kind, list[i].name) <==> i in Filed(list) {
      KeptIsFiled(kind, list, i);
    }
    if FiledUnique(list) {
      forall i, j | 0 <= i < |list| && 0 <= j < |list| && IsKept(kind, list[i].name) && list[i].name == list[j].name ensures i == j {
        assert i in Filed(list) && j in Filed(list);
      }
    }
  }

  lemma ConservesByNames(kind: string, list: seq<File>, out: seq<File>, from: seq<nat>)
    requires OneKind(kind, list)
    ensures Conserves(kind, list, out, from) <==> ConservesFiled(kind, list, out, from)
  {
    forall i: nat | i < |list|
      ensures IsKept(kind, list[i].name) <==> i in Filed(list)
      ensures i in Filed(list) ==> forall out :: IsReturned(kind, list[i], out) <==> out == Returned(kind, list[i])
    {
      KeptIsFiled(kind, list, i);
    }
    if Conserves(kind, list, out, from) {
      forall n | 0 <= n < |from| ensures from[n] in Filed(list) && out[n] == Returned(kind, list[from[n]]) {
        assert IsReturned(kind, list[from[n]], out[n]);
        assert IsKept(kind, list[from[n]].name);
      }
    }
    if ConservesFiled(kind, list, out, from) {
      forall n | 0 <= n < |from| ensures from[n] < |list| && IsReturned(kind, list[from[n]], out[n]) {
        assert from[n] in Filed(list);
      }
    }
  }

  lemma ComesBackByNames(kind: string, list: seq<File>, out: seq<File>)
    requires OneKind(kind, list)
    ensures ComesBack(kind, list, out) <==> FiledComesBack(kind, list, out)
  {
    if from :| Conserves(kind, list, out, from) {
      ConservesByNames(kind, list, out, from);
    }
    if from :| ConservesFiled(kind, list, out, from) {
      ConservesByNames(kind, list, out, from);
    }
  }

  ghost predicate Unrepeated(s: seq<nat>) {
    forall n, m :: 0 <= n < m < |s| ==> s[n] != s[m]
  }

  /** out is list without the skipped files, in some order, each file once with
      its bytes and the name it comes back under. */
  ghost predicate FiledComesBack(kind: string, list: seq<File>, out: seq<File>)
    requires Storable(list)
  {
    exists from :: ConservesFiled(kind, list, out, from)
  }

  /** Whose ConfigMap a listed one is: the chart version's own, for a
      directory, or one that only carries the same labels. */
  datatype Origin = Own(dir: Option<string>) | Foreign

  /** Among the listed ConfigMaps are those that the chart version stores, each
      once; the others are foreign. */
  ghost predicate IsListed(id: ChartId, kind: string, ps: seq<Placed>, cms: seq<ConfigMap>, origins: seq<Origin>) {
    |origins| == |cms| && Own(None) in origins &&
    (forall i, j :: 0 <= i < j < |origins| && origins[i].Own? ==> origins[i] != origins[j]) &&
    (forall d :: Own(Some(d)) in origins <==> UsesDir(ps, d)) &&
    (forall i :: 0 <= i < |cms| && origins[i].Own? ==>
      cms[i] == NewMap(id, kind, origins[i].dir, FilesIn(ps, origins[i].dir)))
  }

  /** No foreign ConfigMap holds a file. */
  ghost predicate ForeignEmpty(cms: seq<ConfigMap>, origins: seq<Origin>)
    requires |origins| == |cms|
  {
    forall i :: 0 <= i < |cms| && origins[i].Foreign? ==> cms[i].files == map[]
  }

  /** What was read at (c, key) has its source at i. */
  ghost predicate ComesFrom(ps: seq<Placed>, origins: seq<Origin>, at: (nat, string), i: nat) {
    at.0 < |origins| && origins[at.0].Own? && Holds(ps, At(origins[at.0].dir, at.1), i)
  }

  lemma SourceOf(id: ChartId, kind: string, ps: seq<Placed>, cms: seq<ConfigMap>, origins: seq<Origin>,
                 f: File, at: (nat, string)) returns (i: nat)
    requires IsListed(id, kind, ps, cms, origins) && ForeignEmpty(cms, origins) && ReadFrom(kind, cms, f, at)
    ensures ComesFrom(ps, origins, at, i)
  {
    assert origins[at.0].Own?;
    KeyIsPlaced(ps, origins[at.0].dir, at.1);
    i :| Holds(ps, At(origins[at.0].dir, at.1), i);
  }

  lemma {:induction false} Sources(id: ChartId, kind: string, ps: seq<Placed>, cms: seq<ConfigMap>, origins: seq<Origin>,
                                   out: seq<File>, at: seq<(nat, string)>) returns (from: seq<nat>)
    requires IsListed(id, kind, ps, cms, origins) && ForeignEmpty(cms, origins)
    requires |out| == |at| && forall n :: 0 <= n < |at| ==> ReadFrom(kind, cms, out[n], at[n])
    ensures |from| == |at|
    ensures forall n :: 0 <= n < |from| ==> ComesFrom(ps, origins, at[n], from[n])
    decreases |at|
  {
    if at == [] {
      from := [];
    } else {
      var n := |at| - 1;
      var before := Sources(id, kind, ps, cms, origins, out[..n], at[..n]);
      var i := SourceOf(id, kind, ps, cms, origins, out[n], at[n]);
      from := before + [i];
    }
  }

  lemma SourcesDiffer(id: ChartId, kind: string, ps: seq<Placed>, cms: seq<ConfigMap>, origins: seq<Origin>,
                      at: seq<(nat, string)>, from: seq<nat>)
    requires IsListed(id, kind, ps, cms, origins) && |from| == |at|
    requires forall n, m :: 0 <= n < m < |at| ==> at[n] != at[m]
    requires forall n :: 0 <= n < |from| ==> ComesFrom(ps, origins, at[n], from[n])
    ensures Unrepeated(from)
  {
    forall n, m | 0 <= n < m < |from| ensures from[n] != from[m] {
      assert ComesFrom(ps, origins, at[n], from[n]) && ComesFrom(ps, origins, at[m], from[m]);
      assert at[n].0 != at[m].0 ==> origins[at[n].0] != origins[at[m].0];
    }
  }

  /** Every stored file is read from its place. */
  lemma StoredIsRead(id: ChartId, kind: string, ps: seq<Placed>, cms: seq<ConfigMap>, origins: seq<Origin>,
                     out: seq<File>, at: seq<(nat, string)>, i: nat) returns (n: nat)
    requires IsListed(id, kind, ps, cms, origins) && IsReading(kind, cms, out, at)
    requires i < |ps| && ps[i].place.At?
    ensures n < |at| && ComesFrom(ps, origins, at[n], i)
  {
    var place := ps[i].place;
    assert InDir(ps[i], place.dir);
    assert place.dir.Some? ==> UsesDir(ps, place.dir.value);
    assert Own(place.dir) in origins;
    var c: nat :| c < |origins| && origins[c] == Own(place.dir);
    assert Holds(ps, place, i);
    KeyIsPlaced(ps, place.dir, place.key);
    assert (c, place.key) in at;
    n :| n < |at| && at[n] == (c, place.key);
  }

  // -------------------------------------------------------------------
  // Counting
  // -------------------------------------------------------------------

  /** A sequence without repetitions has at most as many elements as a set that
      contains them, and equally many only if it has them all. */
  lemma {:induction false} CountUnrepeated(s: seq<nat>, pool: set<nat>)
    requires Unrepeated(s) && forall x :: x in s ==> x in pool
    ensures |s| <= |pool|
    ensures |s| == |pool| <==> forall x :: x in pool ==> x in s
    decreases |s|
  {
    if s == [] {
      assert |pool| == 0 <==> pool == {};
    } else {
      var n := |s| - 1;
      var rest := pool - {s[n]};
      forall x | x in s[..n] ensures x in rest {
        var m :| 0 <= m < n && s[m] == x;
      }
      CountUnrepeated(s[..n], rest);
      assert s == s[..n] + [s[n]];
      assert forall x :: x in pool <==> x in rest || x == s[n];
    }
  }

  lemma ConservedCount(kind: string, list: seq<File>, out: seq<File>)
    requires Storable(list) && FiledComesBack(kind, list, out)
    ensures |out| == |Filed(list)|
  {
    var from :| ConservesFiled(kind, list, out, from);
    CountUnrepeated(from, Filed(list));
  }

  lemma OnePlaceOneRead(ps: seq<Placed>, origins: seq<Origin>, at: (nat, string), at': (nat, string), i: nat, j: nat)
    requires forall c, d :: 0 <= c < d < |origins| && origins[c].Own? ==> origins[c] != origins[d]
    requires ComesFrom(ps, origins, at, i) && ComesFrom(ps, origins, at', j) && ps[i].place == ps[j].place
    ensures at == at'
  {
  }

  /** Files of equal names: fewer are read than were stored. */
  lemma EqualNamesAreLost(id: ChartId, kind: string, list: seq<File>, cms: seq<ConfigMap>, origins: seq<Origin>,
                          out: seq<File>, at: seq<(nat, string)>)
    requires Storable(list) && IsListed(id, kind, Places(list), cms, origins) && ForeignEmpty(cms, origins)
    requires IsReading(kind, cms, out, at) && !FiledUnique(list)
    ensures |out| < |Filed(list)|
  {
    var ps := Places(list);
    var from := Sources(id, kind, ps, cms, origins, out, at);
    SourcesDiffer(id, kind, ps, cms, origins, at, from);
    SourcesAreFiled(list, origins, at, from);
    SomeFileIsLost(list, origins, at, from);
    CountUnrepeated(from, Filed(list));
  }

  lemma SourcesAreFiled(list: seq<File>, origins: seq<Origin>, at: seq<(nat, string)>, from: seq<nat>)
    requires Storable(list) && |from| == |at|
    requires forall n :: 0 <= n < |from| ==> ComesFrom(Places(list), origins, at[n], from[n])
    ensures forall x :: x in from ==> x in Filed(list)
  {
    forall x | x in from ensures x in Filed(list) {
      var n :| 0 <= n < |from| && from[n] == x;
      assert ComesFrom(Places(list), origins, at[n], from[n]);
    }
  }

  lemma SomeFileIsLost(list: seq<File>, origins: seq<Origin>, at: seq<(nat, string)>, from: seq<nat>)
    requires Storable(list) && !FiledUnique(list) && |from| == |at|
    requires forall c, d :: 0 <= c < d < |origins| && origins[c].Own? ==> origins[c] != origins[d]
    requires forall n, m :: 0 <= n < m < |at| ==> at[n] != at[m]
    requires forall n :: 0 <= n < |from| ==> ComesFrom(Places(list), origins, at[n], from[n])
    ensures exists x :: x in Filed(list) && x !in from
  {
    SourcesAreFiled(list, origins, at, from);
    var i: nat, j: nat :| i in Filed(list) && j in Filed(list) && list[i].name == list[j].name && i != j;
    if i in from {
      var n: nat :| n < |from| && from[n] == i;
      forall m: nat | m < |from| && list[from[m]].name == list[i].name ensures m == n {
        assert ComesFrom(Places(list), origins, at[m], from[m]) && ComesFrom(Places(list), origins, at[n], i);
        OnePlaceOneRead(Places(list), origins, at[m], at[n], from[m], i);
      }
      assert j !in from;
    }
  }

  /** A read for each of the first m files that are stored. */
  ghost predicate AreReads(list: seq<File>, origins: seq<Origin>, at: seq<(nat, string)>, m: nat, of: map<nat, nat>)
    requires Storable(list) && m <= |list|
  {
    (forall i: nat :: i in of <==> i < m && i in Filed(list)) &&
    forall i :: i in of ==> of[i] < |at| && ComesFrom(Places(list), origins, at[of[i]], i)
  }

  lemma {:induction false} ReadsOfStored(id: ChartId, kind: string, list: seq<File>, cms: seq<ConfigMap>, origins: seq<Origin>,
                                         out: seq<File>, at: seq<(nat, string)>, m: nat) returns (of: map<nat, nat>)
    requires Storable(list) && IsListed(id, kind, Places(list), cms, origins) && IsReading(kind, cms, out, at)
    requires m <= |list|
    ensures AreReads(list, origins, at, m, of)
    decreases m
  {
    of := map[];
    if m > 0 {
      of := ReadsOfStored(id, kind, list, cms, origins, out, at, m - 1);
      if IsFiled(list[m - 1]) {
        var n := StoredIsRead(id, kind, Places(list), cms, origins, out, at, m - 1);
        OneMoreRead(list, origins, at, m - 1, of, n);
        of := of[m - 1 := n];
      }
    }
  }

  lemma OneMoreRead(list: seq<File>, origins: seq<Origin>, at: seq<(nat, string)>, m: nat, of: map<nat, nat>, n: nat)
    requires Storable(list) && m < |list| && AreReads(list, origins, at, m, of) && IsFiled(list[m])
    requires n < |at| && ComesFrom(Places(list), origins, at[n], m)
    ensures AreReads(list, origins, at, m + 1, of[m := n])
  {
  }

  lemma {:induction false} CountInjection(of: map<nat, nat>, pool: set<nat>)
    requires forall i :: i in of ==> of[i] in pool
    requires forall i, j :: i in of && j in of && of[i] == of[j] ==> i == j
    ensures |of.Keys| <= |pool|
    decreases |of.Keys|
  {
    if of.Keys != {} {
      var i :| i in of.Keys;
      var rest := of - {i};
      assert rest.Keys == of.Keys - {i};
      CountInjection(rest, pool - {of[i]});
    }
  }

  function Indices(n: nat): (r: seq<nat>)
    ensures |r| == n && forall i :: 0 <= i < n ==> r[i] == i
  {
    if n == 0 then [] else Indices(n - 1) + [n - 1]
  }

  lemma ForeignIsRead(kind: string, cms: seq<ConfigMap>, origins: seq<Origin>, out: seq<File>, at: seq<(nat, string)>)
      returns (n: nat)
    requires |origins| == |cms| && IsReading(kind, cms, out, at) && !ForeignEmpty(cms, origins)
    ensures n < |at| && at[n].0 < |origins| && origins[at[n].0].Foreign?
  {
    var c: nat :| c < |cms| && origins[c].Foreign? && cms[c].files != map[];
    var key :| key in cms[c].files;
    assert (c, key) in at;
    n :| n < |at| && at[n] == (c, key);
  }

  lemma ReadsAreOwn(list: seq<File>, origins: seq<Origin>, at: seq<(nat, string)>, of: map<nat, nat>, n: nat)
    requires Storable(list) && AreReads(list, origins, at, |list|, of)
    requires n < |at| && at[n].0 < |origins| && origins[at[n].0].Foreign?
    ensures of.Keys == Filed(list)
    ensures forall i :: i in of ==> of[i] < |at| && of[i] != n
    ensures forall i, j :: i in of && j in of && of[i] == of[j] ==> Places(list)[i].place == Places(list)[j].place
  {
  }

  /** A file in a foreign ConfigMap: more are read than were stored. */
  lemma ForeignFilesShow(id: ChartId, kind: string, list: seq<File>, cms: seq<ConfigMap>, origins: seq<Origin>,
                         out: seq<File>, at: seq<(nat, string)>)
    requires Storable(list) && IsListed(id, kind, Places(list), cms, origins) && IsReading(kind, cms, out, at)
    requires PlacesDiffer(Places(list)) && !ForeignEmpty(cms, origins)
    ensures |out| > |Filed(list)|
  {
    var n := ForeignIsRead(kind, cms, origins, out, at);
    var of := ReadsOfStored(id, kind, list, cms, origins, out, at, |list|);
    ReadsAreOwn(list, origins, at, of, n);
    forall i, j | i in of && j in of && of[i] == of[j] ensures i == j {
      assert Holds(Places(list), Places(list)[i].place, i) && Holds(Places(list), Places(list)[i].place, j);
    }
    CountOthers(of, |at|, n);
  }

  lemma CountOthers(of: map<nat, nat>, length: nat, n: nat)
    requires forall i :: i in of ==> of[i] < length && of[i] != n
    requires forall i, j :: i in of && j in of && of[i] == of[j] ==> i == j
    requires n < length
    ensures |of.Keys| < length
  {
    var all := Indices(length);
    var pool := set x | x in all;
    CountUnrepeated(all, pool);
    forall x: nat | x < length ensures x in pool {
      assert all[x] == x;
    }
    CountInjection(of, pool - {n});
  }

  lemma ReadIsReturned(id: ChartId, kind: string, list: seq<File>, cms: seq<ConfigMap>, origins: seq<Origin>,
                       f: File, at: (nat, string), i: nat)
    requires Storable(list) && IsListed(id, kind, Places(list), cms, origins) && PlacesDiffer(Places(list))
    requires ReadFrom(kind, cms, f, at) && ComesFrom(Places(list), origins, at, i)
    ensures i in Filed(list) && f == Returned(kind, list[i])
  {
    FilesInAt(Places(list), origins[at.0].dir, at.1, i);
    assert BaseName(kind, cms[at.0]) == Root(kind);
  }

  /** With different names and nothing foreign, reading conserves the files. */
  lemma Conserved(id: ChartId, kind: string, list: seq<File>, cms: seq<ConfigMap>, origins: seq<Origin>,
                  out: seq<File>, at: seq<(nat, string)>) returns (from: seq<nat>)
    requires Storable(list) && IsListed(id, kind, Places(list), cms, origins) && IsReading(kind, cms, out, at)
    requires PlacesDiffer(Places(list)) && ForeignEmpty(cms, origins)
    ensures ConservesFiled(kind, list, out, from)
  {
    var ps := Places(list);
    from := Sources(id, kind, ps, cms, origins, out, at);
    SourcesDiffer(id, kind, ps, cms, origins, at, from);
    forall i | i in Filed(list) ensures i in from {
      var n := StoredIsRead(id, kind, ps, cms, origins, out, at, i);
      assert ComesFrom(ps, origins, at[n], from[n]);
      assert Holds(ps, ps[i].place, from[n]) && Holds(ps, ps[i].place, i);
    }
    forall n | 0 <= n < |from| ensures from[n] in Filed(list) && out[n] == Returned(kind, list[from[n]]) {
      ReadIsReturned(id, kind, list, cms, origins, out[n], at[n], from[n]);
    }
  }

  /** Whatever order the maps and the list call use: storing and reading back
      conserves the files if and only if their names differ and no foreign
      ConfigMap holds a file.  (With both failing, a foreign file can stand in
      for a lost one.) */
  lemma StoreThenReload(id: ChartId, kind: string, list: seq<File>, cms: seq<ConfigMap>, origins: seq<Origin>, out: seq<File>)
    requires OneKind(kind, list) && IsListed(id, kind, Places(list), cms, origins) && CanRead(kind, cms, out)
    ensures ForeignEmpty(cms, origins) ==> (ComesBack(kind, list, out) <==> NamesUnique(kind, list))
    ensures NamesUnique(kind, list) ==> (ComesBack(kind, list, out) <==> ForeignEmpty(cms, origins))
  {
    var at :| IsReading(kind, cms, out, at);
    ComesBackByNames(kind, list, out);
    UniqueByNames(kind, list);
    PlacesDifferIffNamesDo(kind, list);
    if FiledComesBack(kind, list, out) {
      ConservedCount(kind, list, out);
    }
    if ForeignEmpty(cms, origins) {
      if FiledUnique(list) {
        var from := Conserved(id, kind, list, cms, origins, out, at);
      } else {
        EqualNamesAreLost(id, kind, list, cms, origins, out, at);
      }
    } else if FiledUnique(list) {
      ForeignFilesShow(id, kind, list, cms, origins, out, at);
    }
  }

  /** What setFiles makes of the three listings: Files is a reading of the
      templates followed by one of the CRDs, Templates is a reading of the
      templates. */
  ghost predicate AreSet(forFiles: seq<ConfigMap>, forTemplates: seq<ConfigMap>, forCrds: seq<ConfigMap>,
                         files: seq<File>, temps: seq<File>) {
    CanRead("tmpl", forTemplates, temps) &&
    exists first, last :: files == first + last && CanRead("tmpl", forFiles, first) && CanRead("crds", forCrds, last)
  }

  /** setFiles and getFiles: templates are listed and read twice, once for Files
      and once for Templates. */
  method SetFiles(forFiles: seq<ConfigMap>, forTemplates: seq<ConfigMap>, forCrds: seq<ConfigMap>)
      returns (files: seq<File>, temps: seq<File>)
    ensures AreSet(forFiles, forTemplates, forCrds, files, temps)
  {
    ghost var at;
    var first, last;
    first, at := AppendFiles("tmpl", forFiles);
    temps, at := AppendFiles("tmpl", forTemplates);
    last, at := AppendFiles("crds", forCrds);
    files := first + last;
  }

  /** Files is made of the templates and then the CRDs. */
  ghost predicate TemplatesThenCrds(templates: seq<File>, crds: seq<File>, files: seq<File>) {
    exists first, last :: files == first + last && ComesBack("tmpl", templates, first) && ComesBack("crds", crds, last)
  }
}
