/** Storing a chart's files in ConfigMaps and reading them back
    (internal/chartversion/configmaps.go:115-193, files.go:16-95). */
module ChartFiles {
  import opened JsonTree
  import opened ChartNames

  type Bytes = seq<bv8>

  datatype File = File(name: string, data: Bytes)

  /** subName is the label yaho.soer3n.dev/subname, which no writer sets. */
  datatype ConfigMap = ConfigMap(name: string, chart: string, repo: string, kind: string, subName: string,
                                 files: map<string, Bytes>)

  /** The parts of a chart version that names and labels are made of. */
  datatype ChartId = ChartId(repo: string, ownerRepo: string, chart: string, version: string)

  /** A name without a slash makes the source index out of range. */
  ghost predicate Storable(list: seq<File>) {
    forall f :: f in list ==> |SplitAfter(f.name)| > 1
  }

  datatype Placed = Placed(place: Place, data: Bytes)

  function Places(list: seq<File>): (r: seq<Placed>)
    requires Storable(list)
    ensures |r| == |list|
    ensures forall i :: 0 <= i < |list| ==> r[i] == Placed(PlaceOf(list[i].name), list[i].data)
  {
    seq(|list|, i requires 0 <= i < |list| => Placed(PlaceOf(list[i].name), list[i].data))
  }

  /** The entries that the loop writes for one directory; later ones win. */
  function FilesIn(ps: seq<Placed>, dir: Option<string>): map<string, Bytes> {
    if ps == [] then map[]
    else
      var n := |ps| - 1;
      var before := FilesIn(ps[..n], dir);
      match ps[n].place
      case Skipped => before
      case At(d, key) => if d == dir then before[key := ps[n].data] else before
  }

  ghost predicate InDir(p: Placed, dir: Option<string>) {
    p.place.At? && p.place.dir == dir
  }

  ghost predicate UsesDir(ps: seq<Placed>, dir: string) {
    exists i :: 0 <= i < |ps| && InDir(ps[i], Some(dir))
  }

  function MapName(id: ChartId, kind: string, dir: Option<string>): string {
    "helm-" + kind + "-" + id.repo + "-" + id.chart + "-" +
    (match dir case None => "" case Some(d) => d + "-") + id.version
  }

  function NewMap(id: ChartId, kind: string, dir: Option<string>, files: map<string, Bytes>): ConfigMap {
    ConfigMap(MapName(id, kind, dir), id.chart + "-" + id.version, id.ownerRepo, kind, "", files)
  }

  /** cms holds one ConfigMap per directory of dirs: the base and exactly the
      directories in use, each once. */
  ghost predicate IsStored(id: ChartId, kind: string, ps: seq<Placed>, cms: seq<ConfigMap>, dirs: seq<Option<string>>) {
    |dirs| == |cms| && None in dirs &&
    (forall i, j :: 0 <= i < j < |dirs| ==> dirs[i] != dirs[j]) &&
    (forall d :: Some(d) in dirs <==> UsesDir(ps, d)) &&
    (forall i :: 0 <= i < |cms| ==> cms[i] == NewMap(id, kind, dirs[i], FilesIn(ps, dirs[i])))
  }

  /** The files of one kind share the root directory, as Helm's Templates and
      CRDs do. */
  ghost predicate OneKind(kind: string, list: seq<File>) {
    Storable(list) && forall f :: f in list ==> SplitAfter(f.name)[0] == Root(kind)
  }

  ghost predicate Holds(ps: seq<Placed>, place: Place, i: nat) {
    i < |ps| && ps[i].place == place
  }

  // -------------------------------------------------------------------
  // Writing
  // -------------------------------------------------------------------

  /** The keys of dirMaps are the directories in use, and the maps hold what
      FilesIn says. */
  ghost predicate Sorted(id: ChartId, kind: string, ps: seq<Placed>, base: map<string, Bytes>, dirMaps: map<string, ConfigMap>) {
    base == FilesIn(ps, None) &&
    (forall d :: d in dirMaps <==> UsesDir(ps, d)) &&
    (forall d :: d in dirMaps ==> dirMaps[d] == NewMap(id, kind, Some(d), FilesIn(ps, Some(d))))
  }

  lemma PlaceSnoc(before: seq<Placed>, p: Placed, dir: Option<string>)
    ensures FilesIn(before + [p], dir) ==
      if InDir(p, dir) then FilesIn(before, dir)[p.place.key := p.data] else FilesIn(before, dir)
    ensures dir.Some? ==> (UsesDir(before + [p], dir.value) <==> UsesDir(before, dir.value) || InDir(p, dir))
  {
    var all, n := before + [p], |before|;
    assert all[..n] == before && all[n] == p;
    if dir.Some? {
      if UsesDir(before, dir.value) {
        var i :| 0 <= i < n && InDir(before[i], dir);
        assert InDir(all[i], dir);
      }
      if UsesDir(all, dir.value) {
        var i :| 0 <= i <= n && InDir(all[i], dir);
        assert i < n ==> InDir(before[i], dir);
      }
      if InDir(p, dir) {
        assert InDir(all[n], dir);
      }
    }
  }

  /** A directory's ConfigMap has the keys of the files placed there. */
  lemma {:induction false} KeyIsPlaced(ps: seq<Placed>, dir: Option<string>, key: string)
    ensures key in FilesIn(ps, dir) <==> exists i: nat :: Holds(ps, At(dir, key), i)
  {
    if ps != [] {
      var n := |ps| - 1;
      var init, last, place := ps[..n], ps[n], At(dir, key);
      KeyIsPlaced(init, dir, key);
      assert ps == init + [last];
      PlaceSnoc(init, last, dir);
      assert last.place == place <==> InDir(last, dir) && last.place.key == key;
      assert last.place == place ==> Holds(ps, place, n);
      forall i: nat ensures Holds(ps, place, i) <==> Holds(init, place, i) || (i == n && last.place == place) {
      }
    }
  }

  /** The last file at a place is the one whose bytes are there. */
  lemma {:induction false} LastAtPlaceWins(ps: seq<Placed>, dir: Option<string>, key: string, i: nat)
    requires Holds(ps, At(dir, key), i) && forall j :: i < j < |ps| ==> !Holds(ps, At(dir, key), j)
    ensures key in FilesIn(ps, dir) && FilesIn(ps, dir)[key] == ps[i].data
    decreases |ps|
  {
    var n := |ps| - 1;
    assert ps == ps[..n] + [ps[n]];
    PlaceSnoc(ps[..n], ps[n], dir);
    if i < n {
      assert !Holds(ps, At(dir, key), n);
      forall j | i < j < n ensures !Holds(ps[..n], At(dir, key), j) {
        assert !Holds(ps, At(dir, key), j);
      }
      LastAtPlaceWins(ps[..n], dir, key, i);
    }
  }

  ghost predicate HoldsKey(cms: seq<ConfigMap>, dirs: seq<Option<string>>, dir: Option<string>, key: string) {
    exists c :: 0 <= c < |cms| && c < |dirs| && dirs[c] == dir && key in cms[c].files
  }

  ghost predicate NamesFile(kind: string, list: seq<File>, dir: Option<string>, key: string) {
    exists i :: 0 <= i < |list| && Spells(kind, list[i].name, dir, key)
  }

  /** The ConfigMap of a directory holds a key if and only if a file of the list
      is called so, and then the bytes of the last such file. */
  ghost predicate StoresNamed(kind: string, list: seq<File>, cms: seq<ConfigMap>, dirs: seq<Option<string>>) {
    (forall dir, key :: HoldsKey(cms, dirs, dir, key) <==> NamesFile(kind, list, dir, key)) &&
    (forall c, i, key :: 0 <= c < |cms| && c < |dirs| && IsLastNamed(kind, list, dirs[c], key, i) ==>
      key in cms[c].files && cms[c].files[key] == list[i].data)
  }

  ghost predicate IsLastNamed(kind: string, list: seq<File>, dir: Option<string>, key: string, i: int) {
    0 <= i < |list| && Spells(kind, list[i].name, dir, key) &&
    forall j :: i < j < |list| ==> !Spells(kind, list[j].name, dir, key)
  }

  lemma HoldsIffSpells(kind: string, list: seq<File>, dir: Option<string>, key: string, i: nat)
    requires OneKind(kind, list) && i < |list|
    ensures Holds(Places(list), At(dir, key), i) <==> Spells(kind, list[i].name, dir, key)
  {
    assert list[i] in list;
    PlaceIffSpells(kind, list[i].name, dir, key);
  }

  lemma StoredIsNamed(id: ChartId, kind: string, list: seq<File>, cms: seq<ConfigMap>, dirs: seq<Option<string>>)
    requires OneKind(kind, list) && IsStored(id, kind, Places(list), cms, dirs)
    ensures StoresNamed(kind, list, cms, dirs)
  {
    forall dir, key ensures HoldsKey(cms, dirs, dir, key) <==> NamesFile(kind, list, dir, key) {
      KeyIsNamed(id, kind, list, cms, dirs, dir, key);
    }
    forall c, i, key | 0 <= c < |cms| && c < |dirs| && IsLastNamed(kind, list, dirs[c], key, i)
      ensures key in cms[c].files && cms[c].files[key] == list[i].data
    {
      HoldsIffSpells(kind, list, dirs[c], key, i);
      forall j | i < j < |list| ensures !Holds(Places(list), At(dirs[c], key), j) {
        HoldsIffSpells(kind, list, dirs[c], key, j);
      }
      LastAtPlaceWins(Places(list), dirs[c], key, i);
    }
  }

  lemma KeyIsNamed(id: ChartId, kind: string, list: seq<File>, cms: seq<ConfigMap>, dirs: seq<Option<string>>,
                   dir: Option<string>, key: string)
    requires OneKind(kind, list) && IsStored(id, kind, Places(list), cms, dirs)
    ensures HoldsKey(cms, dirs, dir, key) <==> NamesFile(kind, list, dir, key)
  {
    var ps := Places(list);
    KeyIsPlaced(ps, dir, key);
    if HoldsKey(cms, dirs, dir, key) {
      var i: nat :| Holds(ps, At(dir, key), i);
      HoldsIffSpells(kind, list, dir, key, i);
    }
    if NamesFile(kind, list, dir, key) {
      var i: nat :| i < |list| && Spells(kind, list[i].name, dir, key);
      HoldsIffSpells(kind, list, dir, key, i);
      assert InDir(ps[i], dir);
      assert dir.Some? ==> UsesDir(ps, dir.value);
      assert dir in dirs;
    }
  }

  lemma {:induction false} UnusedDirIsEmpty(ps: seq<Placed>, dir: string)
    requires !UsesDir(ps, dir)
    ensures FilesIn(ps, Some(dir)) == map[]
  {
    if ps != [] {
      var n := |ps| - 1;
      assert ps == ps[..n] + [ps[n]];
      PlaceSnoc(ps[..n], ps[n], Some(dir));
      UnusedDirIsEmpty(ps[..n], dir);
    }
  }

  method SortFiles(id: ChartId, kind: string, list: seq<File>)
      returns (base: map<string, Bytes>, dirMaps: map<string, ConfigMap>)
    requires Storable(list)
    ensures Sorted(id, kind, Places(list), base, dirMaps)
  {
    base, dirMaps := map[], map[];
    ghost var ps := Places(list);
    for i := 0 to |list|
      invariant Sorted(id, kind, ps[..i], base, dirMaps)
    {
      assert ps[..i + 1] == ps[..i] + [ps[i]];
      base, dirMaps := PlaceFile(id, kind, ps[..i], list[i], base, dirMaps);
    }
    assert ps[..|list|] == ps;
  }

  /** One round of the loop; before is what the earlier rounds have seen. */
  method PlaceFile(id: ChartId, kind: string, ghost before: seq<Placed>, entry: File,
                   base: map<string, Bytes>, dirMaps: map<string, ConfigMap>)
      returns (base': map<string, Bytes>, dirMaps': map<string, ConfigMap>)
    requires |SplitAfter(entry.name)| > 1 && Sorted(id, kind, before, base, dirMaps)
    ensures Sorted(id, kind, before + [Placed(PlaceOf(entry.name), entry.data)], base', dirMaps')
  {
    base', dirMaps' := base, dirMaps;
    ghost var p := Placed(PlaceOf(entry.name), entry.data);
    var path := SplitAfter(entry.name);
    if |path| > 3 {
      SortedSkip(id, kind, before, p, base, dirMaps);
    } else if |path| == 2 {
      SortedBase(id, kind, before, p, base, dirMaps);
      base' := base[path[1] := entry.data];
    } else {
      var key := DropSlash(path[1]);
      if key == "tests" {
        SortedSkip(id, kind, before, p, base, dirMaps);
      } else {
        var fileName := DropSlash(path[2]);
        SortedDir(id, kind, before, p, base, dirMaps);
        if key !in dirMaps {
          UnusedDirIsEmpty(before, key);
          dirMaps' := dirMaps[key := NewMap(id, kind, Some(key), map[fileName := entry.data])];
        } else {
          var cm := dirMaps[key];
          dirMaps' := dirMaps[key := cm.(files := cm.files[fileName := entry.data])];
        }
      }
    }
  }

  lemma SortedSkip(id: ChartId, kind: string, before: seq<Placed>, p: Placed,
                   base: map<string, Bytes>, dirMaps: map<string, ConfigMap>)
    requires Sorted(id, kind, before, base, dirMaps) && p.place == Skipped
    ensures Sorted(id, kind, before + [p], base, dirMaps)
  {
    PlaceSnoc(before, p, None);
    forall d { PlaceSnoc(before, p, Some(d)); }
  }

  lemma SortedBase(id: ChartId, kind: string, before: seq<Placed>, p: Placed,
                   base: map<string, Bytes>, dirMaps: map<string, ConfigMap>)
    requires Sorted(id, kind, before, base, dirMaps) && InDir(p, None)
    ensures Sorted(id, kind, before + [p], base[p.place.key := p.data], dirMaps)
  {
    PlaceSnoc(before, p, None);
    forall d { PlaceSnoc(before, p, Some(d)); }
  }

  lemma SortedDir(id: ChartId, kind: string, before: seq<Placed>, p: Placed,
                  base: map<string, Bytes>, dirMaps: map<string, ConfigMap>)
    requires Sorted(id, kind, before, base, dirMaps) && p.place.At? && p.place.dir.Some?
    ensures
      var d := p.place.dir;
      var cm := NewMap(id, kind, d, FilesIn(before, d)[p.place.key := p.data]);
      Sorted(id, kind, before + [p], base, dirMaps[d.value := cm])
  {
    PlaceSnoc(before, p, None);
    forall d { PlaceSnoc(before, p, Some(d)); }
  }

  /** createTemplateConfigMap: what is sent, the base ConfigMap first and the
      others in any order. */
  method CreateTemplateConfigMap(id: ChartId, kind: string, list: seq<File>)
      returns (cms: seq<ConfigMap>, ghost dirs: seq<Option<string>>)
    requires Storable(list)
    ensures IsStored(id, kind, Places(list), cms, dirs)
    ensures cms[0].name == MapName(id, kind, None)
    ensures OneKind(kind, list) ==> StoresNamed(kind, list, cms, dirs)
  {
    var base, dirMaps := SortFiles(id, kind, list);
    cms, dirs := SendMaps(id, kind, Places(list), base, dirMaps);
    if OneKind(kind, list) {
      StoredIsNamed(id, kind, list, cms, dirs);
    }
  }

  method SendMaps(id: ChartId, kind: string, ghost ps: seq<Placed>, base: map<string, Bytes>, dirMaps: map<string, ConfigMap>)
      returns (cms: seq<ConfigMap>, ghost dirs: seq<Option<string>>)
    requires Sorted(id, kind, ps, base, dirMaps)
    ensures IsStored(id, kind, ps, cms, dirs)
    ensures cms[0].name == MapName(id, kind, None)
  {
    cms := [NewMap(id, kind, None, base)];
    dirs := [None];
    var todo := dirMaps.Keys;
    while todo != {}
      invariant todo <= dirMaps.Keys
      invariant |dirs| == |cms| > 0 && dirs[0] == None
      invariant forall i, j :: 0 <= i < j < |dirs| ==> dirs[i] != dirs[j]
      invariant forall d :: Some(d) in dirs <==> d in dirMaps && d !in todo
      invariant forall i :: 0 <= i < |cms| ==> cms[i] == NewMap(id, kind, dirs[i], FilesIn(ps, dirs[i]))
      decreases todo
    {
      var d :| d in todo;
      cms, dirs := cms + [dirMaps[d]], dirs + [Some(d)];
      todo := todo - {d};
    }
  }
}
