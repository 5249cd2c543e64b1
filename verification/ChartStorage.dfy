/** From a loaded chart through the pipeline into the cluster and back: the
    round trip of chart files under every schedule and every map order, on the
    first reconcile and on every later one. */
module ChartStorage {
  import opened JsonTree
  import opened ChartFiles
  import opened ChartFilesReload
  import opened ConfigMapPipeline

  /** The selectors of appendFilesFromConfigMap: chart with version, and type.
      The repository is not among them. */
  predicate Matches(id: ChartId, kind: string, cm: ConfigMap) {
    cm.chart == id.chart + "-" + id.version && cm.kind == kind
  }

  ghost predicate InStore(store: map<string, ConfigMap>, cm: ConfigMap) {
    exists name :: name in store && store[name] == cm
  }

  ghost predicate NamedByKey(store: map<string, ConfigMap>) {
    forall name :: name in store ==> store[name].name == name
  }

  /** The list call returns the matching ConfigMaps, each once, in any order. */
  ghost predicate IsListing(store: map<string, ConfigMap>, id: ChartId, kind: string, cms: seq<ConfigMap>) {
    (forall i, j :: 0 <= i < j < |cms| ==> cms[i] != cms[j]) &&
    (forall cm :: cm in cms <==> InStore(store, cm) && Matches(id, kind, cm))
  }

  function Emitted(p: Setup): seq<ConfigMap>
    requires |p.emits| == 3
  {
    p.emits[0] + p.emits[1] + p.emits[2]
  }

  /** The chart version was loaded and emits the ConfigMaps of its files, and
      run is a schedule of ManageSubResources that has returned. */
  ghost predicate IsStorage(p: Setup, id: ChartId, templates: seq<Placed>, crds: seq<Placed>, dirs: seq<Option<string>>,
                            dirs': seq<Option<string>>, run: seq<State>) {
    p.loaded && NamedByKey(p.store) && EmittedBy(p, id, templates, crds, dirs, dirs') &&
    IsRun(p, run) && run[|run| - 1].returned
  }

  /** cm carries the labels of the chart version and was in the cluster before,
      under a name that nothing emitted has. */
  ghost predicate IsLeftover(p: Setup, id: ChartId, kind: string, cm: ConfigMap)
    requires |p.emits| == 3
  {
    InStore(p.store, cm) && Matches(id, kind, cm) && forall e :: e in Emitted(p) ==> e.name != cm.name
  }

  /** Each name holds what was emitted under it, or what was there before. */
  lemma StoreAfterRun(p: Setup, id: ChartId, templates: seq<Placed>, crds: seq<Placed>, dirs: seq<Option<string>>,
                      dirs': seq<Option<string>>, run: seq<State>)
    requires IsStorage(p, id, templates, crds, dirs, dirs', run)
    ensures
      var after := run[|run| - 1].store;
      NamedByKey(after) &&
      (forall cm :: cm in Emitted(p) ==> cm.name in after && after[cm.name] == cm) &&
      (forall name :: (forall cm :: cm in Emitted(p) ==> cm.name != name) ==> SameAt(after, p.store, name))
  {
    var all, last := Emitted(p), run[|run| - 1];
    DeployedAre(p, id, templates, crds, dirs, dirs', run);
    forall cm | cm in all ensures cm.name in last.store && last.store[cm.name] == cm {
      StoreAllAt(p.store, last.deployed, cm.name);
    }
    forall name | forall cm :: cm in all ==> cm.name != name ensures SameAt(last.store, p.store, name) {
      StoreAllAt(p.store, last.deployed, name);
    }
    forall name | name in last.store ensures last.store[name].name == name {
      if cm :| cm in all && cm.name == name {
      } else {
        assert SameAt(last.store, p.store, name);
      }
    }
  }

  /** What the selectors find after a returned run: the emitted ConfigMaps and
      those left over. */
  lemma ListedAfterRun(p: Setup, id: ChartId, templates: seq<Placed>, crds: seq<Placed>, dirs: seq<Option<string>>,
                       dirs': seq<Option<string>>, run: seq<State>, kind: string, cm: ConfigMap)
    requires IsStorage(p, id, templates, crds, dirs, dirs', run)
    ensures InStore(run[|run| - 1].store, cm) && Matches(id, kind, cm)
       <==> (cm in Emitted(p) && Matches(id, kind, cm)) || IsLeftover(p, id, kind, cm)
  {
    var after := run[|run| - 1].store;
    StoreAfterRun(p, id, templates, crds, dirs, dirs', run);
    if InStore(after, cm) && cm !in Emitted(p) {
      var name :| name in after && after[name] == cm;
      assert SameAt(after, p.store, name);
      assert InStore(p.store, cm);
    }
    if IsLeftover(p, id, kind, cm) {
      assert SameAt(after, p.store, cm.name);
      assert InStore(after, cm);
    }
  }

  /** The emitted ConfigMaps of one kind are those of its sender. */
  lemma EmittedOfKind(p: Setup, id: ChartId, templates: seq<Placed>, crds: seq<Placed>,
                      dirs: seq<Option<string>>, dirs': seq<Option<string>>, kind: string, cm: ConfigMap)
    requires EmittedBy(p, id, templates, crds, dirs, dirs') && (kind == "tmpl" || kind == "crds")
    ensures cm in Emitted(p) && Matches(id, kind, cm)
       <==> cm in (if kind == "tmpl" then p.emits[0] else p.emits[1])
  {
    assert |"tmpl"| == |"crds"| == 4 && "tmpl"[0] != "crds"[0] && |"default"| == 7;
    forall x | x in p.emits[0] ensures Matches(id, "tmpl", x) {
    }
    forall x | x in p.emits[1] ensures Matches(id, "crds", x) {
    }
    assert forall x :: x in p.emits[2] ==> x.kind == "default";
  }

  // -------------------------------------------------------------------
  // Reading back
  // -------------------------------------------------------------------

  /** Where a listed ConfigMap comes from. */
  ghost function OriginOf(emitted: seq<ConfigMap>, dirs: seq<Option<string>>, cm: ConfigMap): (o: Origin)
    requires |dirs| == |emitted|
    ensures o.Foreign? <==> cm !in emitted
    ensures o.Own? ==> exists j :: 0 <= j < |dirs| && dirs[j] == o.dir && emitted[j] == cm
  {
    if j: nat :| j < |emitted| && emitted[j] == cm then Own(dirs[j]) else Foreign
  }

  ghost function Origins(emitted: seq<ConfigMap>, dirs: seq<Option<string>>, cms: seq<ConfigMap>): (r: seq<Origin>)
    requires |dirs| == |emitted|
    ensures |r| == |cms| && forall i :: 0 <= i < |r| ==> r[i] == OriginOf(emitted, dirs, cms[i])
  {
    seq(|cms|, i requires 0 <= i < |cms| => OriginOf(emitted, dirs, cms[i]))
  }

  /** Any order of the stored ConfigMaps of one kind, among others, is as good
      as the order in which they were emitted. */
  lemma ReorderedIsListed(id: ChartId, kind: string, ps: seq<Placed>, emitted: seq<ConfigMap>,
                          dirs: seq<Option<string>>, cms: seq<ConfigMap>)
    requires IsKind(kind) && IsStored(id, kind, ps, emitted, dirs)
    requires forall i, j :: 0 <= i < j < |cms| ==> cms[i] != cms[j]
    requires forall cm :: cm in emitted ==> cm in cms
    ensures IsListed(id, kind, ps, cms, Origins(emitted, dirs, cms))
  {
    var origins := Origins(emitted, dirs, cms);
    forall i | 0 <= i < |cms| && origins[i].Own?
      ensures origins[i].dir in dirs && cms[i] == NewMap(id, kind, origins[i].dir, FilesIn(ps, origins[i].dir))
    {
      var j :| 0 <= j < |dirs| && dirs[j] == origins[i].dir && emitted[j] == cms[i];
    }
    forall d | d in dirs ensures Own(d) in origins {
      var j :| 0 <= j < |dirs| && dirs[j] == d;
      assert emitted[j] in cms;
      var i :| 0 <= i < |cms| && cms[i] == emitted[j];
      MapNameInjective(id, kind, origins[i].dir, kind, d);
      assert origins[i] == Own(d);
    }
    forall i, j | 0 <= i < j < |origins| && origins[i].Own? ensures origins[i] != origins[j] {
      assert cms[i] != cms[j];
    }
  }

  /** No ConfigMap left over from before holds a file of the kind. */
  ghost predicate LeftoversEmpty(p: Setup, id: ChartId, kind: string)
    requires |p.emits| == 3
  {
    forall cm :: IsLeftover(p, id, kind, cm) ==> cm.files == map[]
  }

  /** Whatever the schedule of ManageSubResources, the order of the maps and the
      order of the list call, and whatever the cluster holds beforehand, the
      chart version's own ConfigMaps included: what is read back are the chart's
      files of the kind, those at most one directory deep and outside tests
      exactly once with their bytes, if and only if their names differ and no
      ConfigMap left over from before holds a file. */
  lemma FilesComeBack(p: Setup, id: ChartId, templates: seq<File>, crds: seq<File>, dirs: seq<Option<string>>,
                      dirs': seq<Option<string>>, run: seq<State>, kind: string, cms: seq<ConfigMap>, out: seq<File>)
    requires OneKind("tmpl", templates) && OneKind("crds", crds) && (kind == "tmpl" || kind == "crds")
    requires IsStorage(p, id, Places(templates), Places(crds), dirs, dirs', run)
    requires IsListing(run[|run| - 1].store, id, kind, cms) && CanRead(kind, cms, out)
    ensures
      var list := if kind == "tmpl" then templates else crds;
      (LeftoversEmpty(p, id, kind) ==> (ComesBack(kind, list, out) <==> NamesUnique(kind, list))) &&
      (NamesUnique(kind, list) ==> (ComesBack(kind, list, out) <==> LeftoversEmpty(p, id, kind)))
  {
    var list := if kind == "tmpl" then templates else crds;
    var emitted := if kind == "tmpl" then p.emits[0] else p.emits[1];
    var d := if kind == "tmpl" then dirs else dirs';
    forall cm ensures cm in cms <==> cm in emitted || IsLeftover(p, id, kind, cm) {
      EmittedOfKind(p, id, Places(templates), Places(crds), dirs, dirs', kind, cm);
      ListedAfterRun(p, id, Places(templates), Places(crds), dirs, dirs', run, kind, cm);
    }
    ReorderedIsListed(id, kind, Places(list), emitted, d, cms);
    var origins := Origins(emitted, d, cms);
    ForeignAreLeftovers(p, id, kind, emitted, d, cms);
    StoreThenReload(id, kind, list, cms, origins, out);
  }

  lemma ForeignAreLeftovers(p: Setup, id: ChartId, kind: string, emitted: seq<ConfigMap>, dirs: seq<Option<string>>,
                            cms: seq<ConfigMap>)
    requires |p.emits| == 3 && |dirs| == |emitted| && (forall cm :: cm in emitted ==> cm in Emitted(p))
    requires forall cm :: cm in cms <==> cm in emitted || IsLeftover(p, id, kind, cm)
    ensures ForeignEmpty(cms, Origins(emitted, dirs, cms)) <==> LeftoversEmpty(p, id, kind)
  {
    var origins := Origins(emitted, dirs, cms);
    if LeftoversEmpty(p, id, kind) {
      forall i | 0 <= i < |cms| && origins[i].Foreign? ensures cms[i].files == map[] {
        assert cms[i] in cms;
      }
    }
    if ForeignEmpty(cms, origins) {
      forall cm | IsLeftover(p, id, kind, cm) ensures cm.files == map[] {
        assert cm in cms && cm !in emitted;
        var i :| 0 <= i < |cms| && cms[i] == cm;
      }
    }
  }

  /** Every reconcile but the first finds the chart version's own ConfigMaps;
      they are overwritten and leave nothing over. */
  lemma OwnAreNoLeftovers(p: Setup, id: ChartId, kind: string)
    requires |p.emits| == 3 && NamedByKey(p.store)
    requires forall name :: name in p.store && Matches(id, kind, p.store[name]) ==>
      exists cm :: cm in Emitted(p) && cm.name == name
    ensures LeftoversEmpty(p, id, kind)
  {
  }

  /** The same chart and version of another repository of the group: one file
      in its base ConfigMap, and what is read back is not what was stored. */
  lemma OtherRepositoryMixesIn(p: Setup, id: ChartId, templates: seq<File>, crds: seq<File>, dirs: seq<Option<string>>,
                               dirs': seq<Option<string>>, run: seq<State>, repo: string, files: map<string, Bytes>,
                               cms: seq<ConfigMap>, out: seq<File>)
    requires OneKind("tmpl", templates) && OneKind("crds", crds) && NamesUnique("tmpl", templates)
    requires IsStorage(p, id, Places(templates), Places(crds), dirs, dirs', run)
    requires repo != id.repo && |repo| == |id.repo| && files != map[]
    requires InStore(p.store, NewMap(id.(repo := repo, ownerRepo := repo), "tmpl", None, files))
    requires IsListing(run[|run| - 1].store, id, "tmpl", cms) && CanRead("tmpl", cms, out)
    ensures !ComesBack("tmpl", templates, out)
  {
    var other := id.(repo := repo, ownerRepo := repo);
    var cm := NewMap(other, "tmpl", None, files);
    forall e | e in Emitted(p) ensures e.name != cm.name {
      var kind, dir := EmittedName(p, id, Places(templates), Places(crds), dirs, dirs', e);
      RepositoriesDiffer(id, kind, dir, other, "tmpl", None);
    }
    assert IsLeftover(p, id, "tmpl", cm);
    FilesComeBack(p, id, templates, crds, dirs, dirs', run, "tmpl", cms, out);
  }

  lemma RepositoriesDiffer(id: ChartId, kind: string, dir: Option<string>, id': ChartId, kind': string, dir': Option<string>)
    requires IsKind(kind) && IsKind(kind') && |id.repo| == |id'.repo| && id.repo != id'.repo
    ensures MapName(id, kind, dir) != MapName(id', kind', dir')
  {
    NamesEqualIff(id, kind, dir, id', kind', dir');
    var n := |id.repo|;
    assert Tail(id, dir)[..n] == id.repo && Tail(id', dir')[..n] == id'.repo;
  }

  lemma EmittedName(p: Setup, id: ChartId, templates: seq<Placed>, crds: seq<Placed>, dirs: seq<Option<string>>,
                    dirs': seq<Option<string>>, cm: ConfigMap) returns (kind: string, dir: Option<string>)
    requires EmittedBy(p, id, templates, crds, dirs, dirs') && cm in Emitted(p)
    ensures IsKind(kind) && dir in DirsOf(kind, dirs, dirs') && cm.name == MapName(id, kind, dir)
    ensures cm.chart == id.chart + "-" + id.version && cm.kind == kind
  {
    if cm in p.emits[0] {
      var i :| 0 <= i < |p.emits[0]| && p.emits[0][i] == cm;
      kind, dir := "tmpl", dirs[i];
    } else if cm in p.emits[1] {
      var i :| 0 <= i < |p.emits[1]| && p.emits[1][i] == cm;
      kind, dir := "crds", dirs'[i];
    } else {
      kind, dir := "default", None;
    }
  }

  /** The directories for which a chart version emits ConfigMaps of a kind. */
  function DirsOf(kind: string, dirs: seq<Option<string>>, dirs': seq<Option<string>>): seq<Option<string>> {
    if kind == "tmpl" then dirs else if kind == "crds" then dirs' else [None]
  }

  lemma EmittedFor(p: Setup, id: ChartId, templates: seq<Placed>, crds: seq<Placed>, dirs: seq<Option<string>>,
                   dirs': seq<Option<string>>, kind: string, dir: Option<string>) returns (cm: ConfigMap)
    requires EmittedBy(p, id, templates, crds, dirs, dirs') && IsKind(kind) && dir in DirsOf(kind, dirs, dirs')
    ensures cm in Emitted(p) && cm.name == MapName(id, kind, dir)
    ensures cm.chart == id.chart + "-" + id.version
  {
    if kind == "tmpl" {
      var i :| 0 <= i < |dirs| && dirs[i] == dir;
      cm := p.emits[0][i];
      assert cm in p.emits[0];
    } else if kind == "crds" {
      var i :| 0 <= i < |dirs'| && dirs'[i] == dir;
      cm := p.emits[1][i];
      assert cm in p.emits[1];
    } else {
      cm := p.emits[2][0];
      assert cm in p.emits[2];
    }
  }

  // -------------------------------------------------------------------
  // Two charts
  // -------------------------------------------------------------------

  /** Another chart of the same repository and version is stored afterwards: a
      ConfigMap of the first one survives if and only if the second chart
      spells its stem for none of its directories. */
  lemma SurvivesIffStemsDiffer(p: Setup, id: ChartId, templates: seq<Placed>, crds: seq<Placed>, dirs: seq<Option<string>>,
                               dirs': seq<Option<string>>, run: seq<State>,
                               q: Setup, chart: string, templates': seq<Placed>, crds': seq<Placed>,
                               others: seq<Option<string>>, others': seq<Option<string>>, run': seq<State>,
                               kind: string, dir: Option<string>)
    requires IsStorage(p, id, templates, crds, dirs, dirs', run)
    requires IsStorage(q, id.(chart := chart), templates', crds', others, others', run')
    requires q.store == run[|run| - 1].store && chart != id.chart
    requires IsKind(kind) && dir in DirsOf(kind, dirs, dirs')
    ensures
      var name, before, after := MapName(id, kind, dir), run[|run| - 1].store, run'[|run'| - 1].store;
      name in before && before[name].chart == id.chart + "-" + id.version && name in after &&
      (after[name] == before[name] <==> forall d :: d in DirsOf(kind, others, others') ==> Stem(id.chart, dir) != Stem(chart, d)) &&
      (after[name] != before[name] ==> after[name].chart == chart + "-" + id.version)
  {
    var name, before, after := MapName(id, kind, dir), run[|run| - 1].store, run'[|run'| - 1].store;
    StoreAfterRun(p, id, templates, crds, dirs, dirs', run);
    StoreAfterRun(q, id.(chart := chart), templates', crds', others, others', run');
    var cm := EmittedFor(p, id, templates, crds, dirs, dirs', kind, dir);
    LabelsDiffer(id.chart, chart, id.version);
    if d :| d in DirsOf(kind, others, others') && Stem(id.chart, dir) == Stem(chart, d) {
      NamesClashIff(id, chart, kind, dir, kind, d);
      var cm' := EmittedFor(q, id.(chart := chart), templates', crds', others, others', kind, d);
      assert after[name] == cm';
    } else {
      forall e | e in Emitted(q) ensures e.name != name {
        var kind', d := EmittedName(q, id.(chart := chart), templates', crds', others, others', e);
        NamesClashIff(id, chart, kind, dir, kind', d);
      }
      assert SameAt(after, before, name);
    }
  }

  lemma LabelsDiffer(chart: string, chart': string, version: string)
    requires chart != chart'
    ensures chart + "-" + version != chart' + "-" + version
  {
    var a, b := chart + "-" + version, chart' + "-" + version;
    assert a[..|a| - |version| - 1] == chart && b[..|b| - |version| - 1] == chart';
  }

  /** The directory "b" of the chart "a" and the chart "a-b". */
  lemma DirectoryNameClash(id: ChartId, dir: string)
    ensures Stem(id.chart, Some(dir)) == Stem(id.chart + "-" + dir, None)
    ensures MapName(id, "tmpl", Some(dir)) == MapName(id.(chart := id.chart + "-" + dir), "tmpl", None)
  {
    assert id.chart + "-" + (dir + "-") == (id.chart + "-" + dir) + "-" + "";
    NamesClashIff(id, id.chart + "-" + dir, "tmpl", Some(dir), "tmpl", None);
  }

  // -------------------------------------------------------------------
  // The loaded chart
  // -------------------------------------------------------------------

  /** setFiles after any returned run: Files holds the templates and then the
      CRDs, and Templates the templates, each file exactly once. */
  lemma ChartIsLoadedBack(p: Setup, id: ChartId, templates: seq<File>, crds: seq<File>, dirs: seq<Option<string>>,
                          dirs': seq<Option<string>>, run: seq<State>,
                          forFiles: seq<ConfigMap>, forTemplates: seq<ConfigMap>, forCrds: seq<ConfigMap>,
                          files: seq<File>, temps: seq<File>)
    requires OneKind("tmpl", templates) && OneKind("crds", crds) && NamesUnique("tmpl", templates) && NamesUnique("crds", crds)
    requires IsStorage(p, id, Places(templates), Places(crds), dirs, dirs', run)
    requires LeftoversEmpty(p, id, "tmpl") && LeftoversEmpty(p, id, "crds")
    requires IsListing(run[|run| - 1].store, id, "tmpl", forFiles)
    requires IsListing(run[|run| - 1].store, id, "tmpl", forTemplates)
    requires IsListing(run[|run| - 1].store, id, "crds", forCrds)
    requires AreSet(forFiles, forTemplates, forCrds, files, temps)
    ensures TemplatesThenCrds(templates, crds, files) && ComesBack("tmpl", templates, temps)
  {
    var first, last :| files == first + last && CanRead("tmpl", forFiles, first) && CanRead("crds", forCrds, last);
    FilesComeBack(p, id, templates, crds, dirs, dirs', run, "tmpl", forFiles, first);
    FilesComeBack(p, id, templates, crds, dirs, dirs', run, "tmpl", forTemplates, temps);
    FilesComeBack(p, id, templates, crds, dirs, dirs', run, "crds", forCrds, last);
  }
}
