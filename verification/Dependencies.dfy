/** The dependency edges of a chart version: names and versions come from the
    index entry, repositories are looked up by URL
    (internal/chartversion/dependencies.go:25-181).  A version that differs from
    the one in the loaded archive is corrected, and the index with it. */
module Dependencies {
  import opened JsonTree
  import GroupCluster
  import SubCharts

  datatype Repo = Repo(name: string, specName: string, url: string, labels: map<string, string>)

  datatype Dependency = Dependency(name: string, version: string, url: string)

  /** The label key of the list call has no prefix. */
  predicate Selected(r: Repo, group: Option<string>) {
    group.None? || ("repoGroup" in r.labels && r.labels["repoGroup"] == group.value)
  }

  /** A selected repository that serves the URL. */
  predicate Serves(r: Repo, group: Option<string>, url: string) {
    Selected(r, group) && r.url == url
  }

  /** name is the chart's own repository, or the first other one that serves
      the URL. */
  ghost predicate Resolves(own: Repo, url: string, group: Option<string>, repos: seq<Repo>, name: string) {
    if own.url == url || (forall r :: r in repos ==> !Serves(r, group, url)) then name == own.specName
    else exists i :: 0 <= i < |repos| && IsFirst(repos, group, url, i) && name == repos[i].name
  }

  ghost predicate IsFirst(repos: seq<Repo>, group: Option<string>, url: string, i: nat)
    requires i < |repos|
  {
    Serves(repos[i], group, url) && forall j :: 0 <= j < i ==> !Serves(repos[j], group, url)
  }

  /** r has the name and serves the URL, and carries the group if there is one. */
  predicate IsChosen(r: Repo, url: string, group: Option<string>, name: string) {
    r.name == name && r.url == url &&
    (group.Some? ==> "repoGroup" in r.labels && r.labels["repoGroup"] == group.value)
  }

  predicate IsFirstChosen(repos: seq<Repo>, url: string, group: Option<string>, i: nat)
    requires i < |repos|
  {
    IsChosen(repos[i], url, group, repos[i].name) &&
    forall j :: 0 <= j < i ==> !IsChosen(repos[j], url, group, repos[j].name)
  }

  method GetRepoName(own: Repo, url: string, group: Option<string>, repos: seq<Repo>) returns (name: string)
    ensures Resolves(own, url, group, repos, name)
    ensures own.url == url ==> name == own.specName
    ensures name == own.specName || exists r :: r in repos && IsChosen(r, url, group, name)
    ensures own.url != url && (exists r :: r in repos && IsChosen(r, url, group, r.name)) ==>
      exists r :: r in repos && IsChosen(r, url, group, name)
    ensures own.url != url ==> forall i :: 0 <= i < |repos| && IsFirstChosen(repos, url, group, i) ==> name == repos[i].name
  {
    if own.url != url {
      for i := 0 to |repos|
        invariant forall j :: 0 <= j < i ==> !Serves(repos[j], group, url)
      {
        if Selected(repos[i], group) {
          if repos[i].url == url {
            assert IsFirst(repos, group, url, i) && IsChosen(repos[i], url, group, repos[i].name);
            return repos[i].name;
          }
        }
      }
    }
    return own.specName;
  }

  // -------------------------------------------------------------------
  // The index
  // -------------------------------------------------------------------

  /** A chart inside the loaded archive. */
  datatype Loaded = Loaded(name: string, version: string)

  datatype IndexEntry = IndexEntry(version: string, deps: seq<Dependency>)

  predicate IsEntry(e: IndexEntry, own: string) {
    e.version == own && e.deps != []
  }

  predicate HasEntry(ix: seq<IndexEntry>, own: string) {
    exists k :: 0 <= k < |ix| && IsEntry(ix[k], own)
  }

  /** The version of the first dependency of the first entry replaced: the loop
      over the dependencies of an entry ends after its first round. */
  function Patch(ix: seq<IndexEntry>, own: string, version: string): seq<IndexEntry> {
    if ix == [] then []
    else if IsEntry(ix[0], own) then
      [ix[0].(deps := ix[0].deps[0 := ix[0].deps[0].(version := version)])] + ix[1..]
    else [ix[0]] + Patch(ix[1..], own, version)
  }

  lemma {:induction false} PatchAt(ix: seq<IndexEntry>, own: string, version: string, k: nat)
    requires k < |ix| && IsEntry(ix[k], own) && forall j :: 0 <= j < k ==> !IsEntry(ix[j], own)
    ensures Patch(ix, own, version) == ix[k := ix[k].(deps := ix[k].deps[0 := ix[k].deps[0].(version := version)])]
    decreases k
  {
    if k > 0 {
      assert !IsEntry(ix[0], own);
      PatchAt(ix[1..], own, version, k - 1);
    }
  }

  lemma EntryOrLater(e: IndexEntry, rest: seq<IndexEntry>, own: string)
    ensures HasEntry([e] + rest, own) <==> IsEntry(e, own) || HasEntry(rest, own)
  {
    var ix := [e] + rest;
    if IsEntry(e, own) {
      assert IsEntry(ix[0], own);
    }
    if k :| 0 <= k < |rest| && IsEntry(rest[k], own) {
      assert IsEntry(ix[k + 1], own);
    }
  }

  lemma {:induction false} PatchAgain(ix: seq<IndexEntry>, own: string, v: string, w: string)
    ensures Patch(Patch(ix, own, v), own, w) == Patch(ix, own, w)
    ensures HasEntry(Patch(ix, own, v), own) <==> HasEntry(ix, own)
  {
    if ix != [] {
      var first, rest := Patch(ix, own, v)[0], Patch(ix, own, v)[1..];
      assert ix == [ix[0]] + ix[1..] && Patch(ix, own, v) == [first] + rest;
      EntryOrLater(ix[0], ix[1..], own);
      EntryOrLater(first, rest, own);
      if IsEntry(ix[0], own) {
        assert IsEntry(first, own) && rest == ix[1..];
        assert first.deps[0 := first.deps[0].(version := w)] == ix[0].deps[0 := ix[0].deps[0].(version := w)];
      } else {
        assert first == ix[0] && rest == Patch(ix[1..], own, v);
        PatchAgain(ix[1..], own, v, w);
      }
    }
  }

  /** The version an archive holds of a dependency, the last one if there are
      several; the wanted version if there is none. */
  function LastLoaded(loaded: seq<Loaded>, dep: Dependency): string {
    if loaded == [] then dep.version
    else
      var n := |loaded| - 1;
      if loaded[n].name == dep.name then loaded[n].version else LastLoaded(loaded[..n], dep)
  }

  /** The archive holds another version than the wanted one. */
  predicate Differs(loaded: seq<Loaded>, dep: Dependency) {
    exists i :: 0 <= i < |loaded| && loaded[i].name == dep.name && loaded[i].version != dep.version
  }

  lemma DiffersSnoc(loaded: seq<Loaded>, d: Loaded, dep: Dependency)
    ensures Differs(loaded + [d], dep) <==> Differs(loaded, dep) || (d.name == dep.name && d.version != dep.version)
    ensures LastLoaded(loaded + [d], dep) == if d.name == dep.name then d.version else LastLoaded(loaded, dep)
  {
    var all := loaded + [d];
    assert all[..|loaded|] == loaded && all[|loaded|] == d;
    if Differs(loaded, dep) {
      var i :| 0 <= i < |loaded| && loaded[i].name == dep.name && loaded[i].version != dep.version;
      assert all[i] == loaded[i];
    }
    if Differs(all, dep) {
      var i :| 0 <= i < |all| && all[i].name == dep.name && all[i].version != dep.version;
      assert i < |loaded| ==> loaded[i] == all[i];
    }
  }

  lemma {:induction false} SameUnlessDiffers(loaded: seq<Loaded>, dep: Dependency)
    ensures !Differs(loaded, dep) ==> LastLoaded(loaded, dep) == dep.version
  {
    if loaded != [] {
      var n := |loaded| - 1;
      assert loaded == loaded[..n] + [loaded[n]];
      DiffersSnoc(loaded[..n], loaded[n], dep);
      SameUnlessDiffers(loaded[..n], dep);
    }
  }

  /** updateIndexIfNeeded and updateIndexVersion: every entry of the version is
      visited, and the first one that has dependencies is patched. */
  method UpdateIndexIfNeeded(d: Loaded, dep: Dependency, own: string, ix: seq<IndexEntry>)
      returns (dep': Dependency, ix': seq<IndexEntry>)
    ensures var hit := d.name == dep.name && d.version != dep.version && HasEntry(ix, own);
      dep' == (if hit then dep.(version := d.version) else dep) &&
      ix' == (if hit then Patch(ix, own, d.version) else ix)
  {
    dep', ix' := dep, ix;
    if d.name == dep.name {
      for k := 0 to |ix|
        invariant dep' == dep || (dep' == dep.(version := d.version) && d.version != dep.version)
        invariant dep' == dep && d.version != dep.version ==> forall j :: 0 <= j < k ==> !IsEntry(ix[j], own)
        invariant dep' == dep ==> ix' == ix
        invariant dep' != dep ==> HasEntry(ix, own) && ix' == Patch(ix, own, d.version)
      {
        var e := ix[k];
        if e.version == own {
          for i := 0 to |e.deps|
            invariant i > 0 ==> d.version == dep'.version
            invariant dep' == dep || (dep' == dep.(version := d.version) && d.version != dep.version)
            invariant dep' == dep && d.version != dep.version ==> forall j :: 0 <= j < k ==> !IsEntry(ix[j], own)
            invariant dep' == dep ==> ix' == ix
            invariant dep' != dep ==> HasEntry(ix, own) && ix' == Patch(ix, own, d.version)
          {
            if d.version != dep'.version {
              assert IsEntry(e, own);
              PatchAt(ix, own, d.version, k);
              dep' := dep'.(version := d.version);
              ix' := ix[k := e.(deps := e.deps[i := e.deps[i].(version := d.version)])];
              break;
            }
          }
        }
      }
    }
  }

  /** All charts of the archive, for one dependency. */
  method CorrectVersion(loaded: seq<Loaded>, dep: Dependency, own: string, ix: seq<IndexEntry>)
      returns (dep': Dependency, ix': seq<IndexEntry>)
    ensures dep' == if HasEntry(ix, own) then dep.(version := LastLoaded(loaded, dep)) else dep
    ensures ix' == if HasEntry(ix, own) && Differs(loaded, dep) then Patch(ix, own, dep'.version) else ix
  {
    dep', ix' := dep, ix;
    for i := 0 to |loaded|
      invariant dep' == if HasEntry(ix, own) then dep.(version := LastLoaded(loaded[..i], dep)) else dep
      invariant ix' == if HasEntry(ix, own) && Differs(loaded[..i], dep) then Patch(ix, own, dep'.version) else ix
    {
      assert loaded[..i + 1] == loaded[..i] + [loaded[i]];
      DiffersSnoc(loaded[..i], loaded[i], dep);
      SameUnlessDiffers(loaded[..i], dep);
      PatchAgain(ix, own, dep'.version, loaded[i].version);
      dep', ix' := UpdateIndexIfNeeded(loaded[i], dep', own, ix');
    }
    assert loaded[..|loaded|] == loaded;
  }

  /** The version that is patched in last. */
  function LastPatch(loaded: seq<Loaded>, wanted: seq<Dependency>): Option<string> {
    if wanted == [] then None
    else
      var n := |wanted| - 1;
      if Differs(loaded, wanted[n]) then Some(LastLoaded(loaded, wanted[n])) else LastPatch(loaded, wanted[..n])
  }

  function PatchedIndex(loaded: seq<Loaded>, wanted: seq<Dependency>, own: string, ix: seq<IndexEntry>): seq<IndexEntry> {
    var last := LastPatch(loaded, wanted);
    if HasEntry(ix, own) && last.Some? then Patch(ix, own, last.value) else ix
  }

  function EdgeVersion(loaded: seq<Loaded>, dep: Dependency, own: string, ix: seq<IndexEntry>): string {
    if HasEntry(ix, own) then LastLoaded(loaded, dep) else dep.version
  }

  /** The version of an edge: that of the last chart of its name in the archive,
      if the index has an entry to correct and there is such a chart. */
  lemma EdgeVersionIs(loaded: seq<Loaded>, dep: Dependency, own: string, ix: seq<IndexEntry>, i: nat)
    requires HasEntry(ix, own) && i < |loaded| && loaded[i].name == dep.name
    requires forall j :: i < j < |loaded| ==> loaded[j].name != dep.name
    ensures EdgeVersion(loaded, dep, own, ix) == loaded[i].version
  {
    LastLoadedIs(loaded, dep, i);
  }

  lemma {:induction false} LastLoadedIs(loaded: seq<Loaded>, dep: Dependency, i: nat)
    requires i < |loaded| && loaded[i].name == dep.name
    requires forall j :: i < j < |loaded| ==> loaded[j].name != dep.name
    ensures LastLoaded(loaded, dep) == loaded[i].version
    decreases |loaded|
  {
    var n := |loaded| - 1;
    if i < n {
      LastLoadedIs(loaded[..n], dep, i);
    }
  }

  /** Otherwise it is the wanted one. */
  lemma EdgeVersionStays(loaded: seq<Loaded>, dep: Dependency, own: string, ix: seq<IndexEntry>)
    requires !HasEntry(ix, own) || forall d :: d in loaded ==> d.name != dep.name
    ensures EdgeVersion(loaded, dep, own, ix) == dep.version
  {
    SameUnlessDiffers(loaded, dep);
  }

  lemma PatchedSnoc(loaded: seq<Loaded>, wanted: seq<Dependency>, dep: Dependency, own: string, ix: seq<IndexEntry>)
    ensures
      var before := PatchedIndex(loaded, wanted, own, ix);
      PatchedIndex(loaded, wanted + [dep], own, ix) ==
        (if HasEntry(before, own) && Differs(loaded, dep) then Patch(before, own, LastLoaded(loaded, dep)) else before) &&
      (HasEntry(before, own) <==> HasEntry(ix, own))
  {
    assert (wanted + [dep])[..|wanted|] == wanted;
    var last := LastPatch(loaded, wanted);
    if last.Some? {
      PatchAgain(ix, own, last.value, LastLoaded(loaded, dep));
    }
  }

  /** One edge per dependency, in order, with the version the archive holds;
      none while the chart is not loaded. */
  method CreateDependenciesList(archive: Option<seq<Loaded>>, wanted: seq<Dependency>, own: Repo, version: string,
                                ix: seq<IndexEntry>, group: Option<string>, repos: seq<Repo>)
      returns (deps: seq<SubCharts.Triple>, ix': seq<IndexEntry>)
    ensures |deps| == if archive.Some? then |wanted| else 0
    ensures forall i :: 0 <= i < |deps| ==>
      deps[i].chart == wanted[i].name && deps[i].version == EdgeVersion(archive.value, wanted[i], version, ix) &&
      Resolves(own, wanted[i].url, group, repos, deps[i].repo)
    ensures ix' == if archive.Some? then PatchedIndex(archive.value, wanted, version, ix) else ix
  {
    deps, ix' := [], ix;
    if archive.None? {
      return;
    }
    for i := 0 to |wanted|
      invariant |deps| == i
      invariant forall j :: 0 <= j < i ==>
        deps[j].chart == wanted[j].name && deps[j].version == EdgeVersion(archive.value, wanted[j], version, ix) &&
        Resolves(own, wanted[j].url, group, repos, deps[j].repo)
      invariant ix' == PatchedIndex(archive.value, wanted[..i], version, ix)
    {
      assert wanted[..i + 1] == wanted[..i] + [wanted[i]];
      PatchedSnoc(archive.value, wanted[..i], wanted[i], version, ix);
      var repository := GetRepoName(own, wanted[i].url, group, repos);
      var dep;
      dep, ix' := CorrectVersion(archive.value, wanted[i], version, ix');
      deps := deps + [SubCharts.Triple(repository, dep.name, dep.version)];
    }
    assert wanted[..|wanted|] == wanted;
  }

  /** The dependencies that the index holds for the version. */
  function IndexedDeps(ix: seq<IndexEntry>, own: string): seq<Dependency> {
    if ix == [] then [] else if IsEntry(ix[0], own) then ix[0].deps else IndexedDeps(ix[1..], own)
  }

  /** The archive may list a chart more than once, at one version: the lists of
      two calls are appended to each other. */
  predicate OneVersionEach(loaded: seq<Loaded>) {
    forall i, j :: 0 <= i < |loaded| && 0 <= j < |loaded| && loaded[i].name == loaded[j].name ==>
      loaded[i].version == loaded[j].version
  }

  lemma {:induction false} LastIsOnly(loaded: seq<Loaded>, dep: Dependency)
    requires OneVersionEach(loaded)
    ensures Differs(loaded, dep) <==> LastLoaded(loaded, dep) != dep.version
  {
    if loaded != [] {
      var n := |loaded| - 1;
      assert loaded == loaded[..n] + [loaded[n]];
      DiffersSnoc(loaded[..n], loaded[n], dep);
      if loaded[n].name == dep.name {
        SameVersion(loaded, dep);
      } else {
        LastIsOnly(loaded[..n], dep);
      }
    }
  }

  lemma SameVersion(loaded: seq<Loaded>, dep: Dependency)
    requires loaded != [] && OneVersionEach(loaded) && loaded[|loaded| - 1].name == dep.name
    ensures Differs(loaded, dep) <==> loaded[|loaded| - 1].version != dep.version
  {
  }

  lemma {:induction false} PatchedDeps(ix: seq<IndexEntry>, own: string, version: string)
    requires HasEntry(ix, own)
    ensures var deps := IndexedDeps(ix, own);
      deps != [] && IndexedDeps(Patch(ix, own, version), own) == deps[0 := deps[0].(version := version)]
  {
    if !IsEntry(ix[0], own) {
      var k :| 0 <= k < |ix| && IsEntry(ix[k], own);
      assert ix[1..][k - 1] == ix[k];
      PatchedDeps(ix[1..], own, version);
    }
  }

  lemma {:induction false} NoLaterPatch(loaded: seq<Loaded>, wanted: seq<Dependency>)
    requires wanted != [] && forall i :: 0 < i < |wanted| ==> !Differs(loaded, wanted[i])
    ensures LastPatch(loaded, wanted) == if Differs(loaded, wanted[0]) then Some(LastLoaded(loaded, wanted[0])) else None
  {
    var n := |wanted| - 1;
    if n > 0 {
      NoLaterPatch(loaded, wanted[..n]);
    }
  }

  /** The index holds the versions of the edges afterwards if and only if no
      dependency but the first was corrected: a correction of any other one is
      written to the first. */
  lemma IndexFollowsIffOnlyFirstDiffers(loaded: seq<Loaded>, wanted: seq<Dependency>, own: string, ix: seq<IndexEntry>)
    requires OneVersionEach(loaded) && HasEntry(ix, own) && IndexedDeps(ix, own) == wanted
    ensures
      var after := IndexedDeps(PatchedIndex(loaded, wanted, own, ix), own);
      |after| == |wanted| &&
      ((forall i :: 0 <= i < |wanted| ==> after[i].version == EdgeVersion(loaded, wanted[i], own, ix))
       <==> forall i :: 0 < i < |wanted| ==> !Differs(loaded, wanted[i]))
  {
    var last := LastPatch(loaded, wanted);
    var after := IndexedDeps(PatchedIndex(loaded, wanted, own, ix), own);
    PatchedDeps(ix, own, if last.Some? then last.value else "");
    forall i | 0 <= i < |wanted| ensures Differs(loaded, wanted[i]) <==> LastLoaded(loaded, wanted[i]) != wanted[i].version {
      LastIsOnly(loaded, wanted[i]);
    }
    if forall i :: 0 < i < |wanted| ==> !Differs(loaded, wanted[i]) {
      NoLaterPatch(loaded, wanted);
    }
    forall i | 0 < i < |wanted| ensures after[i] == wanted[i] {
    }
  }

  /** With one repository per URL the edge does not depend on the order of the
      list call. */
  lemma ListOrderIrrelevant(own: Repo, url: string, group: Option<string>, one: seq<Repo>, two: seq<Repo>,
                            name: string, name': string)
    requires multiset(one) == multiset(two)
    requires forall r, r' :: r in one && r' in one && r.url == r'.url ==> r == r'
    requires Resolves(own, url, group, one, name) && Resolves(own, url, group, two, name')
    ensures name == name'
  {
    forall r | r in one ensures r in two {
      assert r in multiset(one);
    }
    forall r | r in two ensures r in one {
      assert r in multiset(two);
    }
  }

  /** A repository as the RepoGroup controller creates it. */
  ghost predicate CreatedByGroup(g: GroupCluster.Group, r: Repo) {
    g.kind == GroupCluster.RepoGroup && r.labels == GroupCluster.NewMeta(g, r.name).labels
  }

  /** Inside a group the lookup never finds another repository that some group
      controller created: the controller sets the group label with a prefix, the
      lookup asks for it without one. */
  lemma GroupLookupFindsNothing(own: Repo, url: string, group: string, repos: seq<Repo>, name: string)
    requires forall r :: r in repos ==> exists g :: CreatedByGroup(g, r)
    requires Resolves(own, url, Some(group), repos, name)
    ensures name == own.specName
  {
    assert |"repoGroup"| == 9 && |GroupCluster.GroupLabel(GroupCluster.RepoGroup)| == 25;
    assert |GroupCluster.ObjectLabel(GroupCluster.RepoGroup)| == 20;
    forall r | r in repos ensures !Serves(r, Some(group), url) {
      var g :| CreatedByGroup(g, r);
    }
  }
}
