/** What the RepoGroup and ReleaseGroup reconcilers do to the cluster: the
    effect of one removal, of one deployment, and of a whole pass.  Both
    controllers share the loop; they differ in deployRepo and deployRelease. */
module GroupCluster {
  import opened JsonTree

  /** Cluster-scoped objects have the namespace "". */
  datatype Key = Key(namespace: string, name: string)

  datatype Meta = Meta(labels: map<string, string>, owner: Option<string>)

  /** One entry of the group's spec; body stands for the fields beside name. */
  datatype Item = Item(name: string, body: string)

  datatype Resource = Resource(meta: Meta, spec: Item)

  type Cluster = map<Key, Resource>

  datatype Kind = RepoGroup | ReleaseGroup

  datatype Group = Group(kind: Kind, namespace: string, owner: string, selector: string, items: seq<Item>)

  function GroupLabel(kind: Kind): string {
    if kind.RepoGroup? then "yaho.soer3n.dev/repoGroup" else "releaseGroup"
  }

  function ObjectLabel(kind: Kind): string {
    if kind.RepoGroup? then "yaho.soer3n.dev/repo" else "release"
  }

  /** Repositories are cluster-scoped, releases live in the group's namespace. */
  function KeyOf(g: Group, name: string): Key {
    Key(if g.kind.RepoGroup? then "" else g.namespace, name)
  }

  /** The metadata that the creating goroutine gives an object; only deployRepo
      sets a controller reference. */
  function NewMeta(g: Group, name: string): Meta {
    Meta(map[ObjectLabel(g.kind) := name, GroupLabel(g.kind) := g.selector],
         if g.kind.RepoGroup? then Some(g.owner) else None)
  }

  predicate HasGroupLabel(g: Group, r: Resource) {
    GroupLabel(g.kind) in r.meta.labels && r.meta.labels[GroupLabel(g.kind)] == g.selector
  }

  /** The list call returns the group's objects, of all namespaces, each once
      and in any order. */
  ghost predicate IsListing(g: Group, c: Cluster, listed: seq<Key>) {
    (forall k :: k in listed <==> k in c && HasGroupLabel(g, c[k])) &&
    forall i, j :: 0 <= i < j < |listed| ==> listed[i] != listed[j]
  }

  predicate InSpec(items: seq<Item>, name: string) {
    exists i :: 0 <= i < |items| && items[i].name == name
  }

  lemma PartOfSpec(items: seq<Item>, n: nat, name: string)
    requires n <= |items|
    ensures InSpec(items[..n], name) || InSpec(items[n..], name) ==> InSpec(items, name)
  {
    if InSpec(items[..n], name) {
      var i :| 0 <= i < n && items[..n][i].name == name;
      assert items[i].name == name;
    } else if InSpec(items[n..], name) {
      var i :| 0 <= i < |items| - n && items[n..][i].name == name;
      assert items[n + i].name == name;
    }
  }

  /** deployRepo updates what exists and keeps its metadata; deployRelease
      leaves what exists alone. */
  function Deploy(g: Group, c: Cluster, item: Item): Cluster {
    var k := KeyOf(g, item.name);
    if k !in c then c[k := Resource(NewMeta(g, item.name), item)]
    else if g.kind.RepoGroup? then c[k := Resource(c[k].meta, item)]
    else c
  }

  function DeployAll(g: Group, c: Cluster, items: seq<Item>): Cluster {
    if items == [] then c
    else Deploy(g, DeployAll(g, c, items[..|items| - 1]), items[|items| - 1])
  }

  /** The listed objects whose names are not in the spec. */
  function Doomed(g: Group, listed: seq<Key>): set<Key> {
    set k | k in listed && !InSpec(g.items, k.name)
  }

  /** The cluster after a complete pass. */
  function AfterPass(g: Group, c: Cluster, listed: seq<Key>): Cluster {
    DeployAll(g, c - Doomed(g, listed), g.items)
  }

  // -------------------------------------------------------------------
  // Removals and deployments commute
  // -------------------------------------------------------------------

  lemma {:induction false} DeployAllSnoc(g: Group, c: Cluster, items: seq<Item>, item: Item)
    ensures DeployAll(g, c, items + [item]) == Deploy(g, DeployAll(g, c, items), item)
  {
    assert (items + [item])[..|items|] == items;
  }

  lemma {:induction false} RemoveCommutes(g: Group, c: Cluster, items: seq<Item>, k: Key)
    requires !InSpec(items, k.name)
    ensures DeployAll(g, c, items) - {k} == DeployAll(g, c - {k}, items)
  {
    if items != [] {
      var n := |items| - 1;
      PartOfSpec(items, n, k.name);
      RemoveCommutes(g, c, items[..n], k);
      assert KeyOf(g, items[n].name) != k;
    }
  }

  // -------------------------------------------------------------------
  // What a pass leaves at each key
  // -------------------------------------------------------------------

  function FirstNamed(items: seq<Item>, name: string): (r: Item)
    requires InSpec(items, name)
    ensures r in items && r.name == name
  {
    if items[0].name == name then items[0]
    else
      TailNamed(items, name);
      FirstNamed(items[1..], name)
  }

  lemma TailNamed(items: seq<Item>, name: string)
    requires InSpec(items, name) && items[0].name != name
    ensures InSpec(items[1..], name)
  {
    var i :| 0 <= i < |items| && items[i].name == name;
    assert items[1..][i - 1].name == name;
  }

  function LastNamed(items: seq<Item>, name: string): (r: Item)
    requires InSpec(items, name)
    ensures r in items && r.name == name
  {
    var n := |items| - 1;
    if items[n].name == name then items[n]
    else
      HeadNamed(items, name);
      LastNamed(items[..n], name)
  }

  lemma HeadNamed(items: seq<Item>, name: string)
    requires InSpec(items, name) && items[|items| - 1].name != name
    ensures InSpec(items[..|items| - 1], name)
  {
    var i :| 0 <= i < |items| && items[i].name == name;
    assert items[..|items| - 1][i].name == name;
  }

  /** The object that deploying items leaves at the key of a name: an update
      ends with the last entry, a creation without updates with the first. */
  function Deployed(g: Group, c: Cluster, items: seq<Item>, name: string): Resource
    requires InSpec(items, name)
  {
    var k := KeyOf(g, name);
    if g.kind.RepoGroup? then Resource(if k in c then c[k].meta else NewMeta(g, name), LastNamed(items, name))
    else if k in c then c[k]
    else Resource(NewMeta(g, name), FirstNamed(items, name))
  }

  lemma {:induction false} FirstNamedSnoc(items: seq<Item>, item: Item, name: string)
    requires InSpec(items, name)
    ensures InSpec(items + [item], name) && FirstNamed(items + [item], name) == FirstNamed(items, name)
    decreases |items|
  {
    var i :| 0 <= i < |items| && items[i].name == name;
    assert (items + [item])[i].name == name;
    if items[0].name != name {
      TailNamed(items, name);
      assert (items + [item])[1..] == items[1..] + [item];
      FirstNamedSnoc(items[1..], item, name);
    }
  }

  lemma {:induction false} FirstIsNew(items: seq<Item>, item: Item)
    requires !InSpec(items, item.name)
    ensures InSpec(items + [item], item.name) && FirstNamed(items + [item], item.name) == item
    decreases |items|
  {
    assert (items + [item])[|items|] == item;
    if items != [] {
      assert items[0].name != item.name;
      assert (items + [item])[1..] == items[1..] + [item];
      PartOfSpec(items, 1, item.name);
      FirstIsNew(items[1..], item);
    }
  }

  /** Deploying a list, key by key. */
  lemma {:induction false} DeployAllAt(g: Group, c: Cluster, items: seq<Item>, k: Key)
    ensures
      var r := DeployAll(g, c, items);
      if InSpec(items, k.name) && k == KeyOf(g, k.name) then k in r && r[k] == Deployed(g, c, items, k.name)
      else (k in r <==> k in c) && (k in c ==> r[k] == c[k])
  {
    if items != [] {
      var n := |items| - 1;
      var init, item := items[..n], items[n];
      assert items == init + [item];
      DeployAllAt(g, c, init, k);
      PartOfSpec(items, n, k.name);
      if !InSpec(items, k.name) {
      } else if item.name == k.name {
        if InSpec(init, k.name) {
          FirstNamedSnoc(init, item, k.name);
        } else {
          FirstIsNew(init, item);
        }
      } else {
        HeadNamed(items, k.name);
        FirstNamedSnoc(init, item, k.name);
      }
    }
  }

  /** After a pass: listed objects not in the spec are gone, every name of the
      spec is present as Deployed says, and everything else is untouched. */
  lemma AfterPassAt(g: Group, c: Cluster, listed: seq<Key>, k: Key)
    ensures
      var r := AfterPass(g, c, listed);
      if InSpec(g.items, k.name) && k == KeyOf(g, k.name) then k in r && r[k] == Deployed(g, c, g.items, k.name)
      else if k in listed && !InSpec(g.items, k.name) then k !in r
      else (k in r <==> k in c) && (k in c ==> r[k] == c[k])
  {
    DeployAllAt(g, c - Doomed(g, listed), g.items, k);
  }

  /** No object of the group is left without an entry in the spec. */
  lemma NothingDoomedAfterPass(g: Group, c: Cluster, listed: seq<Key>, k: Key)
    requires IsListing(g, c, listed)
    ensures var r := AfterPass(g, c, listed); k in r && HasGroupLabel(g, r[k]) ==> InSpec(g.items, k.name)
  {
    AfterPassAt(g, c, listed, k);
  }

  /** A second pass, over a fresh listing, changes nothing. */
  lemma SecondPassIsIdle(g: Group, c: Cluster, listed: seq<Key>, again: seq<Key>)
    requires IsListing(g, c, listed)
    requires IsListing(g, AfterPass(g, c, listed), again)
    ensures AfterPass(g, AfterPass(g, c, listed), again) == AfterPass(g, c, listed)
  {
    var r := AfterPass(g, c, listed);
    var r' := AfterPass(g, r, again);
    forall k ensures (k in r' <==> k in r) && (k in r ==> r'[k] == r[k]) {
      AfterPassAt(g, c, listed, k);
      AfterPassAt(g, r, again, k);
      NothingDoomedAfterPass(g, c, listed, k);
    }
  }

  /** The list call is not limited to the group's namespace: an empty
      ReleaseGroup in "mine" removes a release of the group in "theirs". */
  lemma OtherNamespaceExample(r: Resource, listed: seq<Key>)
    requires
      var g := Group(ReleaseGroup, "mine", "g", "team", []);
      HasGroupLabel(g, r) && IsListing(g, map[Key("theirs", "web") := r], listed)
    ensures AfterPass(Group(ReleaseGroup, "mine", "g", "team", []), map[Key("theirs", "web") := r], listed) == map[]
  {
    var k := Key("theirs", "web");
    assert k in listed;
  }
}
