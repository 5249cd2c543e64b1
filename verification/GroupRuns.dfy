/** Both group controllers over runs of passes with edits of the spec in
    between: what they create they own (repogroup_controller.go:77-183,
    releasegroup_controller.go:100-206). */
module GroupRuns {
  import opened JsonTree
  import opened GroupCluster

  /** A pass: the spec at its time, and what its list call returns. */
  datatype Round = Round(items: seq<Item>, listed: seq<Key>)

  function At(g: Group, round: Round): Group {
    g.(items := round.items)
  }

  function AfterRounds(g: Group, c: Cluster, rounds: seq<Round>): Cluster
    decreases |rounds|
  {
    if rounds == [] then c
    else AfterRounds(g, AfterPass(At(g, rounds[0]), c, rounds[0].listed), rounds[1..])
  }

  ghost predicate AreListed(g: Group, c: Cluster, rounds: seq<Round>)
    decreases |rounds|
  {
    rounds == [] ||
    (IsListing(At(g, rounds[0]), c, rounds[0].listed) &&
     AreListed(g, AfterPass(At(g, rounds[0]), c, rounds[0].listed), rounds[1..]))
  }

  /** Repositories have no namespace, releases get that of their group. */
  predicate IsPlaceOf(g: Group, k: Key) {
    k.namespace == if g.kind.RepoGroup? then "" else g.namespace
  }

  /** The metadata of what a group creates: its own label and the group's, and
      for repositories the group as owner. */
  predicate IsOwned(g: Group, k: Key, m: Meta) {
    match g.kind
    case RepoGroup =>
      m.labels == map["yaho.soer3n.dev/repo" := k.name, "yaho.soer3n.dev/repoGroup" := g.selector] &&
      m.owner == Some(g.owner)
    case ReleaseGroup =>
      m.labels == map["release" := k.name, "releaseGroup" := g.selector] && m.owner == None
  }

  lemma OwnedHasLabel(g: Group, k: Key, r: Resource)
    requires IsOwned(g, k, r.meta)
    ensures HasGroupLabel(g, r)
  {
  }

  /** What a pass creates has a name in the spec, and carries the label that
      the next list call asks for. */
  lemma CreatedIsOwned(g: Group, c: Cluster, listed: seq<Key>, k: Key)
    requires k !in c
    ensures
      var r := AfterPass(g, c, listed);
      (k in r <==> InSpec(g.items, k.name) && IsPlaceOf(g, k)) && (k in r ==> IsOwned(g, k, r[k].meta))
  {
    AfterPassAt(g, c, listed, k);
    assert |"yaho.soer3n.dev/repo"| == 20 && |"yaho.soer3n.dev/repoGroup"| == 25;
    assert |"release"| == 7 && |"releaseGroup"| == 12;
  }

  /** A pass leaves the metadata of what it does not delete. */
  lemma MetaStays(g: Group, c: Cluster, listed: seq<Key>, k: Key)
    requires k in c
    ensures var r := AfterPass(g, c, listed); k in r ==> r[k].meta == c[k].meta
  {
    AfterPassAt(g, c, listed, k);
  }

  /** An object that the group's passes created stays theirs: after any run of
      passes and edits it is there if and only if the last spec names it. */
  lemma {:induction false} GroupOwnsWhatItCreates(g: Group, c: Cluster, rounds: seq<Round>, k: Key)
    requires rounds != [] && AreListed(g, c, rounds) && (k in c ==> IsOwned(g, k, c[k].meta) && IsPlaceOf(g, k))
    ensures
      var r := AfterRounds(g, c, rounds);
      (k in r <==> InSpec(rounds[|rounds| - 1].items, k.name) && IsPlaceOf(g, k)) &&
      (k in r ==> IsOwned(g, k, r[k].meta))
    decreases |rounds|
  {
    var now := At(g, rounds[0]);
    var next := AfterPass(now, c, rounds[0].listed);
    OnePass(now, c, rounds[0].listed, k);
    if |rounds| > 1 {
      GroupOwnsWhatItCreates(g, next, rounds[1..], k);
    }
  }

  lemma OnePass(g: Group, c: Cluster, listed: seq<Key>, k: Key)
    requires IsListing(g, c, listed) && (k in c ==> IsOwned(g, k, c[k].meta) && IsPlaceOf(g, k))
    ensures
      var r := AfterPass(g, c, listed);
      (k in r <==> InSpec(g.items, k.name) && IsPlaceOf(g, k)) && (k in r ==> IsOwned(g, k, r[k].meta))
  {
    if k in c {
      MetaStays(g, c, listed, k);
      OwnedHasLabel(g, k, c[k]);
      AfterPassAt(g, c, listed, k);
    } else {
      CreatedIsOwned(g, c, listed, k);
    }
  }

  /** In particular: an object that one pass created is gone after any later
      pass that does not find its name in the spec, whatever came between. */
  lemma CreatedIsRemoved(g: Group, c: Cluster, rounds: seq<Round>, k: Key)
    requires |rounds| > 1 && AreListed(g, c, rounds)
    requires k !in c && k in AfterPass(At(g, rounds[0]), c, rounds[0].listed)
    requires !InSpec(rounds[|rounds| - 1].items, k.name)
    ensures k !in AfterRounds(g, c, rounds)
  {
    GroupOwnsWhatItCreates(g, c, rounds, k);
  }

  // -------------------------------------------------------------------
  // The entries of the spec
  // -------------------------------------------------------------------

  lemma {:induction false} LastNamedIs(items: seq<Item>, i: nat)
    requires i < |items| && forall j :: i < j < |items| ==> items[j].name != items[i].name
    ensures InSpec(items, items[i].name) && LastNamed(items, items[i].name) == items[i]
    decreases |items|
  {
    var n := |items| - 1;
    if i < n {
      LastNamedIs(items[..n], i);
    }
  }

  lemma {:induction false} FirstNamedIs(items: seq<Item>, i: nat)
    requires i < |items| && forall j :: 0 <= j < i ==> items[j].name != items[i].name
    ensures InSpec(items, items[i].name) && FirstNamed(items, items[i].name) == items[i]
    decreases |items|
  {
    if i > 0 {
      assert items[0].name != items[i].name;
      FirstNamedIs(items[1..], i - 1);
    }
  }

  /** A repository ends with the last entry of its name, and keeps its metadata
      if it was there. */
  lemma RepositoryAsSpecified(g: Group, c: Cluster, listed: seq<Key>, i: nat)
    requires g.kind.RepoGroup? && i < |g.items|
    requires forall j :: i < j < |g.items| ==> g.items[j].name != g.items[i].name
    ensures
      var k, r := Key("", g.items[i].name), AfterPass(g, c, listed);
      k in r && r[k].spec == g.items[i] && (k in c ==> r[k].meta == c[k].meta)
  {
    LastNamedIs(g.items, i);
    AfterPassAt(g, c, listed, Key("", g.items[i].name));
  }

  /** A release that was there is left alone; one that was not gets the first
      entry of its name. */
  lemma ReleaseAsSpecified(g: Group, c: Cluster, listed: seq<Key>, i: nat)
    requires g.kind.ReleaseGroup? && i < |g.items|
    requires forall j :: 0 <= j < i ==> g.items[j].name != g.items[i].name
    ensures
      var k, r := Key(g.namespace, g.items[i].name), AfterPass(g, c, listed);
      k in r && if k in c then r[k] == c[k] else r[k].spec == g.items[i]
  {
    FirstNamedIs(g.items, i);
    AfterPassAt(g, c, listed, Key(g.namespace, g.items[i].name));
  }
}
