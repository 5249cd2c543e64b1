/** The ReleaseGroup controller over time: finalizer passes, reconciles and
    edits of the group's spec (releasegroup_controller.go:59-230). */
module ReleaseGroupRuns {
  import opened GroupCluster
  import opened GroupLoop

  const FINALIZER := "finalizer.releasegroups.yaho.soer3n.dev"

  /** The group object and the cluster it acts on. */
  datatype World = World(group: Group, finalizers: seq<string>, deleting: bool, cluster: Cluster)

  /** removeRelease for every entry of the spec, as handleFinalizer does. */
  function RemoveSpec(g: Group, c: Cluster, items: seq<Item>): Cluster {
    if items == [] then c
    else RemoveSpec(g, c, items[..|items| - 1]) - {KeyOf(g, items[|items| - 1].name)}
  }

  /** Dropping every occurrence, as controllerutil.RemoveFinalizer does. */
  function RemoveFinalizer(finalizers: seq<string>): (r: seq<string>)
    ensures forall f :: f in r <==> f in finalizers && f != FINALIZER
  {
    if finalizers == [] then []
    else (if finalizers[0] == FINALIZER then [] else [finalizers[0]]) + RemoveFinalizer(finalizers[1..])
  }

  /** One call of Reconcile; listed is what the list call returns. */
  function Reconciled(w: World, listed: seq<Key>): World {
    if w.deleting then
      w.(finalizers := RemoveFinalizer(w.finalizers), cluster := RemoveSpec(w.group, w.cluster, w.group.items))
    else if FINALIZER !in w.finalizers then
      w.(finalizers := w.finalizers + [FINALIZER])
    else
      w.(cluster := AfterPass(w.group, w.cluster, listed))
  }

  datatype Event = EditSpec(items: seq<Item>) | Pass(listed: seq<Key>)

  ghost predicate Possible(w: World, e: Event) {
    e.Pass? ==> IsListing(w.group, w.cluster, e.listed)
  }

  function After(w: World, e: Event): World {
    match e
    case EditSpec(items) => w.(group := w.group.(items := items))
    case Pass(listed) => Reconciled(w, listed)
  }

  /** The pass is the loop: the method's result, and that of every run. */
  lemma PassIsTheLoop(w: World, listed: seq<Key>, run: seq<State>)
    requires !w.deleting && FINALIZER in w.finalizers
    requires IsRun(w.group, listed, w.cluster, run) && run[|run| - 1].returned
    ensures Reconciled(w, listed) == w.(cluster := run[|run| - 1].cluster)
  {
    EveryRunEndsAlike(w.group, listed, w.cluster, run);
  }

  lemma {:induction false} RemoveSpecAt(g: Group, c: Cluster, items: seq<Item>, k: Key)
    ensures
      var r := RemoveSpec(g, c, items);
      if InSpec(items, k.name) && k == KeyOf(g, k.name) then k !in r
      else (k in r <==> k in c) && (k in c ==> r[k] == c[k])
  {
    if items != [] {
      var n := |items| - 1;
      RemoveSpecAt(g, c, items[..n], k);
      PartOfSpec(items, n, k.name);
      if InSpec(items, k.name) && items[n].name != k.name {
        HeadNamed(items, k.name);
      }
    }
  }

  /** A deleting pass removes the releases named in the spec and nothing else. */
  lemma DeletingPassAt(w: World, listed: seq<Key>, k: Key)
    requires w.deleting
    ensures
      var r := Reconciled(w, listed).cluster;
      if InSpec(w.group.items, k.name) && k == KeyOf(w.group, k.name) then k !in r
      else (k in r <==> k in w.cluster) && (k in w.cluster ==> r[k] == w.cluster[k])
  {
    RemoveSpecAt(w.group, w.cluster, w.group.items, k);
  }

  /** A deleting pass takes away this controller's finalizer and no other, so
      that the group can go away. */
  lemma DeletingPassReleases(w: World, listed: seq<Key>)
    requires w.deleting
    ensures
      var r := Reconciled(w, listed);
      r.group == w.group && r.deleting &&
      forall f :: f in r.finalizers <==> f in w.finalizers && f != "finalizer.releasegroups.yaho.soer3n.dev"
  {
  }

  /** The first pass over a group adds the finalizer and does nothing else; a
      pass that finds it leaves the finalizers alone. */
  lemma FinalizerIsKept(w: World, listed: seq<Key>)
    requires !w.deleting
    ensures
      var r := Reconciled(w, listed);
      r.group == w.group && !r.deleting && w.finalizers <= r.finalizers &&
      "finalizer.releasegroups.yaho.soer3n.dev" in r.finalizers && |r.finalizers| <= |w.finalizers| + 1 &&
      (FINALIZER !in w.finalizers ==> r.cluster == w.cluster)
  {
  }

  /** After a pass that finds its finalizer: every release of the group, in any
      namespace, has a name in the spec, and every name of the spec exists in
      the group's namespace. */
  lemma PassConverges(w: World, listed: seq<Key>)
    requires w.group.kind.ReleaseGroup? && !w.deleting && FINALIZER in w.finalizers
    requires IsListing(w.group, w.cluster, listed)
    ensures
      var r := Reconciled(w, listed).cluster;
      (forall k :: k in r && HasGroupLabel(w.group, r[k]) ==> InSpec(w.group.items, k.name)) &&
      (forall name :: InSpec(w.group.items, name) ==> Key(w.group.namespace, name) in r)
  {
    var r := Reconciled(w, listed).cluster;
    forall k | k in r && HasGroupLabel(w.group, r[k]) ensures InSpec(w.group.items, k.name) {
      NothingDoomedAfterPass(w.group, w.cluster, listed, k);
    }
    forall name | InSpec(w.group.items, name) ensures Key(w.group.namespace, name) in r {
      AfterPassAt(w.group, w.cluster, listed, Key(w.group.namespace, name));
    }
  }

  /** A new group: the pass that adds the finalizer touches no release, and the
      next one converges. */
  lemma SecondPassConverges(w: World, first: seq<Key>, second: seq<Key>)
    requires w.group.kind.ReleaseGroup? && !w.deleting && FINALIZER !in w.finalizers
    requires IsListing(w.group, w.cluster, second)
    ensures Reconciled(w, first).cluster == w.cluster
    ensures
      var r := Reconciled(Reconciled(w, first), second).cluster;
      (forall k :: k in r && HasGroupLabel(w.group, r[k]) ==> InSpec(w.group.items, k.name)) &&
      (forall name :: InSpec(w.group.items, name) ==> Key(w.group.namespace, name) in r)
  {
    PassConverges(Reconciled(w, first), second);
  }

  // -------------------------------------------------------------------
  // Runs
  // -------------------------------------------------------------------

  ghost predicate IsHistory(worlds: seq<World>, events: seq<Event>) {
    |worlds| == |events| + 1 &&
    forall i :: 0 <= i < |events| ==> Possible(worlds[i], events[i]) && worlds[i + 1] == After(worlds[i], events[i])
  }

  lemma EventSparesSpec(w: World, e: Event, k: Key)
    requires w.group.kind.ReleaseGroup? && !w.deleting && Possible(w, e)
    requires k in w.cluster && InSpec(w.group.items, k.name)
    ensures var r := After(w, e); k in r.cluster && r.cluster[k] == w.cluster[k]
    ensures var r := After(w, e); r.group.kind == w.group.kind && r.deleting == w.deleting
  {
    if e.Pass? && FINALIZER in w.finalizers {
      AfterPassAt(w.group, w.cluster, e.listed, k);
    }
  }

  /** Over any run of passes and spec edits of a group that is not being
      deleted, a release whose name stays in the spec is neither deleted nor
      overwritten, in whatever namespace it is. */
  lemma {:induction false} SpecReleaseSurvives(worlds: seq<World>, events: seq<Event>, k: Key)
    requires IsHistory(worlds, events)
    requires worlds[0].group.kind.ReleaseGroup? && !worlds[0].deleting
    requires forall i :: 0 <= i < |events| ==> InSpec(worlds[i].group.items, k.name)
    requires k in worlds[0].cluster
    ensures k in worlds[|events|].cluster && worlds[|events|].cluster[k] == worlds[0].cluster[k]
    ensures worlds[|events|].group.kind.ReleaseGroup? && !worlds[|events|].deleting
    decreases |events|
  {
    if events != [] {
      var n := |events| - 1;
      SpecReleaseSurvives(worlds[..n + 1], events[..n], k);
      EventSparesSpec(worlds[n], events[n], k);
    }
  }
}
