/** The loop of both group reconcilers: two producers and one selecting
    consumer on unbuffered channels, until two quit messages have arrived
    (repogroup_controller.go:88-142, releasegroup_controller.go:111-166). */
module GroupLoop {
  import opened GroupCluster

  /** removerAt and creatorAt are the loop positions of the two goroutines.  A
      send and its receive are one step, because the channels are unbuffered.
      removed and deployed record what the consumer has handled. */
  datatype State = State(
    cluster: Cluster,
    removerAt: nat, removerQuit: bool,
    creatorAt: nat, creatorQuit: bool,
    counter: nat, returned: bool,
    removed: seq<Key>, deployed: seq<Item>)

  function Start(c: Cluster): State {
    State(c, 0, false, 0, false, 0, false, [], [])
  }

  datatype Step = SkipExisting | Remove | Create | QuitRemover | QuitCreator

  predicate Enabled(g: Group, listed: seq<Key>, s: State, step: Step) {
    match step
    case SkipExisting => s.removerAt < |listed| && InSpec(g.items, listed[s.removerAt].name)
    case Remove => !s.returned && s.removerAt < |listed| && !InSpec(g.items, listed[s.removerAt].name)
    case Create => !s.returned && s.creatorAt < |g.items|
    case QuitRemover => !s.returned && s.removerAt >= |listed| && !s.removerQuit
    case QuitCreator => !s.returned && s.creatorAt >= |g.items| && !s.creatorQuit
  }

  function Next(g: Group, listed: seq<Key>, s: State, step: Step): State
    requires Enabled(g, listed, s, step)
  {
    match step
    case SkipExisting => s.(removerAt := s.removerAt + 1)
    case Remove =>
      var k := listed[s.removerAt];
      s.(cluster := s.cluster - {k}, removerAt := s.removerAt + 1, removed := s.removed + [k])
    case Create =>
      var item := g.items[s.creatorAt];
      s.(cluster := Deploy(g, s.cluster, item), creatorAt := s.creatorAt + 1, deployed := s.deployed + [item])
    case QuitRemover => s.(removerQuit := true, counter := s.counter + 1, returned := s.counter + 1 == 2)
    case QuitCreator => s.(creatorQuit := true, counter := s.counter + 1, returned := s.counter + 1 == 2)
  }

  /** The listed keys that the remover sends, in order. */
  function Sent(g: Group, listed: seq<Key>): seq<Key> {
    if listed == [] then []
    else
      var n := |listed| - 1;
      Sent(g, listed[..n]) + if InSpec(g.items, listed[n].name) then [] else [listed[n]]
  }

  lemma {:induction false} SentIsDoomed(g: Group, listed: seq<Key>)
    ensures forall k :: k in Sent(g, listed) <==> k in Doomed(g, listed)
  {
    if listed != [] {
      var n := |listed| - 1;
      SentIsDoomed(g, listed[..n]);
      assert listed == listed[..n] + [listed[n]];
    }
  }

  /** Each removal is sent once. */
  lemma {:induction false} SentOnce(g: Group, listed: seq<Key>)
    requires forall i, j :: 0 <= i < j < |listed| ==> listed[i] != listed[j]
    ensures forall i, j :: 0 <= i < j < |Sent(g, listed)| ==> Sent(g, listed)[i] != Sent(g, listed)[j]
  {
    if listed != [] {
      var n := |listed| - 1;
      SentOnce(g, listed[..n]);
      SentIsDoomed(g, listed[..n]);
      var before := Sent(g, listed[..n]);
      forall i | 0 <= i < |before| ensures before[i] != listed[n] {
        assert before[i] in before && before[i] in Doomed(g, listed[..n]);
        var j :| 0 <= j < n && listed[..n][j] == before[i];
        assert listed[j] != listed[n];
      }
    }
  }

  function Quits(s: State): nat {
    (if s.removerQuit then 1 else 0) + (if s.creatorQuit then 1 else 0)
  }

  /** What holds in every reachable state. */
  ghost predicate Inv(g: Group, listed: seq<Key>, start: Cluster, s: State) {
    s.removerAt <= |listed| && s.creatorAt <= |g.items| &&
    s.counter == Quits(s) && (s.returned <==> s.counter == 2) &&
    (s.removerQuit ==> s.removerAt == |listed|) && (s.creatorQuit ==> s.creatorAt == |g.items|) &&
    s.removed == Sent(g, listed[..s.removerAt]) && s.deployed == g.items[..s.creatorAt] &&
    s.cluster == DeployAll(g, start - Doomed(g, listed[..s.removerAt]), g.items[..s.creatorAt])
  }

  lemma StartInv(g: Group, listed: seq<Key>, c: Cluster)
    ensures Inv(g, listed, c, Start(c))
  {
    assert Doomed(g, listed[..0]) == {};
    assert c - {} == c;
  }

  lemma OneMoreListed(g: Group, listed: seq<Key>, i: nat)
    requires i < |listed|
    ensures Sent(g, listed[..i + 1])
         == Sent(g, listed[..i]) + if InSpec(g.items, listed[i].name) then [] else [listed[i]]
    ensures Doomed(g, listed[..i + 1])
         == Doomed(g, listed[..i]) + if InSpec(g.items, listed[i].name) then {} else {listed[i]}
  {
    assert listed[..i + 1][..i] == listed[..i];
    assert listed[..i + 1] == listed[..i] + [listed[i]];
  }

  lemma StepKeepsInv(g: Group, listed: seq<Key>, c: Cluster, s: State, step: Step)
    requires Inv(g, listed, c, s) && Enabled(g, listed, s, step)
    ensures Inv(g, listed, c, Next(g, listed, s, step))
  {
    match step
    case SkipExisting =>
      OneMoreListed(g, listed, s.removerAt);
      assert Sent(g, listed[..s.removerAt + 1]) == Sent(g, listed[..s.removerAt]);
      assert Doomed(g, listed[..s.removerAt + 1]) == Doomed(g, listed[..s.removerAt]);
    case Remove =>
      var k := listed[s.removerAt];
      OneMoreListed(g, listed, s.removerAt);
      PartOfSpec(g.items, s.creatorAt, k.name);
      RemoveCommutes(g, c - Doomed(g, listed[..s.removerAt]), g.items[..s.creatorAt], k);
      assert (c - Doomed(g, listed[..s.removerAt])) - {k} == c - Doomed(g, listed[..s.removerAt + 1]);
    case Create =>
      assert g.items[..s.creatorAt + 1] == g.items[..s.creatorAt] + [g.items[s.creatorAt]];
      DeployAllSnoc(g, c - Doomed(g, listed[..s.removerAt]), g.items[..s.creatorAt], g.items[s.creatorAt]);
    case QuitRemover =>
    case QuitCreator =>
  }

  /** No deadlock: until both quit messages have arrived, some step is enabled. */
  lemma NoDeadlock(g: Group, listed: seq<Key>, c: Cluster, s: State)
    requires Inv(g, listed, c, s)
    ensures s.counter < 2 ==> exists step :: Enabled(g, listed, s, step)
    ensures s.counter == 2 ==> forall step :: !Enabled(g, listed, s, step)
  {
    if s.counter < 2 {
      var step :=
        if s.removerAt < |listed| then
          if InSpec(g.items, listed[s.removerAt].name) then SkipExisting else Remove
        else if s.creatorAt < |g.items| then Create
        else if !s.removerQuit then QuitRemover
        else QuitCreator;
      assert Enabled(g, listed, s, step);
    }
  }

  function Measure(g: Group, listed: seq<Key>, s: State): int {
    (|listed| - s.removerAt) + (|g.items| - s.creatorAt) + (2 - s.counter)
  }

  lemma StepsRunOut(g: Group, listed: seq<Key>, c: Cluster, s: State, step: Step)
    requires Inv(g, listed, c, s) && Enabled(g, listed, s, step)
    ensures 0 <= Measure(g, listed, Next(g, listed, s, step)) < Measure(g, listed, s)
  {
    StepKeepsInv(g, listed, c, s, step);
  }

  // -------------------------------------------------------------------
  // Whole runs
  // -------------------------------------------------------------------

  ghost predicate Follows(g: Group, listed: seq<Key>, s: State, s': State) {
    exists step :: Enabled(g, listed, s, step) && s' == Next(g, listed, s, step)
  }

  ghost predicate IsRun(g: Group, listed: seq<Key>, c: Cluster, run: seq<State>) {
    run != [] && run[0] == Start(c) &&
    forall i :: 0 < i < |run| ==> Follows(g, listed, run[i - 1], run[i])
  }

  lemma {:induction false} RunKeepsInv(g: Group, listed: seq<Key>, c: Cluster, run: seq<State>)
    requires IsRun(g, listed, c, run)
    ensures Inv(g, listed, c, run[|run| - 1])
    ensures Measure(g, listed, run[|run| - 1]) + |run| <= Measure(g, listed, run[0]) + 1
    decreases |run|
  {
    StartInv(g, listed, c);
    if |run| > 1 {
      var n := |run| - 1;
      DropLast(g, listed, c, run);
      RunKeepsInv(g, listed, c, run[..n]);
      FollowKeepsInv(g, listed, c, run[n - 1], run[n]);
    }
  }

  lemma DropLast(g: Group, listed: seq<Key>, c: Cluster, run: seq<State>)
    requires IsRun(g, listed, c, run) && |run| > 1
    ensures var n := |run| - 1; IsRun(g, listed, c, run[..n]) && Follows(g, listed, run[n - 1], run[n])
  {
    var n := |run| - 1;
    forall i | 0 < i < n ensures Follows(g, listed, run[..n][i - 1], run[..n][i]) {
      assert Follows(g, listed, run[i - 1], run[i]);
    }
  }

  lemma FollowKeepsInv(g: Group, listed: seq<Key>, c: Cluster, s: State, s': State)
    requires Inv(g, listed, c, s) && Follows(g, listed, s, s')
    ensures Inv(g, listed, c, s') && Measure(g, listed, s') < Measure(g, listed, s)
  {
    var step :| Enabled(g, listed, s, step) && s' == Next(g, listed, s, step);
    StepKeepsInv(g, listed, c, s, step);
    StepsRunOut(g, listed, c, s, step);
  }

  /** Every interleaving: a run stops only when the loop has returned, after at
      most one step per listed object and spec entry and two for the quit
      messages; then each removal and each deployment has been handled exactly
      once, both producers are done, and the cluster is the same for all. */
  lemma EveryRunEndsAlike(g: Group, listed: seq<Key>, c: Cluster, run: seq<State>)
    requires IsRun(g, listed, c, run)
    ensures |run| <= |listed| + |g.items| + 3
    ensures
      var last := run[|run| - 1];
      (last.returned <==> forall step :: !Enabled(g, listed, last, step)) &&
      (last.returned ==>
        last.removerQuit && last.creatorQuit &&
        last.removed == Sent(g, listed) && last.deployed == g.items &&
        last.cluster == AfterPass(g, c, listed))
  {
    var last := run[|run| - 1];
    RunKeepsInv(g, listed, c, run);
    NoDeadlock(g, listed, c, last);
    if last.returned {
      assert listed[..|listed|] == listed && g.items[..|g.items|] == g.items;
    }
  }

  // -------------------------------------------------------------------
  // The reconciler
  // -------------------------------------------------------------------

  class Reconciler {
    var cluster: Cluster

    constructor (cluster: Cluster)
      ensures this.cluster == cluster
    {
      this.cluster := cluster;
    }

    /** removeRepo and removeRelease; deleting what is gone only logs. */
    method RemoveOne(k: Key)
      modifies this
      ensures cluster == old(cluster) - {k}
    {
      cluster := cluster - {k};
    }

    /** deployRepo and deployRelease. */
    method DeployOne(g: Group, item: Item)
      modifies this
      ensures cluster == Deploy(g, old(cluster), item)
    {
      var k := KeyOf(g, item.name);
      if k !in cluster {
        cluster := cluster[k := Resource(NewMeta(g, item.name), item)];
        return;
      }
      if g.kind.RepoGroup? {
        cluster := cluster[k := Resource(cluster[k].meta, item)];
      }
    }

    /** The select loop, with any ready channel taken next. */
    method Reconcile(g: Group, listed: seq<Key>)
      modifies this
      ensures cluster == AfterPass(g, old(cluster), listed)
    {
      var removerAt, creatorAt, counter := 0, 0, 0;
      var removerQuit, creatorQuit := false, false;
      ghost var s := Start(cluster);
      StartInv(g, listed, cluster);
      while counter < 2
        invariant Inv(g, listed, old(cluster), s)
        invariant s.cluster == cluster && s.removerAt == removerAt && s.creatorAt == creatorAt
        invariant s.counter == counter && s.removerQuit == removerQuit && s.creatorQuit == creatorQuit
        decreases Measure(g, listed, s)
      {
        ghost var step;
        if {
          case removerAt < |listed| && InSpec(g.items, listed[removerAt].name) =>
            step := SkipExisting;
            removerAt := removerAt + 1;
          case removerAt < |listed| && !InSpec(g.items, listed[removerAt].name) =>
            step := Remove;
            RemoveOne(listed[removerAt]);
            removerAt := removerAt + 1;
          case creatorAt < |g.items| =>
            step := Create;
            DeployOne(g, g.items[creatorAt]);
            creatorAt := creatorAt + 1;
          case removerAt >= |listed| && !removerQuit =>
            step := QuitRemover;
            removerQuit, counter := true, counter + 1;
          case creatorAt >= |g.items| && !creatorQuit =>
            step := QuitCreator;
            creatorQuit, counter := true, counter + 1;
        }
        StepKeepsInv(g, listed, old(cluster), s, step);
        StepsRunOut(g, listed, old(cluster), s, step);
        s := Next(g, listed, s, step);
      }
      assert listed[..|listed|] == listed && g.items[..|g.items|] == g.items;
    }
  }
}
