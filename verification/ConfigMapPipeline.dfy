/** ManageSubResources: parser, emitter with three senders, deployer and main
    goroutine on one unbuffered channel (chartversion.go:128-154,
    configmaps.go:19-42, 65-113). */
module ConfigMapPipeline {
  import opened JsonTree
  import opened ChartFiles

  datatype Parser = Begin | Finishing | Finished

  datatype Emitter = NotStarted | Running | Closed

  /** at[i] counts what sender i has sent; a send and its receive are one step.
      panicked is set by a send on the closed channel and by a second close. */
  datatype State = State(
    parser: Parser, emitter: Emitter, at: seq<nat>, done: seq<bool>,
    inFlight: Option<ConfigMap>, deployerDone: bool,
    closes: nat, panicked: bool, returned: bool,
    store: map<string, ConfigMap>, deployed: seq<ConfigMap>)

  /** loaded says whether the chart is there to be parsed; emits holds the
      ConfigMaps of the three senders in the order in which they send them. */
  datatype Setup = Setup(loaded: bool, emits: seq<seq<ConfigMap>>, store: map<string, ConfigMap>)

  function Start(p: Setup): State {
    State(Begin, NotStarted, [0, 0, 0], [false, false, false], None, false, 0, false, false, p.store, [])
  }

  datatype Step =
    | ParserFails | ParserSpawns | ParserDone
    | Send(i: nat) | SendOnClosed(i: nat) | SenderDone(i: nat)
    | EmitterCloses | Deploy | DeployerDone | Return

  ghost predicate Shape(p: Setup, s: State) {
    |p.emits| == 3 && |s.at| == 3 && |s.done| == 3 && forall i :: 0 <= i < 3 ==> s.at[i] <= |p.emits[i]|
  }

  predicate Pending(p: Setup, s: State, i: nat) {
    s.emitter == Running && i < |s.at| && i < |p.emits| && s.at[i] < |p.emits[i]|
  }

  predicate Enabled(p: Setup, s: State, step: Step) {
    !s.panicked && match step
    case ParserFails => s.parser == Begin && !p.loaded
    case ParserSpawns => s.parser == Begin && p.loaded
    case ParserDone => s.parser == Finishing
    case Send(i) => Pending(p, s, i) && s.closes == 0 && s.inFlight == None && !s.deployerDone
    case SendOnClosed(i) => Pending(p, s, i) && s.closes > 0
    case SenderDone(i) =>
      s.emitter == Running && i < |s.at| && i < |p.emits| && i < |s.done| && s.at[i] == |p.emits[i]| && !s.done[i]
    case EmitterCloses => s.emitter == Running && forall i :: 0 <= i < |s.done| ==> s.done[i]
    case Deploy => s.inFlight.Some?
    case DeployerDone => s.inFlight == None && s.closes > 0 && !s.deployerDone
    case Return => s.parser == Finished && s.deployerDone && !s.returned
  }

  function Next(p: Setup, s: State, step: Step): State
    requires Enabled(p, s, step)
  {
    match step
    case ParserFails => s.(parser := Finishing, closes := s.closes + 1, panicked := s.closes > 0)
    case ParserSpawns => s.(parser := Finishing, emitter := Running)
    case ParserDone => s.(parser := Finished)
    case Send(i) => s.(at := s.at[i := s.at[i] + 1], inFlight := Some(p.emits[i][s.at[i]]))
    case SendOnClosed(i) => s.(panicked := true)
    case SenderDone(i) => s.(done := s.done[i := true])
    case EmitterCloses => s.(emitter := Closed, closes := s.closes + 1, panicked := s.closes > 0)
    case Deploy =>
      var cm := s.inFlight.value;
      s.(inFlight := None, store := s.store[cm.name := cm], deployed := s.deployed + [cm])
    case DeployerDone => s.(deployerDone := true)
    case Return => s.(returned := true)
  }

  function Sent(p: Setup, at: seq<nat>): multiset<ConfigMap>
    requires |p.emits| == 3 && |at| == 3 && forall i :: 0 <= i < 3 ==> at[i] <= |p.emits[i]|
  {
    multiset(p.emits[0][..at[0]]) + multiset(p.emits[1][..at[1]]) + multiset(p.emits[2][..at[2]])
  }

  function All(p: Setup): multiset<ConfigMap>
    requires |p.emits| == 3
  {
    multiset(p.emits[0]) + multiset(p.emits[1]) + multiset(p.emits[2])
  }

  function InFlight(s: State): multiset<ConfigMap> {
    if s.inFlight.Some? then multiset{s.inFlight.value} else multiset{}
  }

  /** deployConfigMap, once per ConfigMap: create or update. */
  function StoreAll(store: map<string, ConfigMap>, cms: seq<ConfigMap>): map<string, ConfigMap> {
    if cms == [] then store
    else StoreAll(store, cms[..|cms| - 1])[cms[|cms| - 1].name := cms[|cms| - 1]]
  }

  /** The channel is closed by the parser on the error path and by the emitter
      on the success path, and by nobody else. */
  ghost predicate ChannelInv(p: Setup, s: State) {
    !s.panicked &&
    (if p.loaded then s.closes == (if s.emitter == Closed then 1 else 0) && (s.emitter == NotStarted <==> s.parser == Begin)
     else s.emitter == NotStarted && s.closes == (if s.parser == Begin then 0 else 1))
  }

  ghost predicate SenderInv(p: Setup, s: State)
    requires Shape(p, s)
  {
    (forall i :: 0 <= i < 3 && s.done[i] ==> s.at[i] == |p.emits[i]|) &&
    (s.emitter == NotStarted ==> forall i :: 0 <= i < 3 ==> s.at[i] == 0) &&
    (s.emitter == Closed ==> forall i :: 0 <= i < 3 ==> s.done[i])
  }

  ghost predicate Settled(s: State) {
    (s.deployerDone ==> s.closes == 1 && s.inFlight == None) &&
    (s.returned ==> s.parser == Finished && s.deployerDone)
  }

  /** What was sent has been deployed or is about to be. */
  ghost predicate Accounted(p: Setup, s: State)
    requires Shape(p, s)
  {
    Balance(multiset(s.deployed), InFlight(s), Sent(p, s.at)) &&
    s.store == StoreAll(p.store, s.deployed)
  }

  ghost predicate Balance(deployed: multiset<ConfigMap>, inFlight: multiset<ConfigMap>, sent: multiset<ConfigMap>) {
    deployed + inFlight == sent
  }

  lemma BalanceSend(deployed: multiset<ConfigMap>, sent: multiset<ConfigMap>, cm: ConfigMap)
    requires Balance(deployed, multiset{}, sent)
    ensures Balance(deployed, multiset{cm}, sent + multiset{cm})
  {
  }

  ghost predicate DeployInv(p: Setup, s: State)
    requires Shape(p, s)
  {
    Settled(s) && Accounted(p, s)
  }

  ghost predicate Inv(p: Setup, s: State) {
    Shape(p, s) && ChannelInv(p, s) && SenderInv(p, s) && DeployInv(p, s)
  }

  lemma StartInv(p: Setup)
    requires |p.emits| == 3
    ensures Inv(p, Start(p))
  {
  }

  lemma SentOneMore(p: Setup, at: seq<nat>, i: nat)
    requires |p.emits| == 3 && |at| == 3 && (forall j :: 0 <= j < 3 ==> at[j] <= |p.emits[j]|)
    requires i < 3 && at[i] < |p.emits[i]|
    ensures Sent(p, at[i := at[i] + 1]) == Sent(p, at) + multiset{p.emits[i][at[i]]}
  {
    assert p.emits[i][..at[i] + 1] == p.emits[i][..at[i]] + [p.emits[i][at[i]]];
  }

  lemma StoreAllSnoc(store: map<string, ConfigMap>, cms: seq<ConfigMap>, cm: ConfigMap)
    ensures StoreAll(store, cms + [cm]) == StoreAll(store, cms)[cm.name := cm]
  {
    assert (cms + [cm])[..|cms|] == cms;
  }

  lemma StepKeepsShape(p: Setup, s: State, step: Step)
    requires Shape(p, s) && Enabled(p, s, step)
    ensures Shape(p, Next(p, s, step))
  {
  }

  lemma StepKeepsChannel(p: Setup, s: State, step: Step)
    requires Inv(p, s) && Enabled(p, s, step)
    ensures ChannelInv(p, Next(p, s, step))
  {
  }

  lemma StepKeepsSenders(p: Setup, s: State, step: Step)
    requires Inv(p, s) && Enabled(p, s, step) && Shape(p, Next(p, s, step))
    ensures SenderInv(p, Next(p, s, step))
  {
  }

  lemma StepKeepsSettled(p: Setup, s: State, step: Step)
    requires Settled(s) && ChannelInv(p, s) && Enabled(p, s, step) && ChannelInv(p, Next(p, s, step))
    ensures Settled(Next(p, s, step))
  {
  }

  lemma StepKeepsAccounts(p: Setup, s: State, step: Step)
    requires Shape(p, s) && Accounted(p, s) && Enabled(p, s, step) && Shape(p, Next(p, s, step))
    ensures Accounted(p, Next(p, s, step))
  {
    if step.Send? {
      SendKeeps(p, s, step.i);
    } else if step.Deploy? {
      DeployKeeps(p, s);
    } else {
      ControlKeeps(p, s, step);
    }
  }

  lemma SendKeeps(p: Setup, s: State, i: nat)
    requires Shape(p, s) && Accounted(p, s) && Enabled(p, s, Send(i)) && Shape(p, Next(p, s, Send(i)))
    ensures Accounted(p, Next(p, s, Send(i)))
  {
    SendEffect(p, s, i);
    SendBalances(p, s, Next(p, s, Send(i)), i);
  }

  lemma SendEffect(p: Setup, s: State, i: nat)
    requires Enabled(p, s, Send(i))
    ensures
      var s' := Next(p, s, Send(i));
      s'.at == s.at[i := s.at[i] + 1] && s'.deployed == s.deployed && s'.store == s.store &&
      InFlight(s) == multiset{} && InFlight(s') == multiset{p.emits[i][s.at[i]]}
  {
  }

  lemma SendBalances(p: Setup, s: State, s': State, i: nat)
    requires Shape(p, s) && Shape(p, s') && Accounted(p, s) && i < 3 && s.at[i] < |p.emits[i]|
    requires s'.at == s.at[i := s.at[i] + 1] && s'.deployed == s.deployed && s'.store == s.store
    requires InFlight(s) == multiset{} && InFlight(s') == multiset{p.emits[i][s.at[i]]}
    ensures Accounted(p, s')
  {
    var cm, sent := p.emits[i][s.at[i]], Sent(p, s.at);
    SentOneMore(p, s.at, i);
    BalanceSend(multiset(s.deployed), sent, cm);
    Account(p, s', multiset{cm}, sent + multiset{cm});
  }

  lemma Account(p: Setup, s: State, inFlight: multiset<ConfigMap>, sent: multiset<ConfigMap>)
    requires Shape(p, s) && InFlight(s) == inFlight && Sent(p, s.at) == sent && s.store == StoreAll(p.store, s.deployed)
    ensures Accounted(p, s) <==> Balance(multiset(s.deployed), inFlight, sent)
  {
  }

  lemma ControlKeeps(p: Setup, s: State, step: Step)
    requires Enabled(p, s, step) && !step.Send? && !step.Deploy?
    ensures
      var s' := Next(p, s, step);
      s'.at == s.at && s'.inFlight == s.inFlight && s'.deployed == s.deployed && s'.store == s.store
  {
  }

  lemma DeployKeeps(p: Setup, s: State)
    requires Enabled(p, s, Deploy) && s.store == StoreAll(p.store, s.deployed)
    ensures
      var s' := Next(p, s, Deploy);
      multiset(s'.deployed) + InFlight(s') == multiset(s.deployed) + InFlight(s) &&
      s'.store == StoreAll(p.store, s'.deployed)
  {
    StoreAllSnoc(p.store, s.deployed, s.inFlight.value);
  }

  lemma StepKeepsInv(p: Setup, s: State, step: Step)
    requires Inv(p, s) && Enabled(p, s, step)
    ensures Inv(p, Next(p, s, step))
  {
    StepKeepsShape(p, s, step);
    StepKeepsChannel(p, s, step);
    StepKeepsSenders(p, s, step);
    StepKeepsSettled(p, s, step);
    StepKeepsAccounts(p, s, step);
  }

  /** No deadlock: until the method has returned, some goroutine can step. */
  lemma NoDeadlock(p: Setup, s: State)
    requires Inv(p, s)
    ensures !s.returned ==> exists step :: Enabled(p, s, step)
  {
    if !s.returned {
      var step := SomeStep(p, s);
      assert Enabled(p, s, step);
    }
  }

  ghost function SomeStep(p: Setup, s: State): (step: Step)
    requires Inv(p, s) && !s.returned
    ensures Enabled(p, s, step)
  {
    if s.parser == Begin then (if p.loaded then ParserSpawns else ParserFails)
    else if s.parser == Finishing then ParserDone
    else if s.inFlight.Some? then Deploy
    else if s.closes > 0 then (if s.deployerDone then Return else DeployerDone)
    else if s.at[0] < |p.emits[0]| then Send(0)
    else if s.at[1] < |p.emits[1]| then Send(1)
    else if s.at[2] < |p.emits[2]| then Send(2)
    else if !s.done[0] then SenderDone(0)
    else if !s.done[1] then SenderDone(1)
    else if !s.done[2] then SenderDone(2)
    else EmitterCloses
  }

  function Bit(b: bool): nat {
    if b then 1 else 0
  }

  function Unsent(p: Setup, at: seq<nat>): int
    requires |p.emits| == 3 && |at| == 3
  {
    (|p.emits[0]| - at[0]) + (|p.emits[1]| - at[1]) + (|p.emits[2]| - at[2])
  }

  function Unfinished(done: seq<bool>): nat
    requires |done| == 3
  {
    Bit(!done[0]) + Bit(!done[1]) + Bit(!done[2])
  }

  /** Twice what is still to be sent, and one for every other step to come. */
  function Measure(p: Setup, s: State): int
    requires |p.emits| == 3 && |s.at| == 3 && |s.done| == 3
  {
    2 * Unsent(p, s.at) + Bit(s.inFlight.Some?) + Unfinished(s.done) +
    (match s.parser case Begin => 2 case Finishing => 1 case Finished => 0) +
    Bit(s.emitter != Closed) + Bit(!s.deployerDone) + Bit(!s.returned)
  }

  lemma StepsRunOut(p: Setup, s: State, step: Step)
    requires Shape(p, s) && ChannelInv(p, s) && Enabled(p, s, step)
    requires !Next(p, s, step).panicked && Shape(p, Next(p, s, step))
    ensures 0 <= Measure(p, Next(p, s, step)) < Measure(p, s)
  {
    match step
    case Send(i) => assert Unsent(p, s.at[i := s.at[i] + 1]) == Unsent(p, s.at) - 1;
    case SenderDone(i) => assert Unfinished(s.done[i := true]) == Unfinished(s.done) - 1;
    case _ =>
  }

  // -------------------------------------------------------------------
  // Whole runs
  // -------------------------------------------------------------------

  ghost predicate Follows(p: Setup, s: State, s': State) {
    exists step :: Enabled(p, s, step) && s' == Next(p, s, step)
  }

  ghost predicate IsRun(p: Setup, run: seq<State>) {
    run != [] && run[0] == Start(p) && forall i :: 0 < i < |run| ==> Follows(p, run[i - 1], run[i])
  }

  lemma FollowKeepsInv(p: Setup, s: State, s': State)
    requires Inv(p, s) && Follows(p, s, s')
    ensures Inv(p, s') && Measure(p, s') < Measure(p, s)
  {
    var step :| Enabled(p, s, step) && s' == Next(p, s, step);
    StepKeepsInv(p, s, step);
    StepsRunOut(p, s, step);
  }

  lemma {:induction false} RunKeepsInv(p: Setup, run: seq<State>)
    requires |p.emits| == 3 && IsRun(p, run)
    ensures forall i :: 0 <= i < |run| ==> Inv(p, run[i])
    ensures Inv(p, run[0]) && Inv(p, run[|run| - 1])
    ensures Measure(p, run[|run| - 1]) + |run| <= Measure(p, run[0]) + 1
    decreases |run|
  {
    StartInv(p);
    if |run| == 1 {
      assert forall i :: 0 <= i < |run| ==> run[i] == Start(p);
    } else {
      var n := |run| - 1;
      DropLast(p, run);
      RunKeepsInv(p, run[..n]);
      assert run[..n][n - 1] == run[n - 1] && run[..n][0] == run[0];
      FollowKeepsInv(p, run[n - 1], run[n]);
      forall i | 0 <= i < |run| ensures Inv(p, run[i]) {
        assert i < n ==> run[..n][i] == run[i];
      }
    }
  }

  lemma DropLast(p: Setup, run: seq<State>)
    requires IsRun(p, run) && |run| > 1
    ensures IsRun(p, run[..|run| - 1])
  {
    var init := run[..|run| - 1];
    forall i | 0 < i < |init| ensures Follows(p, init[i - 1], init[i]) {
      assert Follows(p, run[i - 1], run[i]);
    }
  }

  lemma SentAll(p: Setup, s: State)
    requires Inv(p, s) && s.emitter == Closed
    ensures Sent(p, s.at) == All(p)
  {
    forall i | 0 <= i < 3 ensures p.emits[i][..s.at[i]] == p.emits[i] {
      assert s.done[i];
    }
  }

  /** In every schedule, on both paths: nothing panics, so the channel is never
      closed twice and nothing is sent after the close; runs are bounded and
      never stuck before the return; and the method returns only after the
      channel was closed once and every emitted ConfigMap was deployed once. */
  lemma EverySchedule(p: Setup, run: seq<State>)
    requires |p.emits| == 3 && IsRun(p, run)
    ensures forall i :: 0 <= i < |run| ==> !run[i].panicked && run[i].closes <= 1
    ensures |run| <= 2 * (|p.emits[0]| + |p.emits[1]| + |p.emits[2]|) + 9
    ensures
      var last := run[|run| - 1];
      (!last.returned ==> exists step :: Enabled(p, last, step)) &&
      (last.returned ==>
        last.closes == 1 &&
        multiset(last.deployed) == multiset(if p.loaded then p.emits[0] + p.emits[1] + p.emits[2] else []) &&
        last.store == StoreAll(p.store, last.deployed))
  {
    RunKeepsInv(p, run);
    var last := run[|run| - 1];
    assert Inv(p, last);
    NoDeadlock(p, last);
    if last.returned && p.loaded {
      SentAll(p, last);
    }
  }

  // -------------------------------------------------------------------
  // What is in the store afterwards
  // -------------------------------------------------------------------

  ghost predicate NamesDiffer(cms: seq<ConfigMap>) {
    forall i, j :: 0 <= i < j < |cms| ==> cms[i].name != cms[j].name
  }

  lemma {:induction false} StoreAllAt(store: map<string, ConfigMap>, cms: seq<ConfigMap>, name: string)
    requires NamesDiffer(cms)
    ensures forall cm :: cm in cms && cm.name == name ==>
      name in StoreAll(store, cms) && StoreAll(store, cms)[name] == cm
    ensures (forall cm :: cm in cms ==> cm.name != name) ==>
      (name in StoreAll(store, cms) <==> name in store) && (name in store ==> StoreAll(store, cms)[name] == store[name])
  {
    if cms != [] {
      var n := |cms| - 1;
      StoreAllAt(store, cms[..n], name);
      assert cms == cms[..n] + [cms[n]];
    }
  }

  ghost predicate SameMembers(one: seq<ConfigMap>, two: seq<ConfigMap>) {
    forall cm :: cm in one <==> cm in two
  }

  lemma ReorderedHasSameMembers(one: seq<ConfigMap>, two: seq<ConfigMap>)
    requires multiset(one) == multiset(two)
    ensures SameMembers(one, two)
  {
    forall cm | cm in one ensures cm in two {
      assert cm in multiset(one);
    }
    forall cm | cm in two ensures cm in one {
      assert cm in multiset(two);
    }
  }

  /** Two orders of the same ConfigMaps with different names leave the same store. */
  lemma StoreIgnoresOrder(store: map<string, ConfigMap>, one: seq<ConfigMap>, two: seq<ConfigMap>)
    requires NamesDiffer(one) && NamesDiffer(two) && SameMembers(one, two)
    ensures StoreAll(store, one) == StoreAll(store, two)
  {
    var r, r' := StoreAll(store, one), StoreAll(store, two);
    forall name: string ensures SameAt(r, r', name) {
      StoreAllAt(store, one, name);
      StoreAllAt(store, two, name);
    }
    assert forall name :: name in r ==> SameAt(r, r', name);
    assert forall name :: name in r' ==> SameAt(r, r', name);
  }

  ghost predicate SameAt(a: map<string, ConfigMap>, b: map<string, ConfigMap>, name: string) {
    (name in a <==> name in b) && (name in a ==> a[name] == b[name])
  }

  // -------------------------------------------------------------------
  // What a chart version emits
  // -------------------------------------------------------------------

  ghost predicate IsKind(kind: string) {
    kind == "tmpl" || kind == "crds" || kind == "default"
  }

  lemma MapNameInjective(id: ChartId, kind: string, dir: Option<string>, kind': string, dir': Option<string>)
    requires IsKind(kind) && IsKind(kind') && MapName(id, kind, dir) == MapName(id, kind', dir')
    ensures kind == kind' && dir == dir'
  {
    var a, b := MapName(id, kind, dir), MapName(id, kind', dir');
    assert a[5] == kind[0] && b[5] == kind'[0];
    var head := "helm-" + kind + "-" + id.repo + "-" + id.chart + "-";
    var middle := match dir case None => "" case Some(d) => d + "-";
    var middle' := match dir' case None => "" case Some(d) => d + "-";
    assert a == head + middle + id.version && b == head + middle' + id.version;
    assert a[|head|..|head| + |middle|] == middle && b[|head|..|head| + |middle'|] == middle';
    if dir.Some? && dir'.Some? {
      assert middle[..|middle| - 1] == dir.value && middle'[..|middle'| - 1] == dir'.value;
    }
  }

  /** The three senders of one chart version: templates, CRDs, default values. */
  ghost predicate EmittedBy(p: Setup, id: ChartId, templates: seq<Placed>, crds: seq<Placed>,
                            dirs: seq<Option<string>>, dirs': seq<Option<string>>) {
    |p.emits| == 3 &&
    IsStored(id, "tmpl", templates, p.emits[0], dirs) &&
    IsStored(id, "crds", crds, p.emits[1], dirs') &&
    p.emits[2] == [NewMap(id, "default", None, map[])]
  }

  /** No ConfigMap of a chart version overwrites another one of it. */
  lemma EmittedNamesDiffer(p: Setup, id: ChartId, templates: seq<Placed>, crds: seq<Placed>,
                           dirs: seq<Option<string>>, dirs': seq<Option<string>>)
    requires EmittedBy(p, id, templates, crds, dirs, dirs')
    ensures NamesDiffer(p.emits[0] + p.emits[1] + p.emits[2])
  {
    var all := p.emits[0] + p.emits[1] + p.emits[2];
    var kinds := seq(|dirs|, i => "tmpl") + seq(|dirs'|, i => "crds") + ["default"];
    var places := dirs + dirs' + [None];
    forall i, j | 0 <= i < j < |all| ensures all[i].name != all[j].name {
      assert all[i].name == MapName(id, kinds[i], places[i]) && all[j].name == MapName(id, kinds[j], places[j]);
      if all[i].name == all[j].name {
        MapNameInjective(id, kinds[i], places[i], kinds[j], places[j]);
      }
    }
  }

  lemma DifferentNamesOccurOnce(cms: seq<ConfigMap>, cm: ConfigMap)
    requires NamesDiffer(cms)
    ensures multiset(cms)[cm] <= 1
  {
    if cms != [] {
      var n := |cms| - 1;
      assert cms == cms[..n] + [cms[n]];
      DifferentNamesOccurOnce(cms[..n], cm);
      if cm in cms[..n] {
        assert cms[n] != cm;
      }
    }
  }

  lemma ReorderedNamesDiffer(one: seq<ConfigMap>, two: seq<ConfigMap>)
    requires NamesDiffer(one) && multiset(one) == multiset(two)
    ensures NamesDiffer(two)
  {
    forall i, j | 0 <= i < j < |two| ensures two[i].name != two[j].name {
      assert two[i] in multiset(one) && two[j] in multiset(one);
      DifferentNamesOccurOnce(one, two[i]);
      assert two == two[..i] + [two[i]] + two[i + 1..j] + [two[j]] + two[j + 1..];
    }
  }

  /** Two orders of the directory maps hold the same ConfigMaps. */
  lemma StoredInAnyOrder(id: ChartId, kind: string, ps: seq<Placed>, one: seq<ConfigMap>, dirs: seq<Option<string>>,
                         two: seq<ConfigMap>, others: seq<Option<string>>)
    requires IsStored(id, kind, ps, one, dirs) && IsStored(id, kind, ps, two, others)
    ensures SameMembers(one, two)
  {
    forall cm ensures cm in one <==> cm in two {
      if cm in one {
        StoredInOther(id, kind, ps, one, dirs, two, others, cm);
      }
      if cm in two {
        StoredInOther(id, kind, ps, two, others, one, dirs, cm);
      }
    }
  }

  lemma StoredInOther(id: ChartId, kind: string, ps: seq<Placed>, one: seq<ConfigMap>, dirs: seq<Option<string>>,
                      two: seq<ConfigMap>, others: seq<Option<string>>, cm: ConfigMap)
    requires IsStored(id, kind, ps, one, dirs) && IsStored(id, kind, ps, two, others) && cm in one
    ensures cm in two
  {
    var i :| 0 <= i < |one| && one[i] == cm;
    assert dirs[i] in dirs;
    assert dirs[i] in others by {
      if dirs[i].Some? {
        assert UsesDir(ps, dirs[i].value);
      }
    }
    var j :| 0 <= j < |others| && others[j] == dirs[i];
    assert two[j] == cm;
  }

  lemma DeployedAre(p: Setup, id: ChartId, templates: seq<Placed>, crds: seq<Placed>, dirs: seq<Option<string>>,
                    dirs': seq<Option<string>>, run: seq<State>)
    requires p.loaded && EmittedBy(p, id, templates, crds, dirs, dirs') && IsRun(p, run) && run[|run| - 1].returned
    ensures
      var deployed := run[|run| - 1].deployed;
      NamesDiffer(deployed) && SameMembers(p.emits[0] + p.emits[1] + p.emits[2], deployed) &&
      run[|run| - 1].store == StoreAll(p.store, deployed)
  {
    var all := p.emits[0] + p.emits[1] + p.emits[2];
    EverySchedule(p, run);
    EmittedNamesDiffer(p, id, templates, crds, dirs, dirs');
    ReorderedNamesDiffer(all, run[|run| - 1].deployed);
    ReorderedHasSameMembers(all, run[|run| - 1].deployed);
  }

  /** All schedules that return, with the directory maps in any order, leave the
      same ConfigMaps in the cluster. */
  lemma SchedulesAgree(p: Setup, q: Setup, id: ChartId, templates: seq<Placed>, crds: seq<Placed>,
                       dirs: seq<Option<string>>, dirs': seq<Option<string>>, run: seq<State>,
                       others: seq<Option<string>>, others': seq<Option<string>>, run': seq<State>)
    requires p.loaded && EmittedBy(p, id, templates, crds, dirs, dirs') && IsRun(p, run) && run[|run| - 1].returned
    requires q.loaded && EmittedBy(q, id, templates, crds, others, others') && IsRun(q, run') && run'[|run'| - 1].returned
    requires p.store == q.store
    ensures run[|run| - 1].store == run'[|run'| - 1].store
  {
    DeployedAre(p, id, templates, crds, dirs, dirs', run);
    DeployedAre(q, id, templates, crds, others, others', run');
    StoredInAnyOrder(id, "tmpl", templates, p.emits[0], dirs, q.emits[0], others);
    StoredInAnyOrder(id, "crds", crds, p.emits[1], dirs', q.emits[1], others');
    StoreIgnoresOrder(p.store, run[|run| - 1].deployed, run'[|run'| - 1].deployed);
  }

  /** The chart name and the directory, as they stand in a ConfigMap's name. */
  function Stem(chart: string, dir: Option<string>): string {
    chart + "-" + match dir case None => "" case Some(d) => d + "-"
  }

  /** The part of a ConfigMap's name after its kind. */
  function Tail(id: ChartId, dir: Option<string>): string {
    id.repo + "-" + Stem(id.chart, dir) + id.version
  }

  lemma MapNameOfTail(id: ChartId, kind: string, dir: Option<string>)
    ensures MapName(id, kind, dir) == "helm-" + kind + "-" + Tail(id, dir)
  {
    var head := "helm-" + kind + "-";
    var middle := match dir case None => "" case Some(d) => d + "-";
    assert head + id.repo + "-" + id.chart + "-" + middle == head + (id.repo + "-" + (id.chart + "-" + middle));
    assert head + (id.repo + "-" + Stem(id.chart, dir)) + id.version == head + Tail(id, dir);
  }

  /** ConfigMaps of any two chart versions have the same name if and only if
      their kinds are equal and repository, chart, directory and version spell
      the same string. */
  lemma NamesEqualIff(id: ChartId, kind: string, dir: Option<string>, id': ChartId, kind': string, dir': Option<string>)
    requires IsKind(kind) && IsKind(kind')
    ensures MapName(id, kind, dir) == MapName(id', kind', dir') <==> kind == kind' && Tail(id, dir) == Tail(id', dir')
  {
    var a, b := MapName(id, kind, dir), MapName(id', kind', dir');
    MapNameOfTail(id, kind, dir);
    MapNameOfTail(id', kind', dir');
    if a == b {
      assert a[5] == kind[0] && b[5] == kind'[0];
      var n := |"helm-" + kind + "-"|;
      assert a[n..] == Tail(id, dir) && b[n..] == Tail(id', dir');
    }
  }

  /** In one repository and version: if and only if chart and directory spell
      the same stem. */
  lemma NamesClashIff(id: ChartId, chart: string, kind: string, dir: Option<string>, kind': string, dir': Option<string>)
    requires IsKind(kind) && IsKind(kind')
    ensures MapName(id, kind, dir) == MapName(id.(chart := chart), kind', dir')
       <==> kind == kind' && Stem(id.chart, dir) == Stem(chart, dir')
  {
    NamesEqualIff(id, kind, dir, id.(chart := chart), kind', dir');
    var n := |id.repo + "-"|;
    var a, b := Tail(id, dir), Tail(id.(chart := chart), dir');
    if a == b {
      assert a[n..|a| - |id.version|] == Stem(id.chart, dir);
      assert b[n..|b| - |id.version|] == Stem(chart, dir');
    }
  }
}
