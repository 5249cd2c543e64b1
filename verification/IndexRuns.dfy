/** The reverse index over whole runs: collections for any releases, one after
    the other (internal/values/collect.go:41-58, 116-140). */
module IndexRuns {
  import opened JsonTree
  import opened ReverseIndex
  import opened ValuesGraph
  import opened Collect

  /** One collection: the objects it touched, and the release it was for. */
  datatype Step = Step(touched: set<string>, release: string)

  ghost predicate ArePlain(steps: seq<Step>) {
    forall s :: s in steps ==> ',' !in s.release
  }

  ghost function AfterSteps(start: map<string, string>, steps: seq<Step>): map<string, string>
    decreases |steps|
  {
    if steps == [] then start
    else AfterSteps(Recorded(start, steps[0].touched, steps[0].release), steps[1..])
  }

  /** The releases whose collections touched n, in order. */
  ghost function ReleasesAt(steps: seq<Step>, n: string): seq<string>
    decreases |steps|
  {
    if steps == [] then []
    else (if n in steps[0].touched then [steps[0].release] else []) + ReleasesAt(steps[1..], n)
  }

  function ListedAt(annotations: map<string, string>, n: string): seq<string> {
    Listed(AnnotationOf(annotations, n))
  }

  predicate Unrepeated(names: seq<string>) {
    forall i, j :: 0 <= i < j < |names| ==> names[i] != names[j]
  }

  /** Seen from one object, a run of collections is the run of those that touch it. */
  lemma {:induction false} StepsAtObject(start: map<string, string>, steps: seq<Step>, n: string)
    requires ArePlain(steps)
    ensures AnnotationOf(AfterSteps(start, steps), n) == AfterRun(AnnotationOf(start, n), ReleasesAt(steps, n))
    ensures forall r :: r in ReleasesAt(steps, n) ==> ',' !in r
    decreases |steps|
  {
    if steps != [] {
      var s := steps[0];
      var next := Recorded(start, s.touched, s.release);
      assert s in steps;
      StepsAtObject(next, steps[1..], n);
      if n in s.touched {
        assert AnnotationOf(next, n) == Some(Annotated(AnnotationOf(start, n), s.release));
        assert ReleasesAt(steps, n)[0] == s.release && ReleasesAt(steps, n)[1..] == ReleasesAt(steps[1..], n);
      } else {
        assert AnnotationOf(next, n) == AnnotationOf(start, n);
        assert ReleasesAt(steps, n) == ReleasesAt(steps[1..], n);
      }
    }
  }

  lemma {:induction false} TouchedIsAt(steps: seq<Step>, i: nat, n: string)
    requires i < |steps| && n in steps[i].touched
    ensures steps[i].release in ReleasesAt(steps, n)
    decreases |steps|
  {
    if i > 0 {
      TouchedIsAt(steps[1..], i - 1, n);
    }
  }

  /** The new names: all that were not seen, each once. */
  lemma {:induction false} FirstOccurrencesAre(names: seq<string>, seen: seq<string>)
    ensures forall x :: x in FirstOccurrences(names, seen) <==> x in names && x !in seen
    ensures Unrepeated(FirstOccurrences(names, seen))
    decreases |names|
  {
    if names != [] {
      assert names == [names[0]] + names[1..];
      if names[0] in seen {
        FirstOccurrencesAre(names[1..], seen);
      } else {
        FirstOccurrencesAre(names[1..], seen + [names[0]]);
        JoinUnrepeated([names[0]], FirstOccurrences(names[1..], seen + [names[0]]));
      }
    }
  }

  lemma JoinUnrepeated(a: seq<string>, b: seq<string>)
    requires forall x :: x in a ==> x !in b
    ensures Unrepeated(a + b) <==> Unrepeated(a) && Unrepeated(b)
  {
    if Unrepeated(a) && Unrepeated(b) {
      forall i, j | 0 <= i < j < |a + b| ensures (a + b)[i] != (a + b)[j] {
        if j < |a| {
          assert a[i] != a[j];
        } else if i >= |a| {
          assert b[i - |a|] != b[j - |a|];
        } else {
          assert a[i] in a && b[j - |a|] in b;
        }
      }
    }
    if Unrepeated(a + b) {
      forall i, j | 0 <= i < j < |a| ensures a[i] != a[j] {
        assert (a + b)[i] != (a + b)[j];
      }
      forall i, j | 0 <= i < j < |b| ensures b[i] != b[j] {
        assert (a + b)[|a| + i] != (a + b)[|a| + j];
      }
    }
  }

  /** Over any run of collections, for every object: its list is what it was at
      the start, with nothing removed or moved, plus the releases whose
      collections touched it and that it did not list, each once and in the
      order in which they first did; so every collection's release is listed
      from then on, and no name is listed twice unless one was at the start. */
  lemma RunKeepsIndex(start: map<string, string>, steps: seq<Step>, n: string)
    requires ArePlain(steps)
    ensures ListedAt(AfterSteps(start, steps), n)
         == ListedAt(start, n) + FirstOccurrences(ReleasesAt(steps, n), ListedAt(start, n))
    ensures ListedAt(start, n) <= ListedAt(AfterSteps(start, steps), n)
    ensures forall i :: 0 <= i < |steps| && n in steps[i].touched ==>
      steps[i].release in ListedAt(AfterSteps(start, steps), n)
    ensures Unrepeated(ListedAt(start, n)) <==> Unrepeated(ListedAt(AfterSteps(start, steps), n))
  {
    var before, releases := ListedAt(start, n), ReleasesAt(steps, n);
    StepsAtObject(start, steps, n);
    RunAppendsFirstOccurrences(AnnotationOf(start, n), releases);
    FirstOccurrencesAre(releases, before);
    JoinUnrepeated(before, FirstOccurrences(releases, before));
    forall i | 0 <= i < |steps| && n in steps[i].touched
      ensures steps[i].release in before + FirstOccurrences(releases, before)
    {
      TouchedIsAt(steps, i, n);
    }
  }

  /** The list after some of the collections is a prefix of every later one. */
  lemma LaterKeepsEarlier(start: map<string, string>, steps: seq<Step>, i: nat, n: string)
    requires ArePlain(steps) && i <= |steps|
    ensures ListedAt(AfterSteps(start, steps[..i]), n) <= ListedAt(AfterSteps(start, steps), n)
  {
    StepsConcat(start, steps[..i], steps[i..]);
    assert steps == steps[..i] + steps[i..];
    RunKeepsIndex(AfterSteps(start, steps[..i]), steps[i..], n);
  }

  lemma {:induction false} StepsConcat(start: map<string, string>, a: seq<Step>, b: seq<Step>)
    ensures AfterSteps(start, a + b) == AfterSteps(AfterSteps(start, a), b)
    decreases |a|
  {
    if a == [] {
      assert a + b == b;
    } else {
      assert (a + b)[1..] == a[1..] + b;
      StepsConcat(Recorded(start, a[0].touched, a[0].release), a[1..], b);
    }
  }

  /** A collection succeeds if everything within reach resolves, and then
      touches exactly what it lists. */
  ghost predicate IsCollected(c: Cluster, roots: seq<Values>, release: string, list: Option<seq<Entry>>, step: Step) {
    step.release == release && (list.Some? <==> AllResolve(c, roots)) &&
    (list.Some? ==> IsRefList(c, roots, list.value) && step.touched == NamesOf(list.value))
  }

  /** getRefList for one release after the other, as reconciles call it. */
  method CollectReleases(store: ValuesStore, roots: seq<seq<Values>>, releases: seq<string>)
      returns (lists: seq<Option<seq<Entry>>>, ghost steps: seq<Step>)
    requires WellNamed(store.objects) && |roots| == |releases| && forall r :: r in releases ==> ',' !in r
    modifies store
    ensures |lists| == |steps| == |releases| && ArePlain(steps)
    ensures store.annotations == AfterSteps(old(store.annotations), steps)
    ensures forall i :: 0 <= i < |lists| ==> IsCollected(store.objects, roots[i], releases[i], lists[i], steps[i])
  {
    lists, steps := [], [];
    for i := 0 to |releases|
      invariant |lists| == |steps| == i && ArePlain(steps)
      invariant store.annotations == AfterSteps(old(store.annotations), steps)
      invariant forall j :: 0 <= j < i ==> IsCollected(store.objects, roots[j], releases[j], lists[j], steps[j])
    {
      ghost var n, touched;
      var err, list;
      err, list, n, touched := store.GetRefList(roots[i], releases[i], store.annotations);
      assert roots[i][..|roots[i]|] == roots[i];
      ghost var step := Step(touched, releases[i]);
      StepsConcat(old(store.annotations), steps, [step]);
      assert [step][1..] == [];
      lists, steps := lists + [if err then None else Some(list)], steps + [step];
    }
  }
}
