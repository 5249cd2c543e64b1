/** The reverse index of the values engine: the annotation "releases" of a
    Values object is a comma-separated list of release names
    (internal/values/collect.go:116-140). */
module ReverseIndex {
  import opened JsonTree

  /** strings.Split(s, ","). */
  function Split(s: string): (r: seq<string>)
    ensures r != []
  {
    if s == "" then [""]
    else if s[0] == ',' then [""] + Split(s[1..])
    else
      var rest := Split(s[1..]);
      [[s[0]] + rest[0]] + rest[1..]
  }

  lemma {:induction false} SplitPlain(name: string)
    requires ',' !in name
    ensures Split(name) == [name]
  {
    if name != "" {
      SplitPlain(name[1..]);
      assert [name[0]] + name[1..] == name;
    }
  }

  lemma {:induction false} SplitAppend(s: string, name: string)
    requires ',' !in name
    ensures Split(s + "," + name) == Split(s) + [name]
  {
    var whole := s + "," + name;
    if s == "" {
      assert whole[1..] == name;
      SplitPlain(name);
    } else {
      assert whole[0] == s[0] && whole[1..] == s[1..] + "," + name;
      SplitAppend(s[1..], name);
    }
  }

  function Join(names: seq<string>): string
    requires names != []
  {
    if |names| == 1 then names[0] else names[0] + ("," + Join(names[1..]))
  }

  /** The pieces are those between the commas. */
  lemma {:induction false} SplitJoins(s: string)
    ensures Join(Split(s)) == s && forall name :: name in Split(s) ==> ',' !in name
  {
    if s != "" {
      SplitJoins(s[1..]);
      var rest := Split(s[1..]);
      assert s == [s[0]] + s[1..];
      if s[0] == ',' {
        assert ([""] + rest)[1..] == rest && "" + "," == [','];
      } else {
        JoinLonger(s[0], rest);
        forall name | name in Split(s) ensures ',' !in name {
          assert name in rest || name == [s[0]] + rest[0];
          assert rest[0] in rest;
        }
      }
    }
  }

  lemma AddToFront(ch: char, a: string, b: string)
    ensures ([ch] + a) + b == [ch] + (a + b)
  {
  }

  lemma JoinLonger(ch: char, rest: seq<string>)
    requires rest != []
    ensures Join([[ch] + rest[0]] + rest[1..]) == [ch] + Join(rest)
  {
    var longer := [[ch] + rest[0]] + rest[1..];
    assert longer[0] == [ch] + rest[0] && longer[1..] == rest[1..];
    if |rest| > 1 {
      AddToFront(ch, rest[0], "," + Join(rest[1..]));
    }
  }

  /** The names an annotation lists; a missing annotation lists none. */
  function Listed(annotation: Option<string>): seq<string> {
    match annotation
    case None => []
    case Some(value) => Split(value)
  }

  /** The annotation that updateValuesAnnotations leaves on an object. */
  function Annotated(annotation: Option<string>, release: string): string {
    match annotation
    case None => release
    case Some(value) => if release in Split(value) then value else value + "," + release
  }

  /** Recording a release appends its name unless it is already listed, and
      neither removes nor reorders a name. */
  lemma AnnotatedLists(annotation: Option<string>, release: string)
    requires ',' !in release
    ensures Listed(Some(Annotated(annotation, release)))
         == if release in Listed(annotation) then Listed(annotation) else Listed(annotation) + [release]
  {
    match annotation
    case None => SplitPlain(release);
    case Some(value) => SplitAppend(value, release);
  }

  lemma AnnotatedIdempotent(annotation: Option<string>, release: string)
    requires ',' !in release
    ensures Annotated(Some(Annotated(annotation, release)), release) == Annotated(annotation, release)
  {
    AnnotatedLists(annotation, release);
  }

  /** The annotation of one object after a run of collections that reach it. */
  function AfterRun(annotation: Option<string>, releases: seq<string>): Option<string>
    decreases |releases|
  {
    if releases == [] then annotation
    else AfterRun(Some(Annotated(annotation, releases[0])), releases[1..])
  }

  /** Names in order of their first occurrence, those in seen left out. */
  function FirstOccurrences(names: seq<string>, seen: seq<string>): seq<string>
    decreases |names|
  {
    if names == [] then []
    else if names[0] in seen then FirstOccurrences(names[1..], seen)
    else [names[0]] + FirstOccurrences(names[1..], seen + [names[0]])
  }

  lemma FirstOccurrencesStep(names: seq<string>, listed: seq<string>, next: seq<string>)
    requires names != [] && next == if names[0] in listed then listed else listed + [names[0]]
    ensures listed + FirstOccurrences(names, listed) == next + FirstOccurrences(names[1..], next)
  {
    if names[0] !in listed {
      var rest := FirstOccurrences(names[1..], next);
      assert (listed + [names[0]]) + rest == listed + ([names[0]] + rest);
    }
  }

  /** Over any run, the list is what it was plus the new names, each once, in
      the order in which their releases first reached the object. */
  lemma {:induction false} RunAppendsFirstOccurrences(annotation: Option<string>, releases: seq<string>)
    requires forall r :: r in releases ==> ',' !in r
    ensures Listed(AfterRun(annotation, releases))
         == Listed(annotation) + FirstOccurrences(releases, Listed(annotation))
    decreases |releases|
  {
    if releases != [] {
      var next := Some(Annotated(annotation, releases[0]));
      AnnotatedLists(annotation, releases[0]);
      assert releases[0] in releases && forall r :: r in releases[1..] ==> r in releases;
      RunAppendsFirstOccurrences(next, releases[1..]);
      FirstOccurrencesStep(releases, Listed(annotation), Listed(next));
    }
  }
}
