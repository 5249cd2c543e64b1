/** Choosing a chart version: getParsedVersion scans the index for the highest
    version that meets the constraint, and New looks up the index entry with
    that version string (chartversion.go:51-68, 377-401). */
module VersionPick {
  import opened JsonTree

  datatype Ident = Numeric(n: nat) | Alnum(s: string)

  datatype SemVer = SemVer(major: nat, minor: nat, patch: nat, pre: seq<Ident>, build: string)

  const ZERO := SemVer(0, 0, 0, [], "")

  // -------------------------------------------------------------------
  // Precedence, section 11 of Semantic Versioning 2.0.0
  // -------------------------------------------------------------------

  /** ASCII sort order. */
  predicate StringLess(a: string, b: string) {
    b != "" && (a == "" || a[0] < b[0] || (a[0] == b[0] && StringLess(a[1..], b[1..])))
  }

  /** Numeric identifiers compare as numbers and stand below alphanumeric ones. */
  predicate IdentLess(a: Ident, b: Ident) {
    match a
    case Numeric(n) => b.Alnum? || n < b.n
    case Alnum(s) => b.Alnum? && StringLess(s, b.s)
  }

  /** Identifiers compare from the left; a proper prefix stands lower. */
  predicate IdentsLess(a: seq<Ident>, b: seq<Ident>)
    decreases |a|
  {
    b != [] && (a == [] || IdentLess(a[0], b[0]) || (a[0] == b[0] && IdentsLess(a[1..], b[1..])))
  }

  /** A version without pre-release identifiers stands above all with them. */
  predicate PreLess(a: seq<Ident>, b: seq<Ident>) {
    if a == [] then false
    else if b == [] then true
    else IdentsLess(a, b)
  }

  predicate Less(a: SemVer, b: SemVer) {
    a.major < b.major || (a.major == b.major && (
    a.minor < b.minor || (a.minor == b.minor && (
    a.patch < b.patch || (a.patch == b.patch && PreLess(a.pre, b.pre))))))
  }

  /** Equal up to build metadata. */
  predicate SamePrecedence(a: SemVer, b: SemVer) {
    a.major == b.major && a.minor == b.minor && a.patch == b.patch && a.pre == b.pre
  }

  lemma {:induction false} StringOrder(a: string, b: string, c: string)
    ensures !StringLess(a, a)
    ensures a != b ==> StringLess(a, b) || StringLess(b, a)
    ensures StringLess(a, b) && StringLess(b, c) ==> StringLess(a, c)
    decreases |a| + |b| + |c|
  {
    if a != "" && b != "" && c != "" {
      StringOrder(a[1..], b[1..], c[1..]);
      assert a == [a[0]] + a[1..] && b == [b[0]] + b[1..];
    } else if a != "" && b != "" {
      StringOrder(a[1..], b[1..], c);
      assert a == [a[0]] + a[1..] && b == [b[0]] + b[1..];
    } else if a != "" {
      StringOrder(a[1..], b, c);
    }
  }

  lemma IdentOrder(a: Ident, b: Ident, c: Ident)
    ensures !IdentLess(a, a)
    ensures a != b ==> IdentLess(a, b) || IdentLess(b, a)
    ensures IdentLess(a, b) && IdentLess(b, c) ==> IdentLess(a, c)
  {
    if a.Alnum? && b.Alnum? {
      StringOrder(a.s, b.s, if c.Alnum? then c.s else "");
    } else if a.Alnum? {
      StringOrder(a.s, a.s, a.s);
    }
  }

  lemma {:induction false} IdentsOrder(a: seq<Ident>, b: seq<Ident>, c: seq<Ident>)
    ensures !IdentsLess(a, a)
    ensures a != b ==> IdentsLess(a, b) || IdentsLess(b, a)
    ensures IdentsLess(a, b) && IdentsLess(b, c) ==> IdentsLess(a, c)
    decreases |a| + |b| + |c|
  {
    if a != [] && b != [] {
      IdentOrder(a[0], b[0], if c != [] then c[0] else a[0]);
      IdentsOrder(a[1..], b[1..], if c != [] then c[1..] else []);
      assert a == [a[0]] + a[1..] && b == [b[0]] + b[1..];
    } else if a != [] {
      IdentOrder(a[0], a[0], a[0]);
      IdentsOrder(a[1..], [], []);
    }
  }

  /** Precedence is a total order up to build metadata. */
  lemma PrecedenceOrder(a: SemVer, b: SemVer, c: SemVer)
    ensures !Less(a, a)
    ensures Less(a, b) && Less(b, c) ==> Less(a, c)
    ensures !Less(a, b) && !Less(b, a) <==> SamePrecedence(a, b)
  {
    IdentsOrder(a.pre, b.pre, c.pre);
    IdentsOrder(a.pre, a.pre, a.pre);
    IdentsOrder(b.pre, a.pre, a.pre);
  }

  // -------------------------------------------------------------------
  // The same rules by position
  // -------------------------------------------------------------------

  /** The strings agree up to position j, and there a ends or is smaller. */
  ghost predicate SmallerAt(a: string, b: string, j: nat) {
    j <= |a| && j < |b| && a[..j] == b[..j] && (j == |a| || a[j] < b[j])
  }

  /** Numeric identifiers go by value and stand below all others, which go by
      ASCII order. */
  ghost predicate LowerIdent(a: Ident, b: Ident) {
    (a.Numeric? && b.Numeric? && a.n < b.n) ||
    (a.Numeric? && b.Alnum?) ||
    (a.Alnum? && b.Alnum? && exists j: nat :: SmallerAt(a.s, b.s, j))
  }

  /** The lists agree up to position j, and there a ends or is lower. */
  ghost predicate LowerAt(a: seq<Ident>, b: seq<Ident>, j: nat) {
    j <= |a| && j < |b| && a[..j] == b[..j] && (j == |a| || LowerIdent(a[j], b[j]))
  }

  lemma {:induction false} StringLessByPosition(a: string, b: string)
    ensures StringLess(a, b) <==> exists j: nat :: SmallerAt(a, b, j)
    decreases |a|
  {
    if b != "" && a != "" && a[0] == b[0] {
      StringLessByPosition(a[1..], b[1..]);
      if j: nat :| SmallerAt(a[1..], b[1..], j) {
        assert a[..j + 1] == [a[0]] + a[1..][..j] && b[..j + 1] == [b[0]] + b[1..][..j];
        assert SmallerAt(a, b, j + 1);
      }
      if j: nat :| SmallerAt(a, b, j) {
        assert j > 0 && a[1..][..j - 1] == a[..j][1..] && b[1..][..j - 1] == b[..j][1..];
        assert SmallerAt(a[1..], b[1..], j - 1);
      }
    } else {
      if StringLess(a, b) {
        assert SmallerAt(a, b, 0);
      }
      if j: nat :| SmallerAt(a, b, j) {
        FirstPieceAgrees(a, b, j);
        assert j == 0;
      }
    }
  }

  lemma IdentLessByRules(a: Ident, b: Ident)
    ensures IdentLess(a, b) <==> LowerIdent(a, b)
  {
    if a.Alnum? && b.Alnum? {
      StringLessByPosition(a.s, b.s);
    }
  }

  lemma FirstPieceAgrees<T>(a: seq<T>, b: seq<T>, j: nat)
    requires j <= |a| && j <= |b| && a[..j] == b[..j]
    ensures j == 0 || a[0] == b[0]
  {
    if j > 0 {
      assert a[..j][0] == b[..j][0];
    }
  }

  lemma {:induction false} IdentsLessByPosition(a: seq<Ident>, b: seq<Ident>)
    ensures IdentsLess(a, b) <==> exists j: nat :: LowerAt(a, b, j)
    decreases |a|
  {
    if b != [] && a != [] {
      IdentLessByRules(a[0], b[0]);
      IdentOrder(a[0], b[0], a[0]);
    }
    if b != [] && a != [] && a[0] == b[0] {
      IdentsLessByPosition(a[1..], b[1..]);
      if j: nat :| LowerAt(a[1..], b[1..], j) {
        assert a[..j + 1] == [a[0]] + a[1..][..j] && b[..j + 1] == [b[0]] + b[1..][..j];
        assert LowerAt(a, b, j + 1);
      }
      if j: nat :| LowerAt(a, b, j) {
        assert j > 0 && a[1..][..j - 1] == a[..j][1..] && b[1..][..j - 1] == b[..j][1..];
        assert LowerAt(a[1..], b[1..], j - 1);
      }
    } else {
      if IdentsLess(a, b) {
        assert LowerAt(a, b, 0);
      }
      if j: nat :| LowerAt(a, b, j) {
        FirstPieceAgrees(a, b, j);
        assert j == 0;
      }
    }
  }

  function Numbers(v: SemVer): seq<nat> {
    [v.major, v.minor, v.patch]
  }

  /** The first different number decides. */
  ghost predicate NumbersDecide(a: SemVer, b: SemVer, j: nat) {
    j < 3 && Numbers(a)[..j] == Numbers(b)[..j] && Numbers(a)[j] < Numbers(b)[j]
  }

  /** With equal numbers: a release stands above its pre-releases, and those go
      by their identifiers. */
  ghost predicate PreReleaseDecides(a: SemVer, b: SemVer) {
    Numbers(a) == Numbers(b) && a.pre != [] && (b.pre == [] || exists j: nat :: LowerAt(a.pre, b.pre, j))
  }

  lemma LessByRules(a: SemVer, b: SemVer)
    ensures Less(a, b) <==> (exists j: nat :: NumbersDecide(a, b, j)) || PreReleaseDecides(a, b)
  {
    IdentsLessByPosition(a.pre, b.pre);
    var m, n := Numbers(a), Numbers(b);
    assert m[..1] == [a.major] && n[..1] == [b.major];
    assert m[..2] == [a.major, a.minor] && n[..2] == [b.major, b.minor];
    if a.major < b.major {
      assert NumbersDecide(a, b, 0);
    } else if a.major == b.major && a.minor < b.minor {
      assert NumbersDecide(a, b, 1);
    } else if a.major == b.major && a.minor == b.minor && a.patch < b.patch {
      assert NumbersDecide(a, b, 2);
    }
    if j: nat :| NumbersDecide(a, b, j) {
      assert j == 0 || j == 1 || j == 2;
      assert j > 0 ==> m[..j][0] == n[..j][0];
      assert j > 1 ==> m[..j][1] == n[..j][1];
    }
  }

  /** The example of section 11: each version stands below the next one. */
  lemma StandardExample()
    ensures
      var alpha, beta := Alnum("alpha"), Alnum("beta");
      var chain := [
        SemVer(1, 0, 0, [alpha], ""), SemVer(1, 0, 0, [alpha, Numeric(1)], ""), SemVer(1, 0, 0, [alpha, beta], ""),
        SemVer(1, 0, 0, [beta], ""), SemVer(1, 0, 0, [beta, Numeric(2)], ""), SemVer(1, 0, 0, [beta, Numeric(11)], ""),
        SemVer(1, 0, 0, [Alnum("rc"), Numeric(1)], ""), SemVer(1, 0, 0, [], ""),
        SemVer(2, 0, 0, [], ""), SemVer(2, 1, 0, [], ""), SemVer(2, 1, 1, [], "")];
      forall i :: 0 < i < |chain| ==> Less(chain[i - 1], chain[i])
  {
    assert StringLess("alpha", "beta") && StringLess("beta", "rc");
    assert [Alnum("alpha"), Numeric(1)][1..] == [Numeric(1)] && [Alnum("alpha"), Alnum("beta")][1..] == [Alnum("beta")];
    assert [Alnum("beta"), Numeric(2)][1..] == [Numeric(2)] && [Alnum("beta"), Numeric(11)][1..] == [Numeric(11)];
    assert [Alnum("alpha")][1..] == [] && [Alnum("beta")][1..] == [];
  }

  // -------------------------------------------------------------------
  // The scan
  // -------------------------------------------------------------------

  /** An index entry: its version string and what the parser makes of it. */
  datatype Entry = Entry(raw: string, parsed: Option<SemVer>)

  datatype Error = BadConstraint | BadVersion | NotValid

  datatype Result<T> = Ok(value: T) | Err(error: Error)

  /** e parses, meets the constraint, and stands above 0.0.0. */
  predicate Candidate(e: Entry, check: SemVer -> bool) {
    e.parsed.Some? && check(e.parsed.value) && Less(ZERO, e.parsed.value)
  }

  /** v is 0.0.0 if there is no candidate, and otherwise the first of the
      candidates of highest precedence. */
  ghost predicate IsHighest(index: seq<Entry>, check: SemVer -> bool, v: SemVer) {
    (forall i :: 0 <= i < |index| && Candidate(index[i], check) ==> !Less(v, index[i].parsed.value)) &&
    if forall i :: 0 <= i < |index| ==> !Candidate(index[i], check) then v == ZERO
    else exists i :: 0 <= i < |index| && FirstAt(index, check, v, i)
  }

  ghost predicate FirstAt(index: seq<Entry>, check: SemVer -> bool, v: SemVer, i: nat)
    requires i < |index|
  {
    Candidate(index[i], check) && index[i].parsed == Some(v) &&
    forall j :: 0 <= j < i && Candidate(index[j], check) ==> Less(index[j].parsed.value, v)
  }

  /** An entry that meets the constraint has no greater major; with equal major
      no greater minor, and so on; and with equal numbers it does not win by its
      pre-release identifiers. */
  ghost predicate Tops(v: SemVer, e: Entry, check: SemVer -> bool) {
    e.parsed.Some? && check(e.parsed.value) ==>
      var w := e.parsed.value;
      w.major <= v.major &&
      (w.major == v.major ==>
        w.minor <= v.minor &&
        (w.minor == v.minor ==>
          w.patch <= v.patch &&
          (w.patch == v.patch ==> !PreReleaseDecides(v, w))))
  }

  lemma HighestTops(index: seq<Entry>, check: SemVer -> bool, v: SemVer, i: nat)
    requires IsHighest(index, check, v) && i < |index|
    ensures Tops(v, index[i], check)
  {
    if index[i].parsed.Some? && check(index[i].parsed.value) {
      var w := index[i].parsed.value;
      NotBelowHighest(index, check, v, i);
      LessByRules(v, w);
      assert Numbers(v)[..1] == [v.major] && Numbers(w)[..1] == [w.major];
      assert Numbers(v)[..2] == [v.major, v.minor] && Numbers(w)[..2] == [w.major, w.minor];
      assert !NumbersDecide(v, w, 0) && !NumbersDecide(v, w, 1) && !NumbersDecide(v, w, 2);
    }
  }

  lemma HighestTopsAll(index: seq<Entry>, check: SemVer -> bool, v: SemVer)
    requires IsHighest(index, check, v)
    ensures forall i :: 0 <= i < |index| ==> Tops(v, index[i], check)
  {
    forall i | 0 <= i < |index| ensures Tops(v, index[i], check) {
      HighestTops(index, check, v, i);
    }
  }

  /** Entries that are no candidates stand at or below 0.0.0. */
  lemma NotBelowHighest(index: seq<Entry>, check: SemVer -> bool, v: SemVer, i: nat)
    requires IsHighest(index, check, v) && i < |index|
    requires index[i].parsed.Some? && check(index[i].parsed.value)
    ensures !Less(v, index[i].parsed.value)
  {
    var w := index[i].parsed.value;
    if !Candidate(index[i], check) {
      if j :| 0 <= j < |index| && FirstAt(index, check, v, j) {
        PrecedenceOrder(ZERO, v, w);
      }
    }
  }

  /** getParsedVersion; constraint is None if it cannot be parsed. */
  method GetParsedVersion(constraint: Option<SemVer -> bool>, index: seq<Entry>) returns (r: Result<SemVer>)
    ensures r == Err(BadConstraint) <==> constraint.None?
    ensures r == Err(BadVersion) <==> constraint.Some? && exists i :: 0 <= i < |index| && index[i].parsed.None?
    ensures r != Err(NotValid)
    ensures r.Ok? ==> IsHighest(index, constraint.value, r.value)
    ensures r.Ok? ==> forall i :: 0 <= i < |index| ==> Tops(r.value, index[i], constraint.value)
  {
    if constraint.None? {
      return Err(BadConstraint);
    }
    var check := constraint.value;
    var current := ZERO;
    for n := 0 to |index|
      invariant forall i :: 0 <= i < n ==> index[i].parsed.Some?
      invariant IsHighest(index[..n], check, current)
    {
      if index[n].parsed.None? {
        return Err(BadVersion);
      }
      var v := index[n].parsed.value;
      ScanStep(index, n, check, current);
      if check(v) && Less(current, v) {
        current := v;
      }
    }
    assert index[..|index|] == index;
    HighestTopsAll(index, check, current);
    return Ok(current);
  }

  lemma ScanStep(index: seq<Entry>, n: nat, check: SemVer -> bool, current: SemVer)
    requires n < |index| && index[n].parsed.Some? && IsHighest(index[..n], check, current)
    ensures
      var v := index[n].parsed.value;
      IsHighest(index[..n + 1], check, if check(v) && Less(current, v) then v else current)
  {
    var before, after, v := index[..n], index[..n + 1], index[n].parsed.value;
    forall i | 0 <= i < n ensures after[i] == before[i] {
    }
    PrecedenceOrder(ZERO, current, v);
    if check(v) && Less(current, v) {
      if i :| 0 <= i < n && FirstAt(before, check, current, i) {
        assert Candidate(before[i], check);
      }
      assert Less(ZERO, v);
      forall i | 0 <= i < n && Candidate(before[i], check) ensures Less(before[i].parsed.value, v) {
        BelowOrSame(before[i].parsed.value, current, v);
      }
      PrecedenceOrder(v, v, v);
      forall i | 0 <= i <= n && Candidate(after[i], check) ensures !Less(v, after[i].parsed.value) {
        PrecedenceOrder(v, after[i].parsed.value, v);
      }
      assert FirstAt(after, check, v, n);
    } else {
      if i :| 0 <= i < n && FirstAt(before, check, current, i) {
        assert FirstAt(after, check, current, i);
      } else {
        assert current == ZERO;
      }
    }
  }

  lemma BelowOrSame(a: SemVer, b: SemVer, c: SemVer)
    requires !Less(b, a) && Less(b, c)
    ensures Less(a, c)
  {
    PrecedenceOrder(a, b, c);
    if SamePrecedence(a, b) {
      SameIsSame(a, b, c);
    }
  }

  lemma SameIsSame(a: SemVer, b: SemVer, c: SemVer)
    requires SamePrecedence(a, b)
    ensures Less(a, c) <==> Less(b, c)
    ensures Less(c, a) <==> Less(c, b)
  {
  }

  /** The result does not depend on the order of the index, up to build metadata. */
  lemma OrderOfIndexIrrelevant(one: seq<Entry>, two: seq<Entry>, check: SemVer -> bool, v: SemVer, w: SemVer)
    requires multiset(one) == multiset(two)
    requires IsHighest(one, check, v) && IsHighest(two, check, w)
    ensures SamePrecedence(v, w)
  {
    NotBelow(one, two, check, v, w);
    NotBelow(two, one, check, w, v);
    PrecedenceOrder(v, w, v);
  }

  lemma NotBelow(one: seq<Entry>, two: seq<Entry>, check: SemVer -> bool, v: SemVer, w: SemVer)
    requires multiset(one) == multiset(two)
    requires IsHighest(one, check, v) && IsHighest(two, check, w)
    ensures !Less(v, w)
  {
    if i :| 0 <= i < |two| && FirstAt(two, check, w, i) {
      assert two[i] in multiset(one);
      var j :| 0 <= j < |one| && one[j] == two[i];
      assert Candidate(one[j], check);
    } else {
      PrecedenceOrder(v, v, v);
      if j :| 0 <= j < |one| && FirstAt(one, check, v, j) {
        PrecedenceOrder(ZERO, v, ZERO);
      }
    }
  }

  // -------------------------------------------------------------------
  // The selection
  // -------------------------------------------------------------------

  /** The first entry whose version string is s. */
  method FindVersion(index: seq<Entry>, s: string) returns (found: Option<nat>)
    ensures found == None <==> forall i :: 0 <= i < |index| ==> index[i].raw != s
    ensures found.Some? ==> found.value < |index| && index[found.value].raw == s &&
                            forall i :: 0 <= i < found.value ==> index[i].raw != s
  {
    for i := 0 to |index|
      invariant forall j :: 0 <= j < i ==> index[j].raw != s
    {
      if index[i].raw == s {
        return Some(i);
      }
    }
    return None;
  }

  /** r is the first entry that reads as the highest version v, or the error
      for an index in which none does. */
  ghost predicate Picks(index: seq<Entry>, check: SemVer -> bool, render: SemVer -> string, v: SemVer, r: Result<nat>) {
    IsHighest(index, check, v) &&
    match r
    case Ok(n) => n < |index| && index[n].raw == render(v) && forall i :: 0 <= i < n ==> index[i].raw != render(v)
    case Err(_) => forall i :: 0 <= i < |index| ==> index[i].raw != render(v)
  }

  /** Every entry reads as its version renders, and strings parse one way. */
  ghost predicate Canonical(index: seq<Entry>, render: SemVer -> string) {
    (forall i :: 0 <= i < |index| ==> index[i].parsed.Some? && index[i].raw == render(index[i].parsed.value)) &&
    (forall i, j :: 0 <= i < |index| && 0 <= j < |index| && index[i].raw == index[j].raw ==> index[i].parsed == index[j].parsed)
  }

  predicate HasCandidate(index: seq<Entry>, check: SemVer -> bool) {
    exists i :: 0 <= i < |index| && Candidate(index[i], check)
  }

  predicate Reads(index: seq<Entry>, s: string) {
    exists i :: 0 <= i < |index| && index[i].raw == s
  }

  /** Entry n meets the constraint, and no entry that does stands above it. */
  ghost predicate IsBest(index: seq<Entry>, check: SemVer -> bool, n: nat) {
    n < |index| && Candidate(index[n], check) &&
    forall i :: 0 <= i < |index| && Candidate(index[i], check) ==> !Less(index[n].parsed.value, index[i].parsed.value)
  }

  /** On a canonical index the selection fails if and only if no version above
      0.0.0 meets the constraint and no entry reads 0.0.0; and a selected entry
      meets the constraint unless it is such an entry that does not. */
  lemma SelectionIsExact(index: seq<Entry>, check: SemVer -> bool, render: SemVer -> string, v: SemVer, r: Result<nat>)
    requires Canonical(index, render) && Picks(index, check, render, v, r)
    ensures r.Err? <==> !HasCandidate(index, check) && !Reads(index, render(ZERO))
    ensures r.Ok? && HasCandidate(index, check) ==> index[r.value].parsed == Some(v) && IsBest(index, check, r.value)
    ensures r.Ok? && !HasCandidate(index, check) ==> index[r.value].raw == render(ZERO)
  {
    if HasCandidate(index, check) {
      var i :| 0 <= i < |index| && FirstAt(index, check, v, i);
      assert index[i].raw == render(v) && index[i].parsed == Some(v);
      if r.Ok? {
        assert index[r.value].raw == index[i].raw;
        assert index[r.value].parsed == index[i].parsed;
        assert Candidate(index[r.value], check);
      }
    }
  }

  /** New up to the chosen index entry; render is the parsed version's String. */
  method Select(constraint: Option<SemVer -> bool>, index: seq<Entry>, render: SemVer -> string)
      returns (r: Result<nat>)
    ensures r == Err(BadConstraint) <==> constraint.None?
    ensures r == Err(BadVersion) <==> constraint.Some? && exists i :: 0 <= i < |index| && index[i].parsed.None?
    ensures r.Ok? || r == Err(NotValid) ==> exists v :: Picks(index, constraint.value, render, v, r)
    ensures constraint.Some? && Canonical(index, render) ==>
      (r == Err(NotValid) <==> !HasCandidate(index, constraint.value) && !Reads(index, render(ZERO)))
    ensures r.Ok? && Canonical(index, render) && HasCandidate(index, constraint.value) ==>
      IsBest(index, constraint.value, r.value)
  {
    var parsed := GetParsedVersion(constraint, index);
    match parsed {
      case Err(e) =>
        if e == BadVersion {
          var i :| 0 <= i < |index| && index[i].parsed.None?;
          assert !Canonical(index, render);
        }
        return Err(e);
      case Ok(v) =>
        var found := FindVersion(index, render(v));
        r := if found.Some? then Ok(found.value) else Err(NotValid);
        assert Picks(index, constraint.value, render, v, r);
        if Canonical(index, render) {
          SelectionIsExact(index, constraint.value, render, v, r);
        }
    }
  }

  /** With every version above 0.0.0: an error exactly when no entry meets the
      constraint, and otherwise an entry of highest precedence among those
      that do. */
  lemma SelectionAboveZero(index: seq<Entry>, check: SemVer -> bool, render: SemVer -> string, v: SemVer, r: Result<nat>)
    requires Canonical(index, render) && Picks(index, check, render, v, r)
    requires forall i :: 0 <= i < |index| ==> Less(ZERO, index[i].parsed.value) && index[i].raw != render(ZERO)
    ensures r.Err? <==> forall i :: 0 <= i < |index| ==> !check(index[i].parsed.value)
    ensures r.Ok? ==>
      var chosen := index[r.value].parsed.value;
      check(chosen) && forall i :: 0 <= i < |index| && check(index[i].parsed.value) ==> !Less(chosen, index[i].parsed.value)
  {
    SelectionIsExact(index, check, render, v, r);
    forall i | 0 <= i < |index| ensures Candidate(index[i], check) <==> check(index[i].parsed.value) {
    }
  }

  /** An entry 0.0.0 is selected although it does not meet the constraint. */
  lemma ZeroIsPickedUnchecked(render: SemVer -> string)
    ensures
      var index := [Entry(render(ZERO), Some(ZERO))];
      Canonical(index, render) && Picks(index, v => false, render, ZERO, Ok(0))
  {
    var index := [Entry(render(ZERO), Some(ZERO))];
    assert !Candidate(index[0], v => false);
    assert index[0].raw == render(ZERO);
  }
}
