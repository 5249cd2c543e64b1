/** A call of manageStruct with any number of children: who wins where the
    message and the documents of the nested calls share a path
    (internal/values/values.go:151-180). */
module Siblings {
  import opened JsonTree
  import opened MergeAlgebra
  import opened MergeOrder
  import opened Nesting
  import opened ValuesGraph
  import opened Assemble

  /** No nested document has a leaf on the way to path. */
  ghost predicate AllClear(es: seq<Entry>, v: Entry, temp: seq<Entry>, parents: seq<string>, s: Schedule, n: nat, path: seq<string>)
    requires n <= |temp| && n <= |s.children| && path != []
  {
    forall i :: 0 <= i < n ==> Clear(ChildCall(es, v, temp, parents, s, i), path)
  }

  /** What the nested documents show at path, in the order of the children. */
  function HeadsOf(es: seq<Entry>, v: Entry, temp: seq<Entry>, parents: seq<string>, s: Schedule, n: nat, path: seq<string>): (heads: seq<Head>)
    requires n <= |temp| && n <= |s.children| && path != []
    ensures |heads| == n && forall i :: 0 <= i < n ==> heads[i] == HeadAt(ChildCall(es, v, temp, parents, s, i), path)
  {
    seq(n, i requires 0 <= i < n => HeadAt(ChildCall(es, v, temp, parents, s, i), path))
  }

  /** The i-th shows something, and is the last one that does, or the first. */
  ghost predicate Leads(heads: seq<Head>, last: bool, i: nat) {
    i < |heads| && heads[i] != Absent &&
    forall j :: (if last then i < j < |heads| else 0 <= j < i) ==> heads[j] == Absent
  }

  /** head is what the last or the first one that shows something shows. */
  ghost predicate IsLead(heads: seq<Head>, last: bool, head: Head) {
    if forall j :: 0 <= j < |heads| ==> heads[j] == Absent then head == Absent
    else exists i: nat :: Leads(heads, last, i) && head == heads[i]
  }

  lemma LeadSnoc(heads: seq<Head>, next: Head, length: nat, head: Head)
    requires IsLead(heads, length % 2 == 0, head)
    ensures IsLead(heads + [next], length % 2 == 0, Winner(length, head, next))
  {
    var all, n := heads + [next], |heads|;
    assert forall j :: 0 <= j < n ==> all[j] == heads[j];
    if next != Absent && (length % 2 == 0 || head == Absent) {
      assert Leads(all, length % 2 == 0, n);
    } else if i: nat :| Leads(heads, length % 2 == 0, i) && head == heads[i] {
      assert Leads(all, length % 2 == 0, i);
    }
  }

  lemma EmptyHead(path: seq<string>)
    requires path != []
    ensures Clear(map[], path) && HeadAt(map[], path) == Absent
  {
    if |path| > 1 {
      HeadBelow(map[], path);
    }
  }

  /** The nested documents: at even path lengths the last one that shows
      something wins, at odd ones the first. */
  lemma {:induction false} NestedHead(es: seq<Entry>, v: Entry, temp: seq<Entry>, parents: seq<string>, s: Schedule,
                                      n: nat, path: seq<string>)
    requires n <= |temp| && n <= |s.children| && path != [] && AllClear(es, v, temp, parents, s, n, path)
    ensures Clear(Nested(es, v, temp, parents, s, n), path)
    ensures IsLead(HeadsOf(es, v, temp, parents, s, n, path), |path| % 2 == 0,
                   HeadAt(Nested(es, v, temp, parents, s, n), path))
    decreases n
  {
    if n == 0 {
      EmptyHead(path);
    } else {
      var before, call := Nested(es, v, temp, parents, s, n - 1), ChildCall(es, v, temp, parents, s, n - 1);
      var heads := HeadsOf(es, v, temp, parents, s, n - 1, path);
      NestedHead(es, v, temp, parents, s, n - 1, path);
      NestedStep(es, v, temp, parents, s, n);
      MergeClear(before, call, path);
      MergeHead(before, call, path);
      LeadSnoc(heads, HeadAt(call, path), |path|, HeadAt(before, path));
      HeadsSnoc(es, v, temp, parents, s, n, path);
    }
  }

  lemma HeadsSnoc(es: seq<Entry>, v: Entry, temp: seq<Entry>, parents: seq<string>, s: Schedule, n: nat, path: seq<string>)
    requires 0 < n <= |temp| && n <= |s.children| && path != []
    ensures HeadsOf(es, v, temp, parents, s, n, path) ==
      HeadsOf(es, v, temp, parents, s, n - 1, path) + [HeadAt(ChildCall(es, v, temp, parents, s, n - 1), path)]
  {
  }

  /** One round merges the nested document into those before it. */
  lemma NestedStep(es: seq<Entry>, v: Entry, temp: seq<Entry>, parents: seq<string>, s: Schedule, n: nat)
    requires 0 < n <= |temp| && n <= |s.children|
    ensures Nested(es, v, temp, parents, s, n) ==
      Merge(Nested(es, v, temp, parents, s, n - 1), ChildCall(es, v, temp, parents, s, n - 1))
  {
    if temp[n - 1].ref.refs == map[] {
      MergeEmpty(Nested(es, v, temp, parents, s, n - 1));
    }
  }

  /** v has children, and nothing of theirs has a leaf on the way to path. */
  ghost predicate IsClear(es: seq<Entry>, v: Entry, parents: seq<string>, s: Schedule, path: seq<string>)
    requires path != []
  {
    var temp := FilterBy(es, v.ref.name);
    s.first < |temp| == |s.children| &&
    Clear(Received(v, temp, parents, s), path) && AllClear(es, v, temp, parents, s, |temp|, path)
  }

  /** For every object, key path, number of children and schedule, at a path on
      which neither the message nor a nested document has a leaf in the way: at
      even lengths the message wins, and after it the last nested document that
      shows something; at odd lengths the first nested document wins, and the
      message only if none shows anything. */
  lemma StructHead(es: seq<Entry>, v: Entry, parents: seq<string>, s: Schedule, path: seq<string>) returns (lead: Head)
    requires Fits(es, v, s) && v.ref.refs != map[] && path != [] && IsClear(es, v, parents, s, path)
    ensures Clear(Struct(es, v, parents, s), path)
    ensures
      var temp := FilterBy(es, v.ref.name);
      var message := HeadAt(Received(v, temp, parents, s), path);
      var head := HeadAt(Struct(es, v, parents, s), path);
      IsLead(HeadsOf(es, v, temp, parents, s, |temp|, path), |path| % 2 == 0, lead) &&
      head == if lead == Absent || (|path| % 2 == 0 && message != Absent) then message else lead
  {
    var temp := FilterBy(es, v.ref.name);
    var nested, message := Nested(es, v, temp, parents, s, |temp|), Received(v, temp, parents, s);
    NestedHead(es, v, temp, parents, s, |temp|, path);
    MergeClear(nested, message, path);
    MergeHead(nested, message, path);
    lead := HeadAt(nested, path);
  }

  /** The delivered document: at odd lengths the base object's own values win,
      at even ones what was assembled below it. */
  lemma DeliveredHead(es: seq<Entry>, root: Entry, s: Schedule, path: seq<string>)
    requires path != [] && Clear(root.ref.vals, path) && Clear(Struct(es, root, [], s), path)
    ensures
      var own, below := HeadAt(root.ref.vals, path), HeadAt(Struct(es, root, [], s), path);
      var head := HeadAt(Delivered(es, root, s), path);
      (|path| % 2 == 1 && own != Absent ==> head == own) &&
      (|path| % 2 == 0 && below != Absent ==> head == below) &&
      (own == Absent ==> head == below) && (below == Absent ==> head == own)
  {
    MergeHead(root.ref.vals, Struct(es, root, [], s), path);
  }

  // -------------------------------------------------------------------
  // Where a message puts its values
  // -------------------------------------------------------------------

  function KeyTimes(key: string, n: nat): seq<string> {
    if key == "" then [] else Repeat(key, n)
  }

  /** The caller's path, the caller's key once per child so far, and the child's
      own keys; blank keys fall out. */
  lemma PathOfChild(v: Entry, parents: seq<string>, i: nat, order: seq<string>)
    ensures Trim(ChildPath(v, parents, i, order)) == Trim(parents) + KeyTimes(v.key, i + 1) + Trim(order)
  {
    TrimConcat(parents + Repeat(v.key, i + 1), order);
    TrimConcat(parents, Repeat(v.key, i + 1));
    TrimOfRepeat(v.key, i + 1);
  }

  lemma {:induction false} TrimOfRepeat(k: string, n: nat)
    ensures Trim(Repeat(k, n)) == KeyTimes(k, n)
    decreases n
  {
    if n > 0 {
      assert Repeat(k, n)[1..] == Repeat(k, n - 1);
      TrimOfRepeat(k, n - 1);
      assert k != "" ==> [k] + Repeat(k, n - 1) == Repeat(k, n);
    }
  }

  /** A child's values stand at that path if its pairs of keys are equal, and
      are lost otherwise. */
  lemma DocumentStands(v: Entry, child: Entry, parents: seq<string>, i: nat, order: seq<string>)
    requires Trim(parents) + KeyTimes(v.key, i + 1) + Trim(order) != []
    ensures
      var path := Trim(parents) + KeyTimes(v.key, i + 1) + Trim(order);
      Lookup(Document(v, child, parents, i, order), path) ==
        (if PairsEqual(path) then Some(Obj(child.ref.vals)) else None)
  {
    var path := Trim(parents) + KeyTimes(v.key, i + 1) + Trim(order);
    PathOfChild(v, parents, i, order);
    if PairsEqual(path) {
      EqualPairsNest(path, child.ref.vals);
      NestReaches(path, child.ref.vals);
    } else {
      UnequalPairDrops(path, child.ref.vals);
      ShortNestMisses(path[..FirstSplit(path) + 1], path);
    }
  }
}
