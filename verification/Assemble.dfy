/** internal/values/values.go: the document of each base object is assembled
    from its collected references, and the documents are merged in the order
    of their arrival. */
module Assemble {
  import opened JsonTree
  import opened MergeAlgebra
  import opened MergeOrder
  import opened Nesting
  import opened ValuesGraph

  /** Filter on the parent field: the order-preserving subsequence. */
  function FilterBy(list: seq<Entry>, parent: string): seq<Entry> {
    if list == [] then []
    else
      var n := |list| - 1;
      FilterBy(list[..n], parent) + if list[n].parent == parent then [list[n]] else []
  }

  lemma {:induction false} FilterMembers(list: seq<Entry>, parent: string)
    ensures forall e :: e in FilterBy(list, parent) <==> e in list && e.parent == parent
  {
    if list != [] {
      var n := |list| - 1;
      FilterMembers(list[..n], parent);
      assert list == list[..n] + [list[n]];
    }
  }

  lemma {:induction false} FilterNone(list: seq<Entry>, parent: string)
    requires forall e :: e in list ==> e.parent != parent
    ensures FilterBy(list, parent) == []
  {
    if list != [] {
      FilterNone(list[..|list| - 1], parent);
    }
  }

  lemma {:induction false} FilterOne(list: seq<Entry>, parent: string, i: nat)
    requires i < |list| && list[i].parent == parent
    requires forall j :: 0 <= j < |list| && j != i ==> list[j].parent != parent
    ensures FilterBy(list, parent) == [list[i]]
  {
    var n := |list| - 1;
    if i == n {
      FilterNone(list[..n], parent);
    } else {
      FilterOne(list[..n], parent, i);
    }
  }

  lemma {:induction false} FilterTwo(list: seq<Entry>, parent: string, i: nat, j: nat)
    requires i < |list| && j < |list| && list[i].parent == list[j].parent == parent
    ensures i != j ==> |FilterBy(list, parent)| > 1
  {
    var n := |list| - 1;
    if i < n && j < n {
      FilterTwo(list[..n], parent, i, j);
    } else if i != j {
      var first := if i < j then i else j;
      FilterMembers(list[..n], parent);
      assert list[..n][first] in FilterBy(list[..n], parent);
    }
  }

  method Filter(list: seq<Entry>, parent: string) returns (cs: seq<Entry>)
    ensures cs == FilterBy(list, parent)
  {
    cs := [];
    for i := 0 to |list|
      invariant cs == FilterBy(list[..i], parent)
    {
      assert list[..i + 1][..i] == list[..i];
      if list[i].parent == parent {
        cs := cs + [list[i]];
      }
    }
    assert list[..|list|] == list;
  }

  // -------------------------------------------------------------------
  // Schedules
  // -------------------------------------------------------------------

  /** What the Go runtime decides during one call of manageStruct: whose
      document the message received first holds, what became of it, and for
      each child the order in which its keys are found and what happens in its
      own call. */
  datatype Schedule = Schedule(first: nat, sent: Sent, children: seq<ChildSchedule>)
  datatype ChildSchedule = ChildSchedule(order: seq<string>, call: Schedule)

  /** The children share a variable and an array.  A message holds a child's
      document as it was meant, or the empty map that a later round of the loop
      put into the variable (values.go:152), or the child's values under keys
      that later rounds have overwritten (values.go:153, 196). */
  datatype Sent = Own | Reset | Overwritten(keys: seq<string>)

  /** Later rounds are needed for the last two.  The next round writes the
      caller's key over the child's first key; what later ones write over the
      keys behind it is left open. */
  ghost predicate CanSend(v: Entry, count: nat, first: nat, order: seq<string>, sent: Sent) {
    match sent
    case Own => true
    case Reset => count > 1
    case Overwritten(keys) => first + 1 < count && CanRead(v, order, keys)
  }

  predicate CanRead(v: Entry, order: seq<string>, keys: seq<string>) {
    |keys| == |order| && (keys != [] ==> keys[0] == order[0] || keys[0] == v.key)
  }

  /** No message is disturbed by another child of its call. */
  ghost predicate Undisturbed(s: Schedule) {
    s.sent.Own? && forall i :: 0 <= i < |s.children| ==> Undisturbed(s.children[i].call)
  }

  function KeysFor(refs: map<string, string>, name: string): set<string> {
    set k | k in refs && refs[k] == name
  }

  /** order lists the keys under which refs holds name, each once. */
  ghost predicate IsKeyOrder(order: seq<string>, refs: map<string, string>, name: string) {
    multiset(order) == multiset(KeysFor(refs, name))
  }

  /** The schedule has the shape of the call for v. */
  ghost predicate Fits(es: seq<Entry>, v: Entry, s: Schedule)
    decreases s
  {
    var temp := FilterBy(es, v.ref.name);
    v.ref.refs != map[] && temp != [] ==>
      s.first < |temp| && |s.children| == |temp| &&
      CanSend(v, |temp|, s.first, s.children[s.first].order, s.sent) &&
      forall i :: 0 <= i < |temp| ==>
        IsKeyOrder(s.children[i].order, v.ref.refs, temp[i].ref.name) &&
        (temp[i].ref.refs != map[] ==> Fits(es, temp[i], s.children[i].call))
  }

  lemma FitsChild(es: seq<Entry>, v: Entry, s: Schedule, i: nat)
    requires Fits(es, v, s) && v.ref.refs != map[] && i < |FilterBy(es, v.ref.name)|
    ensures
      var temp := FilterBy(es, v.ref.name);
      s.first < |temp| == |s.children| &&
      CanSend(v, |temp|, s.first, s.children[s.first].order, s.sent) &&
      IsKeyOrder(s.children[i].order, v.ref.refs, temp[i].ref.name) &&
      (temp[i].ref.refs != map[] ==> Fits(es, temp[i], s.children[i].call))
  {
  }

  function Repeat(k: string, n: nat): (r: seq<string>)
    ensures |r| == n && forall i :: 0 <= i < n ==> r[i] == k
  {
    seq(n, i => k)
  }

  /** The key path of the i-th child: the loop appends the caller's key once
      per child (values.go:153) and then the child's own keys. */
  function ChildPath(v: Entry, parents: seq<string>, i: nat, order: seq<string>): seq<string> {
    parents + Repeat(v.key, i + 1) + order
  }

  /** The message that is received first. */
  function Received(v: Entry, temp: seq<Entry>, parents: seq<string>, s: Schedule): Tree
    requires s.first < |temp| == |s.children|
  {
    match s.sent
    case Own => Document(v, temp[s.first], parents, s.first, s.children[s.first].order)
    case Reset => map[]
    case Overwritten(keys) => Document(v, temp[s.first], parents, s.first, keys)
  }

  /** What the goroutine of the i-th child makes of its values. */
  function Document(v: Entry, child: Entry, parents: seq<string>, i: nat, order: seq<string>): Tree {
    NestOnEmpty(Trim(ChildPath(v, parents, i, order)), child.ref.vals)
  }

  /** The document manageStruct returns under a given schedule. */
  function Struct(es: seq<Entry>, v: Entry, parents: seq<string>, s: Schedule): Tree
    decreases s, 1, 0
  {
    var temp := FilterBy(es, v.ref.name);
    if v.ref.refs == map[] || !(s.first < |temp| == |s.children|) then map[]
    else
      Merge(Nested(es, v, temp, parents, s, |temp|), Received(v, temp, parents, s))
  }

  /** The merged documents of the first n children that have references. */
  function Nested(es: seq<Entry>, v: Entry, temp: seq<Entry>, parents: seq<string>, s: Schedule, n: nat): Tree
    requires n <= |temp| && n <= |s.children|
    decreases s, 0, n
  {
    if n == 0 then map[]
    else
      var before := Nested(es, v, temp, parents, s, n - 1);
      var child := temp[n - 1];
      if child.ref.refs == map[] then before
      else Merge(before, Struct(es, child, parents + Repeat(v.key, n), s.children[n - 1].call))
  }

  /** What the nested call for the i-th child returns, if it is made. */
  function ChildCall(es: seq<Entry>, v: Entry, temp: seq<Entry>, parents: seq<string>, s: Schedule, i: nat): Tree
    requires i < |temp| && i < |s.children|
  {
    if temp[i].ref.refs == map[] then map[]
    else Struct(es, temp[i], parents + Repeat(v.key, i + 1), s.children[i].call)
  }

  /** What parse sends for a base object. */
  function Delivered(es: seq<Entry>, root: Entry, s: Schedule): Tree {
    Merge(root.ref.vals, Struct(es, root, [], s))
  }

  lemma {:induction false} LeavesNestNothing(es: seq<Entry>, v: Entry, temp: seq<Entry>, parents: seq<string>, s: Schedule, n: nat)
    requires n <= |temp| && n <= |s.children| && forall e :: e in temp ==> e.ref.refs == map[]
    ensures Nested(es, v, temp, parents, s, n) == map[]
    decreases n
  {
    if n > 0 {
      assert temp[n - 1] in temp;
      LeavesNestNothing(es, v, temp, parents, s, n - 1);
    }
  }

  /** manageStruct returns after the first message: of several children without
      references, only what that message holds is in the document. */
  lemma OnlyFirstArrives(es: seq<Entry>, v: Entry, parents: seq<string>, s: Schedule)
    requires Fits(es, v, s) && v.ref.refs != map[]
    requires var temp := FilterBy(es, v.ref.name); temp != [] && forall e :: e in temp ==> e.ref.refs == map[]
    ensures
      var temp := FilterBy(es, v.ref.name);
      s.first < |temp| == |s.children| && Struct(es, v, parents, s) == Received(v, temp, parents, s)
  {
    var temp := FilterBy(es, v.ref.name);
    FitsChild(es, v, s, 0);
    LeavesNestNothing(es, v, temp, parents, s, |temp|);
    MergeEmpty(Received(v, temp, parents, s));
  }
}
