/**
 The plan: matching the resources of two manifests by key, what is added, changed
 and destroyed, in sorted order and counted.
 */
module PlanDiff {
  import opened Wrappers
  import opened Names
  import opened FieldTree
  import opened Normalize

  datatype ResourceKey = ResourceKey(apiVersion: string, kind: string, namespace: string, name: string)

  /** A parsed resource as a value. */
  datatype Resource = Resource(key: ResourceKey, doc: Doc)

  datatype Action = Add | Change | Destroy

  datatype PlannedChange = PlannedChange(action: Action, key: ResourceKey, fields: seq<FieldDiff>)

  datatype Summary = Summary(add: nat, change: nat, destroy: nat)

  datatype Plan = Plan(changes: seq<PlannedChange>, summary: Summary)

  /** What comparing two renders of one resource gives. */
  datatype Comparison = Fields(fields: seq<FieldDiff>) | DiffError

  /** `diffResource`, which runs a comparison library. */
  type Differ = (Doc, Doc) -> Comparison

  // ----- what is planned, document by document -----

  /** The document the index holds for a key: the last one. */
  function Indexed(docs: seq<Resource>, key: ResourceKey): Option<Doc> {
    if docs == [] then None
    else
      var last := docs[|docs| - 1];
      if last.key == key then Some(last.doc) else Indexed(docs[..|docs| - 1], key)
  }

  predicate HasKey(docs: seq<Resource>, key: ResourceKey) {
    exists r :: r in docs && r.key == key
  }

  /** What one current resource contributes. */
  function Planned(prev: seq<Resource>, r: Resource, diff: Differ): seq<PlannedChange> {
    match Indexed(prev, r.key)
    case None => [PlannedChange(Add, r.key, [])]
    case Some(old') =>
      match diff(old', r.doc)
      case DiffError => []
      case Fields(fields) => if fields == [] then [] else [PlannedChange(Change, r.key, fields)]
  }

  predicate Comparable(prev: seq<Resource>, r: Resource, diff: Differ) {
    var before := Indexed(prev, r.key);
    before.None? || diff(before.value, r.doc).Fields?
  }

  function Current(prev: seq<Resource>, curr: seq<Resource>, diff: Differ): seq<PlannedChange> {
    if curr == [] then [] else Current(prev, curr[..|curr| - 1], diff) + Planned(prev, curr[|curr| - 1], diff)
  }

  function Gone(prev: seq<Resource>, curr: seq<Resource>): seq<PlannedChange> {
    if prev == [] then []
    else
      var last := prev[|prev| - 1];
      Gone(prev[..|prev| - 1], curr) + if HasKey(curr, last.key) then [] else [PlannedChange(Destroy, last.key, [])]
  }

  function Count(changes: seq<PlannedChange>, action: Action): nat {
    if changes == [] then 0
    else Count(changes[..|changes| - 1], action) + if changes[|changes| - 1].action == action then 1 else 0
  }

  function SummaryOf(changes: seq<PlannedChange>): Summary {
    Summary(Count(changes, Add), Count(changes, Change), Count(changes, Destroy))
  }

  // ----- the order -----

  /** By kind, then namespace, then name; the API version does not count. */
  predicate ChangeLeq(a: PlannedChange, b: PlannedChange) {
    if a.key.kind != b.key.kind then Leq(a.key.kind, b.key.kind)
    else if a.key.namespace != b.key.namespace then Leq(a.key.namespace, b.key.namespace)
    else Leq(a.key.name, b.key.name)
  }

  ghost predicate InOrder(changes: seq<PlannedChange>) {
    forall i, j :: 0 <= i < j < |changes| ==> ChangeLeq(changes[i], changes[j])
  }

  /** Changes in order are sorted by kind, within a kind by namespace, and within that by name. */
  lemma OrderMeaning(changes: seq<PlannedChange>, i: nat, j: nat)
    requires InOrder(changes) && i < j < |changes|
    ensures var a, b := changes[i].key, changes[j].key;
      && Leq(a.kind, b.kind)
      && (a.kind == b.kind ==> Leq(a.namespace, b.namespace))
      && (a.kind == b.kind && a.namespace == b.namespace ==> Leq(a.name, b.name))
  {
    var a, b := changes[i].key, changes[j].key;
    assert ChangeLeq(changes[i], changes[j]);
    LeqTotal(a.kind, a.kind);
    LeqTotal(a.namespace, a.namespace);
  }

  lemma ChangeLeqTotal(a: PlannedChange, b: PlannedChange)
    ensures ChangeLeq(a, b) || ChangeLeq(b, a)
  {
    LeqTotal(a.key.kind, b.key.kind);
    LeqTotal(a.key.namespace, b.key.namespace);
    LeqTotal(a.key.name, b.key.name);
  }

  lemma ChangeLeqTransitive(a: PlannedChange, b: PlannedChange, c: PlannedChange)
    requires ChangeLeq(a, b) && ChangeLeq(b, c)
    ensures ChangeLeq(a, c)
  {
    if a.key.kind != b.key.kind && b.key.kind != c.key.kind {
      LeqTransitive(a.key.kind, b.key.kind, c.key.kind);
      if a.key.kind == c.key.kind {
        LeqAntisymmetric(a.key.kind, b.key.kind);
      }
    } else if a.key.kind == b.key.kind == c.key.kind {
      if a.key.namespace != b.key.namespace && b.key.namespace != c.key.namespace {
        LeqTransitive(a.key.namespace, b.key.namespace, c.key.namespace);
        if a.key.namespace == c.key.namespace {
          LeqAntisymmetric(a.key.namespace, b.key.namespace);
        }
      } else if a.key.namespace == b.key.namespace == c.key.namespace {
        LeqTransitive(a.key.name, b.key.name, c.key.name);
      }
    }
  }

  lemma InsertedInOrder(s: seq<PlannedChange>, c: PlannedChange, i: nat)
    requires InOrder(s) && i <= |s|
    requires forall k :: 0 <= k < i ==> ChangeLeq(s[k], c)
    requires i < |s| ==> !ChangeLeq(s[i], c)
    ensures InOrder(s[..i] + [c] + s[i..])
  {
    forall j | i <= j < |s| ensures ChangeLeq(c, s[j]) {
      ChangeLeqTotal(s[i], c);
      if i < j {
        ChangeLeqTransitive(c, s[i], s[j]);
      }
    }
  }

  lemma InsertedElements<T>(s: seq<T>, c: T, i: nat)
    requires i <= |s|
    ensures multiset(s[..i] + [c] + s[i..]) == multiset(s) + multiset{c}
  {
    assert s == s[..i] + s[i..];
  }

  /** `slices.SortFunc` on the changes. */
  method SortChanges(s: seq<PlannedChange>) returns (r: seq<PlannedChange>)
    ensures InOrder(r)
    ensures multiset(r) == multiset(s)
  {
    r := [];
    for n := 0 to |s|
      invariant InOrder(r)
      invariant multiset(r) == multiset(s[..n])
    {
      r := InsertChange(r, s[n]);
      assert s[..n + 1] == s[..n] + [s[n]];
    }
    assert s[..|s|] == s;
  }

  method InsertChange(s: seq<PlannedChange>, c: PlannedChange) returns (r: seq<PlannedChange>)
    requires InOrder(s)
    ensures InOrder(r)
    ensures multiset(r) == multiset(s) + multiset{c}
  {
    var i := 0;
    while i < |s| && ChangeLeq(s[i], c)
      invariant 0 <= i <= |s|
      invariant forall k :: 0 <= k < i ==> ChangeLeq(s[k], c)
    {
      i := i + 1;
    }
    r := s[..i] + [c] + s[i..];
    InsertedElements(s, c, i);
    InsertedInOrder(s, c, i);
  }

  // ----- the diff as it runs -----

  /** `indexResources`. */
  method IndexResources(docs: seq<Resource>) returns (index: map<ResourceKey, Doc>)
    ensures forall k :: k in index <==> Indexed(docs, k).Some?
    ensures forall k {:trigger index[k]} :: k in index ==> Indexed(docs, k) == Some(index[k])
  {
    index := map[];
    for i := 0 to |docs|
      invariant forall k :: k in index <==> Indexed(docs[..i], k).Some?
      invariant forall k {:trigger index[k]} :: k in index ==> Indexed(docs[..i], k) == Some(index[k])
    {
      assert docs[..i + 1][..i] == docs[..i];
      index := index[docs[i].key := docs[i].doc];
    }
    assert docs[..|docs|] == docs;
  }

  datatype PlanResult = Planning(plan: Plan) | Failed(key: ResourceKey)

  /** The result is a plan unless some matched pair could not be compared. */
  ghost predicate IsPlan(prev: seq<Resource>, curr: seq<Resource>, diff: Differ, plan: Plan) {
    var all := Current(prev, curr, diff) + Gone(prev, curr);
    && AllComparable(prev, curr, diff)
    && InOrder(plan.changes)
    && multiset(plan.changes) == multiset(all)
    && plan.summary == SummaryOf(all)
  }

  /** One round of the first loop; `None` when the pair cannot be compared. */
  method PlanOne(
      prev: seq<Resource>, index: map<ResourceKey, Doc>, r: Resource, diff: Differ)
      returns (planned: Option<seq<PlannedChange>>, add: nat, change: nat)
    requires forall k :: k in index <==> Indexed(prev, k).Some?
    requires forall k {:trigger index[k]} :: k in index ==> Indexed(prev, k) == Some(index[k])
    ensures planned.Some? <==> Comparable(prev, r, diff)
    ensures planned.Some? ==>
      planned.value == Planned(prev, r, diff) && SummaryOf(planned.value) == Summary(add, change, 0)
  {
    add, change := 0, 0;
    if r.key !in index {
      add := 1;
      planned := Some([PlannedChange(Add, r.key, [])]);
      SummaryOne(planned.value[0]);
      return;
    }
    match diff(index[r.key], r.doc) {
      case DiffError => planned := None;
      case Fields(fields) =>
        if |fields| == 0 {
          planned := Some([]);
        } else {
          change := 1;
          planned := Some([PlannedChange(Change, r.key, fields)]);
          SummaryOne(planned.value[0]);
        }
    }
  }

  lemma RoundDone(prev: seq<Resource>, curr: seq<Resource>, i: nat, diff: Differ)
    requires i < |curr|
    ensures Current(prev, curr[..i + 1], diff) == Current(prev, curr[..i], diff) + Planned(prev, curr[i], diff)
    ensures forall k :: HasKey(curr[..i + 1], k) <==> HasKey(curr[..i], k) || k == curr[i].key
    ensures AllComparable(prev, curr[..i + 1], diff)
      <==> AllComparable(prev, curr[..i], diff) && Comparable(prev, curr[i], diff)
  {
    assert curr[..i + 1][..i] == curr[..i] && curr[..i + 1] == curr[..i] + [curr[i]];
    forall k | HasKey(curr[..i], k) || k == curr[i].key ensures HasKey(curr[..i + 1], k) {
      if k == curr[i].key {
        assert curr[i] in curr[..i + 1];
      }
    }
  }

  ghost predicate AllComparable(prev: seq<Resource>, curr: seq<Resource>, diff: Differ) {
    forall r :: r in curr ==> Comparable(prev, r, diff)
  }

  /** The first loop: additions and changes. */
  method PlanCurrent(prev: seq<Resource>, curr: seq<Resource>, diff: Differ)
    returns (failed: Option<ResourceKey>, changes: seq<PlannedChange>, seen: set<ResourceKey>, add: nat, change: nat)
    ensures failed.None? ==> AllComparable(prev, curr, diff)
    ensures failed.Some? ==> exists r :: r in curr && r.key == failed.value && !Comparable(prev, r, diff)
    ensures failed.None? ==> changes == Current(prev, curr, diff) && SummaryOf(changes) == Summary(add, change, 0)
    ensures failed.None? ==> forall k :: k in seen <==> HasKey(curr, k)
  {
    var index := IndexResources(prev);
    changes, seen, failed, add, change := [], {}, None, 0, 0;
    for i := 0 to |curr|
      invariant AllComparable(prev, curr[..i], diff)
      invariant changes == Current(prev, curr[..i], diff)
      invariant SummaryOf(changes) == Summary(add, change, 0)
      invariant forall k :: k in seen <==> HasKey(curr[..i], k)
    {
      var planned, added, changed := PlanOne(prev, index, curr[i], diff);
      RoundDone(prev, curr, i, diff);
      if planned.None? {
        failed := Some(curr[i].key);
        return;
      }
      SummaryAppend(changes, planned.value);
      seen, changes := seen + {curr[i].key}, changes + planned.value;
      add, change := add + added, change + changed;
    }
    assert curr[..|curr|] == curr;
  }

  /** The second loop: what is no longer there. */
  method PlanGone(
      prev: seq<Resource>, curr: seq<Resource>, seen: set<ResourceKey>) returns (changes: seq<PlannedChange>)
    requires forall k :: k in seen <==> HasKey(curr, k)
    ensures changes == Gone(prev, curr)
  {
    changes := [];
    for i := 0 to |prev|
      invariant changes == Gone(prev[..i], curr)
    {
      assert prev[..i + 1][..i] == prev[..i];
      if prev[i].key !in seen {
        changes := changes + [PlannedChange(Destroy, prev[i].key, [])];
      }
    }
    assert prev[..|prev|] == prev;
  }

  lemma {:induction false} CountAppend(a: seq<PlannedChange>, b: seq<PlannedChange>, action: Action)
    ensures Count(a + b, action) == Count(a, action) + Count(b, action)
    decreases |b|
  {
    if b == [] {
      assert a + b == a;
    } else {
      assert (a + b)[..|a + b| - 1] == a + b[..|b| - 1];
      CountAppend(a, b[..|b| - 1], action);
    }
  }

  lemma SummaryAppend(a: seq<PlannedChange>, b: seq<PlannedChange>)
    ensures var s, t := SummaryOf(a), SummaryOf(b);
      SummaryOf(a + b) == Summary(s.add + t.add, s.change + t.change, s.destroy + t.destroy)
  {
    CountAppend(a, b, Add);
    CountAppend(a, b, Change);
    CountAppend(a, b, Destroy);
  }

  lemma SummaryOne(c: PlannedChange)
    ensures SummaryOf([c]) == Summary(
      if c.action.Add? then 1 else 0, if c.action.Change? then 1 else 0, if c.action.Destroy? then 1 else 0)
  {
    CountOne(c, Add);
    CountOne(c, Change);
    CountOne(c, Destroy);
  }

  lemma CountOne(c: PlannedChange, action: Action)
    ensures Count([c], action) == if c.action == action then 1 else 0
  {
    assert [c][..0] == [];
    assert Count([], action) == 0;
  }

  lemma DestroyCounts(changes: seq<PlannedChange>, key: ResourceKey)
    ensures var s := SummaryOf(changes);
      SummaryOf(changes + [PlannedChange(Destroy, key, [])]) == s.(destroy := s.destroy + 1)
  {
    SummaryOne(PlannedChange(Destroy, key, []));
    SummaryAppend(changes, [PlannedChange(Destroy, key, [])]);
  }

  lemma {:induction false} GoneCounts(prev: seq<Resource>, curr: seq<Resource>)
    ensures var gone := Gone(prev, curr); SummaryOf(gone) == Summary(0, 0, |gone|)
  {
    if prev != [] {
      var before, last := prev[..|prev| - 1], prev[|prev| - 1];
      GoneCounts(before, curr);
      if HasKey(curr, last.key) {
        assert Gone(before, curr) + [] == Gone(before, curr);
      } else {
        DestroyCounts(Gone(before, curr), last.key);
      }
    }
  }

  lemma CountsTogether(prev: seq<Resource>, curr: seq<Resource>, changes: seq<PlannedChange>, add: nat, change: nat)
    requires SummaryOf(changes) == Summary(add, change, 0)
    ensures SummaryOf(changes + Gone(prev, curr)) == Summary(add, change, |Gone(prev, curr)|)
  {
    GoneCounts(prev, curr);
    SummaryAppend(changes, Gone(prev, curr));
  }

  /** The part of `ComputeDiff` that follows parsing and normalizing. */
  method DiffResources(prev: seq<Resource>, curr: seq<Resource>, diff: Differ) returns (r: PlanResult)
    ensures r.Planning? ==> IsPlan(prev, curr, diff, r.plan)
    ensures r.Failed? ==> exists d :: d in curr && d.key == r.key && !Comparable(prev, d, diff)
  {
    var failed, changes, seen, add, change := PlanCurrent(prev, curr, diff);
    if failed.Some? {
      return Failed(failed.value);
    }
    var gone := PlanGone(prev, curr, seen);
    CountsTogether(prev, curr, changes, add, change);
    var sorted := SortChanges(changes + gone);
    r := Planning(Plan(sorted, Summary(add, change, |gone|)));
  }

  // ----- in place, on the parsed documents -----

  datatype ResourceDoc = ResourceDoc(key: ResourceKey, node: YamlNode)

  /** The nodes of each document's tree. */
  type Trees = seq<set<YamlNode>>

  ghost predicate Apart(trees: Trees) {
    forall i, j :: 0 <= i < j < |trees| ==> trees[i] !! trees[j]
  }

  ghost function All(trees: Trees): set<YamlNode> {
    set i, o | 0 <= i < |trees| && o in trees[i] :: o
  }

  /** A parsed document: a valid tree of these nodes, with this value. */
  ghost predicate ParsedAs(d: ResourceDoc, tree: set<YamlNode>, r: Resource)
    reads d.node, tree
  {
    d.node in tree && d.node.repr == tree && d.node.Valid() && r == Resource(d.key, d.node.Model())
  }

  /** Parsed documents from `n` on. */
  ghost predicate Parsed(docs: seq<ResourceDoc>, trees: Trees, values: seq<Resource>, n: nat)
    reads All(trees), set d | d in docs :: d.node
  {
    && |values| == |docs| == |trees| && n <= |docs|
    && forall i :: n <= i < |docs| ==> trees[i] <= All(trees) && ParsedAs(docs[i], trees[i], values[i])
  }

  function Stripped(rs: seq<Resource>): (vs: seq<Resource>)
    ensures |vs| == |rs| && forall i :: 0 <= i < |vs| ==> vs[i] == Resource(rs[i].key, Strip(rs[i].doc))
  {
    seq(|rs|, i requires 0 <= i < |rs| => Resource(rs[i].key, Strip(rs[i].doc)))
  }

  lemma StrippedNext(rs: seq<Resource>, i: nat)
    requires i < |rs|
    ensures Stripped(rs[..i + 1]) == Stripped(rs[..i]) + [Resource(rs[i].key, Strip(rs[i].doc))]
  {
  }

  /** Normalizes the next document; the ones after it stay as they are. */
  method NormalizeNext(
      docs: seq<ResourceDoc>, ghost trees: Trees, ghost was: seq<Resource>, i: nat) returns (value: Resource)
    requires Apart(trees) && Parsed(docs, trees, was, i) && i < |docs|
    modifies trees[i]
    ensures value == Resource(was[i].key, Strip(was[i].doc))
    ensures Parsed(docs, trees, was, i + 1)
  {
    assert ParsedAs(docs[i], trees[i], was[i]);
    docs[i].node.NormalizeResource();
    value := Resource(docs[i].key, docs[i].node.Model());
    forall j | i < j < |docs| ensures trees[j] <= All(trees) && ParsedAs(docs[j], trees[j], was[j]) {
      assert trees[i] !! trees[j];
      assert old(ParsedAs(docs[j], trees[j], was[j]));
    }
  }

  /** Normalizes every document in place; the result is what they then hold. */
  method NormalizeAll(
      docs: seq<ResourceDoc>, ghost trees: Trees, ghost was: seq<Resource>) returns (values: seq<Resource>)
    requires Apart(trees) && Parsed(docs, trees, was, 0)
    modifies All(trees)
    ensures values == Stripped(was)
  {
    values := [];
    for i := 0 to |docs|
      invariant values == Stripped(was[..i])
      invariant Parsed(docs, trees, was, i)
    {
      var value := NormalizeNext(docs, trees, was, i);
      StrippedNext(was, i);
      values := values + [value];
    }
    assert was[..|docs|] == was;
  }

  /**
   `ComputeDiff`, from the parsed documents on: they are normalized in place, and
   the plan is the one for what is left of them.
   */
  method ComputeDiff(
    prevDocs: seq<ResourceDoc>, currDocs: seq<ResourceDoc>,
    ghost prevTrees: Trees, ghost currTrees: Trees, ghost prev: seq<Resource>, ghost curr: seq<Resource>, diff: Differ)
    returns (r: PlanResult)
    requires Apart(prevTrees) && Parsed(prevDocs, prevTrees, prev, 0)
    requires Apart(currTrees) && Parsed(currDocs, currTrees, curr, 0) && All(prevTrees) !! All(currTrees)
    modifies All(prevTrees), All(currTrees)
    ensures r.Planning? ==> IsPlan(Stripped(prev), Stripped(curr), diff, r.plan)
    ensures r.Failed? ==> !AllComparable(Stripped(prev), Stripped(curr), diff)
  {
    var before := NormalizeAll(prevDocs, prevTrees, prev);
    forall i | 0 <= i < |currDocs| ensures ParsedAs(currDocs[i], currTrees[i], curr[i]) {
      assert old(ParsedAs(currDocs[i], currTrees[i], curr[i]));
      assert currTrees[i] !! All(prevTrees);
    }
    var after := NormalizeAll(currDocs, currTrees, curr);
    r := DiffResources(before, after, diff);
  }
}
