/**
 Drift: what differs between a predicted apply and the live cluster, without what
 the plan for the spec edit already says.
 */
module Drift {
  import opened Wrappers
  import opened FieldTree
  import opened Normalize
  import opened PlanDiff
  import opened PlanMeaning

  /** The compact name of a resource; the API version is not part of it. */
  function Label(kind: string, namespace: string, name: string): string {
    if namespace == "" then kind + "/" + name else kind + "/" + namespace + "/" + name
  }

  function LabelOfKey(key: ResourceKey): string {
    Label(key.kind, key.namespace, key.name)
  }

  function LabelOf(c: PlannedChange): string {
    LabelOfKey(c.key)
  }

  lemma {:induction false} SlashSplit(a: string, b: string, x: string, y: string)
    requires '/' !in a && '/' !in x && a + "/" + b == x + "/" + y
    ensures a == x && b == y
  {
    var l, r := a + "/" + b, x + "/" + y;
    assert l[|a|] == '/' && r[|x|] == '/';
    assert l[..|a|] == a && r[..|x|] == x;
    assert l[|a| + 1..] == b && r[|x| + 1..] == y;
  }

  /** Names without slashes are told apart by their labels. */
  lemma LabelInjective(k: string, s: string, n: string, k': string, s': string, n': string)
    requires '/' !in k && '/' !in s && '/' !in n && '/' !in k' && '/' !in s' && '/' !in n'
    requires Label(k, s, n) == Label(k', s', n')
    ensures k == k' && s == s' && n == n'
  {
    var rest := if s == "" then n else s + "/" + n;
    var rest' := if s' == "" then n' else s' + "/" + n';
    assert Label(k, s, n) == k + "/" + rest && Label(k', s', n') == k' + "/" + rest';
    SlashSplit(k, rest, k', rest');
    if s != "" && s' != "" {
      SlashSplit(s, n, s', n');
    }
  }

  // ----- what the spec plan already says -----

  function PathsOf(fields: seq<FieldDiff>): set<string> {
    set f | f in fields :: f.path
  }

  /** The paths the index holds for a label: those of the last change with it. */
  function Explained(changes: seq<PlannedChange>, label': string): set<string> {
    if changes == [] then {}
    else
      var last := changes[|changes| - 1];
      if LabelOf(last) == label' then PathsOf(last.fields) else Explained(changes[..|changes| - 1], label')
  }

  predicate Adding(changes: seq<PlannedChange>, label': string) {
    exists c :: c in changes && c.action.Add? && LabelOf(c) == label'
  }

  /** `addedLabels`. */
  method AddedLabels(plan: Plan) returns (labels: set<string>)
    ensures forall l :: l in labels <==> Adding(plan.changes, l)
  {
    labels := {};
    for i := 0 to |plan.changes|
      invariant forall l :: l in labels <==> Adding(plan.changes[..i], l)
    {
      var c := plan.changes[i];
      assert plan.changes[..i + 1] == plan.changes[..i] + [c];
      if c.action.Add? {
        labels := labels + {LabelOf(c)};
      }
    }
    assert plan.changes[..|plan.changes|] == plan.changes;
  }

  /** `explainedPaths`; a label that is not in the map reads as no paths. */
  method ExplainedPaths(plan: Plan) returns (paths: map<string, set<string>>)
    ensures forall l :: (if l in paths then paths[l] else {}) == Explained(plan.changes, l)
  {
    paths := map[];
    for i := 0 to |plan.changes|
      invariant forall l :: (if l in paths then paths[l] else {}) == Explained(plan.changes[..i], l)
    {
      assert plan.changes[..i + 1][..i] == plan.changes[..i];
      paths := paths[LabelOf(plan.changes[i]) := PathsOf(plan.changes[i].fields)];
    }
    assert plan.changes[..|plan.changes|] == plan.changes;
  }

  // ----- one resource -----

  /** What the predictor finds out about one rendered resource; the two objects carry their own keys. */
  datatype Prediction = Unpredictable | NoLive | Predicted(predicted: Resource, live: Resource)

  datatype Bucket = PlannedAddition | Incomplete | NoBaseline | Clean
      | Drifted(key: ResourceKey, fields: seq<FieldDiff>)

  function Unexplained(fields: seq<FieldDiff>, paths: set<string>): seq<FieldDiff> {
    if fields == [] then []
    else
      var last := fields[|fields| - 1];
      Unexplained(fields[..|fields| - 1], paths) + if last.path in paths then [] else [last]
  }

  /** What is left of the differences between the two objects; nothing when they are not one resource. */
  function Left(found: Prediction, explained: set<string>, diff: Differ): Bucket
    requires found.Predicted?
  {
    if found.predicted.key != found.live.key then Clean
    else match diff(Strip(found.predicted.doc), Strip(found.live.doc))
      case DiffError => Incomplete
      case Fields(fields) =>
        var rest := Unexplained(fields, explained);
        if rest == [] then Clean else Drifted(found.predicted.key, rest)
  }

  /** Where a rendered resource ends up. The plan is looked up under the rendered label. */
  function BucketOf(changes: seq<PlannedChange>, key: ResourceKey, found: Prediction, diff: Differ): Bucket {
    if Adding(changes, LabelOfKey(key)) then PlannedAddition
    else match found
      case Unpredictable => Incomplete
      case NoLive => NoBaseline
      case Predicted(_, _) => Left(found, Explained(changes, LabelOfKey(key)), diff)
  }

  /** `driftOnlyChange`, on the first change: `None` when nothing remains. */
  method DriftOnlyChange(total: Plan, explained: set<string>) returns (r: Option<PlannedChange>)
    ensures total.changes == [] ==> r.None?
    ensures total.changes != [] ==>
      var rest := Unexplained(total.changes[0].fields, explained);
      r == if rest == [] then None else Some(total.changes[0].(fields := rest))
  {
    if |total.changes| == 0 {
      return None;
    }
    var c := total.changes[0];
    var remaining: seq<FieldDiff> := [];
    for i := 0 to |c.fields|
      invariant remaining == Unexplained(c.fields[..i], explained)
    {
      assert c.fields[..i + 1][..i] == c.fields[..i];
      if c.fields[i].path !in explained {
        remaining := remaining + [c.fields[i]];
      }
    }
    assert c.fields[..|c.fields|] == c.fields;
    r := if |remaining| == 0 then None else Some(c.(fields := remaining));
  }

  lemma Permuted<T>(a: seq<T>, b: seq<T>)
    requires multiset(a) == multiset(b)
    ensures |a| == |b| && (forall x :: x in a ==> x in b) && (|b| <= 1 ==> a == b)
  {
    assert |a| == |multiset(a)| == |multiset(b)| == |b|;
    forall x | x in a ensures x in b {
      assert x in multiset(a);
    }
    if |b| == 1 {
      assert a[0] in a;
    }
  }

  /** The plan for two single objects: one change or none for one resource, and changes without fields for two. */
  lemma PlanOfTwo(p: Resource, l: Resource, diff: Differ, changes: seq<PlannedChange>)
    requires Comparable([p], l, diff) && multiset(changes) == multiset(Current([p], [l], diff) + Gone([p], [l]))
    ensures p.key == l.key ==> diff(p.doc, l.doc).Fields? && changes == ChangeFor(l.key, diff(p.doc, l.doc).fields)
    ensures p.key != l.key && changes != [] ==> changes[0].fields == []
  {
    var all := Current([p], [l], diff) + Gone([p], [l]);
    SinglePlan(p, l, diff);
    Permuted(changes, all);
    if p.key == l.key {
      assert all == ChangeFor(l.key, diff(p.doc, l.doc).fields);
    } else if changes != [] {
      assert changes[0] in all;
    }
  }

  function ChangeFor(key: ResourceKey, fields: seq<FieldDiff>): seq<PlannedChange> {
    if fields == [] then [] else [PlannedChange(Change, key, fields)]
  }

  lemma SinglePlan(p: Resource, l: Resource, diff: Differ)
    ensures Indexed([p], l.key) == if p.key == l.key then Some(p.doc) else None
    ensures Current([p], [l], diff) + Gone([p], [l]) ==
      if p.key == l.key then Planned([p], l, diff)
      else [PlannedChange(Add, l.key, []), PlannedChange(Destroy, p.key, [])]
  {
    var none: seq<Resource> := [];
    assert [p][..0] == none && [l][..0] == none;
    assert Indexed(none, l.key) == None;
    assert Current([p], none, diff) == [] && Gone(none, [l]) == [];
    assert HasKey([l], p.key) <==> p.key == l.key by {
      assert l in [l];
    }
    assert Current([p], [l], diff) == [] + Planned([p], l, diff);
  }

  /** One round of the loop in `ComputeDrift`. */
  method CheckResource(
    key: ResourceKey, found: Prediction, adding: set<string>, explained: map<string, set<string>>,
    ghost changes: seq<PlannedChange>, diff: Differ)
    returns (bucket: Bucket)
    requires forall l :: l in adding <==> Adding(changes, l)
    requires forall l :: (if l in explained then explained[l] else {}) == Explained(changes, l)
    ensures bucket == BucketOf(changes, key, found, diff)
  {
    var label' := LabelOfKey(key);
    if label' in adding {
      return PlannedAddition;
    }
    match found {
      case Unpredictable => bucket := Incomplete;
      case NoLive => bucket := NoBaseline;
      case Predicted(predicted, live) =>
        bucket := CheckPredicted(predicted, live, if label' in explained then explained[label'] else {}, diff);
    }
  }

  /** The two objects compared, and the plan's paths taken away. */
  method CheckPredicted(
      predicted: Resource, live: Resource, explained: set<string>, diff: Differ) returns (bucket: Bucket)
    ensures bucket == Left(Predicted(predicted, live), explained, diff)
  {
    var p, l := Resource(predicted.key, Strip(predicted.doc)), Resource(live.key, Strip(live.doc));
    var total := DiffResources([p], [l], diff);
    if total.Failed? {
      SingleFailure(p, l, diff);
      return Incomplete;
    }
    assert l in [l];
    PlanOfTwo(p, l, diff, total.plan.changes);
    var change := DriftOnlyChange(total.plan, explained);
    bucket := if change.None? then Clean else Drifted(change.value.key, change.value.fields);
  }

  lemma SingleFailure(p: Resource, l: Resource, diff: Differ)
    requires exists d :: d in [l] && !Comparable([p], d, diff)
    ensures p.key == l.key && diff(p.doc, l.doc).DiffError?
  {
    SinglePlan(p, l, diff);
  }

  // ----- all resources -----

  datatype Rendered = Rendered(key: ResourceKey, found: Prediction)

  datatype DriftResult = DriftResult(changes: seq<PlannedChange>, incomplete: seq<string>)

  function DriftOf(bucket: Bucket): seq<PlannedChange> {
    if bucket.Drifted? then [PlannedChange(Change, bucket.key, bucket.fields)] else []
  }

  function DriftChanges(changes: seq<PlannedChange>, resources: seq<Rendered>, diff: Differ): seq<PlannedChange> {
    if resources == [] then []
    else
      var last := resources[|resources| - 1];
      DriftChanges(changes, resources[..|resources| - 1], diff) + DriftOf(BucketOf(changes, last.key, last.found, diff))
  }

  function IncompleteLabels(changes: seq<PlannedChange>, resources: seq<Rendered>, diff: Differ): seq<string> {
    if resources == [] then []
    else
      var last := resources[|resources| - 1];
      IncompleteLabels(changes, resources[..|resources| - 1], diff)
        + if BucketOf(changes, last.key, last.found, diff).Incomplete? then [LabelOfKey(last.key)] else []
  }

  lemma DriftNext(changes: seq<PlannedChange>, resources: seq<Rendered>, i: nat, diff: Differ)
    requires i < |resources|
    ensures var r := resources[i]; var bucket := BucketOf(changes, r.key, r.found, diff);
      && DriftChanges(changes, resources[..i + 1], diff)
        == DriftChanges(changes, resources[..i], diff) + DriftOf(bucket)
      && IncompleteLabels(changes, resources[..i + 1], diff)
        == IncompleteLabels(changes, resources[..i], diff) + (if bucket.Incomplete? then [LabelOfKey(r.key)] else [])
  {
    assert resources[..i + 1][..i] == resources[..i];
  }

  /** `ComputeDrift`, with what the predictor found for each rendered resource. */
  method ComputeDrift(plan: Plan, freshInstall: bool, resources: seq<Rendered>, diff: Differ) returns (r: DriftResult)
    ensures freshInstall ==> r == DriftResult([], [])
    ensures !freshInstall ==>
      r == DriftResult(DriftChanges(plan.changes, resources, diff), IncompleteLabels(plan.changes, resources, diff))
    ensures !freshInstall ==> exists at ::
      ArePositions(Drifting(plan.changes, resources, diff), at)
      && ReportsAt(plan.changes, resources, diff, at, r.changes)
    ensures !freshInstall ==> exists at ::
      ArePositions(Uncheckable(plan.changes, resources, diff), at) && LabelsAt(resources, at, r.incomplete)
  {
    if freshInstall {
      return DriftResult([], []);
    }
    var explained := ExplainedPaths(plan);
    var adding := AddedLabels(plan);
    r := DriftResult([], []);
    for i := 0 to |resources|
      invariant r
        == DriftResult(DriftChanges(plan.changes, resources[..i], diff),
          IncompleteLabels(plan.changes, resources[..i], diff))
    {
      var res := resources[i];
      DriftNext(plan.changes, resources, i, diff);
      var bucket := CheckResource(res.key, res.found, adding, explained, plan.changes, diff);
      if bucket.Incomplete? {
        r := r.(incomplete := r.incomplete + [LabelOfKey(res.key)]);
      } else if bucket.Drifted? {
        r := r.(changes := r.changes + [PlannedChange(Change, bucket.key, bucket.fields)]);
      }
    }
    assert resources[..|resources|] == resources;
    DriftInOrder(plan.changes, resources, diff);
    IncompleteInOrder(plan.changes, resources, diff);
    PositionsMeaning(Drifting(plan.changes, resources, diff));
    PositionsMeaning(Uncheckable(plan.changes, resources, diff));
  }

  // ----- what drift means -----

  ghost predicate DistinctLabels(changes: seq<PlannedChange>) {
    forall i, j :: 0 <= i < j < |changes| ==> LabelOf(changes[i]) != LabelOf(changes[j])
  }

  /** The plan has this path among its changes to resources with this label. */
  ghost predicate PlanTouches(changes: seq<PlannedChange>, label': string, path: string) {
    exists x :: x in changes && LabelOf(x) == label' && path in PathsOf(x.fields)
  }

  /** The last change with this label. */
  ghost predicate IsLastWith(changes: seq<PlannedChange>, label': string, i: nat) {
    && i < |changes| && LabelOf(changes[i]) == label'
    && forall j :: i < j < |changes| ==> LabelOf(changes[j]) != label'
  }

  /** The last change with this label touches this path. */
  ghost predicate LastTouches(changes: seq<PlannedChange>, label': string, path: string) {
    exists i: nat :: IsLastWith(changes, label', i) && path in PathsOf(changes[i].fields)
  }

  lemma LastBefore(changes: seq<PlannedChange>, label': string, path: string)
    requires changes != [] && LabelOf(changes[|changes| - 1]) != label'
    ensures LastTouches(changes[..|changes| - 1], label', path) <==> LastTouches(changes, label', path)
  {
    var before := changes[..|changes| - 1];
    assert forall j :: 0 <= j < |before| ==> before[j] == changes[j];
    if LastTouches(changes, label', path) {
      var i: nat :| IsLastWith(changes, label', i) && path in PathsOf(changes[i].fields);
      assert IsLastWith(before, label', i);
    }
    if LastTouches(before, label', path) {
      var i: nat :| IsLastWith(before, label', i) && path in PathsOf(before[i].fields);
      assert IsLastWith(changes, label', i);
    }
  }

  /** A path is explained exactly when the last change with the label touches it. */
  lemma {:induction false} ExplainedMeaning(changes: seq<PlannedChange>, label': string, path: string)
    ensures path in Explained(changes, label') <==> LastTouches(changes, label', path)
    decreases |changes|
  {
    if changes != [] {
      var before, last := changes[..|changes| - 1], changes[|changes| - 1];
      assert changes == before + [last];
      ExplainedMeaning(before, label', path);
      if LabelOf(last) == label' {
        assert IsLastWith(changes, label', |changes| - 1);
      } else {
        LastBefore(changes, label', path);
      }
    }
  }

  /** At most one change has this label. */
  ghost predicate OneChange(changes: seq<PlannedChange>, label': string) {
    forall i, j :: 0 <= i < j < |changes| && LabelOf(changes[i]) == label' ==> LabelOf(changes[j]) != label'
  }

  /** With one change for a label the last one is the only one. */
  lemma OneChangeTells(changes: seq<PlannedChange>, label': string, path: string)
    ensures LastTouches(changes, label', path) ==> PlanTouches(changes, label', path)
    ensures OneChange(changes, label') && PlanTouches(changes, label', path) ==> LastTouches(changes, label', path)
  {
    if LastTouches(changes, label', path) {
      var i: nat :| IsLastWith(changes, label', i) && path in PathsOf(changes[i].fields);
      assert changes[i] in changes;
    }
    if OneChange(changes, label') && PlanTouches(changes, label', path) {
      var x :| x in changes && LabelOf(x) == label' && path in PathsOf(x.fields);
      var i :| 0 <= i < |changes| && changes[i] == x;
      assert IsLastWith(changes, label', i);
    }
  }

  /** The fields in their order, without those the last change with the label touches. */
  ghost function Untouched(fields: seq<FieldDiff>, changes: seq<PlannedChange>, label': string): seq<FieldDiff> {
    if fields == [] then []
    else
      var last := fields[|fields| - 1];
      Untouched(fields[..|fields| - 1], changes, label')
        + if LastTouches(changes, label', last.path) then [] else [last]
  }

  lemma {:induction false} UnexplainedIsUntouched(fields: seq<FieldDiff>, changes: seq<PlannedChange>, label': string)
    ensures Unexplained(fields, Explained(changes, label')) == Untouched(fields, changes, label')
    decreases |fields|
  {
    if fields != [] {
      UnexplainedIsUntouched(fields[..|fields| - 1], changes, label');
      ExplainedMeaning(changes, label', fields[|fields| - 1].path);
    }
  }

  lemma {:induction false} UntouchedMembers(fields: seq<FieldDiff>, changes: seq<PlannedChange>, label': string)
    ensures forall f ::
      f in Untouched(fields, changes, label') <==> f in fields && !LastTouches(changes, label', f.path)
    decreases |fields|
  {
    if fields != [] {
      UntouchedMembers(fields[..|fields| - 1], changes, label');
      assert fields == fields[..|fields| - 1] + [fields[|fields| - 1]];
    }
  }

  lemma {:induction false} DriftChangesMembers(
      changes: seq<PlannedChange>, resources: seq<Rendered>, diff: Differ, c: PlannedChange)
    ensures c in DriftChanges(changes, resources, diff)
      <==> exists r :: r in resources && c in DriftOf(BucketOf(changes, r.key, r.found, diff))
    decreases |resources|
  {
    if resources != [] {
      var before, last := resources[..|resources| - 1], resources[|resources| - 1];
      assert resources == before + [last];
      DriftChangesMembers(changes, before, diff, c);
    }
  }

  /** Predicted and live are one resource, and could be compared. */
  ghost predicate Compared(r: Rendered, diff: Differ) {
    && r.found.Predicted? && r.found.predicted.key == r.found.live.key
    && diff(Strip(r.found.predicted.doc), Strip(r.found.live.doc)).Fields?
  }

  ghost function Differences(r: Rendered, diff: Differ): seq<FieldDiff>
    requires Compared(r, diff)
  {
    diff(Strip(r.found.predicted.doc), Strip(r.found.live.doc)).fields
  }

  /** `c` is the drift of one rendered resource. */
  ghost predicate IsDriftOf(changes: seq<PlannedChange>, r: Rendered, diff: Differ, c: PlannedChange) {
    && !Adding(changes, LabelOfKey(r.key)) && Compared(r, diff)
    && c.action.Change? && c.key == r.found.predicted.key
    && c.fields != [] && c.fields == Untouched(Differences(r, diff), changes, LabelOfKey(r.key))
  }

  /**
   Drift is reported for exactly the resources that are no planned addition, could
   be compared, and differ from the prediction in a field that the last change with
   their label does not touch; what is reported are those fields, in order.
   */
  lemma DriftMeaning(changes: seq<PlannedChange>, resources: seq<Rendered>, diff: Differ, c: PlannedChange)
    ensures c in DriftChanges(changes, resources, diff)
      <==> exists r :: r in resources && IsDriftOf(changes, r, diff, c)
  {
    DriftChangesMembers(changes, resources, diff, c);
    forall r | r in resources
      ensures c in DriftOf(BucketOf(changes, r.key, r.found, diff)) <==> IsDriftOf(changes, r, diff, c)
    {
      if Compared(r, diff) {
        UnexplainedIsUntouched(Differences(r, diff), changes, LabelOfKey(r.key));
      }
    }
  }

  /**
   No difference gets lost: one that the plan does not touch is reported, unless the
   resource is a planned addition.
   */
  lemma DriftIsComplete(changes: seq<PlannedChange>, resources: seq<Rendered>, diff: Differ, r: Rendered, f: FieldDiff)
    requires r in resources && !Adding(changes, LabelOfKey(r.key))
    requires Compared(r, diff) && f in Differences(r, diff) && !PlanTouches(changes, LabelOfKey(r.key), f.path)
    ensures exists c :: c in DriftChanges(changes, resources, diff) && c.key == r.found.predicted.key && f in c.fields
  {
    OneChangeTells(changes, LabelOfKey(r.key), f.path);
    UntouchedMembers(Differences(r, diff), changes, LabelOfKey(r.key));
    var c := PlannedChange(Change, r.found.predicted.key, Untouched(Differences(r, diff), changes, LabelOfKey(r.key)));
    assert IsDriftOf(changes, r, diff, c);
    DriftMeaning(changes, resources, diff, c);
  }

  /** The resources that could not be checked: not predicted, or not comparable, and no planned addition. */
  ghost predicate Unchecked(changes: seq<PlannedChange>, r: Rendered, diff: Differ) {
    && !Adding(changes, LabelOfKey(r.key))
    && (r.found.Unpredictable?
        || (r.found.Predicted? && r.found.predicted.key == r.found.live.key && !Compared(r, diff)))
  }

  /** The plan is reported incomplete for exactly those. */
  lemma {:induction false} IncompleteMeaning(
      changes: seq<PlannedChange>, resources: seq<Rendered>, diff: Differ, label': string)
    ensures label' in IncompleteLabels(changes, resources, diff)
      <==> exists r :: r in resources && Unchecked(changes, r, diff) && LabelOfKey(r.key) == label'
    decreases |resources|
  {
    if resources != [] {
      var before, last := resources[..|resources| - 1], resources[|resources| - 1];
      assert resources == before + [last];
      IncompleteMeaning(changes, before, diff, label');
      assert BucketOf(changes, last.key, last.found, diff).Incomplete? <==> Unchecked(changes, last, diff);
    }
  }

  lemma {:induction false} AllTouched(fields: seq<FieldDiff>, changes: seq<PlannedChange>, label': string)
    requires forall f :: f in fields ==> LastTouches(changes, label', f.path)
    ensures Untouched(fields, changes, label') == []
    decreases |fields|
  {
    if fields != [] {
      AllTouched(fields[..|fields| - 1], changes, label');
    }
  }

  /** A plan that touches every difference of a resource, in its one change with that label, leaves no drift there. */
  lemma ExplainedLeavesNoDrift(changes: seq<PlannedChange>, r: Rendered, diff: Differ)
    requires Compared(r, diff) && OneChange(changes, LabelOfKey(r.key))
    requires forall f :: f in Differences(r, diff) ==> PlanTouches(changes, LabelOfKey(r.key), f.path)
    ensures BucketOf(changes, r.key, r.found, diff).PlannedAddition? || BucketOf(changes, r.key, r.found, diff).Clean?
  {
    forall f | f in Differences(r, diff) ensures LastTouches(changes, LabelOfKey(r.key), f.path) {
      OneChangeTells(changes, LabelOfKey(r.key), f.path);
    }
    UnexplainedIsUntouched(Differences(r, diff), changes, LabelOfKey(r.key));
    AllTouched(Differences(r, diff), changes, LabelOfKey(r.key));
  }

  // ----- when labels are as good as keys -----

  predicate AddingKey(changes: seq<PlannedChange>, key: ResourceKey) {
    exists c :: c in changes && c.action.Add? && c.key == key
  }

  /** The paths the plan touches in the resource itself. */
  function OwnPaths(changes: seq<PlannedChange>, key: ResourceKey): set<string> {
    set c, path | c in changes && c.key == key && path in PathsOf(c.fields) :: path
  }

  /** Where a rendered resource would end up if the plan were looked up under its key instead of its label. */
  function BucketByKey(changes: seq<PlannedChange>, key: ResourceKey, found: Prediction, diff: Differ): Bucket {
    if AddingKey(changes, key) then PlannedAddition
    else match found
      case Unpredictable => Incomplete
      case NoLive => NoBaseline
      case Predicted(_, _) => Left(found, OwnPaths(changes, key), diff)
  }

  /**
   The plan adds the resource; or it adds nothing with its label, and the last
   change with its label touches just what the plan touches in the resource.
   */
  ghost predicate LabelSuffices(changes: seq<PlannedChange>, key: ResourceKey) {
    || AddingKey(changes, key)
    || (!Adding(changes, LabelOfKey(key))
        && forall path :: LastTouches(changes, LabelOfKey(key), path) <==> path in OwnPaths(changes, key))
  }

  lemma SamePaths(changes: seq<PlannedChange>, key: ResourceKey)
    requires forall path :: LastTouches(changes, LabelOfKey(key), path) <==> path in OwnPaths(changes, key)
    ensures Explained(changes, LabelOfKey(key)) == OwnPaths(changes, key)
  {
    forall path ensures path in Explained(changes, LabelOfKey(key)) <==> path in OwnPaths(changes, key) {
      ExplainedMeaning(changes, LabelOfKey(key), path);
    }
  }

  /** An object in which the prediction and the cluster differ in one path. */
  function OneDifference(path: string): Differ {
    (a, b) => Fields([FieldDiff(path, [], Changed, "", "")])
  }

  lemma OneDifferenceLeft(r: Resource, paths: set<string>, path: string)
    ensures Left(Predicted(r, r), paths, OneDifference(path))
      == if path in paths then Clean else Drifted(r.key, [FieldDiff(path, [], Changed, "", "")])
  {
    var none: seq<FieldDiff> := [];
    var f := FieldDiff(path, [], Changed, "", "");
    assert [f][..0] == none;
    assert Unexplained(none, paths) == none;
    assert Unexplained([f], paths) == none + if path in paths then [] else [f];
  }

  /**
   A resource's drift is what it should be, whatever the predictor finds and however
   objects compare, exactly when its label suffices to look up the plan.
   */
  lemma DriftIsRightExactly(changes: seq<PlannedChange>, key: ResourceKey)
    ensures (forall found: Prediction, diff: Differ ::
        BucketOf(changes, key, found, diff) == BucketByKey(changes, key, found, diff))
      <==> LabelSuffices(changes, key)
  {
    if LabelSuffices(changes, key) {
      if !AddingKey(changes, key) {
        SamePaths(changes, key);
      }
    } else if Adding(changes, LabelOfKey(key)) {
      var diff := OneDifference("");
      assert BucketOf(changes, key, NoLive, diff) != BucketByKey(changes, key, NoLive, diff);
    } else {
      var path :| LastTouches(changes, LabelOfKey(key), path) != (path in OwnPaths(changes, key));
      ExplainedMeaning(changes, LabelOfKey(key), path);
      var r := Resource(key, Doc(ScalarNode, "", []));
      OneDifferenceLeft(r, Explained(changes, LabelOfKey(key)), path);
      OneDifferenceLeft(r, OwnPaths(changes, key), path);
      var found, diff := Predicted(r, r), OneDifference(path);
      assert BucketOf(changes, key, found, diff) != BucketByKey(changes, key, found, diff);
    }
  }

  /**
   A plan that changes a resource in two API versions: drift of the first is reported
   though planned, and hidden though not.
   */
  lemma VersionsConfuse(a: ResourceKey, b: ResourceKey, x: FieldDiff, y: FieldDiff, doc: Doc)
    requires SameButVersion(a, b) && a != b && x.path != y.path
    ensures var changes := [PlannedChange(Change, a, [x]), PlannedChange(Change, b, [y])];
      var found := Predicted(Resource(a, doc), Resource(a, doc));
      && x.path in OwnPaths(changes, a) && BucketOf(changes, a, found, OneDifference(x.path)).Drifted?
      && y.path !in OwnPaths(changes, a) && BucketOf(changes, a, found, OneDifference(y.path)).Clean?
  {
    var changes := [PlannedChange(Change, a, [x]), PlannedChange(Change, b, [y])];
    assert changes[0] in changes && x in changes[0].fields && y in changes[1].fields;
    assert Explained(changes, LabelOfKey(a)) == PathsOf([y]);
    assert PathsOf([y]) == {y.path} && PathsOf([x]) == {x.path};
    OneDifferenceLeft(Resource(a, doc), PathsOf([y]), x.path);
    OneDifferenceLeft(Resource(a, doc), PathsOf([y]), y.path);
  }

  ghost predicate NoSlashes(key: ResourceKey) {
    '/' !in key.kind && '/' !in key.namespace && '/' !in key.name
  }

  /** Keys that differ in the API version at most. */
  predicate SameButVersion(a: ResourceKey, b: ResourceKey) {
    a.kind == b.kind && a.namespace == b.namespace && a.name == b.name
  }

  /**
   A computed plan has distinct labels exactly when no two of its changes are for
   keys that differ in the API version only: labels leave that out.
   */
  lemma PlanLabels(prev: seq<Resource>, curr: seq<Resource>, diff: Differ, plan: Plan)
    requires UniqueKeys(prev) && UniqueKeys(curr) && IsPlan(prev, curr, diff, plan)
    requires forall k :: k in KeysOf(prev) || k in KeysOf(curr) ==> NoSlashes(k)
    ensures DistinctLabels(plan.changes)
      <==> forall a, b :: a in plan.changes && b in plan.changes && SameButVersion(a.key, b.key) ==> a.key == b.key
  {
    PlanContents(prev, curr, diff, plan);
    forall c | c in plan.changes ensures NoSlashes(c.key) {
      BelongsKey(prev, curr, diff, c);
    }
    if DistinctLabels(plan.changes) {
      forall a, b | a in plan.changes && b in plan.changes && SameButVersion(a.key, b.key) ensures a.key == b.key {
        var i :| 0 <= i < |plan.changes| && plan.changes[i] == a;
        var j :| 0 <= j < |plan.changes| && plan.changes[j] == b;
        assert i == j;
      }
    } else {
      var i, j :| 0 <= i < j < |plan.changes| && LabelOf(plan.changes[i]) == LabelOf(plan.changes[j]);
      var a, b := plan.changes[i], plan.changes[j];
      assert a in plan.changes && b in plan.changes && a != b;
      LabelInjective(a.key.kind, a.key.namespace, a.key.name, b.key.kind, b.key.namespace, b.key.name);
      if a.key == b.key {
        OneChangePerKey(prev, curr, diff, a, b);
      }
    }
  }

  /** In a computed plan the label suffices for every resource that the plan has no other API version of. */
  lemma NoOtherVersionSuffices(
      prev: seq<Resource>, curr: seq<Resource>, diff: Differ, plan: Plan, key: ResourceKey)
    requires UniqueKeys(prev) && UniqueKeys(curr) && IsPlan(prev, curr, diff, plan) && NoSlashes(key)
    requires forall k :: k in KeysOf(prev) || k in KeysOf(curr) ==> NoSlashes(k)
    requires forall c :: c in plan.changes && SameButVersion(c.key, key) ==> c.key == key
    ensures LabelSuffices(plan.changes, key)
  {
    PlanContents(prev, curr, diff, plan);
    var label' := LabelOfKey(key);
    forall c | c in plan.changes && LabelOf(c) == label' ensures c.key == key {
      BelongsKey(prev, curr, diff, c);
      LabelInjective(c.key.kind, c.key.namespace, c.key.name, key.kind, key.namespace, key.name);
    }
    forall a, b | a in plan.changes && b in plan.changes && a.key == b.key ensures a == b {
      OneChangePerKey(prev, curr, diff, a, b);
    }
    forall path ensures LastTouches(plan.changes, label', path) <==> path in OwnPaths(plan.changes, key) {
      KeyTouchesLast(plan.changes, key, path);
    }
  }

  lemma KeyTouchesLast(changes: seq<PlannedChange>, key: ResourceKey, path: string)
    requires forall c :: c in changes && LabelOf(c) == LabelOfKey(key) ==> c.key == key
    requires forall a, b :: a in changes && b in changes && a.key == b.key ==> a == b
    ensures LastTouches(changes, LabelOfKey(key), path) <==> path in OwnPaths(changes, key)
  {
    if LastTouches(changes, LabelOfKey(key), path) {
      var i: nat :| IsLastWith(changes, LabelOfKey(key), i) && path in PathsOf(changes[i].fields);
      assert changes[i] in changes && changes[i].key == key;
    }
    if path in OwnPaths(changes, key) {
      var c :| c in changes && c.key == key && path in PathsOf(c.fields);
      var i := LastOf(changes, c);
      assert IsLastWith(changes, LabelOfKey(key), i);
    }
  }

  lemma {:induction false} LastOf(changes: seq<PlannedChange>, c: PlannedChange) returns (i: nat)
    requires c in changes
    ensures i < |changes| && changes[i] == c && forall j :: i < j < |changes| ==> changes[j] != c
    decreases |changes|
  {
    if changes[|changes| - 1] == c {
      i := |changes| - 1;
    } else {
      i := LastOf(changes[..|changes| - 1], c);
    }
  }

  // ----- once each, in order -----

  /** These positions, in increasing order, are exactly those where the flag is up. */
  ghost predicate ArePositions(flags: seq<bool>, at: seq<nat>) {
    && (forall i :: 0 <= i < |at| ==> at[i] < |flags|)
    && (forall i, j :: 0 <= i < j < |at| ==> at[i] < at[j])
    && (forall k :: 0 <= k < |flags| ==> (k in at <==> flags[k]))
  }

  ghost function Positions(flags: seq<bool>): seq<nat> {
    if flags == [] then []
    else Positions(flags[..|flags| - 1]) + if flags[|flags| - 1] then [|flags| - 1] else []
  }

  lemma {:induction false} PositionsMeaning(flags: seq<bool>)
    ensures ArePositions(flags, Positions(flags))
  {
    if flags != [] {
      var before, last := flags[..|flags| - 1], flags[|flags| - 1];
      PositionsMeaning(before);
      PositionsNext(before, Positions(before), last);
      assert before + [last] == flags;
      assert Positions(before) + [] == Positions(before);
    }
  }

  lemma PositionsNext(flags: seq<bool>, at: seq<nat>, flag: bool)
    requires ArePositions(flags, at)
    ensures ArePositions(flags + [flag], if flag then at + [|flags|] else at)
  {
    var all, more := flags + [flag], if flag then at + [|flags|] else at;
    forall k | 0 <= k < |all| ensures k in more <==> all[k] {
      assert k < |flags| ==> all[k] == flags[k] && (k in more <==> k in at);
    }
  }

  ghost predicate Drifts(changes: seq<PlannedChange>, r: Rendered, diff: Differ) {
    exists c :: IsDriftOf(changes, r, diff, c)
  }

  /** Which of the resources drift. */
  ghost function Drifting(changes: seq<PlannedChange>, resources: seq<Rendered>, diff: Differ): (flags: seq<bool>)
    ensures |flags| == |resources|
  {
    seq(|resources|, k requires 0 <= k < |resources| => Drifts(changes, resources[k], diff))
  }

  /** Which of them could not be checked. */
  ghost function Uncheckable(changes: seq<PlannedChange>, resources: seq<Rendered>, diff: Differ): (flags: seq<bool>)
    ensures |flags| == |resources|
  {
    seq(|resources|, k requires 0 <= k < |resources| => Unchecked(changes, resources[k], diff))
  }

  lemma DriftingNext(changes: seq<PlannedChange>, resources: seq<Rendered>, diff: Differ)
    requires resources != []
    ensures Drifting(changes, resources, diff) == Drifting(changes, resources[..|resources| - 1], diff)
      + [Drifts(changes, resources[|resources| - 1], diff)]
  {
  }

  lemma UncheckableNext(changes: seq<PlannedChange>, resources: seq<Rendered>, diff: Differ)
    requires resources != []
    ensures Uncheckable(changes, resources, diff) == Uncheckable(changes, resources[..|resources| - 1], diff)
      + [Unchecked(changes, resources[|resources| - 1], diff)]
  {
  }

  /** `reported` has one entry for each of these positions, the drift of the resource there. */
  ghost predicate ReportsAt(
      changes: seq<PlannedChange>, resources: seq<Rendered>, diff: Differ, at: seq<nat>, reported: seq<PlannedChange>) {
    && |reported| == |at|
    && forall i :: 0 <= i < |at| ==> at[i] < |resources| && IsDriftOf(changes, resources[at[i]], diff, reported[i])
  }

  lemma DriftOfMeaning(changes: seq<PlannedChange>, r: Rendered, diff: Differ)
    ensures var drift := DriftOf(BucketOf(changes, r.key, r.found, diff));
      || (|drift| == 1 && IsDriftOf(changes, r, diff, drift[0]) && Drifts(changes, r, diff))
      || (drift == [] && !Drifts(changes, r, diff))
  {
    if Compared(r, diff) {
      UnexplainedIsUntouched(Differences(r, diff), changes, LabelOfKey(r.key));
    }
    var drift := DriftOf(BucketOf(changes, r.key, r.found, diff));
    if drift != [] {
      assert IsDriftOf(changes, r, diff, drift[0]);
    } else {
      forall c ensures !IsDriftOf(changes, r, diff, c) {
      }
    }
  }

  /** Each resource that drifts is reported once, in the order of the rendered resources. */
  lemma {:induction false} DriftInOrder(changes: seq<PlannedChange>, resources: seq<Rendered>, diff: Differ)
    ensures ReportsAt(changes, resources, diff,
      Positions(Drifting(changes, resources, diff)), DriftChanges(changes, resources, diff))
    decreases |resources|
  {
    if resources != [] {
      var before, last := resources[..|resources| - 1], resources[|resources| - 1];
      DriftInOrder(changes, before, diff);
      DriftOfMeaning(changes, last, diff);
      DriftingNext(changes, resources, diff);
      var first, flags := Positions(Drifting(changes, before, diff)), Drifting(changes, resources, diff);
      assert flags[..|flags| - 1] == Drifting(changes, before, diff);
      assert first + [] == first;
      ReportsNext(changes, resources, diff, first, DriftChanges(changes, before, diff),
        DriftOf(BucketOf(changes, last.key, last.found, diff)));
    }
  }

  lemma ReportsNext(
      changes: seq<PlannedChange>, resources: seq<Rendered>, diff: Differ,
      first: seq<nat>, reported: seq<PlannedChange>, drift: seq<PlannedChange>)
    requires resources != [] && ReportsAt(changes, resources[..|resources| - 1], diff, first, reported)
    requires drift == [] || (|drift| == 1 && IsDriftOf(changes, resources[|resources| - 1], diff, drift[0]))
    ensures ReportsAt(
      changes, resources, diff, if drift != [] then first + [|resources| - 1] else first, reported + drift)
  {
    assert reported + [] == reported;
  }

  ghost predicate LabelsAt(resources: seq<Rendered>, at: seq<nat>, labels: seq<string>) {
    |labels| == |at| && forall i :: 0 <= i < |at| ==> at[i] < |resources| && IsLabel(labels[i], resources[at[i]].key)
  }

  /** The kind, the namespace if there is one, and the name. */
  ghost predicate IsLabel(text: string, key: ResourceKey) {
    text == if key.namespace == "" then key.kind + "/" + key.name else key.kind + "/" + key.namespace + "/" + key.name
  }

  lemma IncompleteNext(changes: seq<PlannedChange>, resources: seq<Rendered>, diff: Differ)
    requires resources != []
    ensures var last := resources[|resources| - 1];
      IncompleteLabels(changes, resources, diff) == IncompleteLabels(changes, resources[..|resources| - 1], diff)
        + if Unchecked(changes, last, diff) then [LabelOfKey(last.key)] else []
  {
    var last := resources[|resources| - 1];
    assert BucketOf(changes, last.key, last.found, diff).Incomplete? <==> Unchecked(changes, last, diff);
  }

  lemma LabelsNext(resources: seq<Rendered>, first: seq<nat>, labels: seq<string>, more: bool)
    requires resources != [] && LabelsAt(resources[..|resources| - 1], first, labels)
    ensures LabelsAt(resources, if more then first + [|resources| - 1] else first,
      labels + if more then [LabelOfKey(resources[|resources| - 1].key)] else [])
  {
    assert labels + [] == labels;
    var last := resources[|resources| - 1].key;
    assert IsLabel(LabelOfKey(last), last);
  }

  /** Each resource that could not be checked is named once, in order. */
  lemma {:induction false} IncompleteInOrder(changes: seq<PlannedChange>, resources: seq<Rendered>, diff: Differ)
    ensures LabelsAt(resources,
      Positions(Uncheckable(changes, resources, diff)), IncompleteLabels(changes, resources, diff))
    decreases |resources|
  {
    if resources != [] {
      var before, last := resources[..|resources| - 1], resources[|resources| - 1];
      IncompleteInOrder(changes, before, diff);
      UncheckableNext(changes, resources, diff);
      IncompleteNext(changes, resources, diff);
      var first, flags := Positions(Uncheckable(changes, before, diff)), Uncheckable(changes, resources, diff);
      assert flags[..|flags| - 1] == Uncheckable(changes, before, diff);
      assert first + [] == first;
      LabelsNext(resources, first, IncompleteLabels(changes, before, diff), Unchecked(changes, last, diff));
    }
  }
}
