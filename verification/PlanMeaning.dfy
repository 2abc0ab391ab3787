/**
 What a plan says about the two manifests it was made from, when each has its
 keys once: exact contents, balanced counts, symmetry, and indifference to noise.
 */
module PlanMeaning {
  import opened Names
  import opened Wrappers
  import opened NoiseFields
  import opened PlanDiff

  ghost predicate UniqueKeys(docs: seq<Resource>) {
    forall i, j :: 0 <= i < j < |docs| ==> docs[i].key != docs[j].key
  }

  function KeysOf(docs: seq<Resource>): set<ResourceKey> {
    set r | r in docs :: r.key
  }

  /** What belongs into a plan. */
  ghost predicate Belongs(prev: seq<Resource>, curr: seq<Resource>, diff: Differ, c: PlannedChange) {
    match c.action
    case Add => c.fields == [] && c.key in KeysOf(curr) && c.key !in KeysOf(prev)
    case Destroy => c.fields == [] && c.key in KeysOf(prev) && c.key !in KeysOf(curr)
    case Change =>
      c.fields != [] && exists p, r :: Matched(prev, curr, c.key, p, r) && diff(p.doc, r.doc) == Fields(c.fields)
  }

  ghost predicate Matched(prev: seq<Resource>, curr: seq<Resource>, key: ResourceKey, p: Resource, r: Resource) {
    p in prev && r in curr && p.key == key && r.key == key
  }

  lemma {:induction false} IndexedMeaning(docs: seq<Resource>, key: ResourceKey)
    requires UniqueKeys(docs)
    ensures Indexed(docs, key).Some? <==> key in KeysOf(docs)
    ensures forall r :: r in docs && r.key == key ==> Indexed(docs, key) == Some(r.doc)
    ensures Indexed(docs, key).Some? ==> Resource(key, Indexed(docs, key).value) in docs
    decreases |docs|
  {
    if docs != [] {
      var before, last := docs[..|docs| - 1], docs[|docs| - 1];
      assert docs == before + [last];
      IndexedMeaning(before, key);
      forall r | r in before ensures r.key != last.key {
        var i :| 0 <= i < |before| && before[i] == r;
        assert docs[i].key != docs[|docs| - 1].key;
      }
      assert KeysOf(docs) == KeysOf(before) + {last.key};
    }
  }

  lemma {:induction false} CurrentMembers(prev: seq<Resource>, curr: seq<Resource>, diff: Differ, c: PlannedChange)
    ensures c in Current(prev, curr, diff) <==> exists r :: r in curr && c in Planned(prev, r, diff)
    decreases |curr|
  {
    if curr != [] {
      var before, last := curr[..|curr| - 1], curr[|curr| - 1];
      assert curr == before + [last];
      CurrentMembers(prev, before, diff, c);
      if r :| r in curr && c in Planned(prev, r, diff) {
        assert r == last || r in before;
      }
      assert last in curr;
    }
  }

  lemma {:induction false} GoneMembers(prev: seq<Resource>, curr: seq<Resource>, c: PlannedChange)
    ensures c in Gone(prev, curr)
      <==> c.action.Destroy? && c.fields == [] && c.key in KeysOf(prev) && c.key !in KeysOf(curr)
    decreases |prev|
  {
    if prev != [] {
      var before, last := prev[..|prev| - 1], prev[|prev| - 1];
      assert prev == before + [last];
      GoneMembers(before, curr, c);
      assert KeysOf(prev) == KeysOf(before) + {last.key};
      assert HasKey(curr, last.key) <==> last.key in KeysOf(curr);
    }
  }

  /** What one current resource contributes is what belongs there for its key. */
  lemma PlannedMeaning(prev: seq<Resource>, curr: seq<Resource>, diff: Differ, r: Resource, c: PlannedChange)
    requires UniqueKeys(prev) && UniqueKeys(curr) && r in curr
    ensures c in Planned(prev, r, diff) <==> c.key == r.key && !c.action.Destroy? && Belongs(prev, curr, diff, c)
  {
    IndexedMeaning(prev, r.key);
    IndexedMeaning(curr, r.key);
    assert r.key in KeysOf(curr);
    var before := Indexed(prev, r.key);
    if before.Some? {
      var p := Resource(r.key, before.value);
      assert Matched(prev, curr, r.key, p, r);
      if c.key == r.key && c.action.Change? && Belongs(prev, curr, diff, c) {
        var p', r' :| Matched(prev, curr, c.key, p', r') && diff(p'.doc, r'.doc) == Fields(c.fields);
        assert p'.doc == before.value && r'.doc == r.doc;
      }
    }
  }

  lemma AllMembers(prev: seq<Resource>, curr: seq<Resource>, diff: Differ, c: PlannedChange)
    requires UniqueKeys(prev) && UniqueKeys(curr)
    ensures c in Current(prev, curr, diff) + Gone(prev, curr) <==> Belongs(prev, curr, diff, c)
  {
    CurrentMembers(prev, curr, diff, c);
    GoneMembers(prev, curr, c);
    forall r | r in curr
      ensures c in Planned(prev, r, diff) <==> c.key == r.key && !c.action.Destroy? && Belongs(prev, curr, diff, c)
    {
      PlannedMeaning(prev, curr, diff, r, c);
    }
    if !c.action.Destroy? && Belongs(prev, curr, diff, c) {
      assert c.key in KeysOf(curr) by {
        if c.action.Change? {
          var p, r :| Matched(prev, curr, c.key, p, r) && diff(p.doc, r.doc) == Fields(c.fields);
          assert r in curr;
        }
      }
      var r :| r in curr && r.key == c.key;
    }
  }

  lemma BelongsKey(prev: seq<Resource>, curr: seq<Resource>, diff: Differ, c: PlannedChange)
    requires Belongs(prev, curr, diff, c)
    ensures c.key in KeysOf(prev) || c.key in KeysOf(curr)
  {
    if c.action.Change? {
      var p, r :| Matched(prev, curr, c.key, p, r) && diff(p.doc, r.doc) == Fields(c.fields);
      assert p in prev;
    }
  }

  /** With unique keys a key has one change at most. */
  lemma OneChangePerKey(prev: seq<Resource>, curr: seq<Resource>, diff: Differ, a: PlannedChange, b: PlannedChange)
    requires UniqueKeys(prev) && UniqueKeys(curr) && a.key == b.key
    requires Belongs(prev, curr, diff, a) && Belongs(prev, curr, diff, b)
    ensures a == b
  {
    if a.action.Change? {
      var p, r :| Matched(prev, curr, a.key, p, r) && diff(p.doc, r.doc) == Fields(a.fields);
      assert p in prev && r in curr;
      if b.action.Change? {
        var p', r' :| Matched(prev, curr, b.key, p', r') && diff(p'.doc, r'.doc) == Fields(b.fields);
        IndexedMeaning(prev, a.key);
        IndexedMeaning(curr, a.key);
      }
    }
  }

  // ----- no key twice -----

  ghost predicate DistinctKeys(changes: seq<PlannedChange>) {
    forall i, j :: 0 <= i < j < |changes| ==> changes[i].key != changes[j].key
  }

  lemma PlannedKey(prev: seq<Resource>, r: Resource, diff: Differ)
    ensures |Planned(prev, r, diff)| <= 1 && forall c :: c in Planned(prev, r, diff) ==> c.key == r.key
  {
  }

  lemma {:induction false} CurrentDistinct(prev: seq<Resource>, curr: seq<Resource>, diff: Differ)
    requires UniqueKeys(curr)
    ensures DistinctKeys(Current(prev, curr, diff))
    ensures forall c :: c in Current(prev, curr, diff) ==> c.key in KeysOf(curr)
    decreases |curr|
  {
    if curr != [] {
      var before, last := curr[..|curr| - 1], curr[|curr| - 1];
      assert curr == before + [last];
      CurrentDistinct(prev, before, diff);
      PlannedKey(prev, last, diff);
      assert KeysOf(curr) == KeysOf(before) + {last.key};
      forall r | r in before ensures r.key != last.key {
        var i :| 0 <= i < |before| && before[i] == r;
        assert curr[i].key != curr[|curr| - 1].key;
      }
      DistinctAppend(Current(prev, before, diff), Planned(prev, last, diff), last.key);
    }
  }

  lemma {:induction false} GoneDistinct(prev: seq<Resource>, curr: seq<Resource>)
    requires UniqueKeys(prev)
    ensures DistinctKeys(Gone(prev, curr))
    decreases |prev|
  {
    if prev != [] {
      var before, last := prev[..|prev| - 1], prev[|prev| - 1];
      GoneDistinct(before, curr);
      forall c | c in Gone(before, curr) ensures c.key != last.key {
        GoneMembers(before, curr, c);
        var r :| r in before && r.key == c.key;
        var i :| 0 <= i < |before| && before[i] == r;
        assert prev[i].key != prev[|prev| - 1].key;
      }
      DistinctAppend(
        Gone(before, curr), if HasKey(curr, last.key) then [] else [PlannedChange(Destroy, last.key, [])], last.key);
    }
  }

  lemma DistinctAppend(changes: seq<PlannedChange>, more: seq<PlannedChange>, key: ResourceKey)
    requires DistinctKeys(changes) && |more| <= 1
    requires (forall c :: c in more ==> c.key == key) && forall c :: c in changes ==> c.key != key
    ensures DistinctKeys(changes + more)
  {
  }

  lemma AllDistinct(prev: seq<Resource>, curr: seq<Resource>, diff: Differ)
    requires UniqueKeys(prev) && UniqueKeys(curr)
    ensures DistinctKeys(Current(prev, curr, diff) + Gone(prev, curr))
  {
    var a, b := Current(prev, curr, diff), Gone(prev, curr);
    CurrentDistinct(prev, curr, diff);
    GoneDistinct(prev, curr);
    forall c | c in b ensures c.key !in KeysOf(curr) {
      GoneMembers(prev, curr, c);
    }
    forall i, j | 0 <= i < j < |a + b| ensures (a + b)[i].key != (a + b)[j].key {
      if i < |a| <= j {
        assert a[i] in a && b[j - |a|] in b;
      }
    }
  }

  // ----- counts -----

  function KeysWith(changes: seq<PlannedChange>, action: Action): set<ResourceKey> {
    set c | c in changes && c.action == action :: c.key
  }

  lemma KeysWithNext(before: seq<PlannedChange>, last: PlannedChange, action: Action)
    requires DistinctKeys(before + [last])
    ensures DistinctKeys(before)
    ensures KeysWith(before + [last], action)
      == KeysWith(before, action) + if last.action == action then {last.key} else {}
    ensures last.key !in KeysWith(before, action)
  {
    var all := before + [last];
    forall i, j | 0 <= i < j < |before| ensures before[i].key != before[j].key {
      assert all[i].key != all[j].key;
    }
    forall c | c in before ensures c.key != last.key {
      var i :| 0 <= i < |before| && before[i] == c;
      assert all[i].key != all[|before|].key;
    }
  }

  lemma {:induction false} CountIsSize(changes: seq<PlannedChange>, action: Action)
    requires DistinctKeys(changes)
    ensures Count(changes, action) == |KeysWith(changes, action)|
    decreases |changes|
  {
    if changes != [] {
      var before, last := changes[..|changes| - 1], changes[|changes| - 1];
      assert changes == before + [last];
      KeysWithNext(before, last, action);
      CountIsSize(before, action);
      assert Count(changes, action) == Count(before, action) + if last.action == action then 1 else 0;
    }
  }

  /** Keys whose two documents differ. */
  ghost function ChangedKeys(prev: seq<Resource>, curr: seq<Resource>, diff: Differ): set<ResourceKey> {
    set k | k in KeysOf(prev) && IsChanged(prev, curr, diff, k)
  }

  ghost predicate IsChanged(prev: seq<Resource>, curr: seq<Resource>, diff: Differ, k: ResourceKey) {
    exists p, r :: Matched(prev, curr, k, p, r) && diff(p.doc, r.doc).Fields? && diff(p.doc, r.doc).fields != []
  }

  /** With unique keys on both sides a plan holds exactly what belongs into it, once and in order. */
  lemma PlanContents(prev: seq<Resource>, curr: seq<Resource>, diff: Differ, plan: Plan)
    requires UniqueKeys(prev) && UniqueKeys(curr) && IsPlan(prev, curr, diff, plan)
    ensures forall c :: c in plan.changes <==> Belongs(prev, curr, diff, c)
    ensures InOrder(plan.changes) && NoDuplicates(plan.changes)
  {
    var all := Current(prev, curr, diff) + Gone(prev, curr);
    forall c ensures c in all <==> Belongs(prev, curr, diff, c) {
      AllMembers(prev, curr, diff, c);
    }
    AllDistinct(prev, curr, diff);
    SameMultiset(all, plan.changes);
    forall c ensures c in plan.changes <==> c in all {
      assert c in plan.changes <==> c in multiset(plan.changes);
      assert c in all <==> c in multiset(all);
    }
  }

  /**
   Its counts are the numbers of keys only in the current manifest, in both and
   different, and only in the previous one.
   */
  lemma CountsMeaning(prev: seq<Resource>, curr: seq<Resource>, diff: Differ, plan: Plan)
    requires UniqueKeys(prev) && UniqueKeys(curr) && IsPlan(prev, curr, diff, plan)
    ensures plan.summary
      == Summary(|KeysOf(curr) - KeysOf(prev)|, |ChangedKeys(prev, curr, diff)|, |KeysOf(prev) - KeysOf(curr)|)
  {
    var all := Current(prev, curr, diff) + Gone(prev, curr);
    forall c ensures c in all <==> Belongs(prev, curr, diff, c) {
      AllMembers(prev, curr, diff, c);
    }
    AllDistinct(prev, curr, diff);
    CountIsSize(all, Add);
    CountIsSize(all, Change);
    CountIsSize(all, Destroy);
    SizesOf(prev, curr, diff, all);
  }

  lemma SizesOf(prev: seq<Resource>, curr: seq<Resource>, diff: Differ, all: seq<PlannedChange>)
    requires forall c :: c in all <==> Belongs(prev, curr, diff, c)
    ensures KeysWith(all, Add) == KeysOf(curr) - KeysOf(prev)
    ensures KeysWith(all, Destroy) == KeysOf(prev) - KeysOf(curr)
    ensures KeysWith(all, Change) == ChangedKeys(prev, curr, diff)
  {
    forall k | k in KeysOf(curr) - KeysOf(prev) ensures k in KeysWith(all, Add) {
      assert PlannedChange(Add, k, []) in all;
    }
    forall k | k in KeysOf(prev) - KeysOf(curr) ensures k in KeysWith(all, Destroy) {
      assert PlannedChange(Destroy, k, []) in all;
    }
    forall k ensures k in KeysWith(all, Change) <==> k in ChangedKeys(prev, curr, diff) {
      if k in ChangedKeys(prev, curr, diff) {
        var p, r :| Matched(prev, curr, k, p, r) && diff(p.doc, r.doc).Fields? && diff(p.doc, r.doc).fields != [];
        assert PlannedChange(Change, k, diff(p.doc, r.doc).fields) in all;
      }
      if k in KeysWith(all, Change) {
        var c :| c in all && c.action == Change && c.key == k;
        var p, r :| Matched(prev, curr, k, p, r) && diff(p.doc, r.doc) == Fields(c.fields);
        assert IsChanged(prev, curr, diff, k) && p.key in KeysOf(prev);
      }
    }
  }

  lemma {:induction false} KeysSize(docs: seq<Resource>)
    requires UniqueKeys(docs)
    ensures |KeysOf(docs)| == |docs|
    decreases |docs|
  {
    if docs != [] {
      var before, last := docs[..|docs| - 1], docs[|docs| - 1];
      assert docs == before + [last];
      KeysSize(before);
      assert KeysOf(docs) == KeysOf(before) + {last.key};
      forall r | r in before ensures r.key != last.key {
        var i :| 0 <= i < |before| && before[i] == r;
        assert docs[i].key != docs[|docs| - 1].key;
      }
    }
  }

  /** Applying the plan takes the number of resources from the previous to the current one. */
  lemma CountsBalance(prev: seq<Resource>, curr: seq<Resource>, diff: Differ, plan: Plan)
    requires UniqueKeys(prev) && UniqueKeys(curr) && IsPlan(prev, curr, diff, plan)
    ensures |prev| + plan.summary.add == |curr| + plan.summary.destroy
    ensures plan.summary.change + plan.summary.add <= |curr|
  {
    CountsMeaning(prev, curr, diff, plan);
    KeysSize(prev);
    KeysSize(curr);
    var p, c := KeysOf(prev), KeysOf(curr);
    assert p == (p - c) + (p * c) && c == (c - p) + (p * c);
    assert |p| == |p - c| + |p * c| && |c| == |c - p| + |p * c|;
    forall k | k in ChangedKeys(prev, curr, diff) ensures k in p * c {
      var x, y :| Matched(prev, curr, k, x, y) && diff(x.doc, y.doc).Fields? && diff(x.doc, y.doc).fields != [];
      assert y.key in c;
    }
    SubsetSize(ChangedKeys(prev, curr, diff), p * c);
  }

  /** Whether two documents differ does not depend on which comes first. */
  ghost predicate Symmetric(diff: Differ) {
    forall a, b :: diff(a, b).Fields? && diff(a, b).fields != [] ==> diff(b, a).Fields? && diff(b, a).fields != []
  }

  /** Going back is the plan with additions and destructions swapped: in the counts, and resource by resource. */
  lemma PlansSwap(prev: seq<Resource>, curr: seq<Resource>, diff: Differ, plan: Plan, back: Plan)
    requires UniqueKeys(prev) && UniqueKeys(curr) && Symmetric(diff)
    requires IsPlan(prev, curr, diff, plan) && IsPlan(curr, prev, diff, back)
    ensures back.summary == Summary(plan.summary.destroy, plan.summary.change, plan.summary.add)
    ensures ChangedKeys(prev, curr, diff) == ChangedKeys(curr, prev, diff)
  {
    CountsMeaning(prev, curr, diff, plan);
    CountsMeaning(curr, prev, diff, back);
    ChangedBothWays(prev, curr, diff);
  }

  lemma ChangedBothWays(prev: seq<Resource>, curr: seq<Resource>, diff: Differ)
    requires Symmetric(diff)
    ensures ChangedKeys(prev, curr, diff) == ChangedKeys(curr, prev, diff)
  {
    ChangedOneWay(prev, curr, diff);
    ChangedOneWay(curr, prev, diff);
  }

  lemma AddedIsDestroyedBack(
      prev: seq<Resource>, curr: seq<Resource>, diff: Differ, plan: Plan, back: Plan, k: ResourceKey)
    requires UniqueKeys(prev) && UniqueKeys(curr)
    requires IsPlan(prev, curr, diff, plan) && IsPlan(curr, prev, diff, back)
    ensures PlannedChange(Add, k, []) in plan.changes <==> PlannedChange(Destroy, k, []) in back.changes
    ensures PlannedChange(Destroy, k, []) in plan.changes <==> PlannedChange(Add, k, []) in back.changes
  {
    var add, destroy := PlannedChange(Add, k, []), PlannedChange(Destroy, k, []);
    PlanContents(prev, curr, diff, plan);
    PlanContents(curr, prev, diff, back);
    assert Belongs(prev, curr, diff, add) <==> Belongs(curr, prev, diff, destroy);
    assert Belongs(prev, curr, diff, destroy) <==> Belongs(curr, prev, diff, add);
  }

  lemma ChangedOneWay(prev: seq<Resource>, curr: seq<Resource>, diff: Differ)
    requires Symmetric(diff)
    ensures ChangedKeys(prev, curr, diff) <= ChangedKeys(curr, prev, diff)
  {
    forall k | k in ChangedKeys(prev, curr, diff) ensures k in ChangedKeys(curr, prev, diff) {
      var p, r :| Matched(prev, curr, k, p, r) && diff(p.doc, r.doc).Fields? && diff(p.doc, r.doc).fields != [];
      assert Matched(curr, prev, k, r, p) && r.key in KeysOf(curr);
    }
  }

  // ----- noise -----

  /** The same resources, with any bookkeeping added to or missing from any of them. */
  ghost predicate AlikeManifests(docs: seq<Resource>, docs': seq<Resource>) {
    && |docs| == |docs'|
    && forall i :: 0 <= i < |docs| ==> ResourceAlike(docs[i], docs'[i])
  }

  ghost predicate ResourceAlike(r: Resource, r': Resource) {
    && r.key == r'.key
    && (r.doc == r'.doc
      || (ResourceOnce(r.doc) && ResourceOnce(r'.doc) && AlikeButNoise(r.doc, r'.doc)))
  }

  lemma AlikeStripped(docs: seq<Resource>, docs': seq<Resource>)
    requires AlikeManifests(docs, docs')
    ensures Stripped(docs) == Stripped(docs')
  {
    forall i | 0 <= i < |docs| ensures Stripped(docs)[i] == Stripped(docs')[i] {
      assert ResourceAlike(docs[i], docs'[i]);
      if docs[i].doc != docs'[i].doc {
        NoiseIsInvisible(docs[i].doc, docs'[i].doc);
      }
    }
  }

  /** Bookkeeping on either side, any amount of it, changes no plan. */
  lemma NoiseChangesNoPlan(
      prev: seq<Resource>, prev': seq<Resource>, curr: seq<Resource>, curr': seq<Resource>, diff: Differ, plan: Plan)
    requires AlikeManifests(prev, prev') && AlikeManifests(curr, curr')
    ensures IsPlan(Stripped(prev), Stripped(curr), diff, plan) <==> IsPlan(Stripped(prev'), Stripped(curr'), diff, plan)
  {
    AlikeStripped(prev, prev');
    AlikeStripped(curr, curr');
  }
}
