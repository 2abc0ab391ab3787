/**
 Splitting an added or removed map into one field per leaf, and what the nested
 view makes of those fields again.
 */
module MapDetail {
  import opened Wrappers
  import opened Names
  import opened FieldTree
  import opened FieldRender
  import opened FieldTreeWriter

  /** A YAML node: absent, a scalar, a mapping, or anything else with its text. */
  datatype Yaml = Nil | Scalar(value: string) | Mapping(entries: seq<Pair>) | Other(text: string)

  datatype Pair = Pair(key: string, value: Yaml)

  /** `nodeToString`; `marshal` is the YAML encoder, only needed for whole mappings. */
  function NodeToString(node: Yaml, marshal: Yaml -> string): string {
    match node
    case Nil => ""
    case Scalar(value) => value
    case Other(text) => text
    case Mapping(_) => marshal(node)
  }

  function LeafField(
      kind: FieldKind, path: string, segments: seq<PathSegment>, node: Yaml, marshal: Yaml -> string): FieldDiff {
    var text := NodeToString(node, marshal);
    FieldDiff(path, segments, kind, if kind.Added? then "" else text, if kind.Added? then text else "")
  }

  /** A node that is shown as one field: no mapping, or a whole named list entry. */
  predicate IsLeaf(segments: seq<PathSegment>, node: Yaml) {
    !node.Mapping? || (segments != [] && segments[|segments| - 1].listKey != "")
  }

  function MapKey(key: string): PathSegment {
    PathSegment(key, "", -1)
  }

  /** `expandMapDetail`, as the fields it returns. */
  function Expand(
      kind: FieldKind, path: string, segments: seq<PathSegment>, node: Yaml, marshal: Yaml -> string): seq<FieldDiff>
    decreases node, 1
  {
    if IsLeaf(segments, node) then [LeafField(kind, path, segments, node, marshal)]
    else ExpandPairs(kind, path, segments, node.entries, marshal)
  }

  function ExpandPairs(
      kind: FieldKind, path: string, segments: seq<PathSegment>, entries: seq<Pair>,
      marshal: Yaml -> string): seq<FieldDiff>
    decreases entries, 0
  {
    if entries == [] then []
    else
      var last := entries[|entries| - 1];
      ExpandPairs(kind, path, segments, entries[..|entries| - 1], marshal)
        + Expand(kind, path + "." + last.key, segments + [MapKey(last.key)], last.value, marshal)
  }

  /** `expandMapDetail` as it runs: one loop over the pairs, recursion on the values. */
  method ExpandMapDetail(kind: FieldKind, path: string, segments: seq<PathSegment>, node: Yaml, marshal: Yaml -> string)
    returns (fields: seq<FieldDiff>)
    ensures fields == Expand(kind, path, segments, node, marshal)
    decreases node
  {
    if IsLeaf(segments, node) {
      return [LeafField(kind, path, segments, node, marshal)];
    }
    fields := [];
    for i := 0 to |node.entries|
      invariant fields == ExpandPairs(kind, path, segments, node.entries[..i], marshal)
    {
      var pair := node.entries[i];
      var more := ExpandMapDetail(kind, path + "." + pair.key, segments + [MapKey(pair.key)], pair.value, marshal);
      assert node.entries[..i + 1][..i] == node.entries[..i];
      fields := fields + more;
    }
    assert node.entries[..|node.entries|] == node.entries;
  }

  // ----- what each field says -----

  /** Following these keys from the node, first to last, leads to this one. */
  ghost predicate LeadsTo(node: Yaml, keys: seq<string>, leaf: Yaml)
    decreases |keys|, 1
  {
    if keys == [] then node == leaf
    else
      && node.Mapping?
      && exists i :: 0 <= i < |node.entries| && EntryLeadsTo(node.entries[i], keys, leaf)
  }

  ghost predicate EntryLeadsTo(entry: Pair, keys: seq<string>, leaf: Yaml)
    requires keys != []
    decreases |keys|, 0
  {
    entry.key == keys[0] && LeadsTo(entry.value, keys[1..], leaf)
  }

  function Dotted(keys: seq<string>): string {
    if keys == [] then "" else "." + keys[0] + Dotted(keys[1..])
  }

  function MapKeys(keys: seq<string>): (segments: seq<PathSegment>)
    ensures |segments| == |keys| && forall i :: 0 <= i < |keys| ==> segments[i] == PathSegment(keys[i], "", -1)
  {
    seq(|keys|, i requires 0 <= i < |keys| => PathSegment(keys[i], "", -1))
  }

  /** The field for what is found under these keys: the new value if it is added, the old one if it is removed. */
  ghost predicate IsLeafField(
      kind: FieldKind, path: string, segments: seq<PathSegment>, keys: seq<string>, leaf: Yaml,
      marshal: Yaml -> string, f: FieldDiff) {
    && f.kind == kind && f.path == path + Dotted(keys) && f.segments == segments + MapKeys(keys)
    && (if kind == Added then f.before == "" else f.after == "")
    && var text := if kind == Added then f.after else f.before;
    match leaf
    case Nil => text == ""
    case Scalar(value) => text == value
    case Other(dump) => text == dump
    case Mapping(_) => text == marshal(leaf)
  }

  /** Each field is for one leaf of the node, or for the whole node when it is a named list entry. */
  lemma {:induction false} FieldsAreLeaves(
      kind: FieldKind, path: string, segments: seq<PathSegment>, node: Yaml, marshal: Yaml -> string, f: FieldDiff)
    returns (keys: seq<string>, leaf: Yaml)
    requires f in Expand(kind, path, segments, node, marshal)
    ensures LeadsTo(node, keys, leaf) && IsLeafField(kind, path, segments, keys, leaf, marshal, f)
    ensures leaf.Mapping? ==> keys == [] && segments != [] && segments[|segments| - 1].listKey != ""
    decreases node, 1
  {
    if IsLeaf(segments, node) {
      keys, leaf := [], node;
      assert path + "" == path && segments + [] == segments;
    } else {
      var i, rest;
      i, rest, leaf := PairFieldsAreLeaves(kind, path, segments, node.entries, marshal, f);
      var key := node.entries[i].key;
      keys := [key] + rest;
      assert keys[1..] == rest;
      assert EntryLeadsTo(node.entries[i], keys, leaf);
      FieldOneUp(kind, path, segments, key, rest, leaf, marshal, f);
    }
  }

  lemma FieldOneUp(
      kind: FieldKind, path: string, segments: seq<PathSegment>, key: string, rest: seq<string>, leaf: Yaml,
      marshal: Yaml -> string, f: FieldDiff)
    requires IsLeafField(kind, path + "." + key, segments + [MapKey(key)], rest, leaf, marshal, f)
    ensures IsLeafField(kind, path, segments, [key] + rest, leaf, marshal, f)
  {
    DottedStep(path, key, rest);
    MapKeysStep(segments, key, rest);
  }

  lemma DottedStep(path: string, key: string, rest: seq<string>)
    ensures path + "." + key + Dotted(rest) == path + Dotted([key] + rest)
  {
    assert ([key] + rest)[1..] == rest;
    assert path + "." + key + Dotted(rest) == path + ("." + key + Dotted(rest));
  }

  lemma MapKeysStep(segments: seq<PathSegment>, key: string, rest: seq<string>)
    ensures segments + [MapKey(key)] + MapKeys(rest) == segments + MapKeys([key] + rest)
  {
    assert MapKeys([key] + rest) == [MapKey(key)] + MapKeys(rest);
  }

  lemma {:induction false} PairFieldsAreLeaves(
      kind: FieldKind, path: string, segments: seq<PathSegment>, entries: seq<Pair>, marshal: Yaml -> string,
      f: FieldDiff)
    returns (i: nat, rest: seq<string>, leaf: Yaml)
    requires f in ExpandPairs(kind, path, segments, entries, marshal)
    ensures i < |entries| && LeadsTo(entries[i].value, rest, leaf) && !leaf.Mapping?
    ensures IsLeafField(
      kind, path + "." + entries[i].key, segments + [MapKey(entries[i].key)], rest, leaf, marshal, f)
    decreases entries, 0
  {
    var before, last := entries[..|entries| - 1], entries[|entries| - 1];
    if f in Expand(kind, path + "." + last.key, segments + [MapKey(last.key)], last.value, marshal) {
      i := |entries| - 1;
      rest, leaf := FieldsAreLeaves(kind, path + "." + last.key, segments + [MapKey(last.key)], last.value, marshal, f);
    } else {
      i, rest, leaf := PairFieldsAreLeaves(kind, path, segments, before, marshal, f);
    }
  }

  // ----- the nested shape of a node -----

  /** Whether a node has any leaf at all; an empty mapping has none. */
  predicate HasLeaf(node: Yaml)
    decreases node
  {
    !node.Mapping? || exists i :: 0 <= i < |node.entries| && HasLeaf(node.entries[i].value)
  }

  /** The node's own nesting and key order, without the mappings that hold no leaf. */
  function Nest(kind: FieldKind, path: string, segments: seq<PathSegment>, node: Yaml, marshal: Yaml -> string): Tree
    decreases node, 1
  {
    if IsLeaf(segments, node) then Tree(Some(LeafField(kind, path, segments, node, marshal)), "", [])
    else Tree(None, "", NestPairs(kind, path, segments, node.entries, marshal))
  }

  function NestPairs(
      kind: FieldKind, path: string, segments: seq<PathSegment>, entries: seq<Pair>, marshal: Yaml -> string): seq<Kid>
    decreases entries, 0
  {
    if entries == [] then []
    else
      var last := entries[|entries| - 1];
      var before := NestPairs(kind, path, segments, entries[..|entries| - 1], marshal);
      if HasLeaf(last.value) then
        var tree := Nest(kind, path + "." + last.key, segments + [MapKey(last.key)], last.value, marshal);
        before + [Kid(KeyOf(MapKey(last.key)), tree)]
      else before
  }

  /** The keys of the pairs that hold a leaf, as the nested view stores them. */
  function LeafKeys(entries: seq<Pair>): seq<string> {
    if entries == [] then []
    else
      var last := entries[|entries| - 1];
      LeafKeys(entries[..|entries| - 1]) + if HasLeaf(last.value) then [KeyOf(MapKey(last.key))] else []
  }

  /** At every level the keys that hold leaves are stored under distinct keys. */
  ghost predicate WellKeyed(node: Yaml)
    decreases node
  {
    node.Mapping? ==>
      && NoDuplicates(LeafKeys(node.entries))
      && forall i :: 0 <= i < |node.entries| && HasLeaf(node.entries[i].value) ==> WellKeyed(node.entries[i].value)
  }

  // ----- the fields as entries below the node -----

  function Under(seg: PathSegment, entries: seq<Entry>): seq<Entry> {
    if entries == [] then []
    else
      var last := entries[|entries| - 1];
      Under(seg, entries[..|entries| - 1]) + [Entry([seg] + last.segments, last.field)]
  }

  /** The fields of `Expand`, with their paths taken from the node itself. */
  function Relative(
      kind: FieldKind, path: string, segments: seq<PathSegment>, node: Yaml, marshal: Yaml -> string): seq<Entry>
    decreases node, 1
  {
    if IsLeaf(segments, node) then [Entry([], LeafField(kind, path, segments, node, marshal))]
    else RelativePairs(kind, path, segments, node.entries, marshal)
  }

  function RelativePairs(
      kind: FieldKind, path: string, segments: seq<PathSegment>, entries: seq<Pair>,
      marshal: Yaml -> string): seq<Entry>
    decreases entries, 0
  {
    if entries == [] then []
    else
      var last := entries[|entries| - 1];
      RelativePairs(kind, path, segments, entries[..|entries| - 1], marshal)
        + Under(MapKey(last.key),
          Relative(kind, path + "." + last.key, segments + [MapKey(last.key)], last.value, marshal))
  }

  lemma {:induction false} RelativeNonempty(
      kind: FieldKind, path: string, segments: seq<PathSegment>, node: Yaml, marshal: Yaml -> string)
    ensures Relative(kind, path, segments, node, marshal) != [] <==> IsLeaf(segments, node) || HasLeaf(node)
    decreases node, 1
  {
    if !IsLeaf(segments, node) {
      RelativePairsNonempty(kind, path, segments, node.entries, marshal);
    }
  }

  lemma {:induction false} RelativePairsNonempty(
    kind: FieldKind, path: string, segments: seq<PathSegment>, entries: seq<Pair>, marshal: Yaml -> string)
    ensures RelativePairs(kind, path, segments, entries, marshal) != []
      <==> exists i :: 0 <= i < |entries| && HasLeaf(entries[i].value)
    decreases entries, 0
  {
    if entries != [] {
      var before, last := entries[..|entries| - 1], entries[|entries| - 1];
      RelativePairsNonempty(kind, path, segments, before, marshal);
      RelativeNonempty(kind, path + "." + last.key, segments + [MapKey(last.key)], last.value, marshal);
      forall i | 0 <= i < |before| ensures before[i] == entries[i] {
      }
      assert IsLeaf(segments + [MapKey(last.key)], last.value) ==> HasLeaf(last.value);
    }
  }

  /** One entry more under a key. */
  lemma UnderNext(entries: seq<Entry>, seg: PathSegment, more: seq<Entry>, last: Entry)
    ensures var e := Entry([seg] + last.segments, last.field);
      && entries + Under(seg, more + [last]) == entries + Under(seg, more) + [e]
      && e.segments[1..] == last.segments && KeyOf(e.segments[0]) == KeyOf(seg)
  {
    LastStep(more, last);
  }

  /** What one more entry below a key changes. */
  lemma AppendToHeads(entries: seq<Entry>, e: Entry)
    requires e.segments != []
    ensures var key := KeyOf(e.segments[0]);
      Heads(entries + [e]) == (if key in Heads(entries) then Heads(entries) else Heads(entries) + [key])
    ensures LastField(entries + [e]) == LastField(entries)
  {
    LastStep(entries, e);
  }

  lemma AppendToBelow(entries: seq<Entry>, e: Entry)
    requires e.segments != []
    ensures Below(entries + [e], KeyOf(e.segments[0]))
      == Below(entries, KeyOf(e.segments[0])) + [Entry(e.segments[1..], e.field)]
  {
    LastStep(entries, e);
  }

  lemma AppendToListKey(entries: seq<Entry>, e: Entry)
    requires e.segments != []
    ensures var key := KeyOf(e.segments[0]);
      ListKeyOf(entries + [e], key)
        == (if e.segments[0].listKey == "" then ListKeyOf(entries, key) else e.segments[0].listKey)
  {
    LastStep(entries, e);
  }

  lemma {:induction false} UnderHeads(entries: seq<Entry>, seg: PathSegment, more: seq<Entry>)
    ensures var key := KeyOf(seg); var all := entries + Under(seg, more);
      && Heads(all) == (if more == [] || key in Heads(entries) then Heads(entries) else Heads(entries) + [key])
      && LastField(all) == LastField(entries)
    decreases |more|
  {
    if more == [] {
      assert entries + Under(seg, more) == entries;
    } else {
      var before, last := more[..|more| - 1], more[|more| - 1];
      assert more == before + [last];
      UnderHeads(entries, seg, before);
      UnderNext(entries, seg, before, last);
      AppendToHeads(entries + Under(seg, before), Entry([seg] + last.segments, last.field));
    }
  }

  lemma {:induction false} UnderListKey(entries: seq<Entry>, seg: PathSegment, more: seq<Entry>)
    ensures ListKeyOf(entries + Under(seg, more), KeyOf(seg))
      == if more == [] || seg.listKey == "" then ListKeyOf(entries, KeyOf(seg)) else seg.listKey
    decreases |more|
  {
    if more == [] {
      assert entries + Under(seg, more) == entries;
    } else {
      var before, last := more[..|more| - 1], more[|more| - 1];
      assert more == before + [last];
      UnderListKey(entries, seg, before);
      UnderNext(entries, seg, before, last);
      AppendToListKey(entries + Under(seg, before), Entry([seg] + last.segments, last.field));
    }
  }

  lemma {:induction false} UnderBelow(entries: seq<Entry>, seg: PathSegment, more: seq<Entry>)
    ensures Below(entries + Under(seg, more), KeyOf(seg)) == Below(entries, KeyOf(seg)) + more
    decreases |more|
  {
    if more == [] {
      assert entries + Under(seg, more) == entries;
    } else {
      var before, last := more[..|more| - 1], more[|more| - 1];
      assert more == before + [last];
      UnderBelow(entries, seg, before);
      UnderBelowStep(entries, seg, before, last, Below(entries, KeyOf(seg)));
    }
  }

  lemma UnderBelowStep(entries: seq<Entry>, seg: PathSegment, before: seq<Entry>, last: Entry, below: seq<Entry>)
    requires Below(entries + Under(seg, before), KeyOf(seg)) == below + before
    ensures Below(entries + Under(seg, before + [last]), KeyOf(seg)) == below + (before + [last])
  {
    var e := Entry([seg] + last.segments, last.field);
    UnderNext(entries, seg, before, last);
    AppendToBelow(entries + Under(seg, before), e);
    assert Entry(e.segments[1..], e.field) == last;
    assert below + before + [last] == below + (before + [last]);
  }

  /** Entries put under one key: a first key, if there are any, and themselves below it. */
  lemma UnderAppends(entries: seq<Entry>, seg: PathSegment, more: seq<Entry>)
    ensures var key := KeyOf(seg); var all := entries + Under(seg, more);
      && Heads(all) == (if more == [] || key in Heads(entries) then Heads(entries) else Heads(entries) + [key])
      && Below(all, key) == Below(entries, key) + more
      && ListKeyOf(all, key) == (if more == [] || seg.listKey == "" then ListKeyOf(entries, key) else seg.listKey)
      && LastField(all) == LastField(entries)
  {
    UnderHeads(entries, seg, more);
    UnderBelow(entries, seg, more);
    UnderListKey(entries, seg, more);
  }

  lemma {:induction false} UnderElsewhere(entries: seq<Entry>, seg: PathSegment, more: seq<Entry>, key: string)
    requires key != KeyOf(seg)
    ensures Below(entries + Under(seg, more), key) == Below(entries, key)
    ensures ListKeyOf(entries + Under(seg, more), key) == ListKeyOf(entries, key)
    decreases |more|
  {
    if more == [] {
      assert entries + Under(seg, more) == entries;
    } else {
      var before, last := more[..|more| - 1], more[|more| - 1];
      assert more == before + [last];
      UnderElsewhere(entries, seg, before, key);
      UnderNext(entries, seg, before, last);
      AppendElsewhere(entries + Under(seg, before), Entry([seg] + last.segments, last.field), key);
    }
  }

  /** Entries under a key not used before leave the other children as they are. */
  lemma UnderKeepsKids(entries: seq<Entry>, seg: PathSegment, more: seq<Entry>, i: nat)
    requires KeyOf(seg) !in Heads(entries) && i < |Heads(entries)|
      && Heads(entries) <= Heads(entries + Under(seg, more))
    ensures GroupedKids(entries + Under(seg, more), Heads(entries + Under(seg, more)))[i]
      == GroupedKids(entries, Heads(entries))[i]
  {
    var all := entries + Under(seg, more);
    GroupedKidsAt(all, Heads(all), i);
    GroupedKidsAt(entries, Heads(entries), i);
    assert Heads(entries)[i] in Heads(entries);
    UnderElsewhere(entries, seg, more, Heads(entries)[i]);
  }

  /** The child that entries under a key not used before become. */
  lemma UnderNewKid(entries: seq<Entry>, seg: PathSegment, more: seq<Entry>)
    requires more != [] && KeyOf(seg) !in Heads(entries)
    ensures var all, n := entries + Under(seg, more), |Heads(entries)|;
      Heads(all) == Heads(entries) + [KeyOf(seg)]
        && GroupedKids(all, Heads(all))[n] == Kid(KeyOf(seg), Grouped(more, seg.listKey))
  {
    var all, key := entries + Under(seg, more), KeyOf(seg);
    UnderAppends(entries, seg, more);
    NothingBelow(entries, key);
    assert Below(entries, key) + more == more;
    GroupedKidsAt(all, Heads(all), |Heads(entries)|);
  }

  lemma OneKidMore(kids: seq<Kid>, kid: Kid, all: seq<Kid>)
    requires |all| == |kids| + 1 && all[|kids|] == kid && forall i :: 0 <= i < |kids| ==> all[i] == kids[i]
    ensures all == kids + [kid]
  {
  }

  /** Entries under a key not used before become one more child. */
  lemma UnderAddsKid(entries: seq<Entry>, seg: PathSegment, more: seq<Entry>)
    requires more != [] && KeyOf(seg) !in Heads(entries)
    ensures var all := entries + Under(seg, more);
      GroupedKids(all, Heads(all))
        == GroupedKids(entries, Heads(entries)) + [Kid(KeyOf(seg), Grouped(more, seg.listKey))]
  {
    var all := entries + Under(seg, more);
    var kids, kids' := GroupedKids(entries, Heads(entries)), GroupedKids(all, Heads(all));
    UnderNewKid(entries, seg, more);
    forall i | 0 <= i < |kids| ensures kids'[i] == kids[i] {
      UnderKeepsKids(entries, seg, more, i);
    }
    OneKidMore(kids, Kid(KeyOf(seg), Grouped(more, seg.listKey)), kids');
  }

  // ----- what the nested view rebuilds -----

  /** The children that grouping gives when all keys are distinct: one per pair that holds a leaf, in order. */
  ghost function ShapePairs(
      kind: FieldKind, path: string, segments: seq<PathSegment>, entries: seq<Pair>, marshal: Yaml -> string): seq<Kid>
    decreases |entries|
  {
    if entries == [] then []
    else
      var last := entries[|entries| - 1];
      ShapePairs(kind, path, segments, entries[..|entries| - 1], marshal) +
      if HasLeaf(last.value) then
        var more := Relative(kind, path + "." + last.key, segments + [MapKey(last.key)], last.value, marshal);
        [Kid(KeyOf(MapKey(last.key)), Grouped(more, ""))]
      else []
  }

  /** The first keys of the fields are the keys that hold leaves, repeats dropped. */
  lemma {:induction false} PairsGrouped(
      kind: FieldKind, path: string, segments: seq<PathSegment>, entries: seq<Pair>, marshal: Yaml -> string)
    ensures var all := RelativePairs(kind, path, segments, entries, marshal);
      && LastField(all) == None
      && (forall k :: k in Heads(all) <==> k in LeafKeys(entries))
      && (NoDuplicates(LeafKeys(entries)) ==>
        Heads(all) == LeafKeys(entries)
          && GroupedKids(all, Heads(all)) == ShapePairs(kind, path, segments, entries, marshal))
    decreases |entries|
  {
    if entries != [] {
      var before, last := entries[..|entries| - 1], entries[|entries| - 1];
      var seg, segments' := MapKey(last.key), segments + [MapKey(last.key)];
      var more := Relative(kind, path + "." + last.key, segments', last.value, marshal);
      var all := RelativePairs(kind, path, segments, before, marshal);
      PairsGrouped(kind, path, segments, before, marshal);
      RelativeNonempty(kind, path + "." + last.key, segments', last.value, marshal);
      assert IsLeaf(segments', last.value) ==> HasLeaf(last.value);
      UnderAppends(all, seg, more);
      if more == [] {
        assert all + Under(seg, more) == all;
        assert LeafKeys(entries) == LeafKeys(before);
        assert ShapePairs(kind, path, segments, entries, marshal) == ShapePairs(kind, path, segments, before, marshal);
      } else if NoDuplicates(LeafKeys(entries)) {
        NoDuplicatesPrefix(LeafKeys(before), KeyOf(seg));
        UnderAddsKid(all, seg, more);
      }
    }
  }

  lemma NoDuplicatesPrefix(keys: seq<string>, key: string)
    requires NoDuplicates(keys + [key])
    ensures NoDuplicates(keys) && key !in keys
  {
    var all := keys + [key];
    forall i, j | 0 <= i < j < |keys| ensures keys[i] != keys[j] {
      assert all[i] != all[j];
    }
    forall i | 0 <= i < |keys| ensures keys[i] != key {
      assert all[i] != all[|keys|];
    }
  }

  /** The two shapes have the keys that hold leaves, and agree where the children do. */
  lemma {:induction false} ShapeAgainstNest(
      kind: FieldKind, path: string, segments: seq<PathSegment>, entries: seq<Pair>, marshal: Yaml -> string)
    ensures ShapePairs(kind, path, segments, entries, marshal) == NestPairs(kind, path, segments, entries, marshal)
      <==> forall i :: 0 <= i < |entries| && HasLeaf(entries[i].value) ==>
        ValueRebuilt(kind, path, segments, entries[i], marshal)
    decreases |entries|
  {
    if entries != [] {
      var before, last := entries[..|entries| - 1], entries[|entries| - 1];
      ShapeAgainstNest(kind, path, segments, before, marshal);
      assert forall i :: 0 <= i < |before| ==> before[i] == entries[i];
      var s, n := ShapePairs(kind, path, segments, before, marshal), NestPairs(kind, path, segments, before, marshal);
      SameLengths(kind, path, segments, before, marshal);
      if HasLeaf(last.value) {
        var key, path', segments' := KeyOf(MapKey(last.key)), path + "." + last.key, segments + [MapKey(last.key)];
        var a := Kid(key, Grouped(Relative(kind, path', segments', last.value, marshal), ""));
        var b := Kid(key, Nest(kind, path', segments', last.value, marshal));
        SameAppend(s, a, n, b);
      }
    }
  }

  lemma {:induction false} NestKeys(
      kind: FieldKind, path: string, segments: seq<PathSegment>, entries: seq<Pair>, marshal: Yaml -> string)
    ensures Keys(NestPairs(kind, path, segments, entries, marshal)) == LeafKeys(entries)
    decreases |entries|
  {
    if entries != [] {
      NestKeys(kind, path, segments, entries[..|entries| - 1], marshal);
    }
  }

  lemma SameAppend(s: seq<Kid>, a: Kid, n: seq<Kid>, b: Kid)
    requires |s| == |n|
    ensures s + [a] == n + [b] <==> s == n && a == b
  {
    if s + [a] == n + [b] {
      assert s == (s + [a])[..|s|] && n == (n + [b])[..|n|];
      assert a == (s + [a])[|s|] && b == (n + [b])[|n|];
    }
  }

  lemma {:induction false} SameLengths(
      kind: FieldKind, path: string, segments: seq<PathSegment>, entries: seq<Pair>, marshal: Yaml -> string)
    ensures |ShapePairs(kind, path, segments, entries, marshal)| == |NestPairs(kind, path, segments, entries, marshal)|
    decreases |entries|
  {
    if entries != [] {
      SameLengths(kind, path, segments, entries[..|entries| - 1], marshal);
    }
  }

  /** Grouping the fields of one pair's value gives the value's own nesting. */
  ghost predicate ValueRebuilt(
      kind: FieldKind, path: string, segments: seq<PathSegment>, pair: Pair, marshal: Yaml -> string) {
    var path', segments' := path + "." + pair.key, segments + [MapKey(pair.key)];
    Grouped(Relative(kind, path', segments', pair.value, marshal), "")
      == Nest(kind, path', segments', pair.value, marshal)
  }

  /** One level: the fields of the pairs group back exactly when the keys are distinct and every value's fields do. */
  lemma LevelRebuilt(
      kind: FieldKind, path: string, segments: seq<PathSegment>, pairs: seq<Pair>, marshal: Yaml -> string)
    ensures Grouped(RelativePairs(kind, path, segments, pairs, marshal), "")
      == Tree(None, "", NestPairs(kind, path, segments, pairs, marshal))
      <==> NoDuplicates(LeafKeys(pairs)) && ValuesRebuilt(kind, path, segments, pairs, marshal)
  {
    var all := RelativePairs(kind, path, segments, pairs, marshal);
    PairsGrouped(kind, path, segments, pairs, marshal);
    ShapeAgainstNest(kind, path, segments, pairs, marshal);
    NestKeys(kind, path, segments, pairs, marshal);
    KeysOfGrouped(all);
    HeadsDistinct(all);
  }

  ghost predicate ValuesRebuilt(
      kind: FieldKind, path: string, segments: seq<PathSegment>, pairs: seq<Pair>, marshal: Yaml -> string) {
    forall i :: 0 <= i < |pairs| && HasLeaf(pairs[i].value) ==> ValueRebuilt(kind, path, segments, pairs[i], marshal)
  }

  lemma LeafRebuilt(kind: FieldKind, path: string, segments: seq<PathSegment>, node: Yaml, marshal: Yaml -> string)
    requires IsLeaf(segments, node)
    ensures Grouped(Relative(kind, path, segments, node, marshal), "") == Nest(kind, path, segments, node, marshal)
  {
    var e := Entry([], LeafField(kind, path, segments, node, marshal));
    AppendHere([], e, "");
    NothingBelow([], "");
    assert [] + [e] == [e];
  }

  /** The fields of a node group back into its nesting exactly when it is well keyed. */
  lemma {:induction false} NodeRebuilt(
      kind: FieldKind, path: string, segments: seq<PathSegment>, node: Yaml, marshal: Yaml -> string)
    requires IsLeaf(segments, node) || HasLeaf(node)
    ensures Grouped(Relative(kind, path, segments, node, marshal), "") == Nest(kind, path, segments, node, marshal)
      <==> IsLeaf(segments, node) || WellKeyed(node)
    decreases node
  {
    if IsLeaf(segments, node) {
      LeafRebuilt(kind, path, segments, node, marshal);
    } else {
      var pairs := node.entries;
      LevelRebuilt(kind, path, segments, pairs, marshal);
      forall i | 0 <= i < |pairs| && HasLeaf(pairs[i].value)
        ensures ValueRebuilt(kind, path, segments, pairs[i], marshal) <==> WellKeyed(pairs[i].value)
      {
        var segments' := segments + [MapKey(pairs[i].key)];
        NodeRebuilt(kind, path + "." + pairs[i].key, segments', pairs[i].value, marshal);
        assert IsLeaf(segments', pairs[i].value) ==> WellKeyed(pairs[i].value);
      }
    }
  }

  lemma KeysOfGrouped(entries: seq<Entry>)
    ensures Keys(GroupedKids(entries, Heads(entries))) == Heads(entries)
  {
    forall i | 0 <= i < |Heads(entries)| ensures GroupedKids(entries, Heads(entries))[i].key == Heads(entries)[i] {
      GroupedKidsAt(entries, Heads(entries), i);
    }
  }

  // ----- from the node to the change's own paths -----

  /** A tree moved below a path. */
  function Graft(segments: seq<PathSegment>, t: Tree): Tree
    decreases |segments|
  {
    if segments == [] then t
    else Tree(None, "", [Kid(KeyOf(segments[0]), Graft(segments[1..], t).(listKey := segments[0].listKey))])
  }

  lemma {:induction false} GraftInjective(segments: seq<PathSegment>, t: Tree, t': Tree)
    requires t.listKey == t'.listKey
    ensures Graft(segments, t) == Graft(segments, t') <==> t == t'
    ensures Graft(segments, t).listKey == Graft(segments, t').listKey
    decreases |segments|
  {
    if segments != [] {
      GraftInjective(segments[1..], t, t');
      var g, g' := Graft(segments[1..], t), Graft(segments[1..], t');
      if Graft(segments, t) == Graft(segments, t') {
        assert Graft(segments, t).kids[0] == Graft(segments, t').kids[0];
        assert g.(listKey := segments[0].listKey) == g'.(listKey := segments[0].listKey);
        assert g == g.(listKey := segments[0].listKey).(listKey := g.listKey);
        assert g' == g'.(listKey := segments[0].listKey).(listKey := g'.listKey);
      }
    }
  }

  /** The entries with a path put in front of theirs. */
  function Prefixed(segments: seq<PathSegment>, entries: seq<Entry>): (all: seq<Entry>)
    ensures |all| == |entries|
    ensures forall i :: 0 <= i < |all| ==> all[i] == Entry(segments + entries[i].segments, entries[i].field)
  {
    seq(|entries|, i requires 0 <= i < |entries| => Entry(segments + entries[i].segments, entries[i].field))
  }

  lemma {:induction false} UnderAt(seg: PathSegment, entries: seq<Entry>)
    ensures |Under(seg, entries)| == |entries|
    ensures forall i :: 0 <= i < |entries| ==>
      Under(seg, entries)[i] == Entry([seg] + entries[i].segments, entries[i].field)
  {
    if entries != [] {
      UnderAt(seg, entries[..|entries| - 1]);
    }
  }

  lemma PrefixedSplit(segments: seq<PathSegment>, seg: PathSegment, entries: seq<Entry>)
    ensures Prefixed([seg] + segments, entries) == Under(seg, Prefixed(segments, entries))
    ensures Prefixed(segments + [seg], entries) == Prefixed(segments, Under(seg, entries))
  {
    UnderAt(seg, Prefixed(segments, entries));
    UnderAt(seg, entries);
    forall i | 0 <= i < |entries|
      ensures Prefixed([seg] + segments, entries)[i] == Under(seg, Prefixed(segments, entries))[i]
      ensures Prefixed(segments + [seg], entries)[i] == Prefixed(segments, Under(seg, entries))[i]
    {
      var tail := entries[i].segments;
      assert [seg] + segments + tail == [seg] + (segments + tail);
      assert segments + [seg] + tail == segments + ([seg] + tail);
    }
  }

  /** Entries all under one key make a tree with one child. */
  lemma GroupedUnder(seg: PathSegment, below: seq<Entry>)
    requires below != []
    ensures Grouped(Under(seg, below), "")
      == Tree(None, "", [Kid(KeyOf(seg), Grouped(below, "").(listKey := seg.listKey))])
  {
    UnderAddsKid([], seg, below);
    UnderAppends([], seg, below);
    assert [] + Under(seg, below) == Under(seg, below);
    assert Grouped(below, seg.listKey) == Grouped(below, "").(listKey := seg.listKey);
  }

  lemma PrefixedNothing(entries: seq<Entry>)
    ensures Prefixed([], entries) == entries
  {
    forall i | 0 <= i < |entries| ensures Prefixed([], entries)[i] == entries[i] {
      assert [] + entries[i].segments == entries[i].segments;
    }
  }

  /** Entries below a path group into their own tree, moved below the path. */
  lemma {:induction false} GroupedPrefixed(segments: seq<PathSegment>, entries: seq<Entry>)
    requires entries != []
    ensures Grouped(Prefixed(segments, entries), "") == Graft(segments, Grouped(entries, ""))
    decreases |segments|
  {
    if segments == [] {
      PrefixedNothing(entries);
    } else {
      var seg, rest := segments[0], segments[1..];
      assert segments == [seg] + rest;
      GroupedPrefixed(rest, entries);
      PrefixedSplit(rest, seg, entries);
      GroupedUnder(seg, Prefixed(rest, entries));
    }
  }

  function RawEntries(fields: seq<FieldDiff>): (entries: seq<Entry>)
    ensures |entries| == |fields| && forall i :: 0 <= i < |fields| ==>
      entries[i] == Entry(fields[i].segments, fields[i])
  {
    seq(|fields|, i requires 0 <= i < |fields| => Entry(fields[i].segments, fields[i]))
  }

  lemma PrefixedAppend(segments: seq<PathSegment>, a: seq<Entry>, b: seq<Entry>)
    ensures Prefixed(segments, a + b) == Prefixed(segments, a) + Prefixed(segments, b)
  {
  }

  lemma RawAppend(a: seq<FieldDiff>, b: seq<FieldDiff>)
    ensures RawEntries(a + b) == RawEntries(a) + RawEntries(b)
  {
  }

  lemma {:induction false} ExpandIsPrefixed(
      kind: FieldKind, path: string, segments: seq<PathSegment>, node: Yaml, marshal: Yaml -> string)
    ensures RawEntries(Expand(kind, path, segments, node, marshal))
      == Prefixed(segments, Relative(kind, path, segments, node, marshal))
    decreases node, 1
  {
    if IsLeaf(segments, node) {
      assert segments + [] == segments;
    } else {
      ExpandPairsPrefixed(kind, path, segments, node.entries, marshal);
    }
  }

  lemma {:induction false} ExpandPairsPrefixed(
    kind: FieldKind, path: string, segments: seq<PathSegment>, entries: seq<Pair>, marshal: Yaml -> string)
    ensures RawEntries(ExpandPairs(kind, path, segments, entries, marshal))
      == Prefixed(segments, RelativePairs(kind, path, segments, entries, marshal))
    ensures forall e :: e in RelativePairs(kind, path, segments, entries, marshal) ==> e.segments != []
    decreases entries, 0
  {
    if entries != [] {
      var before, last := entries[..|entries| - 1], entries[|entries| - 1];
      var path', segments' := path + "." + last.key, segments + [MapKey(last.key)];
      var more := Relative(kind, path', segments', last.value, marshal);
      ExpandPairsPrefixed(kind, path, segments, before, marshal);
      ExpandIsPrefixed(kind, path', segments', last.value, marshal);
      PrefixedSplit(segments, MapKey(last.key), more);
      PrefixedAppend(segments, RelativePairs(kind, path, segments, before, marshal), Under(MapKey(last.key), more));
      RawAppend(ExpandPairs(kind, path, segments, before, marshal),
        Expand(kind, path', segments', last.value, marshal));
      UnderAt(MapKey(last.key), more);
    }
  }

  /** The fields of `Expand` carry their own segments; the dotted path is never cut up. */
  lemma ExpandEntries(kind: FieldKind, path: string, segments: seq<PathSegment>, node: Yaml, marshal: Yaml -> string)
    requires segments != [] || node.Mapping? || path == ""
    ensures EntriesOf(Expand(kind, path, segments, node, marshal))
      == Prefixed(segments, Relative(kind, path, segments, node, marshal))
  {
    var fields := Expand(kind, path, segments, node, marshal);
    ExpandIsPrefixed(kind, path, segments, node, marshal);
    if !IsLeaf(segments, node) {
      ExpandPairsPrefixed(kind, path, segments, node.entries, marshal);
    }
    forall i | 0 <= i < |fields| ensures EntriesOf(fields)[i] == RawEntries(fields)[i] {
      var e := Relative(kind, path, segments, node, marshal)[i];
      assert RawEntries(fields)[i] == Entry(segments + e.segments, e.field);
      assert e in Relative(kind, path, segments, node, marshal);
    }
  }

  /**
   The round trip: splitting an added or removed node into fields and building
   the nested view of those fields gives back the node's own nesting and key
   order, below the change's path, exactly when the node is well keyed.
   */
  lemma ExpandThenBuild(kind: FieldKind, path: string, segments: seq<PathSegment>, node: Yaml, marshal: Yaml -> string)
    requires segments != [] || node.Mapping? || path == ""
    requires IsLeaf(segments, node) || HasLeaf(node)
    ensures Build(EntriesOf(Expand(kind, path, segments, node, marshal)))
      == Graft(segments, Nest(kind, path, segments, node, marshal))
      <==> IsLeaf(segments, node) || WellKeyed(node)
  {
    var entries := Relative(kind, path, segments, node, marshal);
    ExpandEntries(kind, path, segments, node, marshal);
    BuildIsGrouped(EntriesOf(Expand(kind, path, segments, node, marshal)));
    RelativeNonempty(kind, path, segments, node, marshal);
    GroupedPrefixed(segments, entries);
    NodeRebuilt(kind, path, segments, node, marshal);
    GraftInjective(segments, Grouped(entries, ""), Nest(kind, path, segments, node, marshal));
  }

  // ----- the writer on the rebuilt tree -----

  /** The nesting of a node shows the node's leaves, in order. */
  lemma {:induction false} NestShows(
      kind: FieldKind, path: string, segments: seq<PathSegment>, node: Yaml, marshal: Yaml -> string)
    ensures NodeFields(Nest(kind, path, segments, node, marshal)) == Expand(kind, path, segments, node, marshal)
    ensures TreeFields(Nest(kind, path, segments, node, marshal)) == Expand(kind, path, segments, node, marshal)
    decreases node, 1
  {
    if !IsLeaf(segments, node) {
      NestPairsShow(kind, path, segments, node.entries, marshal);
    }
  }

  lemma {:induction false} NestPairsShow(
    kind: FieldKind, path: string, segments: seq<PathSegment>, entries: seq<Pair>, marshal: Yaml -> string)
    ensures KidsFields(NestPairs(kind, path, segments, entries, marshal))
      == ExpandPairs(kind, path, segments, entries, marshal)
    decreases entries, 0
  {
    if entries != [] {
      var before, last := entries[..|entries| - 1], entries[|entries| - 1];
      var path', segments' := path + "." + last.key, segments + [MapKey(last.key)];
      NestPairsShow(kind, path, segments, before, marshal);
      if HasLeaf(last.value) {
        NestShows(kind, path', segments', last.value, marshal);
        var kid := Kid(KeyOf(MapKey(last.key)), Nest(kind, path', segments', last.value, marshal));
        KidsFieldsAppend(NestPairs(kind, path, segments, before, marshal), kid);
      } else {
        NothingToShow(kind, path', segments', last.value, marshal);
      }
    }
  }

  lemma {:induction false} GraftShows(segments: seq<PathSegment>, t: Tree)
    requires t.field == None || t.kids == []
    ensures TreeFields(Graft(segments, t)) == NodeFields(Graft(segments, t)) == NodeFields(t)
    ensures Graft(segments, t).field == None || Graft(segments, t).kids == []
    decreases |segments|
  {
    if segments != [] {
      var g := Graft(segments[1..], t);
      GraftShows(segments[1..], t);
      KidsFieldsAppend([], Kid(KeyOf(segments[0]), g.(listKey := segments[0].listKey)));
      assert [] + [Kid(KeyOf(segments[0]), g.(listKey := segments[0].listKey))] == Graft(segments, t).kids;
      assert NodeFields(g.(listKey := segments[0].listKey)) == NodeFields(g);
    }
  }

  lemma RebuiltViewShows(kind: FieldKind, path: string, segments: seq<PathSegment>, node: Yaml, marshal: Yaml -> string)
    requires segments != [] || node.Mapping? || path == ""
    requires IsLeaf(segments, node) || (WellKeyed(node) && HasLeaf(node))
    ensures TreeFields(Build(EntriesOf(Expand(kind, path, segments, node, marshal))))
      == Expand(kind, path, segments, node, marshal)
  {
    ExpandThenBuild(kind, path, segments, node, marshal);
    NestShows(kind, path, segments, node, marshal);
    GraftShows(segments, Nest(kind, path, segments, node, marshal));
  }

  /**
   The nested view of a well-keyed node shows each of its leaves once, in the
   node's order, and no leaf's path is equal to or a prefix of another's.
   */
  lemma ViewShowsEveryLeaf(
      kind: FieldKind, path: string, segments: seq<PathSegment>, node: Yaml, marshal: Yaml -> string)
    requires segments != [] || node.Mapping? || path == ""
    requires IsLeaf(segments, node) || WellKeyed(node)
    ensures Shown(RenderTree(Build(EntriesOf(Expand(kind, path, segments, node, marshal)))))
      == Expand(kind, path, segments, node, marshal)
    ensures AllDistinguished(EntriesOf(Expand(kind, path, segments, node, marshal)))
  {
    var fields := Expand(kind, path, segments, node, marshal);
    if IsLeaf(segments, node) || HasLeaf(node) {
      RebuiltViewShows(kind, path, segments, node, marshal);
    } else {
      NothingToShow(kind, path, segments, node, marshal);
    }
    AllShown(fields);
  }

  /** A view that shows the fields it was built from: their paths do not get in each other's way. */
  lemma AllShown(fields: seq<FieldDiff>)
    requires TreeFields(Build(EntriesOf(fields))) == fields
    ensures Shown(RenderTree(Build(EntriesOf(fields)))) == fields
    ensures AllDistinguished(EntriesOf(fields))
  {
    RenderTreeShows(Build(EntriesOf(fields)));
    WriterShowsAll(EntriesOf(fields));
    assert FieldsOf(EntriesOf(fields)) == fields;
  }

  /** A mapping without leaves disappears. */
  lemma NothingToShow(kind: FieldKind, path: string, segments: seq<PathSegment>, node: Yaml, marshal: Yaml -> string)
    requires !IsLeaf(segments, node)
    ensures !HasLeaf(node) <==> Expand(kind, path, segments, node, marshal) == []
  {
    ExpandIsPrefixed(kind, path, segments, node, marshal);
    RelativeNonempty(kind, path, segments, node, marshal);
  }

  /** Keys that are distinct and not empty at every level are well keyed. */
  ghost predicate UniqueKeys(node: Yaml)
    decreases node
  {
    node.Mapping? ==>
      && (forall i, j :: 0 <= i < j < |node.entries| ==> node.entries[i].key != node.entries[j].key)
      && (forall i :: 0 <= i < |node.entries| ==> node.entries[i].key != "" && UniqueKeys(node.entries[i].value))
  }

  lemma {:induction false} UniqueKeysAreWellKeyed(node: Yaml)
    requires UniqueKeys(node)
    ensures WellKeyed(node)
    decreases node
  {
    if node.Mapping? {
      UniqueLeafKeys(node.entries);
      forall i | 0 <= i < |node.entries| && HasLeaf(node.entries[i].value) ensures WellKeyed(node.entries[i].value) {
        UniqueKeysAreWellKeyed(node.entries[i].value);
      }
    }
  }

  lemma NoDuplicatesAppend(keys: seq<string>, key: string)
    requires NoDuplicates(keys) && key !in keys
    ensures NoDuplicates(keys + [key])
  {
    var all := keys + [key];
    forall i, j | 0 <= i < j < |all| ensures all[i] != all[j] {
      assert all[i] == keys[i];
      assert j < |keys| ==> all[j] == keys[j];
    }
  }

  lemma {:induction false} UniqueLeafKeys(entries: seq<Pair>)
    requires forall i, j :: 0 <= i < j < |entries| ==> entries[i].key != entries[j].key
    requires forall i :: 0 <= i < |entries| ==> entries[i].key != ""
    ensures NoDuplicates(LeafKeys(entries))
    ensures forall k :: k in LeafKeys(entries) ==> exists i :: 0 <= i < |entries| && entries[i].key == k
    decreases |entries|
  {
    if entries != [] {
      var before, last := entries[..|entries| - 1], entries[|entries| - 1];
      UniqueLeafKeys(before);
      forall k | k in LeafKeys(before) ensures k != last.key && exists i :: 0 <= i < |entries| && entries[i].key == k {
        var i :| 0 <= i < |before| && before[i].key == k;
        assert entries[i].key == k;
      }
      if HasLeaf(last.value) {
        assert KeyOf(MapKey(last.key)) == last.key;
        assert LeafKeys(entries) == LeafKeys(before) + [last.key];
        NoDuplicatesAppend(LeafKeys(before), last.key);
        assert entries[|entries| - 1].key == last.key;
      } else {
        assert LeafKeys(entries) == LeafKeys(before);
      }
    }
  }

  const CLASH: seq<Pair> := [Pair("", Scalar("a")), Pair("-1", Scalar("b"))]

  lemma ClashFields(marshal: Yaml -> string)
    ensures var fields := Expand(Added, "", [], Mapping(CLASH), marshal);
      && |fields| == 2 && fields[0].segments == [MapKey("")] && fields[1].segments == [MapKey("-1")]
  {
    assert CLASH[..1] == [CLASH[0]] && CLASH[..1][..0] == [];
    assert ExpandPairs(Added, "", [], CLASH[..1][..0], marshal) == [];
    assert [] + [MapKey("")] == [MapKey("")] && [] + [MapKey("-1")] == [MapKey("-1")];
    assert ExpandPairs(Added, "", [], CLASH[..1], marshal)
      == [] + [LeafField(Added, "" + "." + "", [] + [MapKey("")], Scalar("a"), marshal)];
    assert ExpandPairs(Added, "", [], CLASH, marshal)
      == ExpandPairs(Added, "", [], CLASH[..1], marshal)
        + [LeafField(Added, "" + "." + "-1", [] + [MapKey("-1")], Scalar("b"), marshal)];
  }

  lemma ClashKeys()
    ensures HasLeaf(Mapping(CLASH)) && !WellKeyed(Mapping(CLASH))
    ensures KeyOf(MapKey("")) == KeyOf(MapKey("-1"))
  {
    var node := Mapping(CLASH);
    assert HasLeaf(CLASH[0].value) && HasLeaf(CLASH[1].value);
    assert HasLeaf(node.entries[0].value);
    assert Itoa(1) == "1" && Itoa(-1) == "-1";
    assert CLASH[..1] == [CLASH[0]] && CLASH[..1][..0] == [];
    assert LeafKeys(CLASH[..1]) == ["-1"];
    assert LeafKeys(CLASH) == ["-1", "-1"];
    assert LeafKeys(CLASH)[0] == LeafKeys(CLASH)[1];
  }

  /**
   An empty key is stored as "-1": next to a key "-1" the tree is not the node's, and
   the nested view does not show both fields.
   */
  lemma EmptyKeyClashes(marshal: Yaml -> string)
    ensures var fields := Expand(Added, "", [], Mapping(CLASH), marshal);
      && HasLeaf(Mapping(CLASH)) && !WellKeyed(Mapping(CLASH))
      && Build(EntriesOf(fields)) != Graft([], Nest(Added, "", [], Mapping(CLASH), marshal))
      && multiset(Shown(RenderTree(Build(EntriesOf(fields))))) < multiset(fields)
  {
    ClashKeys();
    ExpandThenBuild(Added, "", [], Mapping(CLASH), marshal);
    ClashFields(marshal);
    var fields := Expand(Added, "", [], Mapping(CLASH), marshal);
    var entries := EntriesOf(fields);
    assert FieldsOf(entries) == fields;
    assert PathOf(entries[0].segments) == PathOf(entries[1].segments);
    assert !Distinguished(entries[0], entries[1]);
    WriterShowsAll(entries);
  }
}
