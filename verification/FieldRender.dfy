/**
 What the nested view of a change shows: which field a path of the tree holds,
 the lines the writer produces, and when those lines show every field.
 */
module FieldRender {
  import opened Wrappers
  import opened Names
  import opened FieldTree

  // ----- the field at a path -----

  type KeyPath = seq<string>

  function PathOf(segments: seq<PathSegment>): (p: KeyPath)
    ensures |p| == |segments| && forall i :: 0 <= i < |p| ==> p[i] == KeyOf(segments[i])
  {
    seq(|segments|, i requires 0 <= i < |segments| => KeyOf(segments[i]))
  }

  function FieldAt(t: Tree, path: KeyPath): Option<FieldDiff>
    decreases |path|
  {
    if path == [] then t.field
    else
      var i := IndexOf(t.kids, path[0]);
      if i < |t.kids| then FieldAt(t.kids[i].tree, path[1..]) else None
  }

  /** The last of the entries with this path. */
  function LastAt(entries: seq<Entry>, path: KeyPath): Option<FieldDiff> {
    if entries == [] then None
    else
      var last := entries[|entries| - 1];
      if PathOf(last.segments) == path then Some(last.field) else LastAt(entries[..|entries| - 1], path)
  }

  lemma {:induction false} LastAtBelow(entries: seq<Entry>, key: string, rest: KeyPath)
    ensures LastAt(entries, [key] + rest) == LastAt(Below(entries, key), rest)
  {
    if entries != [] {
      var before, last := entries[..|entries| - 1], entries[|entries| - 1];
      LastAtBelow(before, key, rest);
      if last.segments != [] {
        assert PathOf(last.segments) == [KeyOf(last.segments[0])] + PathOf(last.segments[1..]);
      }
      if StartsWith(last, key) {
        LastStep(Below(before, key), Entry(last.segments[1..], last.field));
        assert PathOf(last.segments) == [key] + rest <==> PathOf(last.segments[1..]) == rest by {
          assert ([key] + rest)[1..] == rest;
          assert PathOf(last.segments)[1..] == PathOf(last.segments[1..]);
        }
      } else {
        assert ([key] + rest)[0] == key;
      }
    }
  }

  lemma {:induction false} GroupedHoldsLast(entries: seq<Entry>, listKey: string, path: KeyPath)
    ensures FieldAt(Grouped(entries, listKey), path) == LastAt(entries, path)
    decreases |path|
  {
    if path == [] {
      LastFieldIsLastAt(entries);
    } else {
      var key, rest := path[0], path[1..];
      assert path == [key] + rest;
      LastAtBelow(entries, key, rest);
      IndexInGrouped(entries, key);
      ChildInGrouped(entries, key);
      if key in Heads(entries) {
        GroupedHoldsLast(Below(entries, key), ListKeyOf(entries, key), rest);
      } else {
        NothingBelow(entries, key);
      }
    }
  }

  lemma {:induction false} LastFieldIsLastAt(entries: seq<Entry>)
    ensures LastField(entries) == LastAt(entries, [])
  {
    if entries != [] {
      LastFieldIsLastAt(entries[..|entries| - 1]);
    }
  }

  /** After any insertions a path holds the last field inserted there, or none. */
  lemma PathHoldsLastField(entries: seq<Entry>, path: KeyPath)
    ensures FieldAt(Build(entries), path) == LastAt(entries, path)
  {
    BuildIsGrouped(entries);
    GroupedHoldsLast(entries, "", path);
  }

  // ----- the writer -----

  /**
   A line of output: a leaf with its value, the header of a nested map, a named list
   entry, the dump of a whole entry.
   */
  datatype Line =
    | Leaf(indent: nat, key: string, field: FieldDiff)
    | Header(indent: nat, key: string)
    | Item(indent: nat, listKey: string, key: string)
    | Block(indent: nat, field: FieldDiff)

  const BASE_INDENT: nat := 2

  /** `writeYAMLNode` on a tree value. */
  function RenderNode(key: string, t: Tree, indent: nat): seq<Line>
    decreases t, 1
  {
    if t.listKey != "" then
      [Item(indent, t.listKey, key)] +
      (match t.field
       case Some(f) => [Block(indent + 1, f)]
       case None => RenderKids(t.kids, indent + 1))
    else if t.field.Some? && t.kids == [] then [Leaf(indent, key, t.field.value)]
    else [Header(indent, key)] + RenderKids(t.kids, indent + 1)
  }

  /** `writeYAMLChildren`. */
  function RenderKids(kids: seq<Kid>, indent: nat): seq<Line>
    decreases kids, 0
  {
    if kids == [] then [] else RenderNode(kids[0].key, kids[0].tree, indent) + RenderKids(kids[1..], indent)
  }

  /** `writeYAMLTree`. */
  function RenderTree(t: Tree): seq<Line> {
    (if t.field.Some? then [Leaf(BASE_INDENT, "(root)", t.field.value)] else []) + RenderKids(t.kids, BASE_INDENT)
  }

  /** The fields whose values are shown. */
  function Shown(lines: seq<Line>): seq<FieldDiff> {
    if lines == [] then []
    else (if lines[0].Leaf? || lines[0].Block? then [lines[0].field] else []) + Shown(lines[1..])
  }

  lemma {:induction false} ShownAppend(a: seq<Line>, b: seq<Line>)
    ensures Shown(a + b) == Shown(a) + Shown(b)
    decreases |a|
  {
    if a == [] {
      assert a + b == b;
    } else {
      ShownAppend(a[1..], b);
      ShownNext(a[0], a[1..] + b);
      ShownNext(a[0], a[1..]);
      assert a + b == [a[0]] + (a[1..] + b) && a == [a[0]] + a[1..];
      var first := if a[0].Leaf? || a[0].Block? then [a[0].field] else [];
      assert first + (Shown(a[1..]) + Shown(b)) == first + Shown(a[1..]) + Shown(b);
    }
  }

  lemma ShownNext(line: Line, rest: seq<Line>)
    ensures Shown([line] + rest) == (if line.Leaf? || line.Block? then [line.field] else []) + Shown(rest)
  {
    assert ([line] + rest)[1..] == rest;
  }

  function FieldsOf(entries: seq<Entry>): (fs: seq<FieldDiff>)
    ensures |fs| == |entries| && forall i :: 0 <= i < |fs| ==> fs[i] == entries[i].field
  {
    seq(|entries|, i requires 0 <= i < |entries| => entries[i].field)
  }

  /** The fields a node shows, without the lines. */
  function NodeFields(t: Tree): seq<FieldDiff>
    decreases t, 1
  {
    if t.field.Some? && (t.listKey != "" || t.kids == []) then [t.field.value] else KidsFields(t.kids)
  }

  function KidsFields(kids: seq<Kid>): seq<FieldDiff>
    decreases kids, 0
  {
    if kids == [] then [] else NodeFields(kids[0].tree) + KidsFields(kids[1..])
  }

  lemma {:induction false} RenderNodeShows(key: string, t: Tree, indent: nat)
    ensures Shown(RenderNode(key, t, indent)) == NodeFields(t)
    decreases t, 1
  {
    RenderKidsShows(t.kids, indent + 1);
    if t.listKey != "" {
      var item := [Item(indent, t.listKey, key)];
      match t.field {
        case Some(f) => ShownAppend(item, [Block(indent + 1, f)]);
        case None => ShownAppend(item, RenderKids(t.kids, indent + 1));
      }
    } else if t.field.Some? && t.kids == [] {
      assert RenderNode(key, t, indent) == [Leaf(indent, key, t.field.value)];
    } else {
      ShownAppend([Header(indent, key)], RenderKids(t.kids, indent + 1));
      if t.field.Some? {
        assert NodeFields(t) == KidsFields(t.kids);
      }
    }
  }

  lemma {:induction false} RenderKidsShows(kids: seq<Kid>, indent: nat)
    ensures Shown(RenderKids(kids, indent)) == KidsFields(kids)
    decreases kids, 0
  {
    if kids != [] {
      RenderNodeShows(kids[0].key, kids[0].tree, indent);
      RenderKidsShows(kids[1..], indent);
      ShownAppend(RenderNode(kids[0].key, kids[0].tree, indent), RenderKids(kids[1..], indent));
    }
  }

  lemma {:induction false} KidsFieldsAppend(kids: seq<Kid>, kid: Kid)
    ensures KidsFields(kids + [kid]) == KidsFields(kids) + NodeFields(kid.tree)
    decreases kids
  {
    if kids == [] {
      assert [kid][1..] == [];
    } else {
      KidsFieldsAppend(kids[1..], kid);
      assert (kids + [kid])[1..] == kids[1..] + [kid];
    }
  }

  // ----- when every field is shown -----

  /** One path is a prefix of the other. */
  predicate Comparable(a: Entry, b: Entry) {
    PathOf(a.segments) <= PathOf(b.segments) || PathOf(b.segments) <= PathOf(a.segments)
  }

  predicate Apart(entries: seq<Entry>, e: Entry) {
    forall x :: x in entries ==> !Comparable(x, e)
  }

  /** No entry's path is a prefix of another's. */
  predicate Separate(entries: seq<Entry>) {
    entries == [] || (Separate(entries[..|entries| - 1]) && Apart(entries[..|entries| - 1], entries[|entries| - 1]))
  }

  lemma SeparateAppend(entries: seq<Entry>, e: Entry)
    ensures Separate(entries + [e]) <==> Separate(entries) && Apart(entries, e)
  {
    LastStep(entries, e);
  }

  /** The entries that end at the root. */
  function Here(entries: seq<Entry>): seq<Entry> {
    if entries == [] then []
    else
      var last := entries[|entries| - 1];
      Here(entries[..|entries| - 1]) + if last.segments == [] then [last] else []
  }

  /** What is below a list of keys, as multiset and as size. */
  function FieldsBelow(entries: seq<Entry>, heads: seq<string>): multiset<FieldDiff> {
    if heads == [] then multiset{}
    else FieldsBelow(entries, heads[..|heads| - 1]) + multiset(FieldsOf(Below(entries, heads[|heads| - 1])))
  }

  lemma FieldsOfAppend(entries: seq<Entry>, e: Entry)
    ensures FieldsOf(entries + [e]) == FieldsOf(entries) + [e.field]
  {
  }

  /** What one more entry adds below one key. */
  lemma BelowAppendFields(entries: seq<Entry>, e: Entry, key: string)
    ensures multiset(FieldsOf(Below(entries + [e], key))) ==
      multiset(FieldsOf(Below(entries, key))) + FieldIf(e, StartsWith(e, key))
  {
    if StartsWith(e, key) {
      AppendBelow(entries, e);
      FieldsOfAppend(Below(entries, key), Entry(e.segments[1..], e.field));
    } else {
      AppendElsewhere(entries, e, key);
    }
  }

  function FieldIf(e: Entry, yes: bool): multiset<FieldDiff> {
    if yes then multiset{e.field} else multiset{}
  }

  predicate StartsIn(e: Entry, heads: seq<string>) {
    e.segments != [] && KeyOf(e.segments[0]) in heads
  }

  lemma Regroup<T>(a: multiset<T>, b: multiset<T>, x: multiset<T>, y: multiset<T>)
    ensures (a + x) + (b + y) == (a + b) + (x + y)
  {
  }

  lemma StartsInOne(e: Entry, before: seq<string>, key: string)
    requires key !in before
    ensures FieldIf(e, StartsIn(e, before + [key])) == FieldIf(e, StartsIn(e, before)) + FieldIf(e, StartsWith(e, key))
  {
    assert forall k :: k in before + [key] <==> k in before || k == key;
  }

  lemma {:induction false} FieldsBelowAppend(entries: seq<Entry>, e: Entry, heads: seq<string>)
    requires NoDuplicates(heads)
    ensures FieldsBelow(entries + [e], heads) == FieldsBelow(entries, heads) + FieldIf(e, StartsIn(e, heads))
    decreases |heads|
  {
    if heads != [] {
      var before, key := heads[..|heads| - 1], heads[|heads| - 1];
      FieldsBelowAppend(entries, e, before);
      BelowAppendFields(entries, e, key);
      assert heads == before + [key];
      StartsInOne(e, before, key);
      Regroup(FieldsBelow(entries, before), multiset(FieldsOf(Below(entries, key))),
        FieldIf(e, StartsIn(e, before)), FieldIf(e, StartsWith(e, key)));
    }
  }

  lemma {:induction false} FieldsBelowNothing(entries: seq<Entry>, heads: seq<string>, key: string)
    requires heads == Heads(entries) && key !in heads
    ensures FieldsBelow(entries, heads + [key]) == FieldsBelow(entries, heads)
  {
    assert (heads + [key])[..|heads|] == heads;
    NothingBelow(entries, key);
  }

  /** One more entry ends here or is below its first key. */
  lemma PartitionStep(entries: seq<Entry>, e: Entry)
    ensures multiset(FieldsOf(Here(entries + [e]))) == multiset(FieldsOf(Here(entries))) + FieldIf(e, e.segments == [])
    ensures FieldsBelow(entries + [e], Heads(entries + [e]))
      == FieldsBelow(entries, Heads(entries)) + FieldIf(e, e.segments != [])
  {
    LastStep(entries, e);
    var heads := Heads(entries + [e]);
    HeadsDistinct(entries + [e]);
    FieldsBelowAppend(entries, e, heads);
    if e.segments == [] {
      FieldsOfAppend(Here(entries), e);
    } else {
      assert Here(entries) + [] == Here(entries);
      if KeyOf(e.segments[0]) !in Heads(entries) {
        FieldsBelowNothing(entries, Heads(entries), KeyOf(e.segments[0]));
      }
    }
  }

  /** Every entry ends here or is below exactly one first key. */
  lemma {:induction false} Partition(entries: seq<Entry>)
    ensures multiset(FieldsOf(entries)) == multiset(FieldsOf(Here(entries))) + FieldsBelow(entries, Heads(entries))
    decreases |entries|
  {
    if entries != [] {
      var before, e := entries[..|entries| - 1], entries[|entries| - 1];
      assert entries == before + [e];
      Partition(before);
      PartitionStep(before, e);
      FieldsOfAppend(before, e);
      Regroup(multiset(FieldsOf(Here(before))), FieldsBelow(before, Heads(before)),
        FieldIf(e, e.segments == []), FieldIf(e, e.segments != []));
      assert multiset(FieldsOf(before) + [e.field]) == multiset(FieldsOf(before)) + multiset{e.field};
    }
  }

  lemma {:induction false} HereIsLastField(entries: seq<Entry>)
    ensures Here(entries) == [] <==> LastField(entries).None?
    ensures Here(entries) != [] ==> LastField(entries) == Some(Here(entries)[|Here(entries)| - 1].field)
    ensures Here(entries) == [] <==> forall x :: x in entries ==> x.segments != []
  {
    if entries != [] {
      var before, e := entries[..|entries| - 1], entries[|entries| - 1];
      assert entries == before + [e];
      HereIsLastField(before);
    }
  }

  lemma {:induction false} BelowMembers(entries: seq<Entry>, key: string)
    ensures forall y :: y in Below(entries, key) <==>
      exists x :: x in entries && StartsWith(x, key) && y == Entry(x.segments[1..], x.field)
  {
    if entries != [] {
      var before, e := entries[..|entries| - 1], entries[|entries| - 1];
      assert entries == before + [e];
      BelowMembers(before, key);
    }
  }

  lemma ComparableBelow(a: Entry, b: Entry)
    requires a.segments != [] && b.segments != []
    ensures Comparable(a, b) <==>
      && KeyOf(a.segments[0]) == KeyOf(b.segments[0])
      && Comparable(Entry(a.segments[1..], a.field), Entry(b.segments[1..], b.field))
  {
    var p, q := PathOf(a.segments), PathOf(b.segments);
    assert p == [p[0]] + p[1..] && q == [q[0]] + q[1..];
    assert PathOf(a.segments[1..]) == p[1..] && PathOf(b.segments[1..]) == q[1..];
    assert p <= q <==> p[0] == q[0] && p[1..] <= q[1..];
    assert q <= p <==> p[0] == q[0] && q[1..] <= p[1..];
  }

  /** Comparing an entry with all others comes down to the others below its first key. */
  lemma ApartBelow(entries: seq<Entry>, e: Entry)
    requires e.segments != [] && forall x :: x in entries ==> x.segments != []
    ensures Apart(entries, e) <==> Apart(Below(entries, KeyOf(e.segments[0])), Entry(e.segments[1..], e.field))
  {
    var key, rest := KeyOf(e.segments[0]), Entry(e.segments[1..], e.field);
    BelowMembers(entries, key);
    forall x | x in entries
      ensures Comparable(x, e) <==> StartsWith(x, key) && Comparable(Entry(x.segments[1..], x.field), rest)
    {
      ComparableBelow(x, e);
    }
  }

  ghost predicate SeparateBelow(entries: seq<Entry>) {
    forall k :: k in Heads(entries) ==> Separate(Below(entries, k))
  }

  lemma SeparateBelowAppend(entries: seq<Entry>, e: Entry)
    requires e.segments != []
    ensures SeparateBelow(entries + [e]) <==>
      SeparateBelow(entries) && Apart(Below(entries, KeyOf(e.segments[0])), Entry(e.segments[1..], e.field))
  {
    var key, rest := KeyOf(e.segments[0]), Entry(e.segments[1..], e.field);
    LastStep(entries, e);
    AppendBelow(entries, e);
    SeparateAppend(Below(entries, key), rest);
    if key !in Heads(entries) {
      NothingBelow(entries, key);
    }
    forall k | k != key
      ensures Below(entries + [e], k) == Below(entries, k) && (k in Heads(entries + [e]) <==> k in Heads(entries))
    {
      AppendElsewhere(entries, e, k);
    }
  }

  /** When no entry ends here, the entries are separate exactly when those below each key are. */
  lemma {:induction false} SeparateByKey(entries: seq<Entry>)
    requires forall x :: x in entries ==> x.segments != []
    ensures Separate(entries) <==> SeparateBelow(entries)
    decreases |entries|
  {
    if entries != [] {
      var before, e := entries[..|entries| - 1], entries[|entries| - 1];
      assert entries == before + [e];
      assert forall x :: x in before ==> x in entries;
      SeparateByKey(before);
      ApartBelow(before, e);
      SeparateBelowAppend(before, e);
      SeparateAppend(before, e);
    }
  }

  /** With an entry that ends here, separate means alone. */
  lemma SeparateWithHere(entries: seq<Entry>)
    requires Here(entries) != []
    ensures Separate(entries) <==> |entries| == 1
  {
    var before, e := entries[..|entries| - 1], entries[|entries| - 1];
    if before != [] {
      assert entries == before + [e];
      NotApartFromHere(before, e);
    }
  }

  lemma NotApartFromHere(before: seq<Entry>, e: Entry)
    requires before != [] && Here(before + [e]) != []
    ensures !Apart(before, e)
  {
    HereIsLastField(before + [e]);
    var x :| x in before + [e] && x.segments == [];
    assert before[0] in before;
    assert PathOf(x.segments) == [];
    if x in before {
      assert Comparable(x, e);
    } else {
      assert Comparable(before[0], e);
    }
  }

  /** A node shows some of its entries' fields, and all of them exactly when their paths are separate. */
  lemma {:induction false} NodeShows(entries: seq<Entry>, listKey: string)
    requires entries != []
    ensures multiset(NodeFields(Grouped(entries, listKey))) <= multiset(FieldsOf(entries))
    ensures |NodeFields(Grouped(entries, listKey))| == |entries| <==> Separate(entries)
    decreases Size(entries), 1, 0
  {
    Partition(entries);
    HereIsLastField(entries);
    KidsShow(entries, Heads(entries));
    if Here(entries) == [] {
      SeparateByKey(entries);
      NodeShowsKids(entries, listKey);
    } else {
      SeparateWithHere(entries);
      NodeShowsOne(entries, listKey);
    }
  }

  lemma NodeShowsKids(entries: seq<Entry>, listKey: string)
    requires Here(entries) == [] && LastField(entries).None?
    requires multiset(FieldsOf(entries)) == multiset(FieldsOf(Here(entries))) + FieldsBelow(entries, Heads(entries))
    ensures NodeFields(Grouped(entries, listKey)) == KidsFields(GroupedKids(entries, Heads(entries)))
    ensures multiset(FieldsOf(entries)) == FieldsBelow(entries, Heads(entries))
    ensures |FieldsBelow(entries, Heads(entries))| == |entries|
  {
    assert |multiset(FieldsOf(entries))| == |FieldsOf(entries)|;
  }

  /** With an entry that ends here a node shows one field, or loses the one that ends here. */
  lemma NodeShowsOne(entries: seq<Entry>, listKey: string)
    requires Here(entries) != [] && LastField(entries) == Some(Here(entries)[|Here(entries)| - 1].field)
    requires multiset(FieldsOf(entries)) == multiset(FieldsOf(Here(entries))) + FieldsBelow(entries, Heads(entries))
    requires multiset(KidsFields(GroupedKids(entries, Heads(entries)))) <= FieldsBelow(entries, Heads(entries))
    ensures multiset(NodeFields(Grouped(entries, listKey))) <= multiset(FieldsOf(entries))
    ensures |NodeFields(Grouped(entries, listKey))| == |entries| <==> |entries| == 1
  {
    var t := Grouped(entries, listKey);
    LastIsMember(Here(entries));
    SizesOf(entries);
    SubMultisetSize(multiset(KidsFields(t.kids)), FieldsBelow(entries, Heads(entries)));
    assert |multiset(KidsFields(t.kids))| == |KidsFields(t.kids)|;
    if t.listKey != "" || t.kids == [] {
      assert NodeFields(t) == [t.field.value];
    } else {
      assert NodeFields(t) == KidsFields(t.kids);
    }
  }

  lemma LastIsMember(here: seq<Entry>)
    requires here != []
    ensures multiset{here[|here| - 1].field} <= multiset(FieldsOf(here))
  {
    assert FieldsOf(here)[|here| - 1] in multiset(FieldsOf(here));
  }

  lemma SizesOf(entries: seq<Entry>)
    ensures |multiset(FieldsOf(entries))| == |entries|
    ensures |multiset(FieldsOf(Here(entries)))| == |Here(entries)|
  {
  }

  /** The same for the children below a list of keys. */
  lemma {:induction false} KidsShow(entries: seq<Entry>, heads: seq<string>)
    requires forall k :: k in heads ==> k in Heads(entries)
    ensures multiset(KidsFields(GroupedKids(entries, heads))) <= FieldsBelow(entries, heads)
    ensures |KidsFields(GroupedKids(entries, heads))| == |FieldsBelow(entries, heads)|
      <==> forall k :: k in heads ==> Separate(Below(entries, k))
    decreases Size(entries), 0, |heads|
  {
    if heads != [] {
      var before, key := heads[..|heads| - 1], heads[|heads| - 1];
      assert heads == before + [key];
      KidsShow(entries, before);
      BelowIsSmaller(entries, key);
      var below, tree := Below(entries, key), Grouped(Below(entries, key), ListKeyOf(entries, key));
      NodeShows(below, ListKeyOf(entries, key));
      KidsFieldsAppend(GroupedKids(entries, before), Kid(key, tree));
      SizesOf(below);
      var shown, all := KidsFields(GroupedKids(entries, before)), FieldsBelow(entries, before);
      SubMultisetSize(multiset(shown), all);
      SubMultisetSize(multiset(NodeFields(tree)), multiset(FieldsOf(below)));
      assert |multiset(shown)| == |shown| && |multiset(NodeFields(tree))| == |NodeFields(tree)|;
    }
  }

  lemma SubMultisetSize<T>(a: multiset<T>, b: multiset<T>)
    requires a <= b
    ensures |a| <= |b|
    ensures |a| == |b| ==> a == b
  {
    assert b == a + (b - a);
  }

  /** Neither path is a prefix of the other, unless exactly one of them is empty. */
  predicate Distinguished(a: Entry, b: Entry) {
    !Comparable(a, b) || (a.segments == []) != (b.segments == [])
  }

  ghost predicate AllDistinguished(entries: seq<Entry>) {
    forall i, j :: 0 <= i < j < |entries| ==> Distinguished(entries[i], entries[j])
  }

  /** Entries that end below the root. */
  function Deep(entries: seq<Entry>): seq<Entry> {
    if entries == [] then []
    else
      var last := entries[|entries| - 1];
      Deep(entries[..|entries| - 1]) + if last.segments == [] then [] else [last]
  }

  lemma {:induction false} DeepMembers(entries: seq<Entry>)
    ensures forall x :: x in Deep(entries) <==> x in entries && x.segments != []
    ensures forall x :: x in Here(entries) <==> x in entries && x.segments == []
  {
    if entries != [] {
      var before, e := entries[..|entries| - 1], entries[|entries| - 1];
      assert entries == before + [e];
      DeepMembers(before);
    }
  }

  /** Taking the root entries away leaves the first keys and what is below them as they are. */
  lemma {:induction false} DeepBelow(entries: seq<Entry>, key: string)
    ensures Heads(Deep(entries)) == Heads(entries)
    ensures Below(Deep(entries), key) == Below(entries, key)
  {
    if entries != [] {
      var before, e := entries[..|entries| - 1], entries[|entries| - 1];
      DeepBelow(before, key);
      if e.segments == [] {
        assert Deep(entries) == Deep(before);
      } else {
        LastStep(Deep(before), e);
        assert Deep(entries) == Deep(before) + [e];
      }
    }
  }

  lemma DeepSeparate(entries: seq<Entry>)
    ensures Separate(Deep(entries)) <==> forall k :: k in Heads(entries) ==> Separate(Below(entries, k))
  {
    DeepMembers(entries);
    SeparateByKey(Deep(entries));
    forall k ensures Below(Deep(entries), k) == Below(entries, k) && Heads(Deep(entries)) == Heads(entries) {
      DeepBelow(entries, k);
    }
    DeepBelow(entries, "");
  }

  lemma PartsAppend(entries: seq<Entry>, e: Entry)
    ensures Here(entries + [e]) == if e.segments == [] then Here(entries) + [e] else Here(entries)
    ensures Deep(entries + [e]) == if e.segments == [] then Deep(entries) else Deep(entries) + [e]
  {
    LastStep(entries, e);
    assert Here(entries) + [] == Here(entries) && Deep(entries) + [] == Deep(entries);
  }

  ghost predicate DistinguishedFrom(entries: seq<Entry>, e: Entry) {
    forall x :: x in entries ==> Distinguished(x, e)
  }

  lemma AllDistinguishedAppend(entries: seq<Entry>, e: Entry)
    ensures AllDistinguished(entries + [e]) <==> AllDistinguished(entries) && DistinguishedFrom(entries, e)
  {
    var all := entries + [e];
    if AllDistinguished(all) {
      forall x | x in entries ensures Distinguished(x, e) {
        var i :| 0 <= i < |entries| && entries[i] == x;
        assert Distinguished(all[i], all[|entries|]);
      }
      forall i, j | 0 <= i < j < |entries| ensures Distinguished(entries[i], entries[j]) {
        assert Distinguished(all[i], all[j]);
      }
    }
  }

  lemma DistinguishedFromParts(entries: seq<Entry>, e: Entry)
    ensures DistinguishedFrom(entries, e) <==> if e.segments == [] then Here(entries) == [] else Apart(Deep(entries), e)
  {
    DeepMembers(entries);
    if e.segments == [] && Here(entries) != [] {
      assert Here(entries)[0] in entries && !Distinguished(Here(entries)[0], e);
    }
  }

  lemma {:induction false} DistinguishedIsSeparate(entries: seq<Entry>)
    ensures AllDistinguished(entries) <==> |Here(entries)| <= 1 && Separate(Deep(entries))
    decreases |entries|
  {
    if entries != [] {
      var before, e := entries[..|entries| - 1], entries[|entries| - 1];
      assert entries == before + [e];
      DistinguishedIsSeparate(before);
      AllDistinguishedAppend(before, e);
      DistinguishedFromParts(before, e);
      PartsAppend(before, e);
      SeparateAppend(Deep(before), e);
    }
  }

  /**
   The nested view shows fields of the change only, and it shows every one of
   them, once, exactly when no path is a prefix of another, the empty path aside.
   */
  lemma WriterShowsAll(entries: seq<Entry>)
    ensures multiset(Shown(RenderTree(Build(entries)))) <= multiset(FieldsOf(entries))
    ensures multiset(Shown(RenderTree(Build(entries)))) == multiset(FieldsOf(entries)) <==> AllDistinguished(entries)
  {
    BuildIsGrouped(entries);
    var t := Build(entries);
    RenderTreeShows(t);
    Partition(entries);
    HereIsLastField(entries);
    KidsShow(entries, Heads(entries));
    DistinguishedIsSeparate(entries);
    DeepSeparate(entries);
    TreeShowsAll(
      multiset(FieldsOf(Here(entries))), FieldsBelow(entries, Heads(entries)),
      Here(entries), KidsFields(t.kids), TreeFields(t));
  }

  function TreeFields(t: Tree): seq<FieldDiff> {
    (if t.field.Some? then [t.field.value] else []) + KidsFields(t.kids)
  }

  lemma RenderTreeShows(t: Tree)
    ensures Shown(RenderTree(t)) == TreeFields(t)
  {
    RenderKidsShows(t.kids, BASE_INDENT);
    if t.field.Some? {
      ShownAppend([Leaf(BASE_INDENT, "(root)", t.field.value)], RenderKids(t.kids, BASE_INDENT));
    } else {
      assert RenderTree(t) == RenderKids(t.kids, BASE_INDENT);
    }
  }

  lemma TreeShowsAll(
      m: multiset<FieldDiff>, below: multiset<FieldDiff>, here: seq<Entry>, kids: seq<FieldDiff>, all: seq<FieldDiff>)
    requires m == multiset(FieldsOf(here)) && multiset(kids) <= below
    requires all == (if here == [] then [] else [here[|here| - 1].field]) + kids
    ensures multiset(all) <= m + below
    ensures multiset(all) == m + below <==> |here| <= 1 && |kids| == |below|
  {
    SubMultisetSize(multiset(kids), below);
    assert |multiset(kids)| == |kids| && |m| == |here| && |multiset(all)| == |all|;
    if here != [] {
      LastIsMember(here);
      if |here| == 1 {
        assert FieldsOf(here) == [here[0].field];
      }
    }
  }
}
