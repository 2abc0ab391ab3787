/**
 The nested view's tree as it is built: nodes on the heap, each with a map of
 children and the order they were first inserted in, changed in place.
 */
module FieldTreeNodes {
  import opened Wrappers
  import opened Names
  import opened FieldTree

  /** The recursive case of `Insert`, with the child's place computed once. */
  lemma InsertUnfolds(t: Tree, segments: seq<PathSegment>, f: FieldDiff)
    requires segments != []
    ensures var key := KeyOf(segments[0]); var i := IndexOf(t.kids, key);
      var t' := if i < |t.kids| then t else t.(kids := t.kids + [Kid(key, EMPTY)]);
      Insert(t, segments, f)
        == t'.(kids := t'.kids[i := Kid(key, Insert(Mark(t'.kids[i].tree, segments[0]), segments[1..], f))])
  {
    var key := KeyOf(segments[0]);
    var i := IndexOf(t.kids, key);
    if i == |t.kids| {
      var kid := Kid(key, Insert(Mark(EMPTY, segments[0]), segments[1..], f));
      assert (t.kids + [Kid(key, EMPTY)])[i := kid] == t.kids + [kid];
    }
  }

  class Node {
    var children: map<string, Node>
    var order: seq<string>
    var listKey: string
    var field: Option<FieldDiff>
    /** The nodes of this subtree, and the value it stands for. */
    ghost var Repr: set<object>
    ghost var Model: Tree

    ghost predicate Valid()
      reads this, Repr
      decreases Repr
    {
      && this in Repr
      && NoDuplicates(order) && (forall k :: k in order <==> k in children)
      && (forall k :: k in children ==>
        children[k] in Repr && children[k].Repr <= Repr && this !in children[k].Repr && children[k].Valid())
      && (forall j, k :: j in children && k in children && j != k ==> children[j].Repr !! children[k].Repr)
      && Model.field == field && Model.listKey == listKey && |Model.kids| == |order|
      && (forall i :: 0 <= i < |order| ==> Model.kids[i] == Kid(order[i], children[order[i]].Model))
    }

    constructor ()
      ensures Valid() && fresh(Repr) && Model == EMPTY
    {
      children, order, listKey, field := map[], [], "", None;
      Repr, Model := {this}, EMPTY;
    }

    /** Where a key is in the order is where its child is in the model. */
    lemma KeyAt(key: string)
      requires Valid()
      ensures var i := IndexOf(Model.kids, key);
        if key in children then i < |order| && order[i] == key && Model.kids[i].tree == children[key].Model
        else i == |order|
    {
      var i := IndexOf(Model.kids, key);
      if key in children {
        var j :| 0 <= j < |order| && order[j] == key;
        assert Model.kids[j].key == key;
      }
      assert i < |order| ==> order[i] in order;
    }

    /**
     `insertYAMLField`: descends along the segments, adding nodes where there are none,
     and sets the field at the end.
     */
    method InsertField(segments: seq<PathSegment>, f: FieldDiff)
      requires Valid()
      modifies Repr
      ensures Valid() && fresh(Repr - old(Repr))
      ensures Model == Insert(old(Model), segments, f)
      decreases |segments|, 0
    {
      if |segments| == 0 {
        SetField(f);
        return;
      }
      var seg := segments[0];
      var key := KeyOf(seg);
      ghost var before := Model;
      ghost var i := EnsureChild(key);
      InsertBelow(key, i, seg, segments[1..], f);
      InsertUnfolds(before, segments, f);
    }

    /** Ends a path at this node. */
    method SetField(f: FieldDiff)
      requires Valid()
      modifies this
      ensures Valid() && Repr == old(Repr) && Model == old(Model).(field := Some(f))
    {
      field := Some(f);
      Model := Model.(field := Some(f));
    }

    /** Gives a key a child if it has none. */
    method EnsureChild(key: string) returns (ghost i: nat)
      requires Valid()
      modifies this
      ensures Valid() && fresh(Repr - old(Repr))
      ensures i == IndexOf(old(Model).kids, key) && key in children && i < |order| && order[i] == key
      ensures Model
        == if i < |old(Model).kids| then old(Model) else old(Model).(kids := old(Model).kids + [Kid(key, EMPTY)])
    {
      KeyAt(key);
      i := IndexOf(Model.kids, key);
      if key !in children {
        var added := new Node();
        AddChild(key, added);
      }
    }

    /** Registers a new child under a key that has none. */
    method AddChild(key: string, added: Node)
      requires Valid() && key !in children
      requires added.Valid() && added.Repr !! Repr && added.Model == EMPTY
      modifies this
      ensures Valid() && Repr == old(Repr) + added.Repr
      ensures key in children && children[key] == added
      ensures Model == old(Model).(kids := old(Model).kids + [Kid(key, EMPTY)])
    {
      children := children[key := added];
      order := order + [key];
      Repr := Repr + added.Repr;
      Model := Model.(kids := Model.kids + [Kid(key, EMPTY)]);
    }

    /** Marks a node when the segment that led here names a list entry, then inserts into it. */
    method Enter(seg: PathSegment, rest: seq<PathSegment>, f: FieldDiff)
      requires Valid()
      modifies Repr
      ensures Valid() && fresh(Repr - old(Repr))
      ensures Model == Insert(Mark(old(Model), seg), rest, f)
      decreases |rest|, 1
    {
      if seg.listKey != "" {
        listKey := seg.listKey;
        Model := Mark(Model, seg);
      }
      InsertField(rest, f);
    }

    /** Inserts into the child under a key. */
    method InsertBelow(key: string, ghost i: nat, seg: PathSegment, rest: seq<PathSegment>, f: FieldDiff)
      requires Valid() && key in children && i < |order| && order[i] == key
      modifies Repr
      ensures Valid() && fresh(Repr - old(Repr))
      ensures Model
        == old(Model).(kids := old(Model).kids[i := Kid(key, Insert(Mark(old(Model).kids[i].tree, seg), rest, f))])
      decreases |rest|, 2
    {
      var child := children[key];
      assert Model.kids[i] == Kid(key, child.Model);
      child.Enter(seg, rest, f);
      OthersStay(key);
      Absorb(key, i);
    }

    /** Everything `Valid` says except how far the child under one key reaches and what it stands for. */
    ghost predicate ValidBut(key: string)
      requires key in children
      reads this, Repr, children[key], children[key].Repr
    {
      && this in Repr
      && NoDuplicates(order) && (forall k :: k in order <==> k in children)
      && children[key] in Repr && this !in children[key].Repr && children[key].Valid()
      && (forall k :: k in children && k != key ==>
        && children[k] in Repr && children[k].Repr <= Repr && this !in children[k].Repr && children[k].Valid()
        && children[k].Repr !! children[key].Repr)
      && (forall j, k :: j in children && k in children && j != k && j != key && k != key ==>
        children[j].Repr !! children[k].Repr)
      && Model.field == field && Model.listKey == listKey && |Model.kids| == |order|
      && (forall i :: 0 <= i < |order| && order[i] != key ==> Model.kids[i] == Kid(order[i], children[order[i]].Model))
    }

    /** Takes over what changed below one child. */
    ghost method Absorb(key: string, i: nat)
      requires key in children && i < |order| && order[i] == key && ValidBut(key)
      modifies this
      ensures Valid() && Repr == old(Repr + children[key].Repr)
      ensures Model == old(Model).(kids := old(Model).kids[i := Kid(key, old(children[key].Model))])
    {
      Repr := Repr + children[key].Repr;
      Model := Model.(kids := Model.kids[i := Kid(key, children[key].Model)]);
    }

    /** Changing one child's subtree leaves the other children as they were. */
    twostate lemma OthersStay(key: string)
      requires old(Valid()) && old(key in children) && unchanged(this)
      requires children[key].Valid() && fresh(children[key].Repr - old(children[key].Repr))
      requires forall o :: o in old(Repr) && o !in old(children[key].Repr) ==> unchanged(o)
      ensures ValidBut(key)
    {
      forall k | k in children && k != key
        ensures children[k].Valid() && children[k].Model == old(children[k].Model)
        ensures children[k].Repr == old(children[k].Repr)
      {
      }
    }
  }
}

/** The nested view: builds the tree of a change's fields and writes it out. */
module FieldTreeWriter {
  import opened FieldTree
  import opened FieldReadBack
  import opened FieldRender
  import opened FieldTreeNodes

  /** `strings.Split(path, ".")`. */
  function SplitDots(path: string): (parts: seq<string>)
    ensures parts != []
  {
    if path == "" then [""]
    else
      var rest := SplitDots(path[1..]);
      if path[0] == '.' then [""] + rest else [[path[0]] + rest[0]] + rest[1..]
  }

  /** `fieldSegments`: the field's own segments, else its dotted path cut into map keys. */
  function FieldSegments(f: FieldDiff): seq<PathSegment> {
    if |f.segments| > 0 || f.path == "" then f.segments
    else
      var parts := SplitDots(f.path);
      seq(|parts|, i requires 0 <= i < |parts| => PathSegment(parts[i], "", -1))
  }

  ghost function JoinDots(parts: seq<string>): string
    requires parts != []
  {
    if |parts| == 1 then parts[0] else parts[0] + "." + JoinDots(parts[1..])
  }

  /** The parts have no dots and, joined by dots, are the path again. */
  lemma {:induction false} SplitDotsMeaning(path: string)
    ensures JoinDots(SplitDots(path)) == path
    ensures forall p :: p in SplitDots(path) ==> '.' !in p
  {
    if path != "" {
      SplitDotsMeaning(path[1..]);
      var rest := SplitDots(path[1..]);
      if path[0] == '.' {
        assert ([""] + rest)[1..] == rest;
        assert "" + "." + path[1..] == path;
      } else {
        JoinGrowsFirst([path[0]], rest);
        assert [path[0]] + path[1..] == path;
      }
    }
  }

  lemma JoinGrowsFirst(more: string, parts: seq<string>)
    requires parts != []
    ensures JoinDots([more + parts[0]] + parts[1..]) == more + JoinDots(parts)
  {
    var grown := [more + parts[0]] + parts[1..];
    if |parts| > 1 {
      assert grown[1..] == parts[1..];
      ConcatRegroups(more, parts[0], JoinDots(parts[1..]));
    }
  }

  lemma ConcatRegroups(a: string, b: string, c: string)
    ensures a + b + "." + c == a + (b + "." + c)
  {
  }

  function Names(segments: seq<PathSegment>): (names: seq<string>)
    ensures |names| == |segments| && forall i :: 0 <= i < |names| ==> names[i] == segments[i].name
  {
    seq(|segments|, i requires 0 <= i < |segments| => segments[i].name)
  }

  /** The segments of a field: its own; without any its dotted path's, as map keys; none for the empty path. */
  lemma FieldSegmentsMeaning(f: FieldDiff)
    ensures f.segments != [] ==> FieldSegments(f) == f.segments
    ensures f.segments == [] && f.path == "" ==> FieldSegments(f) == []
    ensures f.segments == [] && f.path != "" ==>
      && FieldSegments(f) != [] && JoinDots(Names(FieldSegments(f))) == f.path
      && forall s :: s in FieldSegments(f) ==> s.listKey == "" && s.idx == -1 && '.' !in s.name
  {
    if f.segments == [] && f.path != "" {
      SplitDotsMeaning(f.path);
      assert Names(FieldSegments(f)) == SplitDots(f.path);
    }
  }

  function EntriesOf(fields: seq<FieldDiff>): (entries: seq<Entry>)
    ensures |entries| == |fields|
    ensures forall i :: 0 <= i < |fields| ==> entries[i] == Entry(FieldSegments(fields[i]), fields[i])
  {
    seq(|fields|, i requires 0 <= i < |fields| => Entry(FieldSegments(fields[i]), fields[i]))
  }

  lemma BuildNext(fields: seq<FieldDiff>, i: nat)
    requires i < |fields|
    ensures Build(EntriesOf(fields[..i + 1]))
      == Insert(Build(EntriesOf(fields[..i])), FieldSegments(fields[i]), fields[i])
  {
    var e := Entry(FieldSegments(fields[i]), fields[i]);
    BuildStep(EntriesOf(fields[..i]), e);
    assert EntriesOf(fields[..i + 1]) == EntriesOf(fields[..i]) + [e];
  }

  /** `buildYAMLTree`. */
  method BuildTree(fields: seq<FieldDiff>) returns (root: Node)
    ensures root.Valid() && fresh(root.Repr)
    ensures root.Model == Build(EntriesOf(fields))
  {
    root := new Node();
    for i := 0 to |fields|
      invariant root.Valid() && fresh(root.Repr)
      invariant root.Model == Build(EntriesOf(fields[..i]))
    {
      BuildNext(fields, i);
      root.InsertField(FieldSegments(fields[i]), fields[i]);
    }
    assert fields[..|fields|] == fields;
  }

  lemma {:induction false} RenderKidsAppend(kids: seq<Kid>, kid: Kid, indent: nat)
    ensures RenderKids(kids + [kid], indent) == RenderKids(kids, indent) + RenderNode(kid.key, kid.tree, indent)
    decreases |kids|
  {
    var all, last := kids + [kid], RenderNode(kid.key, kid.tree, indent);
    if kids == [] {
      assert all[1..] == [];
      assert RenderKids(all, indent) == last + RenderKids(all[1..], indent);
    } else {
      RenderKidsAppend(kids[1..], kid, indent);
      assert all[1..] == kids[1..] + [kid];
      var first := RenderNode(kids[0].key, kids[0].tree, indent);
      assert RenderKids(all, indent) == first + RenderKids(all[1..], indent);
      assert first + (RenderKids(kids[1..], indent) + last) == first + RenderKids(kids[1..], indent) + last;
    }
  }

  lemma RenderKidsNext(kids: seq<Kid>, i: nat, indent: nat)
    requires i < |kids|
    ensures RenderKids(kids[..i + 1], indent)
      == RenderKids(kids[..i], indent) + RenderNode(kids[i].key, kids[i].tree, indent)
  {
    RenderKidsAppend(kids[..i], kids[i], indent);
    assert kids[..i + 1] == kids[..i] + [kids[i]];
  }

  /** `writeYAMLChildren`. */
  method WriteChildren(node: Node, indent: nat) returns (out: seq<Line>)
    requires node.Valid()
    ensures out == RenderKids(node.Model.kids, indent)
    decreases node.Repr, 0
  {
    out := [];
    ghost var kids := node.Model.kids;
    for i := 0 to |node.order|
      invariant out == RenderKids(kids[..i], indent)
    {
      var key := node.order[i];
      assert kids[i] == Kid(key, node.children[key].Model);
      var more := WriteNode(key, node.children[key], indent);
      RenderKidsNext(kids, i, indent);
      out := out + more;
    }
    assert kids[..|kids|] == kids;
  }

  /** `writeYAMLNode`. */
  method WriteNode(key: string, node: Node, indent: nat) returns (out: seq<Line>)
    requires node.Valid()
    ensures out == RenderNode(key, node.Model, indent)
    decreases node.Repr, 1
  {
    if node.listKey != "" {
      out := [Item(indent, node.listKey, key)];
      if node.field.Some? {
        return out + [Block(indent + 1, node.field.value)];
      }
      var more := WriteChildren(node, indent + 1);
      return out + more;
    }
    if node.field.Some? && |node.order| == 0 {
      return [Leaf(indent, key, node.field.value)];
    }
    var more := WriteChildren(node, indent + 1);
    out := [Header(indent, key)] + more;
  }

  /** `writeYAMLTree`: shows every field once exactly when their paths are distinguished. */
  method WriteTree(fields: seq<FieldDiff>) returns (out: seq<Line>)
    ensures out == RenderTree(Build(EntriesOf(fields)))
    ensures multiset(Shown(out)) <= multiset(fields)
    ensures multiset(Shown(out)) == multiset(fields) <==> AllDistinguished(EntriesOf(fields))
    // Every line is read back as a path of the change, in order; a field's line as its own path.
    ensures ReadsBack(EntriesOf(fields), out)
    ensures forall i :: 0 <= i < |out| && (out[i].Leaf? || out[i].Block?) ==> ShowsAtItsPath(fields, out, i)
  {
    var root := BuildTree(fields);
    out := [];
    if root.field.Some? {
      out := [Leaf(BASE_INDENT, "(root)", root.field.value)];
    }
    var more := WriteChildren(root, BASE_INDENT);
    out := out + more;
    WriterShowsAll(EntriesOf(fields));
    assert FieldsOf(EntriesOf(fields)) == fields;
    LinesReadBack(EntriesOf(fields));
    ShownAtTheirPaths(fields, out);
  }

  lemma ShownAtTheirPaths(fields: seq<FieldDiff>, lines: seq<Line>)
    requires ReadsBack(EntriesOf(fields), lines)
    ensures forall i :: 0 <= i < |lines| && (lines[i].Leaf? || lines[i].Block?) ==> ShowsAtItsPath(fields, lines, i)
  {
    forall i | 0 <= i < |lines| && (lines[i].Leaf? || lines[i].Block?) ensures ShowsAtItsPath(fields, lines, i) {
      var e := ShownLineIsEntry(EntriesOf(fields), lines, i);
    }
  }

  /** A field of the change, on a line that is read as its path; the first line, if its path is empty. */
  ghost predicate ShowsAtItsPath(fields: seq<FieldDiff>, lines: seq<Line>, i: nat)
    requires i < |lines| && (lines[i].Leaf? || lines[i].Block?)
  {
    var segments := FieldSegments(lines[i].field);
    && lines[i].field in fields
    && if segments == [] then i == 0 else ReadsAs(lines, i, PathOf(segments))
  }
}
