/**
 The tree a change's fields are shown as, as a value: fields inserted one by one
 under their path, and the rendering that walks the tree.
 */
module FieldTree {
  import opened Wrappers
  import opened Names

  /** One step of a field's path: a map key, a named list entry (`listKey` set), or a list index (name empty). */
  datatype PathSegment = PathSegment(name: string, listKey: string, idx: int)

  datatype FieldKind = Added | Removed | Changed

  datatype FieldDiff = FieldDiff(path: string, segments: seq<PathSegment>,
      kind: FieldKind, before: string, after: string)

  /** `strconv.Itoa`. */
  function Itoa(n: int): (s: string)
    ensures s != ""
    decreases n < 0, if n < 0 then -n else n
  {
    if n < 0 then "-" + Itoa(-n)
    else if n < 10 then ["0123456789"[n]]
    else Itoa(n / 10) + ["0123456789"[n % 10]]
  }

  function Digits(s: string): int {
    if s == [] then 0 else 10 * Digits(s[..|s| - 1]) + DigitOf(s[|s| - 1])
  }

  function DigitOf(c: char): int {
    c as int - '0' as int
  }

  /** A number is written in decimal, with a sign if it is negative: read back, it is the number. */
  lemma {:induction false} ItoaReadsBack(n: int)
    ensures 0 <= n ==> Digits(Itoa(n)) == n && forall c :: c in Itoa(n) ==> '0' <= c <= '9'
    ensures n < 0 ==> Itoa(n)[0] == '-' && Digits(Itoa(n)[1..]) == -n
    decreases n < 0, if n < 0 then -n else n
  {
    if n < 0 {
      ItoaReadsBack(-n);
    } else if n < 10 {
      assert Itoa(n)[..0] == [];
      DigitReadsBack(n);
    } else {
      ItoaReadsBack(n / 10);
      DigitReadsBack(n % 10);
      assert Itoa(n)[..|Itoa(n)| - 1] == Itoa(n / 10);
    }
  }

  lemma DigitReadsBack(d: int)
    requires 0 <= d < 10
    ensures DigitOf("0123456789"[d]) == d && '0' <= "0123456789"[d] <= '9'
  {
  }

  /** The key a segment is stored under. */
  function KeyOf(seg: PathSegment): string {
    if seg.listKey == "" && seg.name == "" then Itoa(seg.idx) else seg.name
  }

  /** A name is its own key, and a list key makes even an empty name one; without either the key is the index. */
  lemma KeyMeaning(seg: PathSegment)
    ensures seg.name != "" || seg.listKey != "" ==> KeyOf(seg) == seg.name
    ensures seg.name == "" && seg.listKey == "" && 0 <= seg.idx ==> Digits(KeyOf(seg)) == seg.idx
    ensures seg.name == "" && seg.listKey == "" && seg.idx < 0 ==>
      KeyOf(seg)[0] == '-' && Digits(KeyOf(seg)[1..]) == -seg.idx
  {
    ItoaReadsBack(seg.idx);
  }

  /** A node: the field that ends here, the list key, and the children in first-insertion order. */
  datatype Tree = Tree(field: Option<FieldDiff>, listKey: string, kids: seq<Kid>)

  datatype Kid = Kid(key: string, tree: Tree)

  const EMPTY := Tree(None, "", [])

  function Keys(kids: seq<Kid>): (keys: seq<string>)
    ensures |keys| == |kids| && forall i :: 0 <= i < |kids| ==> keys[i] == kids[i].key
  {
    seq(|kids|, i requires 0 <= i < |kids| => kids[i].key)
  }

  /** A segment that names a list entry marks its node; any other leaves it as it is. */
  function Mark(t: Tree, seg: PathSegment): Tree {
    if seg.listKey != "" then t.(listKey := seg.listKey) else t
  }

  function IndexOf(kids: seq<Kid>, key: string): (i: nat)
    ensures i <= |kids|
    ensures i < |kids| ==> kids[i].key == key
    ensures forall j :: 0 <= j < i ==> kids[j].key != key
  {
    if kids == [] || kids[0].key == key then 0 else 1 + IndexOf(kids[1..], key)
  }

  /** `insertYAMLField` on a tree value. */
  function Insert(t: Tree, segments: seq<PathSegment>, f: FieldDiff): Tree
    decreases |segments|
  {
    if segments == [] then t.(field := Some(f))
    else
      var key := KeyOf(segments[0]);
      var i := IndexOf(t.kids, key);
      var child := if i < |t.kids| then t.kids[i].tree else EMPTY;
      var kid := Kid(key, Insert(Mark(child, segments[0]), segments[1..], f));
      t.(kids := if i < |t.kids| then t.kids[i := kid] else t.kids + [kid])
  }

  datatype Entry = Entry(segments: seq<PathSegment>, field: FieldDiff)

  function Build(entries: seq<Entry>): Tree {
    if entries == [] then EMPTY
    else
      var last := entries[|entries| - 1];
      Insert(Build(entries[..|entries| - 1]), last.segments, last.field)
  }

  // ----- what the tree of a list of entries is, without inserting -----

  /** The field that ends at the root: the last entry with an empty path. */
  function LastField(entries: seq<Entry>): Option<FieldDiff> {
    if entries == [] then None
    else
      var last := entries[|entries| - 1];
      if last.segments == [] then Some(last.field) else LastField(entries[..|entries| - 1])
  }

  predicate StartsWith(e: Entry, key: string) {
    e.segments != [] && KeyOf(e.segments[0]) == key
  }

  /** The first keys of the entries, each where it first occurs. */
  function Heads(entries: seq<Entry>): (keys: seq<string>) {
    if entries == [] then []
    else
      var last := entries[|entries| - 1];
      var before := Heads(entries[..|entries| - 1]);
      if last.segments == [] || KeyOf(last.segments[0]) in before then before
      else before + [KeyOf(last.segments[0])]
  }

  /** The entries below a key, their first segment removed. */
  function Below(entries: seq<Entry>, key: string): seq<Entry> {
    if entries == [] then []
    else
      var last := entries[|entries| - 1];
      var before := Below(entries[..|entries| - 1], key);
      if StartsWith(last, key) then before + [Entry(last.segments[1..], last.field)] else before
  }

  /** The list key of a child: the last one an entry gave it. */
  function ListKeyOf(entries: seq<Entry>, key: string): string {
    if entries == [] then ""
    else
      var last := entries[|entries| - 1];
      if StartsWith(last, key) && last.segments[0].listKey != "" then last.segments[0].listKey
      else ListKeyOf(entries[..|entries| - 1], key)
  }

  /** The number of segments in all entries. */
  function Size(entries: seq<Entry>): nat {
    if entries == [] then 0 else Size(entries[..|entries| - 1]) + |entries[|entries| - 1].segments|
  }

  lemma {:induction false} BelowIsSmaller(entries: seq<Entry>, key: string)
    ensures Size(Below(entries, key)) + |Below(entries, key)| <= Size(entries)
    ensures key in Heads(entries) <==> Below(entries, key) != []
  {
    if entries != [] {
      var before, last := entries[..|entries| - 1], entries[|entries| - 1];
      BelowIsSmaller(before, key);
      if StartsWith(last, key) {
        var e := Entry(last.segments[1..], last.field);
        assert (Below(before, key) + [e])[..|Below(before, key)|] == Below(before, key);
      }
    }
  }

  /** The tree by grouping: the last field here, and one child per first key, grouped again. */
  ghost function Grouped(entries: seq<Entry>, listKey: string): Tree
    decreases Size(entries), 1, 0
  {
    Tree(LastField(entries), listKey, GroupedKids(entries, Heads(entries)))
  }

  ghost function GroupedKids(entries: seq<Entry>, heads: seq<string>): (kids: seq<Kid>)
    requires forall k :: k in heads ==> k in Heads(entries)
    ensures |kids| == |heads|
    decreases Size(entries), 0, |heads|
  {
    if heads == [] then []
    else
      var key := heads[|heads| - 1];
      BelowIsSmaller(entries, key);
      GroupedKids(entries, heads[..|heads| - 1]) + [Kid(key, Grouped(Below(entries, key), ListKeyOf(entries, key)))]
  }

  lemma {:induction false} GroupedKidsAt(entries: seq<Entry>, heads: seq<string>, i: nat)
    requires i < |heads| && forall k :: k in heads ==> k in Heads(entries)
    ensures GroupedKids(entries, heads)[i]
      == Kid(heads[i], Grouped(Below(entries, heads[i]), ListKeyOf(entries, heads[i])))
    decreases |heads|
  {
    if i < |heads| - 1 {
      GroupedKidsAt(entries, heads[..|heads| - 1], i);
    }
  }

  lemma {:induction false} HeadsDistinct(entries: seq<Entry>)
    ensures NoDuplicates(Heads(entries))
  {
    if entries != [] {
      HeadsDistinct(entries[..|entries| - 1]);
    }
  }

  lemma LastStep(entries: seq<Entry>, e: Entry)
    ensures (entries + [e])[..|entries + [e]| - 1] == entries
    ensures (entries + [e])[|entries + [e]| - 1] == e
  {
  }

  /** Appending an entry without segments sets the field and nothing else. */
  lemma AppendHere(entries: seq<Entry>, e: Entry, listKey: string)
    requires e.segments == []
    ensures Grouped(entries + [e], listKey) == Grouped(entries, listKey).(field := Some(e.field))
  {
    LastStep(entries, e);
    var heads := Heads(entries);
    assert Heads(entries + [e]) == heads;
    forall i | 0 <= i < |heads| ensures GroupedKids(entries + [e], heads)[i] == GroupedKids(entries, heads)[i] {
      GroupedKidsAt(entries + [e], heads, i);
      GroupedKidsAt(entries, heads, i);
    }
    assert GroupedKids(entries + [e], heads) == GroupedKids(entries, heads);
  }

  /** A child that does not get the new entry stays as it is. */
  lemma AppendElsewhere(entries: seq<Entry>, e: Entry, key: string)
    requires !StartsWith(e, key)
    ensures Below(entries + [e], key) == Below(entries, key)
    ensures ListKeyOf(entries + [e], key) == ListKeyOf(entries, key)
  {
    LastStep(entries, e);
  }

  /** The child that gets the new entry: marked by its first segment, then inserted into. */
  lemma AppendBelow(entries: seq<Entry>, e: Entry)
    requires e.segments != []
    ensures var key, rest := KeyOf(e.segments[0]), Entry(e.segments[1..], e.field);
      && Below(entries + [e], key) == Below(entries, key) + [rest]
      && Grouped(Below(entries, key), ListKeyOf(entries + [e], key))
        == Mark(Grouped(Below(entries, key), ListKeyOf(entries, key)), e.segments[0])
  {
    LastStep(entries, e);
  }

  /** Where a key is among the children of the grouped tree. */
  lemma IndexInGrouped(entries: seq<Entry>, key: string)
    ensures var heads := Heads(entries); var kids := GroupedKids(entries, heads);
      var i := IndexOf(kids, key);
      && i <= |kids| == |heads|
      && (if key in heads then i < |heads| && heads[i] == key else i == |heads|)
  {
    var heads := Heads(entries);
    forall i | 0 <= i < |heads| ensures GroupedKids(entries, heads)[i].key == heads[i] {
      GroupedKidsAt(entries, heads, i);
    }
  }

  /** The child an entry is inserted into, before it is marked. */
  lemma ChildInGrouped(entries: seq<Entry>, key: string)
    ensures var kids := GroupedKids(entries, Heads(entries)); var i := IndexOf(kids, key);
      (if i < |kids| then kids[i].tree else EMPTY) == Grouped(Below(entries, key), ListKeyOf(entries, key))
  {
    IndexInGrouped(entries, key);
    if key in Heads(entries) {
      GroupedKidsAt(entries, Heads(entries), IndexOf(GroupedKids(entries, Heads(entries)), key));
    } else {
      NothingBelow(entries, key);
    }
  }

  /** Of the children only the one under the entry's first key changes, or is added at the end. */
  lemma OtherKidsStay(entries: seq<Entry>, e: Entry, j: nat)
    requires e.segments != [] && j < |Heads(entries)|
    ensures Heads(entries) <= Heads(entries + [e])
    ensures Heads(entries)[j] != KeyOf(e.segments[0]) ==>
      GroupedKids(entries + [e], Heads(entries + [e]))[j] == GroupedKids(entries, Heads(entries))[j]
  {
    LastStep(entries, e);
    if Heads(entries)[j] != KeyOf(e.segments[0]) {
      GroupedKidsAt(entries + [e], Heads(entries + [e]), j);
      GroupedKidsAt(entries, Heads(entries), j);
      AppendElsewhere(entries, e, Heads(entries)[j]);
    }
  }

  /** One insertion into the grouped tree is the grouped tree of one more entry. */
  lemma {:induction false} InsertIsAppend(entries: seq<Entry>, listKey: string, e: Entry)
    ensures Insert(Grouped(entries, listKey), e.segments, e.field) == Grouped(entries + [e], listKey)
    decreases |e.segments|
  {
    if e.segments == [] {
      AppendHere(entries, e, listKey);
    } else {
      var key := KeyOf(e.segments[0]);
      AppendBelow(entries, e);
      InsertIsAppend(Below(entries, key), ListKeyOf(entries + [e], key), Entry(e.segments[1..], e.field));
      ChildInGrouped(entries, key);
      InsertedKids(entries, listKey, e, Kid(key, Grouped(Below(entries + [e], key), ListKeyOf(entries + [e], key))));
    }
  }

  lemma InsertedKids(entries: seq<Entry>, listKey: string, e: Entry, grown: Kid)
    requires e.segments != []
    requires grown
      == Kid(KeyOf(e.segments[0]),
        Grouped(Below(entries + [e], KeyOf(e.segments[0])), ListKeyOf(entries + [e], KeyOf(e.segments[0]))))
    ensures var t := Grouped(entries, listKey); var i := IndexOf(t.kids, KeyOf(e.segments[0]));
      Grouped(entries + [e], listKey) == t.(kids := if i < |t.kids| then t.kids[i := grown] else t.kids + [grown])
  {
    LastStep(entries, e);
    HeadsDistinct(entries);
    var key := KeyOf(e.segments[0]);
    var heads, heads' := Heads(entries), Heads(entries + [e]);
    var kids, kids' := GroupedKids(entries, heads), GroupedKids(entries + [e], heads');
    IndexInGrouped(entries, key);
    var i := IndexOf(kids, key);
    GroupedKidsAt(entries + [e], heads', i);
    forall j | 0 <= j < |heads| && j != i ensures kids'[j] == kids[j] {
      OtherKidsStay(entries, e, j);
    }
    OneKidGrown(kids, kids', i, grown);
  }

  lemma OneKidGrown(kids: seq<Kid>, kids': seq<Kid>, i: nat, grown: Kid)
    requires i <= |kids| && |kids'| == (if i < |kids| then |kids| else |kids| + 1) && kids'[i] == grown
    requires forall j :: 0 <= j < |kids| && j != i ==> kids'[j] == kids[j]
    ensures kids' == if i < |kids| then kids[i := grown] else kids + [grown]
  {
  }

  lemma {:induction false} NothingBelow(entries: seq<Entry>, key: string)
    requires key !in Heads(entries)
    ensures Below(entries, key) == [] && ListKeyOf(entries, key) == ""
    ensures Grouped([], "") == EMPTY
  {
    if entries != [] {
      NothingBelow(entries[..|entries| - 1], key);
    }
  }

  lemma BuildStep(entries: seq<Entry>, e: Entry)
    ensures Build(entries + [e]) == Insert(Build(entries), e.segments, e.field)
  {
    LastStep(entries, e);
  }

  /** Inserting one by one builds the grouped tree. */
  lemma {:induction false} BuildIsGrouped(entries: seq<Entry>)
    ensures Build(entries) == Grouped(entries, "")
    decreases |entries|
  {
    if entries == [] {
      NothingBelow(entries, "");
    } else {
      var before, e := entries[..|entries| - 1], entries[|entries| - 1];
      assert entries == before + [e];
      BuildIsGrouped(before);
      InsertIsAppend(before, "", e);
      BuildStep(before, e);
    }
  }
}
