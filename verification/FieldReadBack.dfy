/**
 Reading the nested view back: where each line belongs, from the lines alone, and
 that this is the place its field has in the change. Lines are in order of first
 insertion at every level.
 */
module FieldReadBack {
  import opened Wrappers
  import opened FieldTree
  import opened FieldRender

  // ----- reading lines -----

  /** A line that others can stand under, at this level below the base indent. */
  predicate Opens(line: Line, level: nat, key: string) {
    (line.Header? || line.Item?) && line.indent == BASE_INDENT + level && line.key == key
  }

  /** Line j opens this key and level, and every line after it up to line i is indented deeper. */
  ghost predicate OpensUntil(lines: seq<Line>, j: nat, i: nat, level: nat, key: string)
    requires j < i <= |lines|
  {
    Opens(lines[j], level, key) && forall k :: j < k < i ==> BASE_INDENT + level < lines[k].indent
  }

  /** What comes at line i stands under a line with this key and level. */
  ghost predicate StandsUnder(lines: seq<Line>, i: nat, level: nat, key: string)
    requires i <= |lines|
  {
    exists j :: 0 <= j < i && OpensUntil(lines, j, i, level, key)
  }

  /**
   A line is read as this path: the keys it stands under, one for each smaller indent,
   and then its own, unless it is the dump of the entry it stands under.
   */
  ghost predicate ReadsAs(lines: seq<Line>, i: nat, path: KeyPath)
    requires i < |lines|
  {
    var above := if lines[i].Block? then |path| else |path| - 1;
    && path != [] && lines[i].indent == BASE_INDENT + above
    && (!lines[i].Block? ==> lines[i].key == path[|path| - 1])
    && forall n :: 0 <= n < above ==> StandsUnder(lines, i, n, path[n])
  }

  // ----- the paths of the lines -----

  function Prepend(key: string, paths: seq<KeyPath>): (r: seq<KeyPath>)
    ensures |r| == |paths| && forall i :: 0 <= i < |r| ==> r[i] == [key] + paths[i]
  {
    seq(|paths|, i requires 0 <= i < |paths| => [key] + paths[i])
  }

  /** The paths, from a node down, of what is written for it. */
  function NodeOutline(key: string, t: Tree): seq<KeyPath>
    decreases t, 1
  {
    if t.listKey != "" && t.field.Some? then [[key], [key]]
    else if t.listKey == "" && t.field.Some? && t.kids == [] then [[key]]
    else [[key]] + Prepend(key, Outline(t.kids))
  }

  function Outline(kids: seq<Kid>): seq<KeyPath>
    decreases kids, 0
  {
    if kids == [] then [] else NodeOutline(kids[0].key, kids[0].tree) + Outline(kids[1..])
  }

  lemma {:induction false} NodeOutlineSize(key: string, t: Tree, indent: nat)
    ensures |NodeOutline(key, t)| == |RenderNode(key, t, indent)|
    ensures forall i :: 0 <= i < |RenderNode(key, t, indent)| ==> indent <= RenderNode(key, t, indent)[i].indent
    ensures forall i :: 0 <= i < |NodeOutline(key, t)| ==>
      NodeOutline(key, t)[i] != [] && NodeOutline(key, t)[i][0] == key
    decreases t, 1
  {
    OutlineSize(t.kids, indent + 1);
  }

  lemma {:induction false} OutlineSize(kids: seq<Kid>, indent: nat)
    ensures |Outline(kids)| == |RenderKids(kids, indent)|
    ensures forall i :: 0 <= i < |RenderKids(kids, indent)| ==> indent <= RenderKids(kids, indent)[i].indent
    ensures forall i :: 0 <= i < |Outline(kids)| ==> Outline(kids)[i] != []
    decreases kids, 0
  {
    if kids != [] {
      NodeOutlineSize(kids[0].key, kids[0].tree, indent);
      OutlineSize(kids[1..], indent);
    }
  }

  /** What comes at line a stands under these keys. */
  ghost predicate OpenAt(lines: seq<Line>, a: nat, prefix: KeyPath)
    requires a <= |lines|
  {
    forall n :: 0 <= n < |prefix| ==> StandsUnder(lines, a, n, prefix[n])
  }

  /** Deeper lines close nothing. */
  lemma StaysOpen(lines: seq<Line>, a: nat, b: nat, prefix: KeyPath)
    requires a <= b <= |lines| && OpenAt(lines, a, prefix)
    requires forall k :: a <= k < b ==> BASE_INDENT + |prefix| <= lines[k].indent
    ensures OpenAt(lines, b, prefix)
  {
    forall n | 0 <= n < |prefix| ensures StandsUnder(lines, b, n, prefix[n]) {
      assert StandsUnder(lines, a, n, prefix[n]);
      var j :| 0 <= j < a && OpensUntil(lines, j, a, n, prefix[n]);
      assert OpensUntil(lines, j, b, n, prefix[n]);
    }
  }

  /** A header or item opens one more key. */
  lemma OpensOneMore(lines: seq<Line>, a: nat, prefix: KeyPath, key: string)
    requires a < |lines| && OpenAt(lines, a, prefix) && Opens(lines[a], |prefix|, key)
    ensures OpenAt(lines, a + 1, prefix + [key])
  {
    StaysOpen(lines, a, a + 1, prefix);
    var keys := prefix + [key];
    forall n | 0 <= n < |keys| ensures StandsUnder(lines, a + 1, n, keys[n]) {
      if n == |prefix| {
        assert OpensUntil(lines, a, a + 1, n, keys[n]);
      } else {
        assert StandsUnder(lines, a + 1, n, prefix[n]) && keys[n] == prefix[n];
      }
    }
  }

  /** A line with this key one level below what stands open. */
  lemma ReadsHere(lines: seq<Line>, a: nat, prefix: KeyPath, key: string)
    requires a < |lines| && OpenAt(lines, a, prefix)
    requires !lines[a].Block? && lines[a].indent == BASE_INDENT + |prefix| && lines[a].key == key
    ensures ReadsAs(lines, a, prefix + [key])
  {
    var path := prefix + [key];
    forall n | 0 <= n < |path| - 1 ensures StandsUnder(lines, a, n, path[n]) {
      assert path[n] == prefix[n];
    }
  }

  lemma BlockReads(lines: seq<Line>, a: nat, prefix: KeyPath)
    requires a < |lines| && OpenAt(lines, a, prefix) && prefix != []
    requires lines[a].Block? && lines[a].indent == BASE_INDENT + |prefix|
    ensures ReadsAs(lines, a, prefix)
  {
  }

  /** The lines from a on, as many as there are paths, are read as these paths below the prefix. */
  ghost predicate ReadFrom(lines: seq<Line>, a: nat, prefix: KeyPath, paths: seq<KeyPath>) {
    a + |paths| <= |lines| && forall i :: 0 <= i < |paths| ==> ReadsAs(lines, a + i, prefix + paths[i])
  }

  lemma ReadFromAppend(lines: seq<Line>, a: nat, prefix: KeyPath, first: seq<KeyPath>, rest: seq<KeyPath>)
    requires ReadFrom(lines, a, prefix, first) && ReadFrom(lines, a + |first|, prefix, rest)
    ensures ReadFrom(lines, a, prefix, first + rest)
  {
    forall i | 0 <= i < |first + rest| ensures ReadsAs(lines, a + i, prefix + (first + rest)[i]) {
      if |first| <= i {
        assert ReadsAs(lines, a + |first| + (i - |first|), prefix + rest[i - |first|]);
      }
    }
  }

  lemma ReadBelow(lines: seq<Line>, a: nat, prefix: KeyPath, key: string, paths: seq<KeyPath>)
    requires ReadFrom(lines, a, prefix + [key], paths)
    ensures ReadFrom(lines, a, prefix, Prepend(key, paths))
  {
    forall i | 0 <= i < |paths| ensures ReadsAs(lines, a + i, prefix + Prepend(key, paths)[i]) {
      assert prefix + ([key] + paths[i]) == prefix + [key] + paths[i];
    }
  }

  /** These lines stand at a. */
  ghost predicate BlockAt(lines: seq<Line>, a: nat, block: seq<Line>) {
    a + |block| <= |lines| && forall k {:trigger block[k]} :: 0 <= k < |block| ==> lines[a + k] == block[k]
  }

  lemma BlockOf(lines: seq<Line>, a: nat, first: seq<Line>, rest: seq<Line>)
    requires BlockAt(lines, a, first + rest)
    ensures BlockAt(lines, a, first) && BlockAt(lines, a + |first|, rest)
  {
    var block := first + rest;
    forall k | 0 <= k < |first| ensures lines[a + k] == first[k] {
      assert block[k] == first[k];
    }
    forall k | 0 <= k < |rest| ensures lines[a + |first| + k] == rest[k] {
      assert block[|first| + k] == rest[k];
    }
  }

  /** A named entry with its dump. */
  lemma DumpIsRead(lines: seq<Line>, a: nat, prefix: KeyPath, key: string)
    requires a + 1 < |lines| && OpenAt(lines, a, prefix) && Opens(lines[a], |prefix|, key)
    requires lines[a + 1].Block? && lines[a + 1].indent == BASE_INDENT + |prefix| + 1
    ensures ReadFrom(lines, a, prefix, [[key], [key]])
  {
    ReadsHere(lines, a, prefix, key);
    OpensOneMore(lines, a, prefix, key);
    BlockReads(lines, a + 1, prefix + [key]);
  }

  /** A line that is read, and what is read below it. */
  lemma NestIsRead(lines: seq<Line>, a: nat, prefix: KeyPath, key: string, below: seq<KeyPath>)
    requires a < |lines| && OpenAt(lines, a, prefix) && Opens(lines[a], |prefix|, key)
    requires ReadFrom(lines, a + 1, prefix + [key], below)
    ensures ReadFrom(lines, a, prefix, [[key]] + Prepend(key, below))
  {
    ReadsHere(lines, a, prefix, key);
    ReadBelow(lines, a + 1, prefix, key, below);
    ReadFromAppend(lines, a, prefix, [[key]], Prepend(key, below));
  }

  /** What is written for a node is read as the node's outline. */
  lemma {:induction false} NodeIsRead(lines: seq<Line>, a: nat, prefix: KeyPath, key: string, t: Tree)
    requires a <= |lines| && OpenAt(lines, a, prefix)
    requires BlockAt(lines, a, RenderNode(key, t, BASE_INDENT + |prefix|))
    ensures ReadFrom(lines, a, prefix, NodeOutline(key, t))
    decreases t, 1
  {
    var indent := BASE_INDENT + |prefix|;
    var out := RenderNode(key, t, indent);
    assert lines[a + 0] == out[0];
    if t.listKey != "" && t.field.Some? {
      assert lines[a + 1] == out[1];
      DumpIsRead(lines, a, prefix, key);
    } else if t.listKey == "" && t.field.Some? && t.kids == [] {
      ReadsHere(lines, a, prefix, key);
    } else {
      var first := NodeShape(key, t, indent);
      BlockOf(lines, a, [first], RenderKids(t.kids, indent + 1));
      OpensOneMore(lines, a, prefix, key);
      KidsAreRead(lines, a + 1, prefix + [key], t.kids);
      NestIsRead(lines, a, prefix, key, Outline(t.kids));
    }
  }

  lemma {:induction false} KidsAreRead(lines: seq<Line>, a: nat, prefix: KeyPath, kids: seq<Kid>)
    requires a <= |lines| && OpenAt(lines, a, prefix)
    requires BlockAt(lines, a, RenderKids(kids, BASE_INDENT + |prefix|))
    ensures ReadFrom(lines, a, prefix, Outline(kids))
    decreases kids, 0
  {
    if kids != [] {
      var indent := BASE_INDENT + |prefix|;
      var first, rest := RenderNode(kids[0].key, kids[0].tree, indent), RenderKids(kids[1..], indent);
      var out := RenderKids(kids, indent);
      NodeOutlineSize(kids[0].key, kids[0].tree, indent);
      assert out == first + rest;
      BlockOf(lines, a, first, rest);
      NodeIsRead(lines, a, prefix, kids[0].key, kids[0].tree);
      forall k | a <= k < a + |first| ensures BASE_INDENT + |prefix| <= lines[k].indent {
        assert lines[a + (k - a)] == first[k - a];
      }
      StaysOpen(lines, a, a + |first|, prefix);
      KidsAreRead(lines, a + |first|, prefix, kids[1..]);
      ReadFromAppend(lines, a, prefix, NodeOutline(kids[0].key, kids[0].tree), Outline(kids[1..]));
    }
  }

  // ----- what the entries say about a path -----

  predicate SomeStarts(entries: seq<Entry>, path: KeyPath) {
    exists e :: e in entries && path <= PathOf(e.segments)
  }

  /** Some entry's path goes on below this one. */
  predicate Deeper(entries: seq<Entry>, path: KeyPath) {
    exists e :: e in entries && path < PathOf(e.segments)
  }

  /** The list key at a path: the last one an entry that passes there gives it. */
  function LastListKey(entries: seq<Entry>, path: KeyPath): string
    requires path != []
  {
    if entries == [] then ""
    else
      var last := entries[|entries| - 1];
      if path <= PathOf(last.segments) && last.segments[|path| - 1].listKey != "" then last.segments[|path| - 1].listKey
      else LastListKey(entries[..|entries| - 1], path)
  }

  lemma PathOfStep(segments: seq<PathSegment>)
    requires segments != []
    ensures PathOf(segments) == [KeyOf(segments[0])] + PathOf(segments[1..])
  {
  }

  lemma PrefixStep(key: string, path: KeyPath, first: string, rest: KeyPath)
    ensures [key] + path <= [first] + rest <==> key == first && path <= rest
    ensures [key] + path < [first] + rest <==> key == first && path < rest
  {
    var a, b := [key] + path, [first] + rest;
    if a <= b {
      assert a[0] == b[0] && a[1..] == path && b[1..] == rest;
      assert b[..|a|][1..] == rest[..|path|];
    }
    if key == first && path <= rest {
      assert b[..|a|] == [first] + rest[..|path|];
    }
  }

  /** What starts with a key is what is below it. */
  lemma {:induction false} StartsBelow(entries: seq<Entry>, key: string, path: KeyPath)
    ensures SomeStarts(entries, [key] + path) <==> SomeStarts(Below(entries, key), path)
    ensures Deeper(entries, [key] + path) <==> Deeper(Below(entries, key), path)
  {
    if entries != [] {
      var before, last := entries[..|entries| - 1], entries[|entries| - 1];
      StartsBelow(before, key, path);
      assert forall e :: e in entries <==> e in before || e == last;
      OneStartsBelow(last, key, path);
      if StartsWith(last, key) {
        var below := Entry(last.segments[1..], last.field);
        assert forall e :: e in Below(entries, key) <==> e in Below(before, key) || e == below;
      }
    }
  }

  lemma OneStartsBelow(e: Entry, key: string, path: KeyPath)
    ensures StartsWith(e, key) ==>
      && ([key] + path <= PathOf(e.segments) <==> path <= PathOf(e.segments[1..]))
      && ([key] + path < PathOf(e.segments) <==> path < PathOf(e.segments[1..]))
    ensures !StartsWith(e, key) ==> !([key] + path <= PathOf(e.segments))
  {
    if e.segments != [] {
      PathOfStep(e.segments);
      PrefixStep(key, path, KeyOf(e.segments[0]), PathOf(e.segments[1..]));
    }
  }

  lemma {:induction false} LastListKeyBelow(entries: seq<Entry>, key: string, path: KeyPath)
    requires path != []
    ensures LastListKey(entries, [key] + path) == LastListKey(Below(entries, key), path)
  {
    if entries != [] {
      var before, last := entries[..|entries| - 1], entries[|entries| - 1];
      LastListKeyBelow(before, key, path);
      OneStartsBelow(last, key, path);
      if StartsWith(last, key) {
        LastStep(Below(before, key), Entry(last.segments[1..], last.field));
      }
    }
  }

  lemma {:induction false} LastListKeyHere(entries: seq<Entry>, key: string)
    ensures LastListKey(entries, [key]) == ListKeyOf(entries, key)
  {
    if entries != [] {
      LastListKeyHere(entries[..|entries| - 1], key);
      OneStartsBelow(entries[|entries| - 1], key, []);
      assert [key] + [] == [key];
    }
  }

  lemma {:induction false} DeeperHere(entries: seq<Entry>)
    ensures Deeper(entries, []) <==> Heads(entries) != []
  {
    if entries != [] {
      var before, last := entries[..|entries| - 1], entries[|entries| - 1];
      DeeperHere(before);
      assert forall e :: e in entries <==> e in before || e == last;
      assert [] < PathOf(last.segments) <==> last.segments != [];
    }
  }

  // ----- what each line says -----

  /**
   A leaf shows the last field of its path, where no path goes on and no list key is
   given; a header stands where some path goes on; an item carries the list key of its
   entry; a dump is the last field of a path with a list key.
   */
  ghost predicate LineSays(entries: seq<Entry>, line: Line, path: KeyPath) {
    path != [] && match line
      case Leaf(_, _, f) =>
        LastAt(entries, path) == Some(f) && LastListKey(entries, path) == "" && !Deeper(entries, path)
      case Header(_, _) => LastListKey(entries, path) == "" && Deeper(entries, path)
      case Item(_, listKey, _) => LastListKey(entries, path) == listKey != "" && SomeStarts(entries, path)
      case Block(_, f) => LastAt(entries, path) == Some(f) && LastListKey(entries, path) != ""
  }

  ghost predicate LinesSay(entries: seq<Entry>, lines: seq<Line>, paths: seq<KeyPath>) {
    |lines| == |paths| && forall i :: 0 <= i < |lines| ==> LineSays(entries, lines[i], paths[i])
  }

  lemma LineSaysBelow(entries: seq<Entry>, key: string, line: Line, path: KeyPath)
    requires LineSays(Below(entries, key), line, path)
    ensures LineSays(entries, line, [key] + path)
  {
    LastAtBelow(entries, key, path);
    LastListKeyBelow(entries, key, path);
    StartsBelow(entries, key, path);
  }

  ghost function KidOf(entries: seq<Entry>, key: string): Tree {
    Grouped(Below(entries, key), ListKeyOf(entries, key))
  }

  /** What the node of a first key holds. */
  lemma NodeHolds(entries: seq<Entry>, key: string)
    requires key in Heads(entries)
    ensures var t := KidOf(entries, key);
      && t.field == LastAt(entries, [key]) && t.listKey == LastListKey(entries, [key])
      && (t.kids == [] <==> !Deeper(entries, [key])) && SomeStarts(entries, [key])
  {
    LastAtBelow(entries, key, []);
    LastFieldIsLastAt(Below(entries, key));
    LastListKeyHere(entries, key);
    StartsBelow(entries, key, []);
    DeeperHere(Below(entries, key));
    assert [key] + [] == [key];
    BelowIsSmaller(entries, key);
    var e := Below(entries, key)[0];
    assert e in Below(entries, key) && [] <= PathOf(e.segments);
  }

  lemma {:induction false} NodeSays(entries: seq<Entry>, key: string, indent: nat)
    requires key in Heads(entries)
    ensures LinesSay(entries, RenderNode(key, KidOf(entries, key), indent), NodeOutline(key, KidOf(entries, key)))
    decreases Size(entries), 0, 0
  {
    var t := KidOf(entries, key);
    NodeHolds(entries, key);
    if !(t.field.Some? && (t.listKey != "" || t.kids == [])) {
      var below := Below(entries, key);
      BelowIsSmaller(entries, key);
      KidsSay(below, 0, indent + 1);
      assert GroupedKids(below, Heads(below))[0..] == t.kids;
      NestSays(entries, key, indent);
    }
  }

  lemma NestSays(entries: seq<Entry>, key: string, indent: nat)
    requires key in Heads(entries)
    requires var t := KidOf(entries, key);
      && !(t.field.Some? && (t.listKey != "" || t.kids == []))
      && LinesSay(Below(entries, key), RenderKids(t.kids, indent + 1), Outline(t.kids))
    ensures LinesSay(entries, RenderNode(key, KidOf(entries, key), indent), NodeOutline(key, KidOf(entries, key)))
  {
    var t := KidOf(entries, key);
    var lines, paths := RenderKids(t.kids, indent + 1), Outline(t.kids);
    LinesSayBelow(entries, key, lines, paths);
    var first := NodeShape(key, t, indent);
    FirstSays(entries, key, indent);
    LinesSayAppend(entries, [first], [[key]], lines, Prepend(key, paths));
  }

  lemma {:induction false} StartsSomehow(entries: seq<Entry>, path: KeyPath)
    requires SomeStarts(entries, path)
    ensures LastAt(entries, path).Some? || Deeper(entries, path)
  {
    var before, last := entries[..|entries| - 1], entries[|entries| - 1];
    assert forall e :: e in entries <==> e in before || e == last;
    if !(path <= PathOf(last.segments)) {
      StartsSomehow(before, path);
    } else if path != PathOf(last.segments) {
      assert path < PathOf(last.segments);
    }
  }

  lemma FirstSays(entries: seq<Entry>, key: string, indent: nat)
    requires key in Heads(entries)
    ensures RenderNode(key, KidOf(entries, key), indent) != []
    ensures LineSays(entries, RenderNode(key, KidOf(entries, key), indent)[0], [key])
  {
    NodeHolds(entries, key);
    StartsSomehow(entries, [key]);
  }

  /** A node that is neither a leaf nor a dump: one line and then what is below. */
  lemma NodeShape(key: string, t: Tree, indent: nat) returns (first: Line)
    requires !(t.field.Some? && (t.listKey != "" || t.kids == []))
    ensures RenderNode(key, t, indent) == [first] + RenderKids(t.kids, indent + 1)
    ensures NodeOutline(key, t) == [[key]] + Prepend(key, Outline(t.kids))
    ensures Opens(first.(indent := BASE_INDENT), 0, key) && first.indent == indent
  {
    first := RenderNode(key, t, indent)[0];
  }

  lemma LinesSayAppend(
      entries: seq<Entry>, lines: seq<Line>, paths: seq<KeyPath>, lines': seq<Line>, paths': seq<KeyPath>)
    requires LinesSay(entries, lines, paths) && LinesSay(entries, lines', paths')
    ensures LinesSay(entries, lines + lines', paths + paths')
  {
  }

  lemma LinesSayBelow(entries: seq<Entry>, key: string, lines: seq<Line>, paths: seq<KeyPath>)
    requires LinesSay(Below(entries, key), lines, paths)
    ensures LinesSay(entries, lines, Prepend(key, paths))
  {
    forall i | 0 <= i < |lines| ensures LineSays(entries, lines[i], Prepend(key, paths)[i]) {
      LineSaysBelow(entries, key, lines[i], paths[i]);
    }
  }

  lemma {:induction false} KidsSay(entries: seq<Entry>, m: nat, indent: nat)
    requires m <= |Heads(entries)|
    ensures var kids := GroupedKids(entries, Heads(entries))[m..];
      LinesSay(entries, RenderKids(kids, indent), Outline(kids))
    decreases Size(entries), 1, |Heads(entries)| - m
  {
    var heads := Heads(entries);
    if m < |heads| {
      var kids := GroupedKids(entries, heads)[m..];
      GroupedKidsAt(entries, heads, m);
      assert kids[1..] == GroupedKids(entries, heads)[m + 1..];
      NodeSays(entries, heads[m], indent);
      KidsSay(entries, m + 1, indent);
    }
  }

  // ----- the order of the lines -----

  /** When an entry first starts with x, none has started with y. */
  ghost predicate FirstBefore(entries: seq<Entry>, x: KeyPath, y: KeyPath) {
    exists k :: 0 <= k <= |entries| && StartedAt(entries, k, x, y)
  }

  ghost predicate StartedAt(entries: seq<Entry>, k: nat, x: KeyPath, y: KeyPath)
    requires k <= |entries|
  {
    SomeStarts(entries[..k], x) && !SomeStarts(entries[..k], y)
  }

  /** Where two paths part, the one whose key was inserted first comes first; and above comes before below. */
  ghost predicate Comes(entries: seq<Entry>, p: KeyPath, q: KeyPath) {
    p <= q || exists n :: 0 <= n < |p| && n < |q| && PartsAt(entries, p, q, n)
  }

  ghost predicate PartsAt(entries: seq<Entry>, p: KeyPath, q: KeyPath, n: nat)
    requires n < |p| && n < |q|
  {
    p[..n] == q[..n] && FirstBefore(entries, p[..n + 1], q[..n + 1])
  }

  /** Lines are in order, and only a dump has the path of the line before it, which no other line has. */
  ghost predicate InOrder(entries: seq<Entry>, lines: seq<Line>, paths: seq<KeyPath>) {
    && |lines| == |paths|
    && (forall i, j :: 0 <= i < j < |paths| ==> Comes(entries, paths[i], paths[j]))
    && OnlyDumpsRepeat(lines, paths)
  }

  ghost predicate OnlyDumpsRepeat(lines: seq<Line>, paths: seq<KeyPath>)
    requires |lines| == |paths|
  {
    forall i, j :: 0 <= i < j < |paths| && paths[i] == paths[j] ==> j == i + 1 && lines[i].Item? && lines[j].Block?
  }

  lemma {:induction false} BelowOfTake(entries: seq<Entry>, key: string, m: nat) returns (k: nat)
    requires m <= |Below(entries, key)|
    ensures k <= |entries| && Below(entries[..k], key) == Below(entries, key)[..m]
    decreases |entries|
  {
    var before := entries[..if entries == [] then 0 else |entries| - 1];
    if m == |Below(entries, key)| {
      k := |entries|;
      assert entries[..k] == entries;
    } else {
      assert Below(entries, key)[..m] == Below(before, key)[..m];
      k := BelowOfTake(before, key, m);
      assert entries[..k] == before[..k];
    }
  }

  lemma FirstBeforeBelow(entries: seq<Entry>, key: string, x: KeyPath, y: KeyPath)
    requires FirstBefore(Below(entries, key), x, y)
    ensures FirstBefore(entries, [key] + x, [key] + y)
  {
    var m :| 0 <= m <= |Below(entries, key)| && StartedAt(Below(entries, key), m, x, y);
    var k := BelowOfTake(entries, key, m);
    StartsBelow(entries[..k], key, x);
    StartsBelow(entries[..k], key, y);
    assert StartedAt(entries, k, [key] + x, [key] + y);
  }

  lemma ComesBelow(entries: seq<Entry>, key: string, p: KeyPath, q: KeyPath)
    requires Comes(Below(entries, key), p, q)
    ensures Comes(entries, [key] + p, [key] + q)
  {
    if p <= q {
      PrefixStep(key, p, key, q);
    } else {
      var n :| 0 <= n < |p| && n < |q| && PartsAt(Below(entries, key), p, q, n);
      PartsBelow(entries, key, p, q, n);
      assert PartsAt(entries, [key] + p, [key] + q, n + 1);
    }
  }

  lemma PartsBelow(entries: seq<Entry>, key: string, p: KeyPath, q: KeyPath, n: nat)
    requires n < |p| && n < |q| && PartsAt(Below(entries, key), p, q, n)
    ensures PartsAt(entries, [key] + p, [key] + q, n + 1)
  {
    FirstBeforeBelow(entries, key, p[..n + 1], q[..n + 1]);
    TakeBelow(key, p, n);
    TakeBelow(key, q, n);
  }

  lemma TakeBelow(key: string, p: KeyPath, n: nat)
    requires n < |p|
    ensures ([key] + p)[..n + 1] == [key] + p[..n] && ([key] + p)[..n + 2] == [key] + p[..n + 1]
  {
  }

  lemma {:induction false} HeadsStart(entries: seq<Entry>, key: string)
    ensures key in Heads(entries) <==> SomeStarts(entries, [key])
  {
    BelowIsSmaller(entries, key);
    StartsBelow(entries, key, []);
    assert [key] + [] == [key];
    if Below(entries, key) != [] {
      var e := Below(entries, key)[0];
      assert e in Below(entries, key) && [] <= PathOf(e.segments);
    }
  }

  /** First keys are listed in the order in which they first occur. */
  lemma {:induction false} HeadsInOrder(entries: seq<Entry>, a: nat, b: nat) returns (k: nat)
    requires a < b < |Heads(entries)|
    ensures k <= |entries| && Heads(entries)[a] in Heads(entries[..k]) && Heads(entries)[b] !in Heads(entries[..k])
  {
    HeadsDistinct(entries);
    var before := entries[..|entries| - 1];
    if b < |Heads(before)| {
      k := HeadsInOrder(before, a, b);
      assert entries[..k] == before[..k];
    } else {
      k := |entries| - 1;
    }
  }

  lemma HeadsComeFirst(entries: seq<Entry>, a: nat, b: nat, p: KeyPath, q: KeyPath)
    requires a < b < |Heads(entries)| && p != [] && q != []
    requires p[0] == Heads(entries)[a] && q[0] == Heads(entries)[b]
    ensures Comes(entries, p, q) && p != q
  {
    HeadsDistinct(entries);
    var k := HeadsInOrder(entries, a, b);
    HeadsStart(entries[..k], p[0]);
    HeadsStart(entries[..k], q[0]);
    assert p[..1] == [p[0]] && q[..1] == [q[0]] && p[..0] == q[..0];
    assert StartedAt(entries, k, p[..1], q[..1]);
    assert PartsAt(entries, p, q, 0);
  }

  lemma InOrderBelow(entries: seq<Entry>, key: string, lines: seq<Line>, paths: seq<KeyPath>)
    requires InOrder(Below(entries, key), lines, paths)
    ensures InOrder(entries, lines, Prepend(key, paths))
  {
    var all := Prepend(key, paths);
    forall i, j | 0 <= i < j < |all| ensures Comes(entries, all[i], all[j]) {
      ComesBelow(entries, key, paths[i], paths[j]);
    }
    forall i, j | 0 <= i < j < |all| && all[i] == all[j] ensures j == i + 1 && lines[i].Item? && lines[j].Block? {
      assert all[i][1..] == paths[i] && all[j][1..] == paths[j];
    }
  }

  lemma InOrderAppend(
      entries: seq<Entry>, lines: seq<Line>, paths: seq<KeyPath>, lines': seq<Line>, paths': seq<KeyPath>)
    requires InOrder(entries, lines, paths) && InOrder(entries, lines', paths')
    requires forall p, q :: p in paths && q in paths' ==> Comes(entries, p, q) && p != q
    ensures InOrder(entries, lines + lines', paths + paths')
  {
    var all := paths + paths';
    forall i, j | 0 <= i < j < |all| ensures Comes(entries, all[i], all[j]) {
      if j < |paths| {
        assert all[i] == paths[i] && all[j] == paths[j];
      } else if |paths| <= i {
        assert all[i] == paths'[i - |paths|] && all[j] == paths'[j - |paths|];
      } else {
        assert paths[i] in paths && paths'[j - |paths|] in paths';
      }
    }
    DumpsRepeatAppend(lines, paths, lines', paths');
  }

  lemma DumpsRepeatAppend(lines: seq<Line>, paths: seq<KeyPath>, lines': seq<Line>, paths': seq<KeyPath>)
    requires |lines| == |paths| && |lines'| == |paths'|
    requires OnlyDumpsRepeat(lines, paths) && OnlyDumpsRepeat(lines', paths')
    requires forall p, q :: p in paths && q in paths' ==> p != q
    ensures OnlyDumpsRepeat(lines + lines', paths + paths')
  {
    var all, out := paths + paths', lines + lines';
    forall x, y | 0 <= x < |paths| && 0 <= y < |paths'| ensures paths[x] != paths'[y] {
      assert paths[x] in paths && paths'[y] in paths';
    }
    forall i, j | 0 <= i < j < |all| && all[i] == all[j] ensures j == i + 1 && out[i].Item? && out[j].Block? {
      if j < |paths| {
        assert paths[i] == paths[j];
      } else if |paths| <= i {
        assert paths'[i - |paths|] == paths'[j - |paths|];
      }
    }
  }

  lemma {:induction false} NodeInOrder(entries: seq<Entry>, key: string, indent: nat)
    requires key in Heads(entries)
    ensures InOrder(entries, RenderNode(key, KidOf(entries, key), indent), NodeOutline(key, KidOf(entries, key)))
    decreases Size(entries), 0, 0
  {
    var t := KidOf(entries, key);
    NodeOutlineSize(key, t, indent);
    if !(t.field.Some? && (t.listKey != "" || t.kids == [])) {
      var below := Below(entries, key);
      BelowIsSmaller(entries, key);
      KidsInOrder(below, 0, indent + 1);
      assert GroupedKids(below, Heads(below))[0..] == t.kids;
      var lines, paths := RenderKids(t.kids, indent + 1), Outline(t.kids);
      InOrderBelow(entries, key, lines, paths);
      OutlineSize(t.kids, indent + 1);
      var first := RenderNode(key, t, indent)[0];
      assert RenderNode(key, t, indent) == [first] + lines;
      forall q | q in Prepend(key, paths) ensures Comes(entries, [key], q) && [key] != q {
        var i :| 0 <= i < |paths| && q == [key] + paths[i];
        assert [key] <= q;
      }
      InOrderAppend(entries, [first], [[key]], lines, Prepend(key, paths));
    }
  }

  lemma {:induction false} OutlineKeys(entries: seq<Entry>, m: nat, p: KeyPath) returns (b: nat)
    requires m <= |Heads(entries)| && p in Outline(GroupedKids(entries, Heads(entries))[m..])
    ensures m <= b < |Heads(entries)| && p != [] && p[0] == Heads(entries)[b]
    decreases |Heads(entries)| - m
  {
    var heads := Heads(entries);
    var kids := GroupedKids(entries, heads)[m..];
    GroupedKidsAt(entries, heads, m);
    assert kids[1..] == GroupedKids(entries, heads)[m + 1..];
    NodeOutlineSize(kids[0].key, kids[0].tree, 0);
    if p in NodeOutline(kids[0].key, kids[0].tree) {
      b := m;
    } else {
      b := OutlineKeys(entries, m + 1, p);
    }
  }

  lemma {:induction false} KidsInOrder(entries: seq<Entry>, m: nat, indent: nat)
    requires m <= |Heads(entries)|
    ensures var kids := GroupedKids(entries, Heads(entries))[m..];
      InOrder(entries, RenderKids(kids, indent), Outline(kids))
    decreases Size(entries), 1, |Heads(entries)| - m
  {
    var heads := Heads(entries);
    if m < |heads| {
      var kids := GroupedKids(entries, heads)[m..];
      GroupedKidsAt(entries, heads, m);
      assert kids[1..] == GroupedKids(entries, heads)[m + 1..];
      NodeInOrder(entries, heads[m], indent);
      KidsInOrder(entries, m + 1, indent);
      NodeOutlineSize(kids[0].key, kids[0].tree, indent);
      forall p, q | p in NodeOutline(kids[0].key, kids[0].tree) && q in Outline(kids[1..])
        ensures Comes(entries, p, q) && p != q
      {
        var b := OutlineKeys(entries, m + 1, q);
        HeadsComeFirst(entries, m, b, p, q);
      }
      InOrderAppend(entries, RenderNode(kids[0].key, kids[0].tree, indent), NodeOutline(kids[0].key, kids[0].tree),
        RenderKids(kids[1..], indent), Outline(kids[1..]));
    }
  }

  // ----- the whole view -----

  /**
   The lines read back: after the root's own line, if some entry ends at the root, each
   line is read as a path, what it says is what the entries say there, and lines are in
   order of first insertion.
   */
  ghost predicate ReadsBack(entries: seq<Entry>, lines: seq<Line>) {
    match LastAt(entries, [])
    case Some(f) => lines != [] && lines[0] == Leaf(BASE_INDENT, "(root)", f) && ReadsBackFrom(entries, lines, 1)
    case None => ReadsBackFrom(entries, lines, 0)
  }

  ghost predicate ReadsBackFrom(entries: seq<Entry>, lines: seq<Line>, start: nat)
    requires start <= |lines|
  {
    exists paths: seq<KeyPath> :: ReadsBackAs(entries, lines, start, paths)
  }

  ghost predicate ReadsBackAs(entries: seq<Entry>, lines: seq<Line>, start: nat, paths: seq<KeyPath>)
    requires start <= |lines|
  {
    && |paths| == |lines| - start
    && (forall i {:trigger paths[i]} :: 0 <= i < |paths| ==> ReadsAs(lines, start + i, paths[i]))
    && LinesSay(entries, lines[start..], paths) && InOrder(entries, lines[start..], paths)
  }

  lemma ReadFromRoot(lines: seq<Line>, start: nat, paths: seq<KeyPath>)
    requires ReadFrom(lines, start, [], paths)
    ensures forall i {:trigger paths[i]} :: 0 <= i < |paths| ==> ReadsAs(lines, start + i, paths[i])
  {
    forall i | 0 <= i < |paths| ensures ReadsAs(lines, start + i, paths[i]) {
      assert [] + paths[i] == paths[i];
    }
  }

  lemma KidsReadBack(entries: seq<Entry>, lines: seq<Line>, start: nat)
    requires start <= |lines| && lines[start..] == RenderKids(GroupedKids(entries, Heads(entries)), BASE_INDENT)
    ensures ReadsBackFrom(entries, lines, start)
  {
    var kids := GroupedKids(entries, Heads(entries));
    assert kids == kids[0..];
    var below, paths := RenderKids(kids, BASE_INDENT), Outline(kids);
    KidsSay(entries, 0, BASE_INDENT);
    KidsInOrder(entries, 0, BASE_INDENT);
    assert forall k :: 0 <= k < |below| ==> lines[start + k] == lines[start..][k] == below[k];
    KidsAreRead(lines, start, [], kids);
    ReadFromRoot(lines, start, paths);
    assert ReadsBackAs(entries, lines, start, paths);
  }

  lemma LinesReadBack(entries: seq<Entry>)
    ensures ReadsBack(entries, RenderTree(Build(entries)))
  {
    BuildIsGrouped(entries);
    LastFieldIsLastAt(entries);
    var t, lines := Build(entries), RenderTree(Build(entries));
    var start := if t.field.Some? then 1 else 0;
    assert lines[start..] == RenderKids(t.kids, BASE_INDENT);
    KidsReadBack(entries, lines, start);
  }

  lemma {:induction false} LastAtIsEntry(entries: seq<Entry>, path: KeyPath) returns (e: Entry)
    requires LastAt(entries, path).Some?
    ensures e in entries && PathOf(e.segments) == path && e.field == LastAt(entries, path).value
  {
    var last := entries[|entries| - 1];
    if PathOf(last.segments) == path {
      e := last;
    } else {
      e := LastAtIsEntry(entries[..|entries| - 1], path);
    }
  }

  /** So a line that shows a field is read as the path of an entry with that field. */
  lemma ShownLineIsEntry(entries: seq<Entry>, lines: seq<Line>, i: nat) returns (e: Entry)
    requires ReadsBack(entries, lines) && i < |lines| && (lines[i].Leaf? || lines[i].Block?)
    ensures e in entries && e.field == lines[i].field
    ensures if e.segments == [] then i == 0 else ReadsAs(lines, i, PathOf(e.segments))
  {
    var start := if LastAt(entries, []).Some? then 1 else 0;
    if i < start {
      e := LastAtIsEntry(entries, []);
    } else {
      var paths :| ReadsBackAs(entries, lines, start, paths);
      e := ShownBelowRoot(entries, lines, start, paths, i);
    }
  }

  lemma ShownBelowRoot(entries: seq<Entry>, lines: seq<Line>, start: nat, paths: seq<KeyPath>, i: nat)
    returns (e: Entry)
    requires start <= i < |lines| && ReadsBackAs(entries, lines, start, paths) && (lines[i].Leaf? || lines[i].Block?)
    ensures e in entries && e.field == lines[i].field && e.segments != [] && ReadsAs(lines, i, PathOf(e.segments))
  {
    var path := paths[i - start];
    assert ReadsAs(lines, start + (i - start), path);
    assert lines[start..][i - start] == lines[i];
    assert LineSays(entries, lines[i], path);
    e := LastAtIsEntry(entries, path);
  }
}
