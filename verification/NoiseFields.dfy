/**
 What normalizing a resource means: a filter over the pairs of its mappings. Bookkeeping
 added anywhere the stripper looks is invisible afterwards.
 */
module NoiseFields {
  import opened Wrappers
  import opened Normalize

  /** A mapping's content: keys and values in turn, every key once. */
  ghost predicate KeysOnce(content: seq<Doc>) {
    |content| % 2 == 0
    && forall i, j :: 0 <= i < j < |content| / 2 ==> content[2 * i].value != content[2 * j].value
  }

  /** Each pair replaced by what `f` makes of it. */
  function Rewrite(content: seq<Doc>, f: (Doc, Doc) -> seq<Doc>): seq<Doc> {
    if |content| < 2 then content else f(content[0], content[1]) + Rewrite(content[2..], f)
  }

  function KeepUnless(noise: seq<string>): (Doc, Doc) -> seq<Doc> {
    (k: Doc, v: Doc) => if k.value in noise then [] else [k, v]
  }

  /** Annotations lose the noise, and the block when nothing is left. */
  function AnnotationsPair(k: Doc, v: Doc): seq<Doc> {
    if k.value == "annotations" && v.kind.MappingNode? then
      var kept := Rewrite(v.content, KeepUnless(NOISE_ANNOTATIONS));
      if kept == [] then [] else [k, v.(content := kept)]
    else [k, v]
  }

  function MetadataPair(k: Doc, v: Doc): seq<Doc> {
    if k.value in NOISE_METADATA then [] else AnnotationsPair(k, v)
  }

  function RootPair(k: Doc, v: Doc): seq<Doc> {
    if k.value == "status" then []
    else if k.value == "metadata" && v.kind.MappingNode? then [k, v.(content := Rewrite(v.content, MetadataPair))]
    else [k, v]
  }

  /** The resource without its bookkeeping. */
  function Clean(doc: Doc): Doc {
    if IsResource(doc) then doc.(content := [doc.content[0].(content := Rewrite(doc.content[0].content, RootPair))])
    else doc
  }

  // ----- the stripper is this filter -----

  lemma KeysOnceRest(content: seq<Doc>)
    requires KeysOnce(content) && content != []
    ensures KeysOnce(content[2..])
    ensures forall j :: 0 <= j < |content[2..]| / 2 ==> content[2..][2 * j].value != content[0].value
  {
    var rest := content[2..];
    forall i, j | 0 <= i < j < |rest| / 2 ensures rest[2 * i].value != rest[2 * j].value {
      assert rest[2 * i] == content[2 * (i + 1)] && rest[2 * j] == content[2 * (j + 1)];
    }
    forall j | 0 <= j < |rest| / 2 ensures rest[2 * j].value != content[0].value {
      assert rest[2 * j] == content[2 * (j + 1)] && content[2 * 0] == content[0];
    }
  }

  lemma {:induction false} FindShift(content: seq<Doc>, key: string, i: nat)
    requires 2 <= |content| && 2 <= i <= |content|
    ensures FindFrom(content, key, i) == 2 + FindFrom(content[2..], key, i - 2)
    decreases |content| - i
  {
    if i + 2 <= |content| {
      FindShift(content, key, i + 2);
    }
  }

  lemma DeleteCons(content: seq<Doc>, key: string)
    requires 2 <= |content|
    ensures Delete(content, key)
      == if content[0].value == key then content[2..] else content[..2] + Delete(content[2..], key)
    ensures Find(content, key) == if content[0].value == key then 0 else 2 + Find(content[2..], key)
  {
    FindShift(content, key, 2);
    var rest, j := content[2..], Find(content[2..], key);
    if content[0].value != key {
      if j < |rest| {
        assert content[..j + 2] == content[..2] + rest[..j];
        assert content[j + 4..] == rest[j + 2..];
      } else {
        assert content == content[..2] + rest;
      }
    }
  }

  /** Rewriting with a function that leaves every pair alone. */
  lemma {:induction false} RewriteNothing(content: seq<Doc>, f: (Doc, Doc) -> seq<Doc>)
    requires forall j :: 0 <= j < |content| / 2 ==>
      f(content[2 * j], content[2 * j + 1]) == [content[2 * j], content[2 * j + 1]]
    ensures Rewrite(content, f) == content
    decreases |content|
  {
    if 2 <= |content| {
      var rest := content[2..];
      forall j | 0 <= j < |rest| / 2 ensures f(rest[2 * j], rest[2 * j + 1]) == [rest[2 * j], rest[2 * j + 1]] {
        assert rest[2 * j] == content[2 * (j + 1)] && rest[2 * j + 1] == content[2 * (j + 1) + 1];
      }
      RewriteNothing(rest, f);
      assert f(content[2 * 0], content[2 * 0 + 1]) == [content[0], content[1]];
      assert content == [content[0], content[1]] + rest;
    }
  }

  lemma {:induction false} DeleteIsRewrite(content: seq<Doc>, key: string)
    requires KeysOnce(content)
    ensures Delete(content, key) == Rewrite(content, KeepUnless([key]))
    decreases |content|
  {
    if content != [] {
      var rest := content[2..];
      DeleteCons(content, key);
      KeysOnceRest(content);
      if content[0].value == key {
        RewriteNothing(rest, KeepUnless([key]));
        assert Rewrite(content, KeepUnless([key])) == [] + rest;
      } else {
        DeleteIsRewrite(rest, key);
        assert content[..2] == [content[0], content[1]];
      }
    }
  }

  /** Dropping pairs, then rewriting what is left, in one pass. */
  lemma {:induction false} RewriteTwice(
      content: seq<Doc>, noise: seq<string>, g: (Doc, Doc) -> seq<Doc>, h: (Doc, Doc) -> seq<Doc>)
    requires |content| % 2 == 0
    requires forall k, v :: h(k, v) == if k.value in noise then [] else g(k, v)
    ensures Rewrite(Rewrite(content, KeepUnless(noise)), g) == Rewrite(content, h)
    decreases |content|
  {
    if content != [] {
      var k, v, rest := content[0], content[1], content[2..];
      RewriteTwice(rest, noise, g, h);
      if k.value in noise {
        assert [] + Rewrite(rest, KeepUnless(noise)) == Rewrite(rest, KeepUnless(noise));
        assert [] + Rewrite(rest, h) == Rewrite(rest, h);
      } else {
        var kept := [k, v] + Rewrite(rest, KeepUnless(noise));
        assert kept[2..] == Rewrite(rest, KeepUnless(noise));
      }
    }
  }

  predicate HoldsKey(content: seq<Doc>, key: string) {
    exists j :: 0 <= j < |content| / 2 && content[2 * j].value == key
  }

  lemma HoldsKeyCons(k: Doc, v: Doc, rest: seq<Doc>, key: string)
    ensures HoldsKey([k, v] + rest, key) <==> k.value == key || HoldsKey(rest, key)
  {
    var all := [k, v] + rest;
    if k.value == key {
      assert all[2 * 0].value == key;
    }
    if HoldsKey(rest, key) {
      var j :| 0 <= j < |rest| / 2 && rest[2 * j].value == key;
      assert all[2 * (j + 1)] == rest[2 * j];
    }
    if HoldsKey(all, key) && k.value != key {
      var j :| 0 <= j < |all| / 2 && all[2 * j].value == key;
      assert all[2 * j] == rest[2 * (j - 1)];
    }
  }

  lemma KeysOnceCons(k: Doc, v: Doc, rest: seq<Doc>)
    ensures KeysOnce([k, v] + rest) <==> KeysOnce(rest) && !HoldsKey(rest, k.value)
  {
    var all := [k, v] + rest;
    assert all[2..] == rest && all[0] == k;
    if KeysOnce(all) {
      KeysOnceRest(all);
    } else if KeysOnce(rest) && !HoldsKey(rest, k.value) {
      forall i, j | 0 <= i < j < |all| / 2 ensures all[2 * i].value != all[2 * j].value {
        assert all[2 * j] == rest[2 * (j - 1)];
        if i > 0 {
          assert all[2 * i] == rest[2 * (i - 1)];
        }
      }
    }
  }

  lemma {:induction false} FilterKeysOnce(content: seq<Doc>, noise: seq<string>)
    requires KeysOnce(content)
    ensures KeysOnce(Rewrite(content, KeepUnless(noise)))
    ensures forall key :: HoldsKey(Rewrite(content, KeepUnless(noise)), key) ==> HoldsKey(content, key)
    decreases |content|
  {
    if content != [] {
      var k, v, rest := content[0], content[1], content[2..];
      assert content == [k, v] + rest;
      var kept := Rewrite(rest, KeepUnless(noise));
      KeysOnceCons(k, v, rest);
      FilterKeysOnce(rest, noise);
      KeysOnceCons(k, v, kept);
      forall key ensures HoldsKey([k, v] + kept, key) <==> k.value == key || HoldsKey(kept, key) {
        HoldsKeyCons(k, v, kept, key);
      }
      forall key ensures HoldsKey(content, key) <==> k.value == key || HoldsKey(rest, key) {
        HoldsKeyCons(k, v, rest, key);
      }
      assert [] + kept == kept;
    }
  }

  /** Deleting keys one after the other is dropping them all at once. */
  lemma {:induction false} DeleteAllIsRewrite(content: seq<Doc>, keys: seq<string>)
    requires KeysOnce(content)
    ensures DeleteAll(content, keys) == Rewrite(content, KeepUnless(keys))
    decreases |keys|
  {
    if keys == [] {
      RewriteNothing(content, KeepUnless(keys));
    } else {
      var before, last := keys[..|keys| - 1], keys[|keys| - 1];
      assert keys == before + [last];
      DeleteAllIsRewrite(content, before);
      FilterKeysOnce(content, before);
      DeleteIsRewrite(Rewrite(content, KeepUnless(before)), last);
      RewriteTwice(content, before, KeepUnless([last]), KeepUnless(keys));
    }
  }

  /** Every annotations block in the content has its keys once. */
  ghost predicate AnnotationsOnce(content: seq<Doc>) {
    forall j ::
      0 <= j < |content| / 2 && content[2 * j].value == "annotations" && content[2 * j + 1].kind.MappingNode? ==>
      KeysOnce(content[2 * j + 1].content)
  }

  lemma AnnotationsOnceRest(content: seq<Doc>)
    requires AnnotationsOnce(content) && 2 <= |content|
    ensures AnnotationsOnce(content[2..])
    ensures content[0].value == "annotations" && content[1].kind.MappingNode? ==> KeysOnce(content[1].content)
  {
    var rest := content[2..];
    forall j | 0 <= j < |rest| / 2 && rest[2 * j].value == "annotations" && rest[2 * j + 1].kind.MappingNode?
      ensures KeysOnce(rest[2 * j + 1].content)
    {
      assert rest[2 * j] == content[2 * (j + 1)] && rest[2 * j + 1] == content[2 * (j + 1) + 1];
    }
    assert content[0] == content[2 * 0] && content[1] == content[2 * 0 + 1];
  }

  function AnnotationsStripped(content: seq<Doc>): seq<Doc> {
    StripAnnotations(Doc(MappingNode, "", content)).content
  }

  lemma AnnotationsStrippedHead(content: seq<Doc>)
    requires KeysOnce(content) && content != [] && content[0].value == "annotations" && AnnotationsOnce(content)
    ensures AnnotationsStripped(content) == AnnotationsPair(content[0], content[1]) + content[2..]
  {
    var v := content[1];
    assert Find(content, "annotations") == 0;
    if v.kind.MappingNode? {
      AnnotationsOnceRest(content);
      DeleteAllIsRewrite(v.content, NOISE_ANNOTATIONS);
      CleanedHead(content, v.(content := DeleteAll(v.content, NOISE_ANNOTATIONS)));
    } else {
      assert content == [content[0], v] + content[2..];
    }
  }

  /** A new value for the first pair, and what deleting that pair leaves. */
  lemma CleanedHead(content: seq<Doc>, value: Doc)
    requires 2 <= |content| && content[0].value == "annotations"
    ensures content[1 := value] == [content[0], value] + content[2..]
    ensures Delete(content[1 := value], "annotations") == content[2..]
  {
    DeleteCons(content[1 := value], "annotations");
    assert content[1 := value][2..] == content[2..];
  }

  /** The tail of a changed value, and the rest in front of it. */
  lemma UpdateTail(content: seq<Doc>, j: nat, value: Doc)
    requires 2 <= |content| && j < |content| - 2
    ensures content[j + 2 := value] == content[..2] + content[2..][j := value]
    ensures content[j + 2 := value][2..] == content[2..][j := value]
    ensures content[j + 2 := value][..2] == content[..2]
    ensures content[j + 2] == content[2..][j]
  {
  }

  lemma AnnotationsStrippedTail(content: seq<Doc>)
    requires 2 <= |content| && content[0].value != "annotations"
    ensures AnnotationsStripped(content) == content[..2] + AnnotationsStripped(content[2..])
  {
    var rest := content[2..];
    DeleteCons(content, "annotations");
    var a := Find(rest, "annotations");
    if a < |rest| && rest[a + 1].kind.MappingNode? {
      CleanedTail(content, a + 1, rest[a + 1].(content := DeleteAll(rest[a + 1].content, NOISE_ANNOTATIONS)));
    } else {
      assert content == content[..2] + rest;
    }
  }

  lemma CleanedTail(content: seq<Doc>, j: nat, value: Doc)
    requires 2 <= |content| && content[0].value != "annotations" && j < |content| - 2
    ensures content[j + 2 := value] == content[..2] + content[2..][j := value]
    ensures content[j + 2] == content[2..][j]
    ensures Delete(content[j + 2 := value], "annotations")
      == content[..2] + Delete(content[2..][j := value], "annotations")
  {
    UpdateTail(content, j, value);
    DeleteCons(content[j + 2 := value], "annotations");
  }

  lemma {:induction false} AnnotationsAreRewritten(content: seq<Doc>)
    requires KeysOnce(content) && AnnotationsOnce(content)
    ensures AnnotationsStripped(content) == Rewrite(content, AnnotationsPair)
    decreases |content|
  {
    if content != [] {
      var rest := content[2..];
      KeysOnceRest(content);
      AnnotationsOnceRest(content);
      if content[0].value == "annotations" {
        AnnotationsStrippedHead(content);
        RewriteNothing(rest, AnnotationsPair);
      } else {
        AnnotationsStrippedTail(content);
        AnnotationsAreRewritten(rest);
        assert content[..2] == [content[0], content[1]];
      }
    }
  }

  lemma {:induction false} FilterAnnotationsOnce(content: seq<Doc>, noise: seq<string>)
    requires AnnotationsOnce(content) && |content| % 2 == 0
    ensures AnnotationsOnce(Rewrite(content, KeepUnless(noise)))
    decreases |content|
  {
    if content != [] {
      var kept := Rewrite(content[2..], KeepUnless(noise));
      AnnotationsOnceRest(content);
      FilterAnnotationsOnce(content[2..], noise);
      if content[0].value in noise {
        assert [] + kept == kept;
      } else {
        var all := [content[0], content[1]] + kept;
        forall j | 0 <= j < |all| / 2 && all[2 * j].value == "annotations" && all[2 * j + 1].kind.MappingNode?
          ensures KeysOnce(all[2 * j + 1].content)
        {
          if j > 0 {
            assert all[2 * j] == kept[2 * (j - 1)] && all[2 * j + 1] == kept[2 * (j - 1) + 1];
          }
        }
      }
    }
  }

  /** A metadata mapping whose keys, and whose annotations' keys, occur once. */
  ghost predicate MetadataOnce(metadata: Doc) {
    KeysOnce(metadata.content) && AnnotationsOnce(metadata.content)
  }

  lemma FieldsAreRewritten(content: seq<Doc>)
    requires KeysOnce(content) && AnnotationsOnce(content)
    ensures AnnotationsStripped(DeleteAll(content, NOISE_METADATA)) == Rewrite(content, MetadataPair)
  {
    DeleteAllIsRewrite(content, NOISE_METADATA);
    FilterKeysOnce(content, NOISE_METADATA);
    FilterAnnotationsOnce(content, NOISE_METADATA);
    AnnotationsAreRewritten(Rewrite(content, KeepUnless(NOISE_METADATA)));
    RewriteTwice(content, NOISE_METADATA, AnnotationsPair, MetadataPair);
  }

  /** Stripping annotations looks at the content only. */
  lemma AnnotationsStrippedOf(metadata: Doc)
    ensures StripAnnotations(metadata) == metadata.(content := AnnotationsStripped(metadata.content))
  {
  }

  lemma MetadataIsRewritten(metadata: Doc)
    requires MetadataOnce(metadata)
    ensures StripMetadata(metadata) == metadata.(content := Rewrite(metadata.content, MetadataPair))
  {
    FieldsAreRewritten(metadata.content);
    AnnotationsStrippedOf(metadata.(content := DeleteAll(metadata.content, NOISE_METADATA)));
  }

  /** A resource whose root, metadata and annotations have each key once, as a YAML decoder demands. */
  ghost predicate ResourceOnce(doc: Doc) {
    IsResource(doc) ==>
      var root := doc.content[0].content;
      KeysOnce(root) && MetadataAllOnce(root)
  }

  ghost predicate MetadataAllOnce(root: seq<Doc>) {
    forall j :: 0 <= j < |root| / 2 && root[2 * j].value == "metadata" && root[2 * j + 1].kind.MappingNode? ==>
      MetadataOnce(root[2 * j + 1])
  }

  function MetadataBlockPair(k: Doc, v: Doc): seq<Doc> {
    if k.value == "metadata" && v.kind.MappingNode?
    then [k, v.(content := Rewrite(v.content, MetadataPair))]
    else [k, v]
  }

  function MetadataStripped(root: seq<Doc>): seq<Doc> {
    StripMetadataIn(Doc(MappingNode, "", root)).content
  }

  lemma MetadataStrippedTail(root: seq<Doc>)
    requires 2 <= |root| && root[0].value != "metadata"
    ensures MetadataStripped(root) == root[..2] + MetadataStripped(root[2..])
  {
    var rest := root[2..];
    DeleteCons(root, "metadata");
    var m := Find(rest, "metadata");
    if m < |rest| && rest[m + 1].kind.MappingNode? {
      UpdateTail(root, m + 1, StripMetadata(rest[m + 1]));
    } else {
      assert root == root[..2] + rest;
    }
  }

  lemma MetadataStrippedHead(root: seq<Doc>)
    requires 2 <= |root| && root[0].value == "metadata" && (root[1].kind.MappingNode? ==> MetadataOnce(root[1]))
    ensures MetadataStripped(root) == MetadataBlockPair(root[0], root[1]) + root[2..]
  {
    assert Find(root, "metadata") == 0;
    if root[1].kind.MappingNode? {
      MetadataIsRewritten(root[1]);
      assert root[1 := StripMetadata(root[1])] == [root[0], StripMetadata(root[1])] + root[2..];
    } else {
      assert root == [root[0], root[1]] + root[2..];
    }
  }

  lemma MetadataAllOnceRest(root: seq<Doc>)
    requires MetadataAllOnce(root) && 2 <= |root|
    ensures MetadataAllOnce(root[2..])
    ensures root[0].value == "metadata" && root[1].kind.MappingNode? ==> MetadataOnce(root[1])
  {
    var rest := root[2..];
    forall j | 0 <= j < |rest| / 2 && rest[2 * j].value == "metadata" && rest[2 * j + 1].kind.MappingNode?
      ensures MetadataOnce(rest[2 * j + 1])
    {
      assert rest[2 * j] == root[2 * (j + 1)] && rest[2 * j + 1] == root[2 * (j + 1) + 1];
    }
    assert root[0] == root[2 * 0] && root[1] == root[2 * 0 + 1];
  }

  lemma {:induction false} MetadataBlockIsRewritten(root: seq<Doc>)
    requires KeysOnce(root) && MetadataAllOnce(root)
    ensures MetadataStripped(root) == Rewrite(root, MetadataBlockPair)
    decreases |root|
  {
    if root != [] {
      KeysOnceRest(root);
      MetadataAllOnceRest(root);
      if root[0].value == "metadata" {
        MetadataStrippedHead(root);
        RewriteNothing(root[2..], MetadataBlockPair);
      } else {
        MetadataStrippedTail(root);
        MetadataBlockIsRewritten(root[2..]);
        assert root[..2] == [root[0], root[1]];
      }
    }
  }

  lemma {:induction false} FilterMetadataOnce(root: seq<Doc>, noise: seq<string>)
    requires MetadataAllOnce(root) && |root| % 2 == 0
    ensures MetadataAllOnce(Rewrite(root, KeepUnless(noise)))
    decreases |root|
  {
    if root != [] {
      var kept := Rewrite(root[2..], KeepUnless(noise));
      MetadataAllOnceRest(root);
      FilterMetadataOnce(root[2..], noise);
      if root[0].value in noise {
        assert [] + kept == kept;
      } else {
        var all := [root[0], root[1]] + kept;
        forall j | 0 <= j < |all| / 2 && all[2 * j].value == "metadata" && all[2 * j + 1].kind.MappingNode?
          ensures MetadataOnce(all[2 * j + 1])
        {
          if j > 0 {
            assert all[2 * j] == kept[2 * (j - 1)] && all[2 * j + 1] == kept[2 * (j - 1) + 1];
          }
        }
      }
    }
  }

  /** The deletions of the stripper add up to the filter. */
  lemma StripIsClean(doc: Doc)
    requires ResourceOnce(doc)
    ensures Strip(doc) == Clean(doc)
  {
    if IsResource(doc) {
      var root := doc.content[0].content;
      var fields := Rewrite(root, KeepUnless(["status"]));
      DeleteIsRewrite(root, "status");
      FilterKeysOnce(root, ["status"]);
      FilterMetadataOnce(root, ["status"]);
      MetadataBlockIsRewritten(fields);
      RewriteTwice(root, ["status"], MetadataBlockPair, RootPair);
      assert StripMetadataIn(doc.content[0].(content := fields)).content == MetadataStripped(fields);
    }
  }

  // ----- noise is invisible -----

  /** `big` is `small` with one pair more, at `i`. */
  ghost predicate PairAdded(small: seq<Doc>, big: seq<Doc>, i: nat, k: Doc, v: Doc) {
    i <= |small| && i % 2 == 0 && big == small[..i] + [k, v] + small[i..]
  }

  /** `a` and `b` differ in the value of one pair, with this key. */
  ghost predicate ValueChanged(a: seq<Doc>, b: seq<Doc>, m: nat, key: string) {
    m % 2 == 0 && m + 1 < |a| && a[m].value == key && |b| == |a| && b == a[m + 1 := b[m + 1]]
  }

  /**
   Bookkeeping inside metadata: one noise field more, an annotations block of noise
   only, or one noise annotation more.
   */
  ghost predicate NoiseInMetadata(a: Doc, b: Doc) {
    && a == b.(content := a.content)
    && (|| (exists i: nat, k, v :: PairAdded(a.content, b.content, i, k, v) && MetadataPair(k, v) == [])
        || (exists m: nat :: ValueChanged(a.content, b.content, m, "annotations")
             && NoiseInAnnotations(a.content[m + 1], b.content[m + 1])))
  }

  ghost predicate NoiseInAnnotations(a: Doc, b: Doc) {
    && a.kind.MappingNode? && a == b.(content := a.content)
    && exists i: nat, k, v :: PairAdded(a.content, b.content, i, k, v) && k.value in NOISE_ANNOTATIONS
  }

  /** Bookkeeping added to a resource: a status, or noise inside its metadata. */
  ghost predicate NoiseAdded(x: Doc, y: Doc) {
    && IsResource(x) && IsResource(y) && x == y.(content := x.content)
    && var a, b := x.content[0], y.content[0];
    && a == b.(content := a.content)
    && (|| (exists i: nat, k, v :: PairAdded(a.content, b.content, i, k, v) && k.value == "status")
        || (exists m: nat :: ValueChanged(a.content, b.content, m, "metadata") && a.content[m + 1].kind.MappingNode?
             && NoiseInMetadata(a.content[m + 1], b.content[m + 1])))
  }

  lemma {:induction false} RewriteIgnores(
      small: seq<Doc>, big: seq<Doc>, i: nat, k: Doc, v: Doc, f: (Doc, Doc) -> seq<Doc>)
    requires PairAdded(small, big, i, k, v) && f(k, v) == []
    ensures Rewrite(big, f) == Rewrite(small, f)
    decreases |small|
  {
    if i == 0 {
      assert big == [k, v] + small;
      assert big[2..] == small;
      assert [] + Rewrite(small, f) == Rewrite(small, f);
    } else {
      assert big[..2] == small[..2];
      assert small[..i][2..] == small[2..][..i - 2];
      assert big[2..] == small[2..][..i - 2] + [k, v] + small[2..][i - 2..];
      RewriteIgnores(small[2..], big[2..], i - 2, k, v, f);
      assert big[0] == small[0] && big[1] == small[1];
    }
  }

  lemma {:induction false} RewriteSame(a: seq<Doc>, b: seq<Doc>, m: nat, key: string, f: (Doc, Doc) -> seq<Doc>)
    requires ValueChanged(a, b, m, key) && f(a[m], a[m + 1]) == f(a[m], b[m + 1])
    ensures Rewrite(a, f) == Rewrite(b, f)
    decreases |a|
  {
    if m == 0 {
      assert a[2..] == b[2..];
    } else {
      assert b[2..] == a[2..][m - 2 + 1 := b[m + 1]];
      RewriteSame(a[2..], b[2..], m - 2, key, f);
    }
  }

  lemma AnnotationNoiseInvisible(k: Doc, a: Doc, b: Doc)
    requires k.value == "annotations" && NoiseInAnnotations(a, b)
    ensures AnnotationsPair(k, a) == AnnotationsPair(k, b)
  {
    var i: nat, n, v :| PairAdded(a.content, b.content, i, n, v) && n.value in NOISE_ANNOTATIONS;
    RewriteIgnores(a.content, b.content, i, n, v, KeepUnless(NOISE_ANNOTATIONS));
    assert a.kind == b.kind && a.value == b.value;
  }

  lemma MetadataNoiseInvisible(a: Doc, b: Doc)
    requires NoiseInMetadata(a, b)
    ensures Rewrite(a.content, MetadataPair) == Rewrite(b.content, MetadataPair)
  {
    if i: nat, k, v :| PairAdded(a.content, b.content, i, k, v) && MetadataPair(k, v) == [] {
      RewriteIgnores(a.content, b.content, i, k, v, MetadataPair);
    } else {
      var m: nat :| ValueChanged(a.content, b.content, m, "annotations")
        && NoiseInAnnotations(a.content[m + 1], b.content[m + 1]);
      AnnotationNoiseInvisible(a.content[m], a.content[m + 1], b.content[m + 1]);
      RewriteSame(a.content, b.content, m, "annotations", MetadataPair);
    }
  }

  /** One pair of bookkeeping more, or one less, leaves the rest as it is. */
  lemma OneNoiseInvisible(x: Doc, y: Doc)
    requires NoiseAdded(x, y)
    ensures Clean(x) == Clean(y)
  {
    var a, b := x.content[0], y.content[0];
    if i: nat, k, v :| PairAdded(a.content, b.content, i, k, v) && k.value == "status" {
      RewriteIgnores(a.content, b.content, i, k, v, RootPair);
    } else {
      var m: nat :| ValueChanged(a.content, b.content, m, "metadata") && a.content[m + 1].kind.MappingNode?
        && NoiseInMetadata(a.content[m + 1], b.content[m + 1]);
      var v, w := a.content[m + 1], b.content[m + 1];
      MetadataNoiseInvisible(v, w);
      assert v.(content := Rewrite(v.content, MetadataPair)) == w.(content := Rewrite(w.content, MetadataPair));
      RewriteSame(a.content, b.content, m, "metadata", RootPair);
    }
  }

  /** Documents of which each has one pair of bookkeeping more or less than the one before. */
  ghost predicate NoiseChain(chain: seq<Doc>) {
    chain != [] && forall i :: 0 <= i < |chain| - 1 ==>
      NoiseAdded(chain[i], chain[i + 1]) || NoiseAdded(chain[i + 1], chain[i])
  }

  /** Two documents that differ in any amount of bookkeeping. */
  ghost predicate AlikeButNoise(x: Doc, y: Doc) {
    exists chain :: NoiseChain(chain) && chain[0] == x && chain[|chain| - 1] == y
  }

  lemma {:induction false} ChainInvisible(chain: seq<Doc>)
    requires NoiseChain(chain)
    ensures Clean(chain[0]) == Clean(chain[|chain| - 1])
    decreases |chain|
  {
    if 1 < |chain| {
      var rest := chain[1..];
      assert NoiseAdded(chain[0], chain[0 + 1]) || NoiseAdded(chain[0 + 1], chain[0]);
      if NoiseAdded(chain[0], chain[1]) {
        OneNoiseInvisible(chain[0], chain[1]);
      } else {
        OneNoiseInvisible(chain[1], chain[0]);
      }
      forall i | 0 <= i < |rest| - 1 ensures NoiseAdded(rest[i], rest[i + 1]) || NoiseAdded(rest[i + 1], rest[i]) {
        assert rest[i] == chain[i + 1] && rest[i + 1] == chain[i + 1 + 1];
      }
      ChainInvisible(rest);
    }
  }

  /**
   Bookkeeping added to a resource or taken away from it, any amount of it, leaves
   nothing to see after normalizing.
   */
  lemma NoiseIsInvisible(x: Doc, y: Doc)
    requires ResourceOnce(x) && ResourceOnce(y) && AlikeButNoise(x, y)
    ensures Strip(x) == Strip(y)
  {
    var chain :| NoiseChain(chain) && chain[0] == x && chain[|chain| - 1] == y;
    StripIsClean(x);
    StripIsClean(y);
    ChainInvisible(chain);
  }

  // ----- field by field -----

  /** The value under a key. */
  ghost function At(content: seq<Doc>, key: string): Option<Doc> {
    if |content| < 2 then None
    else if content[0].value == key then Some(content[1])
    else At(content[2..], key)
  }

  lemma {:induction false} AtKeepUnless(content: seq<Doc>, noise: seq<string>, key: string)
    ensures At(Rewrite(content, KeepUnless(noise)), key) == if key in noise then None else At(content, key)
  {
    if 2 <= |content| {
      AtKeepUnless(content[2..], noise, key);
      AtNext(content, KeepUnless(noise), key);
    }
  }

  /** What the filter makes of the first pair decides, if its key is the one looked for. */
  lemma AtNext(content: seq<Doc>, f: (Doc, Doc) -> seq<Doc>, key: string)
    requires 2 <= |content|
    ensures var first := f(content[0], content[1]);
      && (first == [] ==> Rewrite(content, f) == Rewrite(content[2..], f))
      && (|first| == 2 ==>
        At(Rewrite(content, f), key)
        == if first[0].value == key then Some(first[1]) else At(Rewrite(content[2..], f), key))
  {
    var first, rest := f(content[0], content[1]), Rewrite(content[2..], f);
    if first == [] {
      assert first + rest == rest;
    } else if |first| == 2 {
      assert (first + rest)[2..] == rest;
    }
  }

  lemma {:induction false} AtMetadata(content: seq<Doc>, key: string)
    requires key != "annotations"
    ensures At(Rewrite(content, MetadataPair), key) == if key in NOISE_METADATA then None else At(content, key)
  {
    if 2 <= |content| {
      AtMetadata(content[2..], key);
      AtNext(content, MetadataPair, key);
    }
  }

  lemma {:induction false} AtAnnotations(content: seq<Doc>)
    requires KeysOnce(content)
    ensures var before, after := At(content, "annotations"), At(Rewrite(content, MetadataPair), "annotations");
      if before.Some? && before.value.kind.MappingNode? then
        var kept := Rewrite(before.value.content, KeepUnless(NOISE_ANNOTATIONS));
        after == if kept == [] then None else Some(before.value.(content := kept))
      else after == before
    decreases |content|
  {
    if 2 <= |content| {
      KeysOnceRest(content);
      AtAnnotations(content[2..]);
      AtNext(content, MetadataPair, "annotations");
      if content[0].value == "annotations" {
        NotAt(content[2..], "annotations");
      }
    }
  }

  lemma {:induction false} NotAt(content: seq<Doc>, key: string)
    requires forall j :: 0 <= j < |content| / 2 ==> content[2 * j].value != key
    ensures At(content, key) == None
    decreases |content|
  {
    if 2 <= |content| {
      assert content[2 * 0].value != key;
      forall j | 0 <= j < |content[2..]| / 2 ensures content[2..][2 * j].value != key {
        assert content[2..][2 * j] == content[2 * (j + 1)];
      }
      NotAt(content[2..], key);
    }
  }

  lemma {:induction false} AtRoot(content: seq<Doc>, key: string)
    ensures At(Rewrite(content, RootPair), key) ==
      if key == "status" then None
      else if key == "metadata" && At(content, key).Some? && At(content, key).value.kind.MappingNode? then
        Some(At(content, key).value.(content := Rewrite(At(content, key).value.content, MetadataPair)))
      else At(content, key)
  {
    if 2 <= |content| {
      AtRoot(content[2..], key);
      AtNext(content, RootPair, key);
    }
  }

  /**
   What is left of a resource, key by key: everything but its status at the top;
   everything but five fields in the metadata; everything but three annotations, whose
   block goes with the last one. A document that is no single mapping stays as it is.
   */
  lemma WhatIsLeft(doc: Doc, key: string)
    requires ResourceOnce(doc)
    ensures !(doc.kind.DocumentNode? && |doc.content| == 1 && doc.content[0].kind.MappingNode?) ==> Strip(doc) == doc
    ensures doc.kind.DocumentNode? && |doc.content| == 1 && doc.content[0].kind.MappingNode? ==>
      && Strip(doc).kind.DocumentNode? && |Strip(doc).content| == 1
      && var root, root' := doc.content[0].content, Strip(doc).content[0].content;
      && (key == "status" ==> At(root', key) == None)
      && (key != "status" && key != "metadata" ==> At(root', key) == At(root, key))
      && var metadata := At(root, "metadata");
      && (metadata.None? || !metadata.value.kind.MappingNode? ==> At(root', "metadata") == metadata)
      && (metadata.Some? && metadata.value.kind.MappingNode? ==>
        At(root', "metadata").Some? && LeftInMetadata(metadata.value.content, At(root', "metadata").value.content, key))
  {
    StripIsClean(doc);
    if doc.kind.DocumentNode? && |doc.content| == 1 && doc.content[0].kind.MappingNode? {
      var root := doc.content[0].content;
      AtRoot(root, key);
      AtRoot(root, "metadata");
      var metadata := At(root, "metadata");
      if metadata.Some? && metadata.value.kind.MappingNode? {
        var j := AtIsPair(root, "metadata");
        MetadataLeft(metadata.value.content, key);
      }
    }
  }

  ghost predicate LeftInMetadata(before: seq<Doc>, after: seq<Doc>, key: string) {
    && (key in ["resourceVersion", "uid", "generation", "creationTimestamp", "managedFields"] ==>
      At(after, key) == None)
    && (key !in ["resourceVersion", "uid", "generation", "creationTimestamp", "managedFields", "annotations"] ==>
      At(after, key) == At(before, key))
    && LeftInAnnotations(At(before, "annotations"), At(after, "annotations"), key)
  }

  ghost predicate LeftInAnnotations(before: Option<Doc>, after: Option<Doc>, key: string) {
    if before.None? || !before.value.kind.MappingNode? then after == before
    else
      var noise := ["meta.helm.sh/release-name", "meta.helm.sh/release-namespace",
        "kubectl.kubernetes.io/last-applied-configuration"];
      var content := if after.Some? then after.value.content else [];
      && (after.Some? ==> content != [])
      && At(content, key) == if key in noise then None else At(before.value.content, key)
  }

  lemma MetadataLeft(content: seq<Doc>, key: string)
    requires KeysOnce(content)
    ensures LeftInMetadata(content, Rewrite(content, MetadataPair), key)
  {
    if key != "annotations" {
      AtMetadata(content, key);
    }
    AtAnnotations(content);
    var before := At(content, "annotations");
    if before.Some? && before.value.kind.MappingNode? {
      AtKeepUnless(before.value.content, NOISE_ANNOTATIONS, key);
    }
  }

  lemma {:induction false} AtIsPair(content: seq<Doc>, key: string) returns (j: nat)
    requires At(content, key).Some?
    ensures j < |content| / 2 && content[2 * j].value == key && content[2 * j + 1] == At(content, key).value
    decreases |content|
  {
    if content[0].value == key {
      j := 0;
    } else {
      var i := AtIsPair(content[2..], key);
      j := i + 1;
      assert content[2 * j] == content[2..][2 * i];
    }
  }
}
