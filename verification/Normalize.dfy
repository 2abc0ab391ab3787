/**
 Stripping the bookkeeping that Helm, kubectl and the API server put into a
 resource, in place on the parsed YAML nodes.
 */
module Normalize {

  datatype NodeKind = DocumentNode | MappingNode | SequenceNode | ScalarNode

  /** A parsed node as a value. A mapping holds its keys and values in turn. */
  datatype Doc = Doc(kind: NodeKind, value: string, content: seq<Doc>)

  const NOISE_ANNOTATIONS: seq<string> :=
    ["meta.helm.sh/release-name", "meta.helm.sh/release-namespace", "kubectl.kubernetes.io/last-applied-configuration"]

  const NOISE_METADATA: seq<string> := ["resourceVersion", "uid", "generation", "creationTimestamp", "managedFields"]

  // ----- on values -----

  /** The place of the first pair with this key from `i` on, or the end. */
  function FindFrom(content: seq<Doc>, key: string, i: nat): (j: nat)
    requires i <= |content|
    ensures i <= j <= |content| && (j < |content| ==> j + 1 < |content|)
    decreases |content| - i
  {
    if |content| < i + 2 then |content|
    else if content[i].value == key then i
    else FindFrom(content, key, i + 2)
  }

  function Find(content: seq<Doc>, key: string): (j: nat)
    ensures j <= |content| && (j < |content| ==> j + 1 < |content|)
  {
    FindFrom(content, key, 0)
  }

  /** Changing the value of the pair found does not change where it is. */
  lemma {:induction false} FindKeepsPlace(content: seq<Doc>, key: string, value: Doc, i: nat)
    requires i <= |content| && FindFrom(content, key, i) < |content|
    ensures FindFrom(content[FindFrom(content, key, i) + 1 := value], key, i) == FindFrom(content, key, i)
    decreases |content| - i
  {
    if content[i].value != key {
      FindKeepsPlace(content, key, value, i + 2);
    }
  }

  function Delete(content: seq<Doc>, key: string): seq<Doc> {
    var j := Find(content, key);
    if j < |content| then content[..j] + content[j + 2..] else content
  }

  function DeleteAll(content: seq<Doc>, keys: seq<string>): seq<Doc> {
    if keys == [] then content else Delete(DeleteAll(content, keys[..|keys| - 1]), keys[|keys| - 1])
  }

  /** Annotations without the noise at `a`, and without the block when nothing is left in it. */
  function StripAnnotationsAt(metadata: Doc, a: nat): Doc
    requires a + 1 < |metadata.content|
  {
    var fields := metadata.content;
    var cleaned := fields[a + 1 := fields[a + 1].(content := DeleteAll(fields[a + 1].content, NOISE_ANNOTATIONS))];
    metadata.(content := if cleaned[a + 1].content == [] then Delete(cleaned, "annotations") else cleaned)
  }

  function StripAnnotations(metadata: Doc): Doc {
    var a := Find(metadata.content, "annotations");
    if a < |metadata.content| && metadata.content[a + 1].kind.MappingNode?
    then StripAnnotationsAt(metadata, a)
    else metadata
  }

  function StripMetadata(metadata: Doc): Doc {
    StripAnnotations(metadata.(content := DeleteAll(metadata.content, NOISE_METADATA)))
  }

  function StripMetadataIn(root: Doc): Doc {
    var m := Find(root.content, "metadata");
    if m < |root.content| && root.content[m + 1].kind.MappingNode? then
      root.(content := root.content[m + 1 := StripMetadata(root.content[m + 1])])
    else root
  }

  function StripRoot(root: Doc): Doc {
    StripMetadataIn(root.(content := Delete(root.content, "status")))
  }

  predicate IsResource(doc: Doc) {
    doc.kind.DocumentNode? && |doc.content| == 1 && doc.content[0].kind.MappingNode?
  }

  function Strip(doc: Doc): Doc {
    if IsResource(doc) then doc.(content := [StripRoot(doc.content[0])]) else doc
  }

  // ----- on the nodes themselves -----

  class YamlNode {
    var kind: NodeKind
    var value: string
    var content: seq<YamlNode>
    ghost var repr: set<YamlNode>

    ghost predicate Valid()
      reads this, repr
      decreases repr
    {
      && this in repr
      && (forall c :: c in content ==> c in repr && c.repr <= repr && this !in c.repr && c.Valid())
      && (forall i, j :: 0 <= i < j < |content| ==> content[i].repr !! content[j].repr)
    }

    function Model(): Doc
      requires Valid()
      reads this, repr
      decreases repr, 1, 0
    {
      Doc(kind, value, Models(|content|))
    }

    function Models(n: nat): (ms: seq<Doc>)
      requires Valid() && n <= |content|
      reads this, repr
      ensures |ms| == n && forall i :: 0 <= i < n ==> ms[i] == content[i].Model()
      decreases repr, 0, n
    {
      if n == 0 then [] else Models(n - 1) + [content[n - 1].Model()]
    }

    /** `mapValue`, as the place of the value; `|content|` when the key is not there. */
    method MapValue(key: string) returns (j: nat)
      requires Valid()
      ensures j == Find(Model().content, key) <= |content|
      ensures j < |content| ==> j + 1 < |content| && Model().content[j + 1] == content[j + 1].Model()
    {
      ghost var docs := Model().content;
      j := 0;
      while j + 1 < |content|
        invariant j <= |content|
        invariant Find(docs, key) == FindFrom(docs, key, j)
      {
        assert docs[j].value == content[j].value;
        if content[j].value == key {
          return;
        }
        j := j + 2;
      }
      j := |content|;
    }

    /** `slices.Delete` of one pair. */
    method DropPair(j: nat)
      requires Valid() && j + 1 < |content|
      modifies this`content
      ensures Valid() && Model() == old(Model()).(content := old(Model()).content[..j] + old(Model()).content[j + 2..])
    {
      content := content[..j] + content[j + 2..];
      PairDropped(j);
    }

    /** `deleteMapKey`. */
    method DeleteMapKey(key: string) returns (found: bool)
      requires Valid()
      modifies this`content
      ensures Valid() && Model() == old(Model()).(content := Delete(old(Model()).content, key))
      ensures found <==> Find(old(Model()).content, key) < |old(content)|
    {
      var j := MapValue(key);
      found := j < |content|;
      if found {
        DropPair(j);
      }
    }

    /** Deletes one key after the other. */
    method DeleteKeys(keys: seq<string>)
      requires Valid()
      modifies this`content
      ensures Valid() && Model() == old(Model()).(content := DeleteAll(old(Model()).content, keys))
    {
      for i := 0 to |keys|
        invariant Valid() && Model() == old(Model()).(content := DeleteAll(old(Model()).content, keys[..i]))
      {
        assert keys[..i + 1][..i] == keys[..i];
        var _ := DeleteMapKey(keys[i]);
      }
      assert keys[..|keys|] == keys;
    }

    /** A subtree that is not touched keeps its value. */
    twostate lemma Stays()
      requires old(Valid()) && unchanged(old(repr))
      ensures Valid() && Model() == old(Model())
    {
    }

    /** Deletes the noise annotations inside the value at `j`, and tells whether none are left. */
    method CleanAnnotations(j: nat) returns (empty: bool)
      requires Valid() && j < |content|
      modifies content[j]
      ensures Valid() && unchanged(this) && repr == old(repr) && content[j].repr == old(content[j].repr)
      ensures empty <==> Model().content[j].content == []
      ensures var was := old(Model()).content[j];
        Model() == old(Model()).(
          content := old(Model()).content[j := was.(content := DeleteAll(was.content, NOISE_ANNOTATIONS))])
    {
      content[j].DeleteKeys(NOISE_ANNOTATIONS);
      ChildChanged(j);
      empty := |content[j].content| == 0;
      assert Model().content[j] == content[j].Model();
    }

    /** The metadata part of `normalizeResource`. */
    method NormalizeMetadata()
      requires Valid()
      modifies repr
      ensures Valid() && repr == old(repr)
      ensures Model() == StripMetadata(old(Model()))
    {
      ghost var was := Model();
      DeleteKeys(NOISE_METADATA);
      ghost var fields := Model();
      assert fields == was.(content := DeleteAll(was.content, NOISE_METADATA));
      NormalizeAnnotations();
      assert Model() == StripAnnotations(fields);
    }

    /** The annotations part, after the other noise is gone. */
    method NormalizeAnnotations()
      requires Valid()
      modifies repr
      ensures Valid() && repr == old(repr)
      ensures Model() == StripAnnotations(old(Model()))
    {
      var a := MapValue("annotations");
      if a < |content| && content[a + 1].kind.MappingNode? {
        NormalizeAnnotationsAt(a);
      }
    }

    method NormalizeAnnotationsAt(a: nat)
      requires Valid() && a + 1 < |content|
      modifies repr
      ensures Valid() && repr == old(repr)
      ensures Model() == StripAnnotationsAt(old(Model()), a)
    {
      var empty := CleanAnnotations(a + 1);
      if empty {
        var _ := DeleteMapKey("annotations");
      }
    }

    /** Normalizes the metadata at `j`. */
    method NormalizeMetadataAt(j: nat)
      requires Valid() && j < |content|
      modifies content[j].repr
      ensures Valid() && unchanged(this) && repr == old(repr)
      ensures Model() == old(Model()).(content := old(Model()).content[j := StripMetadata(old(Model()).content[j])])
    {
      content[j].NormalizeMetadata();
      ChildChanged(j);
    }

    /** `normalizeResource`, on the mapping inside the document. */
    method NormalizeRoot()
      requires Valid()
      modifies repr
      ensures Valid() && repr == old(repr)
      ensures Model() == StripRoot(old(Model()))
    {
      ghost var was := Model();
      var _ := DeleteMapKey("status");
      ghost var fields := Model();
      assert fields == was.(content := Delete(was.content, "status"));
      NormalizeMetadataIn();
    }

    /** The rest of `normalizeResource`, after the status is gone. */
    method NormalizeMetadataIn()
      requires Valid()
      modifies repr
      ensures Valid() && repr == old(repr)
      ensures Model() == StripMetadataIn(old(Model()))
    {
      var m := MapValue("metadata");
      if m < |content| && content[m + 1].kind.MappingNode? {
        NormalizeMetadataAt(m + 1);
      }
    }

    /** `normalizeResource`. */
    method NormalizeResource()
      requires Valid()
      modifies repr
      ensures Valid() && repr == old(repr) && Model() == Strip(old(Model()))
    {
      if !kind.DocumentNode? || |content| != 1 || !content[0].kind.MappingNode? {
        return;
      }
      content[0].NormalizeRoot();
      ChildChanged(0);
      assert Model().content == [content[0].Model()];
    }

    twostate lemma PairDroppedValid(j: nat)
      requires old(Valid()) && j + 1 < |old(content)|
      requires content == old(content)[..j] + old(content)[j + 2..] && repr == old(repr)
      requires unchanged(repr - {this})
      ensures Valid()
      ensures forall k :: 0 <= k < |content| ==> content[k].Model() == old(content[Before(k, j)].Model())
    {
      var was := old(content);
      assert forall k :: 0 <= k < |content| ==> content[k] == was[Before(k, j)];
      forall k | 0 <= k < |content|
        ensures content[k] in was && content[k].Valid() && content[k].Model() == old(was[Before(k, j)].Model())
      {
        content[k].Stays();
      }
    }

    twostate lemma PairDropped(j: nat)
      requires old(Valid()) && j + 1 < |old(content)|
      requires content == old(content)[..j] + old(content)[j + 2..] && repr == old(repr)
      requires kind == old(kind) && value == old(value)
      requires unchanged(repr - {this})
      ensures Valid()
      ensures Model() == old(Model()).(content := old(Model()).content[..j] + old(Model()).content[j + 2..])
    {
      PairDroppedValid(j);
      var docs := old(Model()).content;
      ModelIs(docs[..j] + docs[j + 2..]);
    }

    lemma ModelIs(docs: seq<Doc>)
      requires Valid() && |docs| == |content|
      requires forall k :: 0 <= k < |docs| ==> docs[k] == content[k].Model()
      ensures Model() == Doc(kind, value, docs)
    {
      assert Models(|content|) == docs;
    }

    /** A change inside one child shows in the parent as that child's new value, and nowhere else. */
    twostate lemma ChildChanged(j: nat)
      requires old(Valid()) && j < |content|
      requires unchanged(this) && content[j].Valid() && content[j].repr == old(content[j].repr)
      requires unchanged(repr - content[j].repr)
      ensures Valid()
      ensures Model() == old(Model()).(content := old(Model()).content[j := content[j].Model()])
    {
      forall i | 0 <= i < |content| && i != j
        ensures content[i].Valid() && content[i].Model() == old(content[i].Model())
      {
        assert content[i].repr !! content[j].repr;
        content[i].Stays();
      }
      ModelIs(old(Model()).content[j := content[j].Model()]);
    }
  }

  /** Where the children of a node without one pair were before. */
  function Before(k: nat, j: nat): nat {
    if k < j then k else k + 2
  }
}
