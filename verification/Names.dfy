/**
 Names as Go sorts them: the byte-wise lexicographic order, sorting, and the
 sorted listing of a finite set of names (what `slices.Sorted(maps.Keys(m))`
 gives).
 */
module Names {

  predicate Leq(a: string, b: string) {
    a == "" || (b != "" && (a[0] < b[0] || (a[0] == b[0] && Leq(a[1..], b[1..]))))
  }

  /** Byte by byte: a name is before those it is a prefix of, and else the first difference decides. */
  lemma {:induction false} LeqMeaning(a: string, b: string)
    ensures Leq(a, b) <==> a <= b || exists i :: 0 <= i < |a| && i < |b| && DiffersAt(a, b, i) && a[i] < b[i]
  {
    if a != "" && b != "" {
      LeqMeaning(a[1..], b[1..]);
      if a[0] == b[0] {
        assert a <= b <==> a[1..] <= b[1..] by {
          assert a == [a[0]] + a[1..] && b == [b[0]] + b[1..];
          assert |a| <= |b| ==> b[..|a|] == [b[0]] + b[1..][..|a| - 1];
        }
        forall i | 0 <= i < |a| - 1 && i < |b| - 1 ensures DiffersAt(a[1..], b[1..], i) <==> DiffersAt(a, b, i + 1) {
          assert a[..i + 1] == [a[0]] + a[1..][..i] && b[..i + 1] == [b[0]] + b[1..][..i];
        }
        if Leq(a[1..], b[1..]) && !(a[1..] <= b[1..]) {
          var i :| 0 <= i < |a| - 1 && i < |b| - 1 && DiffersAt(a[1..], b[1..], i) && a[1..][i] < b[1..][i];
          assert DiffersAt(a, b, i + 1);
        }
        if i :| 0 <= i < |a| && i < |b| && DiffersAt(a, b, i) && a[i] < b[i] {
          assert DiffersAt(a[1..], b[1..], i - 1);
        }
      } else if a[0] < b[0] {
        assert DiffersAt(a, b, 0);
      } else {
        forall i | 0 <= i < |a| && i < |b| ensures DiffersAt(a, b, i) ==> i == 0 {
          DiffersAtStart(a, b, i);
        }
      }
    }
  }

  lemma DiffersAtStart(a: string, b: string, i: nat)
    requires i < |a| && i < |b| && a[0] != b[0]
    ensures DiffersAt(a, b, i) ==> i == 0
  {
    if 0 < i {
      assert a[..i][0] == a[0] && b[..i][0] == b[0];
    }
  }

  /** The first difference of two names. */
  ghost predicate DiffersAt(a: string, b: string, i: nat)
    requires i < |a| && i < |b|
  {
    a[..i] == b[..i] && a[i] != b[i]
  }

  lemma LeqTotal(a: string, b: string)
    ensures Leq(a, b) || Leq(b, a)
  {
  }

  lemma LeqTransitive(a: string, b: string, c: string)
    requires Leq(a, b) && Leq(b, c)
    ensures Leq(a, c)
  {
  }

  lemma LeqAntisymmetric(a: string, b: string)
    requires Leq(a, b) && Leq(b, a)
    ensures a == b
  {
    if a != "" && b != "" {
      LeqAntisymmetric(a[1..], b[1..]);
      assert a == [a[0]] + a[1..];
      assert b == [b[0]] + b[1..];
    }
  }

  ghost predicate Sorted(s: seq<string>) {
    forall i, j :: 0 <= i < j < |s| ==> Leq(s[i], s[j])
  }

  ghost predicate NoDuplicates<T>(s: seq<T>) {
    forall i, j :: 0 <= i < j < |s| ==> s[i] != s[j]
  }

  function Members<T>(s: seq<T>): set<T> {
    set x | x in s
  }

  /** `s` lists the set `names`, sorted and without repeats. */
  ghost predicate IsListing(s: seq<string>, names: set<string>) {
    Sorted(s) && NoDuplicates(s) && Members(s) == names
  }

  lemma MembersSize<T>(s: seq<T>)
    requires NoDuplicates(s)
    ensures |Members(s)| == |s|
  {
    if s != [] {
      var last := |s| - 1;
      MembersSize(s[..last]);
      assert s == s[..last] + [s[last]];
      assert Members(s) == Members(s[..last]) + {s[last]};
    }
  }

  /** A set has one listing only, so whatever order a Go map is walked in, sorting its keys gives one result. */
  lemma {:induction false} ListingUnique(s: seq<string>, t: seq<string>, names: set<string>)
    requires IsListing(s, names) && IsListing(t, names)
    ensures s == t
    decreases |s|
  {
    MembersSize(s);
    MembersSize(t);
    if s != [] {
      assert s[0] in Members(t) && t[0] in Members(s);
      var i :| 0 <= i < |t| && t[i] == s[0];
      var j :| 0 <= j < |s| && s[j] == t[0];
      LeqTotal(s[0], s[0]);
      LeqTotal(t[0], t[0]);
      LeqAntisymmetric(s[0], t[0]);
      assert Members(s[1..]) == names - {s[0]} by {
        assert s == [s[0]] + s[1..];
      }
      assert Members(t[1..]) == names - {t[0]} by {
        assert t == [t[0]] + t[1..];
      }
      ListingUnique(s[1..], t[1..], names - {s[0]});
      assert s == [s[0]] + s[1..] && t == [t[0]] + t[1..];
    }
  }

  /** Where `name` goes in a sorted list. */
  method InsertName(s: seq<string>, name: string) returns (r: seq<string>)
    requires Sorted(s)
    ensures Sorted(r)
    ensures multiset(r) == multiset(s) + multiset{name}
  {
    var i := 0;
    while i < |s| && Leq(s[i], name)
      invariant 0 <= i <= |s|
      invariant forall k :: 0 <= k < i ==> Leq(s[k], name)
    {
      i := i + 1;
    }
    r := s[..i] + [name] + s[i..];
    assert s == s[..i] + s[i..];
    InsertSorted(s, name, i);
  }

  lemma InsertSorted(s: seq<string>, name: string, i: nat)
    requires Sorted(s) && i <= |s|
    requires forall k :: 0 <= k < i ==> Leq(s[k], name)
    requires i < |s| ==> !Leq(s[i], name)
    ensures Sorted(s[..i] + [name] + s[i..])
  {
    forall j | i <= j < |s| ensures Leq(name, s[j]) {
      LeqTotal(s[i], name);
      if i < j {
        LeqTransitive(name, s[i], s[j]);
      }
    }
  }

  /** `slices.Sort` on names. */
  method Sort(s: seq<string>) returns (r: seq<string>)
    ensures Sorted(r)
    ensures multiset(r) == multiset(s)
  {
    r := [];
    for i := 0 to |s|
      invariant Sorted(r)
      invariant multiset(r) == multiset(s[..i])
    {
      r := InsertName(r, s[i]);
      assert s[..i + 1] == s[..i] + [s[i]];
    }
    assert s[..|s|] == s;
  }

  lemma SameMultiset<T>(s: seq<T>, t: seq<T>)
    requires multiset(s) == multiset(t)
    ensures Members(s) == Members(t)
    ensures NoDuplicates(s) ==> NoDuplicates(t)
  {
    forall x ensures x in s <==> x in t {
      assert x in s <==> x in multiset(s);
      assert x in t <==> x in multiset(t);
    }
    assert Members(s) == Members(t);
    if NoDuplicates(s) {
      MembersSize(s);
      assert |s| == |multiset(s)| == |multiset(t)| == |t|;
      NoRepeatBySize(t);
    }
  }

  lemma NoRepeatBySize<T>(t: seq<T>)
    requires |Members(t)| == |t|
    ensures NoDuplicates(t)
  {
    if t != [] {
      var last := |t| - 1;
      assert t == t[..last] + [t[last]];
      assert Members(t) == Members(t[..last]) + {t[last]};
      MembersBound(t[..last]);
      NoRepeatBySize(t[..last]);
    }
  }

  lemma MembersBound<T>(t: seq<T>)
    ensures |Members(t)| <= |t|
  {
    if t != [] {
      var last := |t| - 1;
      assert t == t[..last] + [t[last]];
      assert Members(t) == Members(t[..last]) + {t[last]};
      MembersBound(t[..last]);
    }
  }

  /** Pigeonhole: a list longer than the set its entries come from repeats an entry. */
  lemma Pigeonhole<T>(t: seq<T>, pool: set<T>) returns (i: nat, j: nat)
    requires forall x :: x in t ==> x in pool
    requires |pool| < |t|
    ensures i < j < |t| && t[i] == t[j]
  {
    if NoDuplicates(t) {
      MembersSize(t);
      SubsetSize(Members(t), pool);
      assert false;
    }
    i, j :| 0 <= i < j < |t| && t[i] == t[j];
  }

  lemma SubsetSize<T>(a: set<T>, b: set<T>)
    requires a <= b
    ensures |a| <= |b|
    ensures |a| == |b| ==> a == b
  {
    assert b == a + (b - a);
  }

  /** The keys of a map, in whatever order a Go map is walked in. */
  method AnyKeys<V>(m: map<string, V>) returns (keys: seq<string>)
    ensures NoDuplicates(keys) && Members(keys) == m.Keys
  {
    var left := m.Keys;
    keys := [];
    while left != {}
      invariant left <= m.Keys && Members(keys) == m.Keys - left
      invariant NoDuplicates(keys)
      decreases left
    {
      var k :| k in left;
      assert k !in Members(keys);
      assert Members(keys + [k]) == Members(keys) + {k};
      keys, left := keys + [k], left - {k};
    }
  }

  /** `slices.Sorted(maps.Keys(m))`. */
  method SortedKeys<V>(m: map<string, V>) returns (r: seq<string>)
    ensures IsListing(r, m.Keys)
  {
    var keys := AnyKeys(m);
    r := Sort(keys);
    SameMultiset(keys, r);
  }

  /** The place of `name` in a sorted list without repeats. */
  lemma {:induction false} PlaceIn(s: seq<string>, name: string) returns (r: seq<string>)
    requires Sorted(s) && NoDuplicates(s) && name !in s
    ensures IsListing(r, Members(s) + {name})
    decreases |s|
  {
    if s == [] {
      r := [name];
    } else {
      LeqTotal(s[0], name);
      assert s == [s[0]] + s[1..];
      if Leq(name, s[0]) {
        r := [name] + s;
        forall j | 0 <= j < |s| ensures Leq(name, s[j]) {
          if 0 < j {
            LeqTransitive(name, s[0], s[j]);
          }
        }
      } else {
        var rest := PlaceIn(s[1..], name);
        r := [s[0]] + rest;
        forall j | 0 <= j < |rest| ensures Leq(s[0], rest[j]) && rest[j] != s[0] {
          assert rest[j] in Members(s[1..]) + {name};
        }
      }
    }
  }

  /** Every finite set of names has a listing. */
  lemma {:induction false} SomeListing(names: set<string>) returns (s: seq<string>)
    ensures IsListing(s, names)
    decreases names
  {
    if names == {} {
      s := [];
    } else {
      var name :| name in names;
      var rest := SomeListing(names - {name});
      assert name !in Members(rest);
      s := PlaceIn(rest, name);
      assert names - {name} + {name} == names;
    }
  }
}
