/**
 Platform profiles: which ones a component selects, how the selected ones merge
 into one policy, and what checking that policy means for each of them.
 */
module Profiles {
  import opened Wrappers
  import opened Names
  import opened SpecTypes

  datatype Toleration = Toleration(key: string, operator: string, value: string, effect: string, seconds: Option<int>)

  datatype MaxResources = MaxResources(cpu: Quantity, memory: Quantity)

  /** Empty strings are fields left out. */
  datatype Retention = Retention(whenDeleted: string, whenScaled: string)

  datatype ScrapePolicy = ScrapePolicy(
    monitorLabels: map<string, string>,
    annotations: map<string, string>,
    monitorNamespace: string,
    interval: string,
    scrapeTimeout: string,
    jobLabel: string,
    honorLabels: Option<bool>,
    relabelings: seq<string>,
    metricRelabelings: seq<string>)

  /** The explicit fields of a security context, by field name. */
  type SecurityContext = map<string, string>

  /** A nil map is an empty one here; nil lists and nil blocks that mean something are `None`. */
  datatype Profile = Profile(
    nodeSelector: map<string, string>,
    podLabels: map<string, string>,
    podAnnotations: map<string, string>,
    securityContext: Option<SecurityContext>,
    containerSecurityContext: Option<SecurityContext>,
    tolerations: seq<Toleration>,
    storageClass: string,
    retention: Option<Retention>,
    allowedDomains: Option<seq<string>>,
    maxResources: Option<MaxResources>,
    metrics: Option<ScrapePolicy>)

  const EMPTY := Profile(map[], map[], map[], None, None, [], "", None, None, None, None)

  const DEFAULT := "default"

  // ----- the profiles a component selects -----

  datatype Selection = Selected(names: seq<string>) | OptOutBlocked | NoProfilesSection

  function WithoutDefault(names: seq<string>): seq<string> {
    if names == [] then []
    else
      var last := names[|names| - 1];
      WithoutDefault(names[..|names| - 1]) + if last == DEFAULT then [] else [last]
  }

  lemma WithoutDefaultNext(names: seq<string>, i: nat)
    requires i < |names|
    ensures WithoutDefault(names[..i + 1]) ==
      WithoutDefault(names[..i]) + if names[i] == DEFAULT then [] else [names[i]]
  {
    assert names[..i + 1][..i] == names[..i];
  }

  /** The selection rules; `asked` is `None` for an omitted list. */
  function Selects(asked: Option<seq<string>>, profiles: Option<map<string, Profile>>): Selection {
    var hasDefault := profiles.Some? && DEFAULT in profiles.value;
    var first := if hasDefault then [DEFAULT] else [];
    match asked
    case None => Selected(first)
    case Some(names) =>
      if names == [] then (if hasDefault then OptOutBlocked else Selected([]))
      else if profiles.None? then NoProfilesSection
      else Selected(first + WithoutDefault(names))
  }

  /** `ResolveProfileNames`. */
  method ResolveProfileNames(asked: Option<seq<string>>, profiles: Option<map<string, Profile>>) returns (r: Selection)
    ensures r == Selects(asked, profiles)
  {
    var hasDefault := profiles.Some? && DEFAULT in profiles.value;
    if asked.None? {
      return Selected(if hasDefault then [DEFAULT] else []);
    }
    if |asked.value| == 0 {
      return if hasDefault then OptOutBlocked else Selected([]);
    }
    if profiles.None? {
      return NoProfilesSection;
    }
    var names := if hasDefault then [DEFAULT] else [];
    ghost var first := names;
    for i := 0 to |asked.value|
      invariant names == first + WithoutDefault(asked.value[..i])
    {
      WithoutDefaultNext(asked.value, i);
      if asked.value[i] != DEFAULT {
        names := names + [asked.value[i]];
      }
    }
    assert asked.value[..|asked.value|] == asked.value;
    r := Selected(names);
  }

  lemma {:induction false} WithoutDefaultMembers(names: seq<string>)
    ensures forall n :: n in WithoutDefault(names) <==> n in names && n != DEFAULT
  {
    if names != [] {
      var last := |names| - 1;
      WithoutDefaultMembers(names[..last]);
      assert names == names[..last] + [names[last]];
    }
  }

  /** `kept` lists, in order, the positions of exactly the names other than the default. */
  ghost predicate OtherPositions(names: seq<string>, kept: seq<nat>) {
    && (forall i :: 0 <= i < |kept| ==> kept[i] < |names|)
    && (forall i, j :: 0 <= i < j < |kept| ==> kept[i] < kept[j])
    && (forall k :: 0 <= k < |names| ==> (k in kept <==> names[k] != DEFAULT))
  }

  /** `out` is `names` read off at these positions. */
  ghost predicate ReadsAt(names: seq<string>, kept: seq<nat>, out: seq<string>) {
    |out| == |kept| && forall i :: 0 <= i < |kept| ==> kept[i] < |names| && out[i] == names[kept[i]]
  }

  /** The other names keep their order and their repeats. */
  lemma {:induction false} OthersInOrder(names: seq<string>) returns (kept: seq<nat>)
    ensures OtherPositions(names, kept) && ReadsAt(names, kept, WithoutDefault(names))
  {
    if names == [] {
      kept := [];
    } else {
      var before, last := names[..|names| - 1], names[|names| - 1];
      var first := OthersInOrder(before);
      kept := if last == DEFAULT then first else first + [|before|];
      OneMoreName(before, first, WithoutDefault(before), last);
      assert before + [last] == names;
    }
  }

  lemma OneMoreName(names: seq<string>, kept: seq<nat>, out: seq<string>, last: string)
    requires OtherPositions(names, kept) && ReadsAt(names, kept, out)
    ensures OtherPositions(names + [last], if last == DEFAULT then kept else kept + [|names|])
    ensures ReadsAt(names + [last], if last == DEFAULT then kept else kept + [|names|],
      out + if last == DEFAULT then [] else [last])
  {
    var all, more := names + [last], if last == DEFAULT then kept else kept + [|names|];
    forall k | 0 <= k < |all| ensures k in more <==> all[k] != DEFAULT {
      assert k < |names| ==> all[k] == names[k] && (k in more <==> k in kept);
    }
    assert out + [] == out;
  }

  /**
   What a list of profiles selects. Asking for some without a profiles section is an
   error, and so is opting out of a defined default. Otherwise a defined default comes
   first and once, whatever was asked for, and then come the other names as they were
   asked for, in order; a default that is asked for but not defined is left out.
   */
  lemma DefaultComesFirst(asked: Option<seq<string>>, profiles: Option<map<string, Profile>>)
    ensures var r := Selects(asked, profiles);
      var names := if asked.Some? then asked.value else [];
      var defined := profiles.Some? && DEFAULT in profiles.value;
      && (r.NoProfilesSection? <==> names != [] && profiles.None?)
      && (r.OptOutBlocked? <==> defined && asked == Some([]))
      && (r.Selected? ==>
        && (defined ==> r.names != [] && r.names[0] == DEFAULT)
        && exists kept ::
          OtherPositions(names, kept) && ReadsAt(names, kept, if defined then r.names[1..] else r.names))
  {
    var names := if asked.Some? then asked.value else [];
    var kept := OthersInOrder(names);
    SelectedShape(asked, profiles);
  }

  /** What is selected, after the default if it is defined, are the other names. */
  lemma SelectedShape(asked: Option<seq<string>>, profiles: Option<map<string, Profile>>)
    ensures var r := Selects(asked, profiles);
      r.Selected? ==>
        var others := WithoutDefault(if asked.Some? then asked.value else []);
        if profiles.Some? && DEFAULT in profiles.value
        then r.names != [] && r.names[0] == DEFAULT && r.names[1..] == others
        else r.names == others
  {
    var others := WithoutDefault(if asked.Some? then asked.value else []);
    assert ([DEFAULT] + others)[1..] == others && [] + others == others;
  }

  lemma SelectedNames(asked: Option<seq<string>>, profiles: Option<map<string, Profile>>)
    requires Selects(asked, profiles).Selected?
    ensures var r := Selects(asked, profiles); var defined := profiles.Some? && DEFAULT in profiles.value;
      && (defined ==> r.names != [] && r.names[0] == DEFAULT && DEFAULT !in r.names[1..])
      && (!defined ==> DEFAULT !in r.names)
      && (forall n :: n != DEFAULT ==> (n in r.names <==> asked.Some? && n in asked.value))
  {
    if asked.Some? {
      WithoutDefaultMembers(asked.value);
    }
  }

  /** Every name selected can be looked up. */
  predicate SelectsDefined(asked: Option<seq<string>>, profiles: Option<map<string, Profile>>) {
    var r := Selects(asked, profiles);
    r.Selected? && forall n :: n in r.names ==> profiles.Some? && n in profiles.value
  }

  /**
   A list that is not empty gives profiles that can all be looked up exactly when
   there is a profiles section with every name in it but, possibly, the default.
   */
  lemma AskedIsSelectable(names: seq<string>, profiles: Option<map<string, Profile>>)
    requires names != []
    ensures SelectsDefined(Some(names), profiles)
      <==> profiles.Some? && forall n :: n in names && n != DEFAULT ==> n in profiles.value
  {
    if profiles.Some? {
      SelectedNames(Some(names), profiles);
    }
  }

  // ----- merging two profiles -----

  function MergeText(base: string, overlay: string): string {
    if overlay != "" then overlay else base
  }

  function MergeOption<T>(base: Option<T>, overlay: Option<T>): Option<T> {
    if overlay.Some? then overlay else base
  }

  /** Explicit fields of the overlay win; a field set to false is explicit. */
  function MergeContext(base: Option<SecurityContext>, overlay: Option<SecurityContext>): Option<SecurityContext> {
    match (base, overlay)
    case (Some(b), Some(o)) => Some(b + o)
    case _ => MergeOption(base, overlay)
  }

  function AddNew<T(==)>(base: seq<T>, overlay: seq<T>): seq<T> {
    if overlay == [] then base
    else
      var last := overlay[|overlay| - 1];
      var before := AddNew(base, overlay[..|overlay| - 1]);
      if last in before then before else before + [last]
  }

  function MergeRetention(base: Option<Retention>, overlay: Option<Retention>): Option<Retention> {
    match (base, overlay)
    case (Some(b), Some(o)) =>
      Some(Retention(MergeText(b.whenDeleted, o.whenDeleted), MergeText(b.whenScaled, o.whenScaled)))
    case _ => MergeOption(base, overlay)
  }

  /** The entries of `list` that are also in `other`. */
  function Keep(list: seq<string>, other: seq<string>): seq<string> {
    if list == [] then []
    else
      var last := list[|list| - 1];
      Keep(list[..|list| - 1], other) + if last in other then [last] else []
  }

  function MergeDomains(base: Option<seq<string>>, overlay: Option<seq<string>>): Option<seq<string>> {
    match (base, overlay)
    case (Some(b), Some(o)) => Some(Keep(b, o))
    case _ => MergeOption(base, overlay)
  }

  /** `minQuantity`. */
  function MinQuantity(a: Quantity, b: Quantity): Quantity {
    if !QuantitySet(a) then b
    else if !QuantitySet(b) then a
    else if a.value <= b.value then a
    else b
  }

  /** `mergeMaxResources`. */
  function MergeMax(base: Option<MaxResources>, overlay: Option<MaxResources>): Option<MaxResources> {
    match (base, overlay)
    case (Some(b), Some(o)) =>
      var out := MaxResources(MinQuantity(b.cpu, o.cpu), MinQuantity(b.memory, o.memory));
      if !QuantitySet(out.cpu) && !QuantitySet(out.memory) then None else Some(out)
    case _ => MergeOption(base, overlay)
  }

  /** `mergeProfileMetrics`. */
  function MergeMetrics(base: Option<ScrapePolicy>, overlay: Option<ScrapePolicy>): Option<ScrapePolicy> {
    match (base, overlay)
    case (Some(b), Some(o)) =>
      Some(ScrapePolicy(
        b.monitorLabels + o.monitorLabels,
        b.annotations + o.annotations,
        MergeText(b.monitorNamespace, o.monitorNamespace),
        MergeText(b.interval, o.interval),
        MergeText(b.scrapeTimeout, o.scrapeTimeout),
        MergeText(b.jobLabel, o.jobLabel),
        MergeOption(b.honorLabels, o.honorLabels),
        b.relabelings + o.relabelings,
        b.metricRelabelings + o.metricRelabelings))
    case _ => MergeOption(base, overlay)
  }

  function Merge(base: Profile, overlay: Profile): Profile {
    Profile(
      base.nodeSelector + overlay.nodeSelector,
      base.podLabels + overlay.podLabels,
      base.podAnnotations + overlay.podAnnotations,
      MergeContext(base.securityContext, overlay.securityContext),
      MergeContext(base.containerSecurityContext, overlay.containerSecurityContext),
      AddNew(base.tolerations, overlay.tolerations),
      MergeText(base.storageClass, overlay.storageClass),
      MergeRetention(base.retention, overlay.retention),
      MergeDomains(base.allowedDomains, overlay.allowedDomains),
      MergeMax(base.maxResources, overlay.maxResources),
      MergeMetrics(base.metrics, overlay.metrics))
  }

  function MergeAll(ps: seq<Profile>): Profile {
    if ps == [] then EMPTY else Merge(MergeAll(ps[..|ps| - 1]), ps[|ps| - 1])
  }

  // ----- merging as it runs -----

  /** `mergeTolerations`. */
  method MergeTolerations(base: seq<Toleration>, overlay: seq<Toleration>) returns (out: seq<Toleration>)
    ensures out == AddNew(base, overlay)
  {
    out := base;
    for i := 0 to |overlay|
      invariant out == AddNew(base, overlay[..i])
    {
      assert overlay[..i + 1][..i] == overlay[..i];
      if overlay[i] !in out {
        out := out + [overlay[i]];
      }
    }
    assert overlay[..|overlay|] == overlay;
  }

  /** `intersectStrings`. */
  method IntersectStrings(a: seq<string>, b: seq<string>) returns (out: seq<string>)
    ensures out == Keep(a, b)
  {
    var members: set<string> := {};
    for i := 0 to |b|
      invariant forall s :: s in members <==> s in b[..i]
    {
      assert b[..i + 1] == b[..i] + [b[i]];
      members := members + {b[i]};
    }
    assert b[..|b|] == b;
    out := [];
    for i := 0 to |a|
      invariant out == Keep(a[..i], b)
    {
      assert a[..i + 1][..i] == a[..i];
      if a[i] in members {
        out := out + [a[i]];
      }
    }
    assert a[..|a|] == a;
  }

  function Lookup(names: seq<string>, profiles: map<string, Profile>): (ps: seq<Profile>)
    requires forall n :: n in names ==> n in profiles
    ensures |ps| == |names| && forall i :: 0 <= i < |names| ==> ps[i] == profiles[names[i]]
  {
    seq(|names|, i requires 0 <= i < |names| => profiles[names[i]])
  }

  lemma LookupNext(names: seq<string>, profiles: map<string, Profile>, i: nat)
    requires i < |names| && forall n :: n in names[..i + 1] ==> n in profiles
    ensures names[..i + 1] == names[..i] + [names[i]]
    ensures MergeAll(Lookup(names[..i + 1], profiles))
      == Merge(MergeAll(Lookup(names[..i], profiles)), profiles[names[i]])
  {
    assert names[..i + 1] == names[..i] + [names[i]];
    var ps := Lookup(names[..i + 1], profiles);
    assert ps[..i] == Lookup(names[..i], profiles);
  }

  /** `MergeProfiles`: `None` when a name is not defined. `allowedSet` is the separate flag of the loop. */
  method MergeProfiles(names: seq<string>, profiles: map<string, Profile>) returns (r: Option<Profile>)
    ensures r.Some? <==> forall n :: n in names ==> n in profiles
    ensures r.Some? ==> r.value == MergeAll(Lookup(names, profiles))
  {
    var merged, allowedSet := EMPTY, false;
    for i := 0 to |names|
      invariant forall n :: n in names[..i] ==> n in profiles
      invariant merged == MergeAll(Lookup(names[..i], profiles))
      invariant allowedSet == merged.allowedDomains.Some?
    {
      if names[i] !in profiles {
        return None;
      }
      var p := profiles[names[i]];
      ghost var before := merged;
      var tolerations := MergeTolerations(merged.tolerations, p.tolerations);
      var allowed := merged.allowedDomains;
      if p.allowedDomains.Some? {
        if !allowedSet {
          allowed, allowedSet := p.allowedDomains, true;
        } else {
          var both := IntersectStrings(merged.allowedDomains.value, p.allowedDomains.value);
          allowed := Some(both);
        }
      }
      merged := Profile(
        merged.nodeSelector + p.nodeSelector,
        merged.podLabels + p.podLabels,
        merged.podAnnotations + p.podAnnotations,
        MergeContext(merged.securityContext, p.securityContext),
        MergeContext(merged.containerSecurityContext, p.containerSecurityContext),
        tolerations,
        MergeText(merged.storageClass, p.storageClass),
        MergeRetention(merged.retention, p.retention),
        allowed,
        MergeMax(merged.maxResources, p.maxResources),
        MergeMetrics(merged.metrics, p.metrics));
      assert forall n :: n in names[..i + 1] ==> n in profiles by {
        assert names[..i + 1] == names[..i] + [names[i]];
      }
      LookupNext(names, profiles, i);
      assert merged == Merge(before, p);
    }
    assert names[..|names|] == names;
    r := Some(merged);
  }

  // ----- the algebra -----

  /** The ceiling that is in force on one resource: absent when it is not set. */
  ghost function InForce(q: Quantity): Quantity {
    if QuantitySet(q) then q else None
  }

  ghost function CeilingOf(max: Option<MaxResources>): MaxResources {
    match max
    case None => MaxResources(None, None)
    case Some(m) => MaxResources(InForce(m.cpu), InForce(m.memory))
  }

  /** Equal policies: equal in every field, the ceilings up to quantities that are not set. */
  ghost predicate SamePolicy(a: Profile, b: Profile) {
    a.(maxResources := None) == b.(maxResources := None) && CeilingOf(a.maxResources) == CeilingOf(b.maxResources)
  }

  lemma {:induction false} AddNewMembers<T>(a: seq<T>, b: seq<T>)
    ensures forall x :: x in AddNew(a, b) <==> x in a || x in b
    ensures NoDuplicates(a) ==> NoDuplicates(AddNew(a, b))
    decreases |b|
  {
    if b != [] {
      AddNewMembers(a, b[..|b| - 1]);
      assert b == b[..|b| - 1] + [b[|b| - 1]];
    }
  }

  lemma {:induction false} AddNewAssociative<T>(a: seq<T>, b: seq<T>, c: seq<T>)
    ensures AddNew(AddNew(a, b), c) == AddNew(a, AddNew(b, c))
    decreases |c|
  {
    if c != [] {
      var before, last := c[..|c| - 1], c[|c| - 1];
      var d := AddNew(b, before);
      AddNewAssociative(a, b, before);
      AddNewMembers(a, d);
      if last !in d {
        assert (d + [last])[..|d|] == d;
      }
    }
  }

  lemma {:induction false} KeepMembers(a: seq<string>, b: seq<string>)
    ensures forall d :: d in Keep(a, b) <==> d in a && d in b
    decreases |a|
  {
    if a != [] {
      KeepMembers(a[..|a| - 1], b);
      assert a == a[..|a| - 1] + [a[|a| - 1]];
    }
  }

  lemma KeepNext(list: seq<string>, last: string, other: seq<string>)
    ensures Keep(list + [last], other) == Keep(list, other) + if last in other then [last] else []
  {
    assert (list + [last])[..|list|] == list;
  }

  lemma {:induction false} KeepAssociative(a: seq<string>, b: seq<string>, c: seq<string>)
    ensures Keep(Keep(a, b), c) == Keep(a, Keep(b, c))
    decreases |a|
  {
    KeepMembers(b, c);
    if a != [] {
      var before, last := a[..|a| - 1], a[|a| - 1];
      KeepAssociative(before, b, c);
      KeepNext(Keep(before, b), last, c);
      assert Keep(before, b) + [] == Keep(before, b);
    }
  }

  lemma DomainsAssociative(a: Option<seq<string>>, b: Option<seq<string>>, c: Option<seq<string>>)
    ensures MergeDomains(MergeDomains(a, b), c) == MergeDomains(a, MergeDomains(b, c))
  {
    if a.Some? && b.Some? && c.Some? {
      KeepAssociative(a.value, b.value, c.value);
    }
  }

  lemma MetricsAssociative(a: Option<ScrapePolicy>, b: Option<ScrapePolicy>, c: Option<ScrapePolicy>)
    ensures MergeMetrics(MergeMetrics(a, b), c) == MergeMetrics(a, MergeMetrics(b, c))
  {
    if a.Some? && b.Some? && c.Some? {
      var x, y, z := a.value, b.value, c.value;
      assert x.monitorLabels + y.monitorLabels + z.monitorLabels
        == x.monitorLabels + (y.monitorLabels + z.monitorLabels);
      assert x.annotations + y.annotations + z.annotations == x.annotations + (y.annotations + z.annotations);
      assert x.relabelings + y.relabelings + z.relabelings == x.relabelings + (y.relabelings + z.relabelings);
      assert x.metricRelabelings + y.metricRelabelings + z.metricRelabelings
        == x.metricRelabelings + (y.metricRelabelings + z.metricRelabelings);
    }
  }

  lemma ContextAssociative(a: Option<SecurityContext>, b: Option<SecurityContext>, c: Option<SecurityContext>)
    ensures MergeContext(MergeContext(a, b), c) == MergeContext(a, MergeContext(b, c))
  {
    if a.Some? && b.Some? && c.Some? {
      assert a.value + b.value + c.value == a.value + (b.value + c.value);
    }
  }

  lemma MapsAssociative(a: map<string, string>, b: map<string, string>, c: map<string, string>)
    ensures a + b + c == a + (b + c)
  {
  }

  lemma RetentionAssociative(a: Option<Retention>, b: Option<Retention>, c: Option<Retention>)
    ensures MergeRetention(MergeRetention(a, b), c) == MergeRetention(a, MergeRetention(b, c))
  {
  }

  lemma CeilingAssociative(a: Option<MaxResources>, b: Option<MaxResources>, c: Option<MaxResources>)
    ensures CeilingOf(MergeMax(MergeMax(a, b), c)) == CeilingOf(MergeMax(a, MergeMax(b, c)))
  {
  }

  lemma MapFieldsAssociative(a: Profile, b: Profile, c: Profile)
    ensures var l, r := Merge(Merge(a, b), c), Merge(a, Merge(b, c));
      && l.nodeSelector == r.nodeSelector && l.podLabels == r.podLabels && l.podAnnotations == r.podAnnotations
      && l.securityContext == r.securityContext && l.containerSecurityContext == r.containerSecurityContext
  {
    MapsAssociative(a.nodeSelector, b.nodeSelector, c.nodeSelector);
    MapsAssociative(a.podLabels, b.podLabels, c.podLabels);
    MapsAssociative(a.podAnnotations, b.podAnnotations, c.podAnnotations);
    ContextAssociative(a.securityContext, b.securityContext, c.securityContext);
    ContextAssociative(a.containerSecurityContext, b.containerSecurityContext, c.containerSecurityContext);
  }

  lemma OtherFieldsAssociative(a: Profile, b: Profile, c: Profile)
    ensures var l, r := Merge(Merge(a, b), c), Merge(a, Merge(b, c));
      && l.tolerations == r.tolerations && l.storageClass == r.storageClass && l.retention == r.retention
      && l.allowedDomains == r.allowedDomains && l.metrics == r.metrics
  {
    AddNewAssociative(a.tolerations, b.tolerations, c.tolerations);
    RetentionAssociative(a.retention, b.retention, c.retention);
    DomainsAssociative(a.allowedDomains, b.allowedDomains, c.allowedDomains);
    MetricsAssociative(a.metrics, b.metrics, c.metrics);
  }

  /** Merging is associative as a policy. */
  lemma MergeAssociative(a: Profile, b: Profile, c: Profile)
    ensures SamePolicy(Merge(Merge(a, b), c), Merge(a, Merge(b, c)))
  {
    MapFieldsAssociative(a, b, c);
    OtherFieldsAssociative(a, b, c);
    CeilingAssociative(a.maxResources, b.maxResources, c.maxResources);
  }

  lemma MergeKeepsSame(a: Profile, b: Profile, c: Profile)
    requires SamePolicy(a, b)
    ensures SamePolicy(Merge(a, c), Merge(b, c))
  {
    assert a == b.(maxResources := a.maxResources);
  }

  lemma MergeNothing(p: Profile)
    ensures Merge(p, EMPTY) == p
  {
    MapUnit(p.nodeSelector);
    MapUnit(p.podLabels);
    MapUnit(p.podAnnotations);
  }

  /** Merging a list is merging the merges of its two halves. */
  lemma {:induction false} MergeIsHomomorphic(xs: seq<Profile>, ys: seq<Profile>)
    ensures SamePolicy(MergeAll(xs + ys), Merge(MergeAll(xs), MergeAll(ys)))
    decreases |ys|
  {
    if ys == [] {
      assert xs + ys == xs;
      MergeNothing(MergeAll(xs));
    } else {
      var before, last := ys[..|ys| - 1], ys[|ys| - 1];
      assert (xs + ys)[..|xs + ys| - 1] == xs + before;
      MergeIsHomomorphic(xs, before);
      MergeKeepsSame(MergeAll(xs + before), Merge(MergeAll(xs), MergeAll(before)), last);
      MergeAssociative(MergeAll(xs), MergeAll(before), last);
    }
  }

  // ----- when merging is associative as a value -----

  /** A ceiling block that is there and sets something. */
  predicate SetsCeiling(max: Option<MaxResources>) {
    max.Some? && (QuantitySet(max.value.cpu) || QuantitySet(max.value.memory))
  }

  predicate SetNoCeiling(ps: seq<Profile>) {
    forall p :: p in ps ==> !SetsCeiling(p.maxResources)
  }

  /** The ceiling blocks of the profiles that have one, in order. */
  function Blocks(ps: seq<Profile>): seq<MaxResources> {
    if ps == [] then []
    else
      var last := ps[|ps| - 1];
      Blocks(ps[..|ps| - 1]) + if last.maxResources.Some? then [last.maxResources.value] else []
  }

  function MaxAfter(start: Option<MaxResources>, ps: seq<Profile>): Option<MaxResources> {
    if ps == [] then start else MergeMax(MaxAfter(start, ps[..|ps| - 1]), ps[|ps| - 1].maxResources)
  }

  lemma {:induction false} MaxOfAll(ps: seq<Profile>)
    ensures MergeAll(ps).maxResources == MaxAfter(None, ps)
  {
    if ps != [] {
      MaxOfAll(ps[..|ps| - 1]);
    }
  }

  lemma {:induction false} MaxAfterAppend(start: Option<MaxResources>, xs: seq<Profile>, ys: seq<Profile>)
    ensures MaxAfter(start, xs + ys) == MaxAfter(MaxAfter(start, xs), ys)
    decreases |ys|
  {
    if ys == [] {
      assert xs + ys == xs;
    } else {
      assert (xs + ys)[..|xs + ys| - 1] == xs + ys[..|ys| - 1];
      MaxAfterAppend(start, xs, ys[..|ys| - 1]);
    }
  }

  /**
   Blocks that set nothing cancel out in pairs, except on top of one that sets
   something, where the last one stays.
   */
  lemma {:induction false} UnsetBlocks(start: Option<MaxResources>, ys: seq<Profile>)
    requires SetNoCeiling(ys)
    ensures var blocks := Blocks(ys);
      MaxAfter(start, ys)
      == (if blocks == [] then start
          else if SetsCeiling(start) then MergeMax(start, Some(blocks[|blocks| - 1]))
          else if (|blocks| % 2 == 1) == start.None? then Some(blocks[|blocks| - 1])
          else None)
    ensures forall m :: m in Blocks(ys) ==> !SetsCeiling(Some(m))
    decreases |ys|
  {
    if ys != [] {
      assert ys == ys[..|ys| - 1] + [ys[|ys| - 1]];
      UnsetBlocks(start, ys[..|ys| - 1]);
    }
  }

  lemma MaxAssociative(a: Option<MaxResources>, b: Option<MaxResources>, c: Option<MaxResources>)
    requires SetsCeiling(b)
    ensures MergeMax(MergeMax(a, b), c) == MergeMax(a, MergeMax(b, c)) && SetsCeiling(MergeMax(b, c))
  {
  }

  /** A block that sets something leaves nothing of unset ones before it. */
  lemma {:induction false} SetBlocks(start: Option<MaxResources>, ys: seq<Profile>)
    requires !SetNoCeiling(ys)
    ensures MaxAfter(start, ys) == MergeMax(start, MaxAfter(None, ys)) && SetsCeiling(MaxAfter(None, ys))
    decreases |ys|
  {
    var before, last := ys[..|ys| - 1], ys[|ys| - 1];
    assert ys == before + [last];
    if SetNoCeiling(before) {
      UnsetBlocks(start, before);
      UnsetBlocks(None, before);
    } else {
      SetBlocks(start, before);
      MaxAssociative(start, MaxAfter(None, before), last.maxResources);
    }
  }

  /** Where the first block sets nothing the second says the same. */
  predicate AgreeWhereUnset(a: MaxResources, b: MaxResources) {
    (QuantitySet(a.cpu) || a.cpu == b.cpu) && (QuantitySet(a.memory) || a.memory == b.memory)
  }

  /** The ceiling blocks of `ys` are none, an odd number, set something, or have nothing to change in `merged`. */
  predicate NoBlockIsLost(merged: Option<MaxResources>, ys: seq<Profile>) {
    var blocks := Blocks(ys);
    || merged.None? || !SetNoCeiling(ys) || |blocks| == 0 || |blocks| % 2 == 1
    || AgreeWhereUnset(merged.value, blocks[|blocks| - 1])
  }

  lemma NoBlockIsLostMeaning(merged: Option<MaxResources>, ys: seq<Profile>)
    ensures MaxAfter(merged, ys) == MergeMax(merged, MaxAfter(None, ys)) <==> NoBlockIsLost(merged, ys)
  {
    if SetNoCeiling(ys) {
      UnsetBlocks(merged, ys);
      UnsetBlocks(None, ys);
    } else {
      SetBlocks(merged, ys);
    }
  }

  /**
   Merging a list gives the very value of merging the merges of its two halves
   exactly when the second half does not consist, as to ceilings, of an even number
   of blocks that set nothing and differ from what the first half leaves unset.
   */
  lemma MergeIsExactlyHomomorphic(xs: seq<Profile>, ys: seq<Profile>)
    ensures MergeAll(xs + ys) == Merge(MergeAll(xs), MergeAll(ys)) <==> NoBlockIsLost(MergeAll(xs).maxResources, ys)
  {
    MergeIsHomomorphic(xs, ys);
    MaxOfAll(xs);
    MaxOfAll(ys);
    MaxOfAll(xs + ys);
    MaxAfterAppend(None, xs, ys);
    NoBlockIsLostMeaning(MaxAfter(None, xs), ys);
    var l, r := MergeAll(xs + ys), Merge(MergeAll(xs), MergeAll(ys));
    assert l == r.(maxResources := l.maxResources);
  }

  /** In particular when every ceiling block of the platform sets cpu or memory. */
  lemma SetCeilingsMergeExactly(xs: seq<Profile>, ys: seq<Profile>)
    requires forall p :: p in ys ==> p.maxResources.None? || SetsCeiling(p.maxResources)
    ensures MergeAll(xs + ys) == Merge(MergeAll(xs), MergeAll(ys))
  {
    MergeIsExactlyHomomorphic(xs, ys);
    if SetNoCeiling(ys) {
      NoBlocks(ys);
    }
  }

  lemma {:induction false} NoBlocks(ps: seq<Profile>)
    requires forall p :: p in ps ==> p.maxResources.None?
    ensures Blocks(ps) == []
  {
    if ps != [] {
      NoBlocks(ps[..|ps| - 1]);
    }
  }

  /** The exception is real: two ceilings that set nothing cancel out, one alone stays. */
  lemma UnsetCeilingsDiffer()
    ensures var zero := EMPTY.(maxResources := Some(MaxResources(Some(0), None)));
      var none := EMPTY.(maxResources := Some(MaxResources(None, None)));
      MergeAll([zero] + [none, none]) != Merge(MergeAll([zero]), MergeAll([none, none]))
  {
    var zero := EMPTY.(maxResources := Some(MaxResources(Some(0), None)));
    var none := EMPTY.(maxResources := Some(MaxResources(None, None)));
    assert [zero][..0] == [] && [none, none][..1] == [none] && [none][..0] == [];
    var all := [zero] + [none, none];
    assert all[..2] == [zero, none] && all[..2][..1] == [zero];
    assert MergeAll([zero]) == Merge(EMPTY, zero);
    assert MergeAll([none]) == Merge(EMPTY, none);
    assert MergeAll([zero]).maxResources == zero.maxResources;
    assert MergeAll(all[..2]).maxResources == None;
    assert MergeAll(all).maxResources == none.maxResources;
    assert MergeAll([none, none]).maxResources == None;
  }

  // ----- what the merged policy means -----

  /** No explicit list, or a list with this domain. */
  predicate Permits(p: Profile, domain: string) {
    p.allowedDomains.None? || domain in p.allowedDomains.value
  }

  predicate WithinOne(max: Quantity, request: Quantity) {
    QuantitySet(max) && QuantitySet(request) ==> request.value <= max.value
  }

  predicate Within(p: Profile, requests: Resources) {
    p.maxResources.None?
    || (WithinOne(p.maxResources.value.cpu, requests.cpu) && WithinOne(p.maxResources.value.memory, requests.memory))
  }

  /** Every profile of the list is obeyed. */
  ghost predicate Obeyed(ps: seq<Profile>, domain: string, requests: Resources) {
    forall p :: p in ps ==> Within(p, requests) && (domain == "" || Permits(p, domain))
  }

  lemma MergeObeys(a: Profile, b: Profile, domain: string, requests: Resources)
    ensures Permits(Merge(a, b), domain) <==> Permits(a, domain) && Permits(b, domain)
    ensures Within(Merge(a, b), requests) <==> Within(a, requests) && Within(b, requests)
  {
    if a.allowedDomains.Some? && b.allowedDomains.Some? {
      KeepMembers(a.allowedDomains.value, b.allowedDomains.value);
    }
  }

  /** The merged policy is obeyed exactly when every merged profile is. */
  lemma {:induction false} MergedIsObeyed(ps: seq<Profile>, domain: string, requests: Resources)
    ensures (domain == "" || Permits(MergeAll(ps), domain)) && Within(MergeAll(ps), requests)
      <==> Obeyed(ps, domain, requests)
    decreases |ps|
  {
    if ps != [] {
      var before, last := ps[..|ps| - 1], ps[|ps| - 1];
      assert ps == before + [last];
      MergedIsObeyed(before, domain, requests);
      MergeObeys(MergeAll(before), last, domain, requests);
      assert Obeyed(ps, domain, requests)
        <==> Obeyed(before, domain, requests) && Within(last, requests) && (domain == "" || Permits(last, domain));
    }
  }

  /** Obeying a selection is obeying every selection from it, in any order. */
  lemma FewerProfilesAskLess(ps: seq<Profile>, qs: seq<Profile>, domain: string, requests: Resources)
    requires forall q :: q in qs ==> q in ps
    requires (domain == "" || Permits(MergeAll(ps), domain)) && Within(MergeAll(ps), requests)
    ensures (domain == "" || Permits(MergeAll(qs), domain)) && Within(MergeAll(qs), requests)
  {
    MergedIsObeyed(ps, domain, requests);
    MergedIsObeyed(qs, domain, requests);
  }

  predicate AllPermit(ps: seq<Profile>, domain: string) {
    forall p :: p in ps ==> Permits(p, domain)
  }

  function KeepPermitted(list: seq<string>, ps: seq<Profile>): seq<string> {
    if list == [] then []
    else
      var last := list[|list| - 1];
      KeepPermitted(list[..|list| - 1], ps) + if AllPermit(ps, last) then [last] else []
  }

  lemma {:induction false} KeepPermittedNext(list: seq<string>, ps: seq<Profile>, p: Profile)
    ensures KeepPermitted(list, ps + [p]) ==
      if p.allowedDomains.None? then KeepPermitted(list, ps) else Keep(KeepPermitted(list, ps), p.allowedDomains.value)
    decreases |list|
  {
    if list != [] {
      var before, last := list[..|list| - 1], list[|list| - 1];
      KeepPermittedNext(before, ps, p);
      assert AllPermit(ps + [p], last) <==> AllPermit(ps, last) && Permits(p, last);
      if p.allowedDomains.Some? {
        KeepNext(KeepPermitted(before, ps), last, p.allowedDomains.value);
        assert KeepPermitted(before, ps) + [] == KeepPermitted(before, ps);
      }
    }
  }

  lemma {:induction false} KeepPermittedAll(list: seq<string>, ps: seq<Profile>)
    requires forall d :: d in list ==> AllPermit(ps, d)
    ensures KeepPermitted(list, ps) == list
    decreases |list|
  {
    if list != [] {
      var before := list[..|list| - 1];
      KeepPermittedAll(before, ps);
      assert before + [list[|list| - 1]] == list;
    }
  }

  /** The index of the first profile with an explicit list. */
  function FirstExplicit(ps: seq<Profile>): (i: nat)
    ensures i <= |ps|
    ensures i < |ps| ==> ps[i].allowedDomains.Some?
    ensures forall j :: 0 <= j < i ==> ps[j].allowedDomains.None?
  {
    if ps == [] || ps[0].allowedDomains.Some? then 0 else 1 + FirstExplicit(ps[1..])
  }

  lemma FirstExplicitNext(ps: seq<Profile>, p: Profile)
    ensures FirstExplicit(ps + [p]) ==
      if FirstExplicit(ps) < |ps| then FirstExplicit(ps) else if p.allowedDomains.Some? then |ps| else |ps| + 1
  {
    var all, f := ps + [p], FirstExplicit(ps);
    assert forall j :: 0 <= j < |ps| ==> all[j] == ps[j];
    assert all[|ps|] == p;
    if f < |ps| {
      assert all[f].allowedDomains.Some?;
    }
  }

  /**
   No list at all when no profile has one, otherwise the first explicit list without
   what some profile does not permit.
   */
  lemma {:induction false} AllowedDomainsMeaning(ps: seq<Profile>)
    ensures MergeAll(ps).allowedDomains ==
      if FirstExplicit(ps) == |ps| then None
      else Some(KeepPermitted(ps[FirstExplicit(ps)].allowedDomains.value, ps))
    decreases |ps|
  {
    if ps != [] {
      var before, last := ps[..|ps| - 1], ps[|ps| - 1];
      assert ps == before + [last];
      AllowedDomainsMeaning(before);
      FirstExplicitNext(before, last);
      if FirstExplicit(before) < |before| {
        KeepPermittedNext(ps[FirstExplicit(before)].allowedDomains.value, before, last);
      } else if last.allowedDomains.Some? {
        KeepPermittedAll(last.allowedDomains.value, ps);
      }
    }
  }

  /** Every toleration of every profile, once. */
  lemma {:induction false} TolerationsMeaning(ps: seq<Profile>)
    ensures NoDuplicates(MergeAll(ps).tolerations)
    ensures forall t :: t in MergeAll(ps).tolerations <==> exists p :: p in ps && t in p.tolerations
    decreases |ps|
  {
    if ps != [] {
      var before, last := ps[..|ps| - 1], ps[|ps| - 1];
      assert ps == before + [last];
      TolerationsMeaning(before);
      AddNewMembers(MergeAll(before).tolerations, last.tolerations);
    }
  }

  /** All tolerations, profile by profile, with repeats. */
  function AllTolerations(ps: seq<Profile>): seq<Toleration> {
    if ps == [] then [] else AllTolerations(ps[..|ps| - 1]) + ps[|ps| - 1].tolerations
  }

  /** In this list the one occurs before the other first does. */
  ghost predicate OccursFirst(all: seq<Toleration>, x: Toleration, y: Toleration) {
    exists k :: 0 <= k <= |all| && x in all[..k] && y !in all[..k]
  }

  ghost predicate FirstOccurrences(merged: seq<Toleration>, all: seq<Toleration>) {
    && NoDuplicates(merged) && (forall x :: x in merged <==> x in all)
    && forall i, j :: 0 <= i < j < |merged| ==> OccursFirst(all, merged[i], merged[j])
  }

  lemma OneMoreOccurrence(merged: seq<Toleration>, all: seq<Toleration>, x: Toleration)
    requires FirstOccurrences(merged, all)
    ensures FirstOccurrences(if x in merged then merged else merged + [x], all + [x])
  {
    var grown, list := if x in merged then merged else merged + [x], all + [x];
    forall i, j | 0 <= i < j < |grown| ensures OccursFirst(list, grown[i], grown[j]) {
      if j < |merged| {
        assert OccursFirst(all, merged[i], merged[j]);
        var k :| 0 <= k <= |all| && merged[i] in all[..k] && merged[j] !in all[..k];
        assert list[..k] == all[..k];
      } else {
        assert list[..|all|] == all && grown[i] in merged;
      }
    }
  }

  lemma {:induction false} AddNewOccurrences(merged: seq<Toleration>, all: seq<Toleration>, more: seq<Toleration>)
    requires FirstOccurrences(merged, all)
    ensures FirstOccurrences(AddNew(merged, more), all + more)
    decreases |more|
  {
    if more == [] {
      assert all + more == all;
    } else {
      var before, last := more[..|more| - 1], more[|more| - 1];
      AddNewOccurrences(merged, all, before);
      OneMoreOccurrence(AddNew(merged, before), all + before, last);
      AppendLast(all, more);
    }
  }

  lemma AppendLast(all: seq<Toleration>, more: seq<Toleration>)
    requires more != []
    ensures all + more[..|more| - 1] + [more[|more| - 1]] == all + more
  {
  }

  /** The tolerations of all profiles in their order, each where it first occurs. */
  lemma {:induction false} TolerationsInOrder(ps: seq<Profile>)
    ensures FirstOccurrences(MergeAll(ps).tolerations, AllTolerations(ps))
    decreases |ps|
  {
    if ps != [] {
      var before, last := ps[..|ps| - 1], ps[|ps| - 1];
      TolerationsInOrder(before);
      AddNewOccurrences(MergeAll(before).tolerations, AllTolerations(before), last.tolerations);
    }
  }

  /** The fields of a policy that are made of keys, and those that are one text. */
  datatype KeyedField =
    | NodeSelector
    | PodLabels
    | PodAnnotations
    | PodContext
    | ContainerContext
    | MonitorLabels
    | MonitorAnnotations

  datatype TextField = StorageClass | WhenDeleted | WhenScaled | MonitorNamespace | Interval | ScrapeTimeout | JobLabel

  function KeysOf(f: KeyedField, p: Profile): map<string, string> {
    match f
    case NodeSelector => p.nodeSelector
    case PodLabels => p.podLabels
    case PodAnnotations => p.podAnnotations
    case PodContext => if p.securityContext.Some? then p.securityContext.value else map[]
    case ContainerContext => if p.containerSecurityContext.Some? then p.containerSecurityContext.value else map[]
    case MonitorLabels => if p.metrics.Some? then p.metrics.value.monitorLabels else map[]
    case MonitorAnnotations => if p.metrics.Some? then p.metrics.value.annotations else map[]
  }

  function TextOf(f: TextField, p: Profile): string {
    match f
    case StorageClass => p.storageClass
    case WhenDeleted => if p.retention.Some? then p.retention.value.whenDeleted else ""
    case WhenScaled => if p.retention.Some? then p.retention.value.whenScaled else ""
    case MonitorNamespace => if p.metrics.Some? then p.metrics.value.monitorNamespace else ""
    case Interval => if p.metrics.Some? then p.metrics.value.interval else ""
    case ScrapeTimeout => if p.metrics.Some? then p.metrics.value.scrapeTimeout else ""
    case JobLabel => if p.metrics.Some? then p.metrics.value.jobLabel else ""
  }

  lemma MapUnit(m: map<string, string>)
    ensures m + map[] == m && map[] + m == m
  {
  }

  lemma KeysOfMerge(f: KeyedField, a: Profile, b: Profile)
    ensures KeysOf(f, Merge(a, b)) == KeysOf(f, a) + KeysOf(f, b)
  {
    MapUnit(KeysOf(f, a));
    MapUnit(KeysOf(f, b));
  }

  /** A key appears when some profile sets it, and the last profile that sets it decides its value. */
  lemma {:induction false} LastKeyWins(f: KeyedField, ps: seq<Profile>, i: nat, key: string)
    requires i < |ps|
    ensures key in KeysOf(f, ps[i]) ==> key in KeysOf(f, MergeAll(ps))
    ensures (key in KeysOf(f, ps[i]) && forall j :: i < j < |ps| ==> key !in KeysOf(f, ps[j])) ==>
      KeysOf(f, MergeAll(ps))[key] == KeysOf(f, ps[i])[key]
    decreases |ps|
  {
    var before, last := ps[..|ps| - 1], ps[|ps| - 1];
    KeysOfMerge(f, MergeAll(before), last);
    if i < |before| {
      LastKeyWins(f, before, i, key);
      assert forall j :: 0 <= j < |before| ==> before[j] == ps[j];
    }
  }

  lemma {:induction false} NoOtherKeys(f: KeyedField, ps: seq<Profile>, key: string)
    requires forall p :: p in ps ==> key !in KeysOf(f, p)
    ensures key !in KeysOf(f, MergeAll(ps))
    decreases |ps|
  {
    if ps != [] {
      NoOtherKeys(f, ps[..|ps| - 1], key);
      KeysOfMerge(f, MergeAll(ps[..|ps| - 1]), ps[|ps| - 1]);
    }
  }

  lemma TextOfMerge(f: TextField, a: Profile, b: Profile)
    ensures TextOf(f, Merge(a, b)) == if TextOf(f, b) != "" then TextOf(f, b) else TextOf(f, a)
  {
  }

  ghost predicate IsLastText(f: TextField, ps: seq<Profile>, i: nat)
    requires i < |ps|
  {
    TextOf(f, ps[i]) != "" && forall j :: i < j < |ps| ==> TextOf(f, ps[j]) == ""
  }

  lemma {:induction false} LastTextDecides(f: TextField, ps: seq<Profile>, i: nat)
    requires i < |ps| && IsLastText(f, ps, i)
    ensures TextOf(f, MergeAll(ps)) == TextOf(f, ps[i])
    decreases |ps|
  {
    var before := ps[..|ps| - 1];
    TextOfMerge(f, MergeAll(before), ps[|ps| - 1]);
    if i < |before| {
      assert forall j :: 0 <= j < |before| ==> before[j] == ps[j];
      LastTextDecides(f, before, i);
    }
  }

  lemma {:induction false} NoText(f: TextField, ps: seq<Profile>)
    requires forall p :: p in ps ==> TextOf(f, p) == ""
    ensures TextOf(f, MergeAll(ps)) == ""
    decreases |ps|
  {
    if ps != [] {
      NoText(f, ps[..|ps| - 1]);
      TextOfMerge(f, MergeAll(ps[..|ps| - 1]), ps[|ps| - 1]);
    }
  }

  lemma {:induction false} SomeLastText(f: TextField, ps: seq<Profile>) returns (i: nat)
    requires exists p :: p in ps && TextOf(f, p) != ""
    ensures i < |ps| && IsLastText(f, ps, i)
    decreases |ps|
  {
    var before, last := ps[..|ps| - 1], ps[|ps| - 1];
    if TextOf(f, last) != "" {
      i := |ps| - 1;
    } else {
      assert ps == before + [last];
      i := SomeLastText(f, before);
      assert forall j :: 0 <= j < |before| ==> before[j] == ps[j];
    }
  }

  /** The last profile that sets a text decides it, and without one it is empty. */
  lemma LastTextWins(f: TextField, ps: seq<Profile>)
    ensures var text := TextOf(f, MergeAll(ps));
      if forall p :: p in ps ==> TextOf(f, p) == "" then text == ""
      else exists i :: 0 <= i < |ps| && IsLastText(f, ps, i) && text == TextOf(f, ps[i])
  {
    if forall p :: p in ps ==> TextOf(f, p) == "" {
      NoText(f, ps);
    } else {
      var i := SomeLastText(f, ps);
      LastTextDecides(f, ps, i);
    }
  }

  function HonorLabels(p: Profile): Option<bool> {
    if p.metrics.Some? then p.metrics.value.honorLabels else None
  }

  datatype ListField = Relabelings | MetricRelabelings

  function ListOf(f: ListField, p: Profile): seq<string> {
    if p.metrics.None? then []
    else if f.Relabelings? then p.metrics.value.relabelings
    else p.metrics.value.metricRelabelings
  }

  /** Where the list of profile i starts in the merged list. */
  function ListStart(f: ListField, ps: seq<Profile>, i: nat): nat
    requires i <= |ps|
  {
    if i == 0 then 0 else ListStart(f, ps, i - 1) + |ListOf(f, ps[i - 1])|
  }

  lemma {:induction false} ListStartOfFront(f: ListField, ps: seq<Profile>, i: nat)
    requires i < |ps|
    ensures ListStart(f, ps[..|ps| - 1], i) == ListStart(f, ps, i)
    decreases i
  {
    if 0 < i {
      ListStartOfFront(f, ps, i - 1);
    }
  }

  predicate StandsAt(all: seq<string>, start: nat, part: seq<string>) {
    start + |part| <= |all| && all[start..start + |part|] == part
  }

  lemma ListOfMerge(f: ListField, a: Profile, b: Profile)
    ensures ListOf(f, Merge(a, b)) == ListOf(f, a) + ListOf(f, b)
  {
    assert ListOf(f, a) + [] == ListOf(f, a) && [] + ListOf(f, b) == ListOf(f, b);
  }

  lemma StandsLast(all: seq<string>, part: seq<string>)
    ensures StandsAt(all + part, |all|, part)
  {
    assert (all + part)[|all|..|all| + |part|] == part;
  }

  lemma StandsBefore(all: seq<string>, start: nat, part: seq<string>, more: seq<string>)
    requires StandsAt(all, start, part)
    ensures StandsAt(all + more, start, part)
  {
    assert (all + more)[start..start + |part|] == all[start..start + |part|];
  }

  lemma {:induction false} ListLength(f: ListField, ps: seq<Profile>)
    ensures |ListOf(f, MergeAll(ps))| == ListStart(f, ps, |ps|)
    decreases |ps|
  {
    if ps != [] {
      var before, last := ps[..|ps| - 1], ps[|ps| - 1];
      ListLength(f, before);
      ListOfMerge(f, MergeAll(before), last);
      ListStartOfFront(f, ps, |before|);
    }
  }

  /**
   Relabel lists are strung together: each profile's list stands in the merged one,
   after those of the profiles before.
   */
  lemma {:induction false} ListsConcatenate(f: ListField, ps: seq<Profile>, i: nat)
    requires i < |ps|
    ensures StandsAt(ListOf(f, MergeAll(ps)), ListStart(f, ps, i), ListOf(f, ps[i]))
    ensures |ListOf(f, MergeAll(ps))| == ListStart(f, ps, |ps|)
    decreases |ps|
  {
    var before, last := ps[..|ps| - 1], ps[|ps| - 1];
    ListLength(f, ps);
    ListLength(f, before);
    ListStartOfFront(f, ps, i);
    ListOfMerge(f, MergeAll(before), last);
    var first, all := ListOf(f, MergeAll(before)), ListOf(f, MergeAll(ps));
    assert all == first + ListOf(f, last);
    if i < |before| {
      ListsConcatenate(f, before, i);
      StandsBefore(first, ListStart(f, ps, i), ListOf(f, ps[i]), ListOf(f, last));
    } else {
      StandsLast(first, ListOf(f, last));
    }
  }

  /** The last profile that says whether to honor labels decides it. */
  lemma {:induction false} LastHonorWins(ps: seq<Profile>, i: nat)
    requires i < |ps| && HonorLabels(ps[i]).Some? && forall j :: i < j < |ps| ==> HonorLabels(ps[j]).None?
    ensures HonorLabels(MergeAll(ps)) == HonorLabels(ps[i])
    decreases |ps|
  {
    var before := ps[..|ps| - 1];
    if i < |before| {
      assert forall j :: 0 <= j < |before| ==> before[j] == ps[j];
      LastHonorWins(before, i);
    }
  }

  // ----- checking a target -----

  datatype PolicyError = DomainNotAllowed | StorageClassNotFound | ResourceExceeded | MonitorLabelsMissing

  /** What a policy is checked against. `requests` are the effective ones. */
  datatype Target = Target(requests: Resources, metricsEnabled: bool)

  const MI: int := 1024 * 1024

  /** The request side of `ResourcePresetMappings`: CPU in thousandths, memory in bytes. */
  function PresetRequests(preset: string): Option<Resources> {
    match preset
    case "nano" => Some(Resources(Some(100), Some(128 * MI), Some(50 * MI)))
    case "micro" => Some(Resources(Some(250), Some(256 * MI), Some(50 * MI)))
    case "small" => Some(Resources(Some(500), Some(512 * MI), Some(50 * MI)))
    case "medium" => Some(Resources(Some(500), Some(1024 * MI), Some(50 * MI)))
    case "large" => Some(Resources(Some(1000), Some(2048 * MI), Some(50 * MI)))
    case "xlarge" => Some(Resources(Some(1000), Some(3072 * MI), Some(50 * MI)))
    case "2xlarge" => Some(Resources(Some(1000), Some(3072 * MI), Some(50 * MI)))
    case _ => None
  }

  const PRESETS: seq<string> := ["nano", "micro", "small", "medium", "large", "xlarge", "2xlarge"]
  const PRESET_CPU: seq<int> := [100, 250, 500, 500, 1000, 1000, 1000]
  const PRESET_MEMORY: seq<int> := [128, 256, 512, 1024, 2048, 3072, 3072]

  /** The presets, by size, and nothing else: none asks for less of anything than a smaller one. */
  lemma PresetsMeaning(preset: string)
    ensures PresetRequests(preset).Some? <==> preset in PRESETS
    ensures forall i :: 0 <= i < |PRESETS| ==>
      PresetRequests(PRESETS[i]) == Some(Resources(Some(PRESET_CPU[i]), Some(PRESET_MEMORY[i] * MI), Some(50 * MI)))
    ensures forall i, j :: 0 <= i < j < |PRESETS| ==>
      PRESET_CPU[i] <= PRESET_CPU[j] && PRESET_MEMORY[i] <= PRESET_MEMORY[j]
  {
  }

  /** `effectiveResourceRequests`. */
  function EffectiveRequests(resources: Resources, preset: string): Resources {
    if resources.AnySet() then resources
    else
      var named := PresetRequests(if preset == "" then "small" else preset);
      if named.Some? then named.value else Resources(None, None, None)
  }

  /** `ValidateProfile`; `classes` are the environment's storage class keys, none without an environment. */
  function ValidateProfile(target: Target, merged: Profile, classes: set<string>, domain: string): Option<PolicyError> {
    if merged.allowedDomains.Some? && domain != "" && domain !in merged.allowedDomains.value then Some(DomainNotAllowed)
    else if merged.storageClass != "" && merged.storageClass !in classes then Some(StorageClassNotFound)
    else if !Within(merged, target.requests) then Some(ResourceExceeded)
    else if target.metricsEnabled && KeysOf(MonitorLabels, merged) == map[] then Some(MonitorLabelsMissing)
    else None
  }

  /** Some profile sets monitor labels. */
  ghost predicate Monitored(ps: seq<Profile>) {
    exists i :: 0 <= i < |ps| && KeysOf(MonitorLabels, ps[i]) != map[]
  }

  lemma MonitorLabelsMeaning(ps: seq<Profile>)
    ensures Monitored(ps) <==> KeysOf(MonitorLabels, MergeAll(ps)) != map[]
  {
    if Monitored(ps) {
      var i :| 0 <= i < |ps| && KeysOf(MonitorLabels, ps[i]) != map[];
      var key :| key in KeysOf(MonitorLabels, ps[i]);
      LastKeyWins(MonitorLabels, ps, i, key);
    } else if KeysOf(MonitorLabels, MergeAll(ps)) != map[] {
      var key :| key in KeysOf(MonitorLabels, MergeAll(ps));
      NoOtherKeys(MonitorLabels, ps, key);
    }
  }

  /**
   The check passes exactly when every selected profile is obeyed, the last storage
   class named exists, and monitors have labels.
   */
  lemma ValidateIsPerProfile(target: Target, ps: seq<Profile>, classes: set<string>, domain: string)
    ensures ValidateProfile(target, MergeAll(ps), classes, domain) == None <==>
      && Obeyed(ps, domain, target.requests)
      && (MergeAll(ps).storageClass == "" || MergeAll(ps).storageClass in classes)
      && (target.metricsEnabled ==> Monitored(ps))
  {
    MergedIsObeyed(ps, domain, target.requests);
    MonitorLabelsMeaning(ps);
  }

  /**
   What passing the check means on the profiles' own fields: each list of domains has
   the domain, no request that is set is above a ceiling of the same resource that is
   set, and monitors have labels. A zero counts as not set.
   */
  lemma PassingKeepsEveryLimit(target: Target, ps: seq<Profile>, classes: set<string>, domain: string, p: Profile)
    requires ValidateProfile(target, MergeAll(ps), classes, domain) == None && p in ps
    ensures domain != "" && p.allowedDomains.Some? ==> domain in p.allowedDomains.value
    ensures p.maxResources.Some? ==> var max, asked := p.maxResources.value, target.requests;
      && (max.cpu.Some? && max.cpu.value != 0 && asked.cpu.Some? && asked.cpu.value != 0 ==>
        asked.cpu.value <= max.cpu.value)
      && (max.memory.Some? && max.memory.value != 0 && asked.memory.Some? && asked.memory.value != 0 ==>
        asked.memory.value <= max.memory.value)
    ensures target.metricsEnabled ==> exists m :: m in ps && m.metrics.Some? && m.metrics.value.monitorLabels != map[]
  {
    ValidateIsPerProfile(target, ps, classes, domain);
    if target.metricsEnabled {
      var i :| 0 <= i < |ps| && KeysOf(MonitorLabels, ps[i]) != map[];
      assert ps[i] in ps;
    }
  }

  /** This profile's own ceiling on one resource is below what is asked of that resource. */
  ghost predicate CeilingBroken(p: Profile, asked: Resources) {
    p.maxResources.Some? && (
      || (p.maxResources.value.cpu.Some? && asked.cpu.Some?
          && p.maxResources.value.cpu.value != 0 && asked.cpu.value != 0
          && p.maxResources.value.cpu.value < asked.cpu.value)
      || (p.maxResources.value.memory.Some? && asked.memory.Some?
          && p.maxResources.value.memory.value != 0 && asked.memory.value != 0
          && p.maxResources.value.memory.value < asked.memory.value))
  }

  lemma WithinMeaning(p: Profile, asked: Resources)
    ensures Within(p, asked) <==> !CeilingBroken(p, asked)
  {
  }

  /**
   What each refusal means on the profiles' own fields, in the order of the checks: a
   list without the domain, an unknown class that some profile names last, a ceiling
   below a request of the same resource, or no monitor labels anywhere.
   */
  lemma RefusalHasAReason(target: Target, ps: seq<Profile>, classes: set<string>, domain: string)
    ensures match ValidateProfile(target, MergeAll(ps), classes, domain)
      case None => forall p :: p in ps ==> !CeilingBroken(p, target.requests)
      case Some(DomainNotAllowed) =>
        domain != "" && exists p :: p in ps && p.allowedDomains.Some? && domain !in p.allowedDomains.value
      case Some(StorageClassNotFound) =>
        exists i :: 0 <= i < |ps| && ps[i].storageClass != "" && ps[i].storageClass !in classes
          && forall j :: i < j < |ps| ==> ps[j].storageClass == ""
      case Some(ResourceExceeded) => exists p :: p in ps && CeilingBroken(p, target.requests)
      case Some(MonitorLabelsMissing) =>
        target.metricsEnabled
        && forall p :: p in ps ==> p.metrics.None? || p.metrics.value.monitorLabels == map[]
  {
    var merged := MergeAll(ps);
    MergedIsObeyed(ps, domain, Resources(None, None, None));
    MergedIsObeyed(ps, "", target.requests);
    MonitorLabelsMeaning(ps);
    LastTextWins(StorageClass, ps);
    forall p ensures Within(p, target.requests) <==> !CeilingBroken(p, target.requests) {
      WithinMeaning(p, target.requests);
    }
    if ValidateProfile(target, merged, classes, domain) == Some(MonitorLabelsMissing) {
      forall p | p in ps ensures p.metrics.None? || p.metrics.value.monitorLabels == map[] {
        var i :| 0 <= i < |ps| && ps[i] == p;
        assert KeysOf(MonitorLabels, ps[i]) == map[];
      }
    }
  }

  /**
   What is checked against the ceilings: the requests if any is set, else those of the
   preset named, and of the small one if none is.
   */
  lemma RequestsInEffect(resources: Resources, preset: string)
    ensures var r := EffectiveRequests(resources, preset);
      var unset := (q: Quantity) => q.None? || q.value == 0;
      if !unset(resources.cpu) || !unset(resources.memory) || !unset(resources.ephemeralStorage) then r == resources
      else if preset == "" then r == Resources(Some(500), Some(512 * 1024 * 1024), Some(50 * 1024 * 1024))
      else r == match PresetRequests(preset)
        case Some(named) => named
        case None => Resources(None, None, None)
  {
  }
}
