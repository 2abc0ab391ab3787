/**
 The platform file: environments with their domains and storage classes, the
 consistency check it must pass, and the default domain of an environment.
 */
module Platforms {
  import opened Wrappers
  import opened Names
  import opened Profiles

  datatype Tls = Tls(mode: string, issuer: string, secretName: string)

  datatype Domain = Domain(baseDomain: string, isDefault: bool, tls: Option<Tls>)

  /** `storageClasses` maps logical keys to Kubernetes class names. */
  datatype PlatformEnv = PlatformEnv(context: string, domains: map<string, Domain>, storageClasses: map<string, string>)

  datatype Platform = Platform(profiles: Option<map<string, Profile>>, environments: map<string, PlatformEnv>)

  // ----- consistency -----

  /** `validatePlatformTLS`. */
  predicate TlsComplete(tls: Tls) {
    || tls.mode == "selfSigned"
    || (tls.mode == "secretName" && tls.secretName != "")
    || (tls.mode == "certManager" && tls.issuer != "")
  }

  predicate DomainComplete(d: Domain) {
    d.baseDomain != "" && (d.tls.None? || TlsComplete(d.tls.value))
  }

  function Defaults(env: PlatformEnv): set<string> {
    set k | k in env.domains && env.domains[k].isDefault
  }

  predicate AtMostOneDefault(env: PlatformEnv) {
    forall j, k :: j in Defaults(env) && k in Defaults(env) ==> j == k
  }

  predicate EnvConsistent(env: PlatformEnv) {
    AtMostOneDefault(env) && forall k :: k in env.domains ==> DomainComplete(env.domains[k])
  }

  /** Some environment defines this domain key. */
  predicate DefinesDomain(p: Platform, key: string) {
    exists e :: e in p.environments && key in p.environments[e].domains
  }

  predicate DefinesClass(p: Platform, key: string) {
    exists e :: e in p.environments && key in p.environments[e].storageClasses
  }

  predicate ProfileConsistent(p: Platform, profile: Profile) {
    && (profile.allowedDomains.Some? ==> forall d :: d in profile.allowedDomains.value ==> DefinesDomain(p, d))
    && (profile.storageClass != "" ==> DefinesClass(p, profile.storageClass))
  }

  predicate Consistent(p: Platform) {
    && (forall e :: e in p.environments ==> EnvConsistent(p.environments[e]))
    && (p.profiles.Some? ==> forall n :: n in p.profiles.value ==> ProfileConsistent(p, p.profiles.value[n]))
  }

  datatype PlatformFault =
    | EmptyBaseDomain(env: string, domain: string)
    | IncompleteTls(env: string, domain: string)
    | SeveralDefaults(env: string, defaults: seq<string>)
    | UnknownDomain(profile: string, domain: string)
    | UnknownClass(profile: string, storageClass: string)

  /** What each fault says about the platform file. */
  ghost predicate IsPlatformFault(p: Platform, f: PlatformFault) {
    match f
    case EmptyBaseDomain(e, d) =>
      e in p.environments && d in p.environments[e].domains && p.environments[e].domains[d].baseDomain == ""
    case IncompleteTls(e, d) =>
      && e in p.environments && d in p.environments[e].domains
      && p.environments[e].domains[d].tls.Some? && !TlsComplete(p.environments[e].domains[d].tls.value)
    case SeveralDefaults(e, keys) => e in p.environments && IsListing(keys, Defaults(p.environments[e])) && 1 < |keys|
    case UnknownDomain(n, d) =>
      && p.profiles.Some? && n in p.profiles.value && p.profiles.value[n].allowedDomains.Some?
      && d in p.profiles.value[n].allowedDomains.value && !DefinesDomain(p, d)
    case UnknownClass(n, c) =>
      && p.profiles.Some? && n in p.profiles.value && p.profiles.value[n].storageClass == c != "" && !DefinesClass(p, c)
  }

  /** The loop over one environment's domains. */
  method CheckEnvironment(p: Platform, e: string) returns (r: Option<PlatformFault>)
    requires e in p.environments
    ensures r.None? ==> EnvConsistent(p.environments[e])
    ensures r.Some? ==> IsPlatformFault(p, r.value)
  {
    var domains := p.environments[e].domains;
    var keys := AnyKeys(domains);
    var defaults: seq<string> := [];
    for i := 0 to |keys|
      invariant forall k :: k in keys[..i] ==> k in domains && DomainComplete(domains[k])
      invariant NoDuplicates(defaults)
      invariant forall k :: k in defaults <==> k in keys[..i] && k in domains && domains[k].isDefault
    {
      var k := keys[i];
      assert k in Members(keys);
      assert keys[..i + 1] == keys[..i] + [k];
      if domains[k].isDefault {
        assert k !in keys[..i];
        defaults := defaults + [k];
      }
      if domains[k].baseDomain == "" {
        return Some(EmptyBaseDomain(e, k));
      }
      if domains[k].tls.Some? && !TlsComplete(domains[k].tls.value) {
        return Some(IncompleteTls(e, k));
      }
    }
    assert keys[..|keys|] == keys;
    assert forall k :: k in domains ==> k in Members(keys);
    assert Members(defaults) == Defaults(p.environments[e]);
    if 1 < |defaults| {
      var sorted := Sort(defaults);
      SameMultiset(defaults, sorted);
      assert |sorted| == |multiset(sorted)| == |multiset(defaults)| == |defaults|;
      return Some(SeveralDefaults(e, sorted));
    }
    r := None;
  }

  /** The check on one profile's references. */
  method CheckReferences(
      p: Platform, n: string, domains: set<string>, classes: set<string>) returns (r: Option<PlatformFault>)
    requires p.profiles.Some? && n in p.profiles.value
    requires forall k :: k in domains <==> DefinesDomain(p, k)
    requires forall k :: k in classes <==> DefinesClass(p, k)
    ensures r.None? ==> ProfileConsistent(p, p.profiles.value[n])
    ensures r.Some? ==> IsPlatformFault(p, r.value)
  {
    var profile := p.profiles.value[n];
    if profile.allowedDomains.Some? {
      var allowed := profile.allowedDomains.value;
      for i := 0 to |allowed|
        invariant forall d :: d in allowed[..i] ==> d in domains
      {
        assert allowed[..i + 1] == allowed[..i] + [allowed[i]];
        if allowed[i] !in domains {
          return Some(UnknownDomain(n, allowed[i]));
        }
      }
      assert allowed[..|allowed|] == allowed;
    }
    if profile.storageClass != "" && profile.storageClass !in classes {
      return Some(UnknownClass(n, profile.storageClass));
    }
    r := None;
  }

  /** The part of a platform whose environments are the given ones. */
  predicate DefinedIn(p: Platform, envs: seq<string>, key: string) {
    exists e :: e in envs && e in p.environments && key in p.environments[e].domains
  }

  predicate ClassIn(p: Platform, envs: seq<string>, key: string) {
    exists e :: e in envs && e in p.environments && key in p.environments[e].storageClasses
  }

  method CheckEnvironments(p: Platform) returns (r: Option<PlatformFault>, domains: set<string>, classes: set<string>)
    ensures r.None? ==> forall e :: e in p.environments ==> EnvConsistent(p.environments[e])
    ensures r.None? ==>
      (forall k :: k in domains <==> DefinesDomain(p, k)) && (forall k :: k in classes <==> DefinesClass(p, k))
    ensures r.Some? ==> IsPlatformFault(p, r.value)
  {
    domains, classes := {}, {};
    var envs := AnyKeys(p.environments);
    for i := 0 to |envs|
      invariant forall e :: e in envs[..i] ==> e in p.environments && EnvConsistent(p.environments[e])
      invariant forall k :: k in domains <==> DefinedIn(p, envs[..i], k)
      invariant forall k :: k in classes <==> ClassIn(p, envs[..i], k)
    {
      var e := envs[i];
      assert e in Members(envs);
      assert envs[..i + 1] == envs[..i] + [e];
      r := CheckEnvironment(p, e);
      if r.Some? {
        return;
      }
      domains, classes := domains + p.environments[e].domains.Keys, classes + p.environments[e].storageClasses.Keys;
    }
    assert envs[..|envs|] == envs;
    assert forall e :: e in p.environments <==> e in Members(envs);
    assert forall k :: DefinedIn(p, envs, k) <==> DefinesDomain(p, k);
    assert forall k :: ClassIn(p, envs, k) <==> DefinesClass(p, k);
    r := None;
  }

  /** `validatePlatformConsistency`. */
  method ValidatePlatformConsistency(p: Platform) returns (r: Option<PlatformFault>)
    ensures r.None? <==> Consistent(p)
    ensures r.Some? ==> IsPlatformFault(p, r.value)
  {
    var fault, domains, classes := CheckEnvironments(p);
    if fault.Some? {
      FaultsAreInconsistent(p, fault.value);
      return fault;
    }
    if p.profiles.Some? {
      var names := AnyKeys(p.profiles.value);
      for i := 0 to |names|
        invariant forall n :: n in names[..i] ==> n in p.profiles.value && ProfileConsistent(p, p.profiles.value[n])
      {
        assert names[i] in Members(names);
        assert names[..i + 1] == names[..i] + [names[i]];
        r := CheckReferences(p, names[i], domains, classes);
        if r.Some? {
          FaultsAreInconsistent(p, r.value);
          return;
        }
      }
      assert names[..|names|] == names;
      assert forall n :: n in p.profiles.value ==> n in Members(names);
    }
    r := None;
  }

  lemma FaultsAreInconsistent(p: Platform, f: PlatformFault)
    requires IsPlatformFault(p, f)
    ensures !Consistent(p)
  {
    match f {
      case SeveralDefaults(e, keys) =>
        assert keys[0] in Members(keys) && keys[1] in Members(keys);
        assert keys[0] != keys[1];
        assert !AtMostOneDefault(p.environments[e]);
      case EmptyBaseDomain(e, d) => assert !DomainComplete(p.environments[e].domains[d]);
      case IncompleteTls(e, d) => assert !DomainComplete(p.environments[e].domains[d]);
      case UnknownDomain(n, d) => assert !ProfileConsistent(p, p.profiles.value[n]);
      case UnknownClass(n, c) => assert !ProfileConsistent(p, p.profiles.value[n]);
    }
  }

  /**
   Consistent on the fields themselves: base domains named, a certificate source for
   every TLS mode, one default domain at most, and profiles that refer to domains and
   storage classes some environment has.
   */
  lemma ConsistentMeaning(p: Platform)
    ensures Consistent(p) <==>
      && (forall e :: e in p.environments ==> SoundEnvironment(p.environments[e]))
      && (p.profiles.Some? ==> forall n :: n in p.profiles.value ==> SoundReferences(p, p.profiles.value[n]))
  {
    forall e | e in p.environments ensures EnvConsistent(p.environments[e]) <==> SoundEnvironment(p.environments[e]) {
      EnvConsistentMeaning(p.environments[e]);
    }
    if p.profiles.Some? {
      forall n | n in p.profiles.value
        ensures ProfileConsistent(p, p.profiles.value[n]) <==> SoundReferences(p, p.profiles.value[n])
      {
        ReferencesMeaning(p, p.profiles.value[n]);
      }
    }
  }

  lemma EnvConsistentMeaning(env: PlatformEnv)
    ensures EnvConsistent(env) <==> SoundEnvironment(env)
  {
    forall d | d in env.domains ensures DomainComplete(env.domains[d]) <==> SoundDomain(env.domains[d]) {
    }
    assert forall k :: k in Defaults(env) <==> k in env.domains && env.domains[k].isDefault;
  }

  ghost predicate SoundEnvironment(env: PlatformEnv) {
    && (forall d :: d in env.domains ==> SoundDomain(env.domains[d]))
    && forall c, d | c in env.domains && d in env.domains ::
      env.domains[c].isDefault && env.domains[d].isDefault ==> c == d
  }

  lemma ReferencesMeaning(p: Platform, profile: Profile)
    ensures ProfileConsistent(p, profile) <==> SoundReferences(p, profile)
  {
  }

  ghost predicate SoundDomain(d: Domain) {
    && d.baseDomain != ""
    && (d.tls.Some? ==>
      && d.tls.value.mode in {"selfSigned", "secretName", "certManager"}
      && (d.tls.value.mode == "secretName" ==> d.tls.value.secretName != "")
      && (d.tls.value.mode == "certManager" ==> d.tls.value.issuer != ""))
  }

  ghost predicate SoundReferences(p: Platform, profile: Profile) {
    && (profile.allowedDomains.Some? ==> forall d :: d in profile.allowedDomains.value ==>
      exists e :: e in p.environments && d in p.environments[e].domains)
    && (profile.storageClass != "" ==>
      exists e :: e in p.environments && profile.storageClass in p.environments[e].storageClasses)
  }

  // ----- the default domain -----

  /** What `defaultDomainKey` may return; with several defaults, whichever the map walk meets first. */
  ghost predicate IsDefaultDomain(env: PlatformEnv, r: Option<string>) {
    if |env.domains| == 1 then r.Some? && r.value in env.domains
    else if r.Some? then 1 < |env.domains| && r.value in Defaults(env)
    else env.domains == map[] || Defaults(env) == {}
  }

  /** `defaultDomainKey`. */
  method DefaultDomainKey(env: PlatformEnv) returns (r: Option<string>)
    ensures IsDefaultDomain(env, r)
  {
    var keys := SortedKeys(env.domains);
    MembersSize(keys);
    assert |env.domains| == |env.domains.Keys|;
    if |keys| == 1 {
      assert keys[0] in Members(keys);
      return Some(keys[0]);
    }
    if |keys| == 0 {
      return None;
    }
    var walk := AnyKeys(env.domains);
    for i := 0 to |walk|
      invariant forall k :: k in walk[..i] ==> k !in Defaults(env)
    {
      assert walk[i] in Members(walk);
      assert walk[..i + 1] == walk[..i] + [walk[i]];
      if env.domains[walk[i]].isDefault {
        return Some(walk[i]);
      }
    }
    assert walk[..|walk|] == walk;
    assert forall k :: k in env.domains ==> k in Members(walk);
    r := None;
  }

  /**
   The default domain does not depend on the map walk exactly when there is one
   domain at most, or one default at most.
   */
  lemma DefaultIsDetermined(env: PlatformEnv)
    ensures (forall r, r' :: IsDefaultDomain(env, r) && IsDefaultDomain(env, r') ==> r == r')
      <==> |env.domains| <= 1 || AtMostOneDefault(env)
  {
    if |env.domains| <= 1 {
      forall j, k | j in env.domains && k in env.domains ensures j == k {
        if j != k {
          SubsetSize({j, k}, env.domains.Keys);
        }
      }
    } else if !AtMostOneDefault(env) {
      var j, k :| j in Defaults(env) && k in Defaults(env) && j != k;
      assert IsDefaultDomain(env, Some(j)) && IsDefaultDomain(env, Some(k));
    }
  }
}
