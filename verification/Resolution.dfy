/**
 Resolving a spec for one environment: every active component gets its policy,
 hostname, TLS settings and storage class, every active task its policy and
 hook weight, and hostnames must not collide.
 */
module Resolution {
  import opened Wrappers
  import opened Names
  import opened SpecTypes
  import opened Environments
  import opened HookGraph
  import opened HookScheduler
  import opened TaskValidation
  import opened Profiles
  import opened Platforms

  /**
   What is resolved. `dynamic` holds the components whose subdomain came from a
   substitution; `validLabel` and `validSubdomain` are the DNS name checks.
   */
  datatype Request = Request(
    spec: Spec,
    platform: Option<Platform>,
    env: string,
    dynamic: set<string>,
    validLabel: string -> bool,
    validSubdomain: string -> bool)

  datatype ResolvedComponent = ResolvedComponent(
    profiles: seq<string>,
    merged: Option<Profile>,
    domainKey: string,
    fqdn: string,
    tls: Tls,
    storageClass: string)

  datatype ResolvedSpec = ResolvedSpec(
    context: string,
    components: map<string, ResolvedComponent>,
    tasks: map<string, ResolvedTask>)

  const NO_TLS := Tls("", "", "")

  // ----- what a successful resolution is -----

  /** The key of the platform environment; none when the platform has no match. */
  function EnvKey(q: Request): Option<string> {
    if q.platform.None? then None else MatchIn(q.env, q.platform.value.environments.Keys)
  }

  function EnvOf(q: Request): Option<PlatformEnv> {
    var key := EnvKey(q);
    if key.Some? then Some(q.platform.value.environments[key.value]) else None
  }

  /** A platform that does not know a named environment. */
  predicate EnvMissing(q: Request) {
    q.platform.Some? && EnvKey(q).None? && q.env != ""
  }

  function PlatformProfiles(q: Request): Option<map<string, Profile>> {
    if q.platform.Some? then q.platform.value.profiles else None
  }

  function ClassKeys(q: Request): set<string> {
    if EnvOf(q).Some? then EnvOf(q).value.storageClasses.Keys else {}
  }

  predicate AllDefined(profiles: Option<map<string, Profile>>, names: seq<string>) {
    forall n :: n in names ==> profiles.Some? && n in profiles.value
  }

  function ProfilesOf(profiles: Option<map<string, Profile>>, names: seq<string>): seq<Profile>
    requires AllDefined(profiles, names)
  {
    if profiles.Some? then Lookup(names, profiles.value) else []
  }

  /** The selection rules give these names, all defined, and this merged policy. */
  predicate PolicySelected(q: Request, asked: Option<seq<string>>, names: seq<string>, merged: Option<Profile>) {
    && Selects(asked, PlatformProfiles(q)) == Selected(names)
    && AllDefined(PlatformProfiles(q), names)
    && merged == if names == [] then None else Some(MergeAll(ProfilesOf(PlatformProfiles(q), names)))
  }

  /** Each selected profile is obeyed; the storage class the policy names exists; monitors have labels. */
  ghost predicate PolicyObeyed(q: Request, names: seq<string>, target: Target, domain: string)
    requires AllDefined(PlatformProfiles(q), names)
  {
    var ps := ProfilesOf(PlatformProfiles(q), names);
    && Obeyed(ps, domain, target.requests)
    && (MergeAll(ps).storageClass == "" || MergeAll(ps).storageClass in ClassKeys(q))
    && (target.metricsEnabled ==> Monitored(ps))
  }

  function ComponentTarget(c: Component): Target {
    Target(EffectiveRequests(c.resources, c.resourcePreset), c.metricsEnabled)
  }

  function TaskTarget(t: Task): Target {
    Target(EffectiveRequests(t.resources, t.resourcePreset), false)
  }

  function Subdomain(name: string, x: Expose): string {
    if x.subdomain.Some? then x.subdomain.value else name
  }

  function Hostname(name: string, x: Expose, d: Domain): string {
    if x.apex then d.baseDomain else Subdomain(name, x) + "." + d.baseDomain
  }

  /** A substituted subdomain is not checked; an apex always is. */
  predicate HostnameValid(q: Request, name: string, x: Expose, d: Domain) {
    if x.apex then q.validSubdomain(d.baseDomain)
    else name in q.dynamic || (q.validLabel(Subdomain(name, x)) && q.validSubdomain(Hostname(name, x, d)))
  }

  function TlsOf(d: Domain): Tls {
    match d.tls
    case None => NO_TLS
    case Some(t) =>
      Tls(t.mode, if t.mode == "certManager" then t.issuer else "", if t.mode == "secretName" then t.secretName else "")
  }

  /** The domain key in effect: the one named, else the environment's default. */
  function DomainKey(x: Expose, pick: Option<string>): Option<string> {
    if x.domain != "" then Some(x.domain) else pick
  }

  /** The hostname and TLS part; `pick` is what the default domain came out as. */
  predicate ExposedAs(q: Request, name: string, x: Expose, pick: Option<string>, rc: ResolvedComponent) {
    && EnvOf(q).Some?
    && DomainKey(x, pick) == Some(rc.domainKey)
    && rc.domainKey in EnvOf(q).value.domains
    && var d := EnvOf(q).value.domains[rc.domainKey];
    HostnameValid(q, name, x, d) && rc.fqdn == Hostname(name, x, d) && rc.tls == TlsOf(d)
  }

  /** The component's own storage class wins over the policy's. */
  function ClassKey(c: Component, merged: Option<Profile>): string {
    if c.storageClass != "" then c.storageClass
    else if merged.Some? then merged.value.storageClass
    else ""
  }

  predicate ClassChosen(q: Request, key: string, storageClass: string) {
    if key == "" then storageClass == ""
    else EnvOf(q).Some? && key in EnvOf(q).value.storageClasses && storageClass == EnvOf(q).value.storageClasses[key]
  }

  /** `rc` is the component resolved. */
  ghost predicate IsComponent(q: Request, name: string, pick: Option<string>, rc: ResolvedComponent) {
    && name in q.spec.components
    && var c := q.spec.components[name];
    && (c.profiles.Some? ==> q.platform.Some?)
    && PolicySelected(q, c.profiles, rc.profiles, rc.merged)
    && PolicyObeyed(q, rc.profiles, ComponentTarget(c), rc.domainKey)
    && (if c.expose.Some? then ExposedAs(q, name, c.expose.value, pick, rc)
        else rc.domainKey == "" && rc.fqdn == "" && rc.tls == NO_TLS)
    && ClassChosen(q, ClassKey(c, rc.merged), rc.storageClass)
  }

  /** `rt` is the task resolved, its weight aside. */
  ghost predicate IsTask(q: Request, name: string, rt: ResolvedTask) {
    && name in q.spec.tasks
    && var t := MergedTask(q.spec, name);
    && rt.task == t
    && (t.profiles.Some? && t.profiles.value != [] ==> q.platform.Some?)
    && PolicySelected(q, t.profiles, rt.profiles, rt.merged)
    && PolicyObeyed(q, rt.profiles, TaskTarget(t), "")
  }

  function ActiveComponents(spec: Spec, env: string): set<string> {
    set n | n in spec.components && ActiveIn(spec.components[n].environments, env)
  }

  ghost predicate DistinctHosts(components: map<string, ResolvedComponent>) {
    forall a, b :: a in components && b in components && components[a].fqdn == components[b].fqdn != "" ==> a == b
  }

  /** For each component what the default domain came out as when it was asked for. */
  type Picks = map<string, Option<string>>

  ghost predicate IsPick(q: Request, pick: Option<string>) {
    if EnvOf(q).Some? then IsDefaultDomain(EnvOf(q).value, pick) else pick == None
  }

  ghost predicate ArePicks(q: Request, picks: Picks) {
    picks.Keys == q.spec.components.Keys && forall n {:trigger picks[n]} :: n in picks ==> IsPick(q, picks[n])
  }

  ghost predicate AllResolved(q: Request, picks: Picks, components: map<string, ResolvedComponent>)
    requires ArePicks(q, picks)
  {
    && components.Keys <= picks.Keys
    && forall n {:trigger IsComponent(q, n, picks[n], components[n])} :: n in components ==>
      IsComponent(q, n, picks[n], components[n])
  }

  ghost predicate AllTasksResolved(q: Request, tasks: map<string, ResolvedTask>) {
    forall n {:trigger IsTask(q, n, tasks[n])} :: n in tasks ==> IsTask(q, n, tasks[n])
  }

  ghost predicate IsResolvedSpec(q: Request, picks: Picks, rs: ResolvedSpec)
    requires ArePicks(q, picks)
  {
    && !EnvMissing(q)
    && rs.context == (if EnvOf(q).Some? then EnvOf(q).value.context else "")
    && rs.components.Keys == ActiveComponents(q.spec, q.env)
    && AllResolved(q, picks, rs.components)
    && DistinctHosts(rs.components)
    && Acyclic(q.spec.tasks, PreDeploy) && Acyclic(q.spec.tasks, PostDeploy)
    && IsEffective(q.spec, q.env, rs.tasks)
    && AllTasksResolved(q, rs.tasks)
  }

  // ----- what a failed resolution says -----

  datatype Fault =
    | PlatformNotFound
    | ProfileOptOutBlocked
    | ProfileNotFound
    | NoDomain
    | InvalidDns
    | Policy(error: PolicyError)
    | ComponentClassNotFound

  ghost predicate ClassKnown(q: Request, ps: seq<Profile>) {
    MergeAll(ps).storageClass == "" || MergeAll(ps).storageClass in ClassKeys(q)
  }

  ghost predicate AllPermitted(ps: seq<Profile>, domain: string) {
    domain == "" || AllPermit(ps, domain)
  }

  ghost predicate AllWithin(ps: seq<Profile>, requests: Resources) {
    forall p :: p in ps ==> Within(p, requests)
  }

  /** The first policy check that fails, for the profiles the rules select. */
  ghost predicate PolicyBroken(q: Request, names: seq<string>, target: Target, domain: string, e: PolicyError)
    requires AllDefined(PlatformProfiles(q), names)
  {
    var ps := ProfilesOf(PlatformProfiles(q), names);
    match e
    case DomainNotAllowed => !AllPermitted(ps, domain)
    case StorageClassNotFound => AllPermitted(ps, domain) && !ClassKnown(q, ps)
    case ResourceExceeded => AllPermitted(ps, domain) && ClassKnown(q, ps) && !AllWithin(ps, target.requests)
    case MonitorLabelsMissing =>
      && AllPermitted(ps, domain) && ClassKnown(q, ps) && AllWithin(ps, target.requests)
      && target.metricsEnabled && !Monitored(ps)
  }

  ghost predicate SelectionFails(q: Request, asked: Option<seq<string>>, f: Fault) {
    var s := Selects(asked, PlatformProfiles(q));
    match f
    case ProfileOptOutBlocked => s.OptOutBlocked?
    case ProfileNotFound => s.NoProfilesSection? || (s.Selected? && !AllDefined(PlatformProfiles(q), s.names))
    case _ => false
  }

  /** The domain in effect is one of the environment's. */
  predicate DomainFound(q: Request, x: Expose, pick: Option<string>) {
    EnvOf(q).Some? && DomainKey(x, pick).Some? && DomainKey(x, pick).value in EnvOf(q).value.domains
  }

  /** The rules select profiles, and all are defined. */
  predicate SelectionOk(q: Request, asked: Option<seq<string>>) {
    var s := Selects(asked, PlatformProfiles(q));
    s.Selected? && AllDefined(PlatformProfiles(q), s.names)
  }

  predicate ExposeOk(q: Request, name: string, x: Option<Expose>, pick: Option<string>) {
    x.Some? ==>
      && DomainFound(q, x.value, pick)
      && HostnameValid(q, name, x.value, EnvOf(q).value.domains[DomainKey(x.value, pick).value])
  }

  function DomainOf(x: Option<Expose>, pick: Option<string>): string {
    if x.Some? && DomainKey(x.value, pick).Some? then DomainKey(x.value, pick).value else ""
  }

  /** The first thing that goes wrong with a component. */
  ghost predicate ComponentFails(q: Request, name: string, pick: Option<string>, f: Fault) {
    && name in q.spec.components
    && var c := q.spec.components[name];
    var noPlatform := c.profiles.Some? && q.platform.None?;
    var ready := !noPlatform && SelectionOk(q, c.profiles);
    var names := if SelectionOk(q, c.profiles) then Selects(c.profiles, PlatformProfiles(q)).names else [];
    var domain := DomainOf(c.expose, pick);
    match f
    case PlatformNotFound => noPlatform || (ready && c.expose.Some? && EnvOf(q).None?)
    case ProfileOptOutBlocked => !noPlatform && SelectionFails(q, c.profiles, f)
    case ProfileNotFound => !noPlatform && SelectionFails(q, c.profiles, f)
    case NoDomain => ready && c.expose.Some? && EnvOf(q).Some? && !DomainFound(q, c.expose.value, pick)
    case InvalidDns =>
      ready && c.expose.Some? && DomainFound(q, c.expose.value, pick) && !ExposeOk(q, name, c.expose, pick)
    case Policy(e) =>
      ready && ExposeOk(q, name, c.expose, pick) && PolicyBroken(q, names, ComponentTarget(c), domain, e)
    case ComponentClassNotFound =>
      && ready && ExposeOk(q, name, c.expose, pick) && PolicyObeyed(q, names, ComponentTarget(c), domain)
      && c.storageClass != "" && c.storageClass !in ClassKeys(q)
  }

  /** The first thing that goes wrong with a task. */
  ghost predicate TaskFails(q: Request, name: string, f: Fault) {
    && name in q.spec.tasks && RunsIn(q.spec, name, q.env)
    && var t := MergedTask(q.spec, name);
    var noPlatform := t.profiles.Some? && t.profiles.value != [] && q.platform.None?;
    match f
    case PlatformNotFound => noPlatform
    case ProfileOptOutBlocked => !noPlatform && SelectionFails(q, t.profiles, f)
    case ProfileNotFound => !noPlatform && SelectionFails(q, t.profiles, f)
    case Policy(e) =>
      && !noPlatform && SelectionOk(q, t.profiles)
      && PolicyBroken(q, Selects(t.profiles, PlatformProfiles(q)).names, TaskTarget(t), "", e)
    case _ => false
  }

  datatype Rejection =
    | EnvironmentNotFound
    | ComponentFault(name: string, fault: Fault)
    | HostCollision(first: string, second: string)
    | TaskCycle(on: TaskOn, stuck: seq<string>)
    | TaskFault(name: string, fault: Fault)

  /** Two active components with one hostname. */
  ghost predicate Collide(q: Request, picks: Picks, a: string, b: string)
    requires ArePicks(q, picks)
  {
    && a != b && a in ActiveComponents(q.spec, q.env) && b in ActiveComponents(q.spec, q.env)
    && exists ra, rb :: IsComponent(q, a, picks[a], ra) && IsComponent(q, b, picks[b], rb) && ra.fqdn == rb.fqdn != ""
  }

  /** The names that sort before `n`. */
  function Earlier(names: set<string>, n: string): set<string> {
    set m | m in names && m != n && Leq(m, n)
  }

  ghost predicate Resolves(q: Request, picks: Picks, n: string)
    requires ArePicks(q, picks)
  {
    n in picks && exists rc :: IsComponent(q, n, picks[n], rc)
  }

  /** These components resolve, each to its own hostname. */
  ghost predicate AllFine(q: Request, picks: Picks, names: set<string>)
    requires ArePicks(q, picks)
  {
    && (forall n :: n in names ==> Resolves(q, picks, n))
    && (forall a, b :: a in names && b in names ==> !Collide(q, picks, a, b))
  }

  /** What each rejection says about the request, and that nothing is wrong before that, in order of names. */
  ghost predicate IsRejection(q: Request, picks: Picks, r: Rejection)
    requires ArePicks(q, picks)
  {
    var active := ActiveComponents(q.spec, q.env);
    match r
    case EnvironmentNotFound => EnvMissing(q)
    case ComponentFault(n, f) =>
      !EnvMissing(q) && n in active && AllFine(q, picks, Earlier(active, n)) && ComponentFails(q, n, picks[n], f)
    case HostCollision(a, b) =>
      !EnvMissing(q) && a in Earlier(active, b) && AllFine(q, picks, Earlier(active, b)) && Collide(q, picks, a, b)
    case TaskCycle(on, stuck) =>
      !EnvMissing(q) && AllFine(q, picks, active) && IsFault(q.spec, HasCycle(on, stuck))
    case TaskFault(n, f) =>
      && !EnvMissing(q) && AllFine(q, picks, active) && Acyclic(q.spec.tasks, PreDeploy)
      && Acyclic(q.spec.tasks, PostDeploy)
      && TaskFails(q, n, f) && AllTasksFine(q, Earlier(ActiveTasks(q.spec, q.env), n))
  }

  ghost predicate AllTasksFine(q: Request, names: set<string>) {
    forall n :: n in names ==> TaskResolves(q, n)
  }

  ghost predicate TaskResolves(q: Request, n: string) {
    exists rt :: IsTask(q, n, rt)
  }

  datatype Resolved = Success(spec: ResolvedSpec) | Refused(why: Rejection)

  ghost predicate IsOutcome(q: Request, picks: Picks, r: Resolved) {
    && ArePicks(q, picks)
    && match r
       case Success(rs) => IsResolvedSpec(q, picks, rs)
       case Refused(why) => IsRejection(q, picks, why)
  }

  // ----- one component -----

  datatype PolicyResult = Chosen(names: seq<string>, merged: Option<Profile>) | NotChosen(fault: Fault)

  /** The profile part that components and tasks share. */
  method SelectPolicy(q: Request, asked: Option<seq<string>>) returns (r: PolicyResult)
    ensures r.Chosen? ==> PolicySelected(q, asked, r.names, r.merged)
    ensures r.NotChosen? ==> SelectionFails(q, asked, r.fault)
  {
    var profiles := PlatformProfiles(q);
    var selection := ResolveProfileNames(asked, profiles);
    match selection {
      case OptOutBlocked => r := NotChosen(ProfileOptOutBlocked);
      case NoProfilesSection => r := NotChosen(ProfileNotFound);
      case Selected(names) =>
        if |names| == 0 {
          return Chosen([], None);
        }
        var merged := MergeProfiles(names, if profiles.Some? then profiles.value else map[]);
        if merged.None? {
          return NotChosen(ProfileNotFound);
        }
        assert names[0] in names;
        r := Chosen(names, merged);
    }
  }

  /**
   `validateMergedProfile`, and the check `resolveTasks` makes: without profiles
   only missing monitor labels are wrong.
   */
  method CheckPolicy(
      q: Request, names: seq<string>, merged: Option<Profile>, target: Target, domain: string)
      returns (r: Option<PolicyError>)
    requires AllDefined(PlatformProfiles(q), names)
    requires merged == if names == [] then None else Some(MergeAll(ProfilesOf(PlatformProfiles(q), names)))
    ensures r.None? <==> PolicyObeyed(q, names, target, domain)
    ensures r.Some? ==> PolicyBroken(q, names, target, domain, r.value)
  {
    ghost var ps := ProfilesOf(PlatformProfiles(q), names);
    ValidateIsPerProfile(target, ps, ClassKeys(q), domain);
    if merged.None? {
      assert ps == [];
      return if target.metricsEnabled then Some(MonitorLabelsMissing) else None;
    }
    r := ValidateProfile(target, merged.value, ClassKeys(q), domain);
    MergedChecks(ps, domain, target.requests);
    MonitorLabelsMeaning(ps);
  }

  /** The two checks on the merged policy are those on every profile. */
  lemma MergedChecks(ps: seq<Profile>, domain: string, requests: Resources)
    ensures domain == "" || Permits(MergeAll(ps), domain) <==> AllPermitted(ps, domain)
    ensures Within(MergeAll(ps), requests) <==> AllWithin(ps, requests)
  {
    MergedIsObeyed(ps, domain, Resources(None, None, None));
    MergedIsObeyed(ps, "", requests);
  }

  ghost function SomePicks(q: Request): (picks: Picks)
    ensures ArePicks(q, picks)
  {
    map n | n in q.spec.components :: SomePick(q)
  }

  datatype ExposeResult = Exposed(domainKey: string, fqdn: string, tls: Tls) | NotExposed(fault: Fault)

  /** The expose part of `resolveComponent`. */
  method ResolveExpose(q: Request, name: string, x: Expose) returns (r: ExposeResult, ghost pick: Option<string>)
    requires name in q.spec.components && q.spec.components[name].expose == Some(x)
    ensures IsPick(q, pick)
    ensures r.Exposed? ==> forall rc: ResolvedComponent ::
      rc.domainKey == r.domainKey && rc.fqdn == r.fqdn && rc.tls == r.tls ==> ExposedAs(q, name, x, pick, rc)
    ensures r.Exposed? ==> ExposeOk(q, name, Some(x), pick) && r.domainKey == DomainOf(Some(x), pick)
    ensures r.NotExposed? ==>
      || (r.fault.PlatformNotFound? && EnvOf(q).None?)
      || (r.fault.NoDomain? && EnvOf(q).Some? && !DomainFound(q, x, pick))
      || (r.fault.InvalidDns? && DomainFound(q, x, pick) && !ExposeOk(q, name, Some(x), pick))
  {
    pick := SomePick(q);
    if EnvOf(q).None? {
      return NotExposed(PlatformNotFound), pick;
    }
    var env := EnvOf(q).value;
    var key := x.domain;
    if key == "" {
      var d := DefaultDomainKey(env);
      pick := d;
      if d.None? {
        return NotExposed(NoDomain), pick;
      }
      key := d.value;
    }
    if key !in env.domains {
      return NotExposed(NoDomain), pick;
    }
    var domain := env.domains[key];
    if !HostnameValid(q, name, x, domain) {
      return NotExposed(InvalidDns), pick;
    }
    r := Exposed(key, Hostname(name, x, domain), TlsOf(domain));
  }

  ghost function SomePick(q: Request): (pick: Option<string>)
    ensures IsPick(q, pick)
  {
    if EnvOf(q).None? then None
    else
      var env := EnvOf(q).value;
      if |env.domains| == 1 then (var k :| k in env.domains; Some(k))
      else if Defaults(env) == {} || |env.domains| == 0 then None
      else (var k :| k in Defaults(env); Some(k))
  }

  datatype ComponentResult = Ready(value: ResolvedComponent) | Unresolved(fault: Fault)

  /** `resolveComponent`. */
  method ResolveComponent(q: Request, name: string) returns (r: ComponentResult, ghost pick: Option<string>)
    requires name in q.spec.components
    ensures IsPick(q, pick)
    ensures r.Ready? ==> IsComponent(q, name, pick, r.value)
    ensures r.Unresolved? ==> ComponentFails(q, name, pick, r.fault)
  {
    pick := SomePick(q);
    var c := q.spec.components[name];
    if c.profiles.Some? && q.platform.None? {
      return Unresolved(PlatformNotFound), pick;
    }
    var policy := SelectPolicy(q, c.profiles);
    if policy.NotChosen? {
      return Unresolved(policy.fault), pick;
    }
    var rc := ResolvedComponent(policy.names, policy.merged, "", "", NO_TLS, "");
    if c.expose.Some? {
      var x;
      x, pick := ResolveExpose(q, name, c.expose.value);
      if x.NotExposed? {
        return Unresolved(x.fault), pick;
      }
      rc := rc.(domainKey := x.domainKey, fqdn := x.fqdn, tls := x.tls);
    }
    var broken := CheckPolicy(q, rc.profiles, rc.merged, ComponentTarget(c), rc.domainKey);
    if broken.Some? {
      return Unresolved(Policy(broken.value)), pick;
    }
    var key := ClassKey(c, rc.merged);
    if key != "" {
      if EnvOf(q).None? || key !in EnvOf(q).value.storageClasses {
        return Unresolved(ComponentClassNotFound), pick;
      }
      rc := rc.(storageClass := EnvOf(q).value.storageClasses[key]);
    }
    r := Ready(rc);
  }

  // ----- all components -----

  /** `ActiveComponentNames` of the chart generator: the components that get a sub-chart. */
  method ActiveComponentNames(spec: Spec, env: string) returns (names: seq<string>)
    ensures IsListing(names, ActiveComponents(spec, env))
  {
    var all := AnyKeys(spec.components);
    names := [];
    for i := 0 to |all|
      invariant NoDuplicates(names)
      invariant forall n :: n in names <==> n in all[..i] && n in ActiveComponents(spec, env)
    {
      assert all[i] in Members(all);
      assert all[..i + 1] == all[..i] + [all[i]];
      if ActiveIn(spec.components[all[i]].environments, env) {
        assert all[i] !in all[..i];
        names := names + [all[i]];
      }
    }
    assert all[..|all|] == all;
    assert forall n :: n in spec.components ==> n in Members(all);
    assert Members(names) == ActiveComponents(spec, env);
    var sorted := Sort(names);
    SameMultiset(names, sorted);
    names := sorted;
  }

  /** The components resolved so far, and who owns each hostname. */
  ghost predicate HostsOwned(components: map<string, ResolvedComponent>, owners: map<string, string>) {
    && (forall n :: n in components && components[n].fqdn != "" ==>
      components[n].fqdn in owners && owners[components[n].fqdn] == n)
    && (forall f {:trigger owners[f]} :: f in owners ==> owners[f] in components && components[owners[f]].fqdn == f)
  }

  /** Given the default domain, a component resolves in one way only. */
  lemma ComponentUnique(q: Request, n: string, pick: Option<string>, a: ResolvedComponent, b: ResolvedComponent)
    requires IsComponent(q, n, pick, a) && IsComponent(q, n, pick, b)
    ensures a == b
  {
  }

  lemma PickAdded(q: Request, picks: Picks, n: string, pick: Option<string>)
    requires ArePicks(q, picks) && n in picks && IsPick(q, pick)
    ensures ArePicks(q, picks[n := pick])
  {
  }

  lemma ComponentAdded(
      q: Request, picks: Picks, components: map<string, ResolvedComponent>, n: string, pick: Option<string>,
      rc: ResolvedComponent)
    requires ArePicks(q, picks) && ArePicks(q, picks[n := pick])
    requires AllResolved(q, picks, components) && n !in components && IsComponent(q, n, pick, rc)
    ensures AllResolved(q, picks[n := pick], components[n := rc])
  {
    var picks', components' := picks[n := pick], components[n := rc];
    forall m | m in components' ensures IsComponent(q, m, picks'[m], components'[m]) {
      if m != n {
        assert IsComponent(q, m, picks[m], components[m]);
      }
    }
  }

  lemma HostAdded(
      components: map<string, ResolvedComponent>, owners: map<string, string>, n: string, rc: ResolvedComponent)
    requires HostsOwned(components, owners) && n !in components
    requires rc.fqdn != "" ==> rc.fqdn !in owners
    ensures HostsOwned(components[n := rc], if rc.fqdn != "" then owners[rc.fqdn := n] else owners)
  {
  }

  lemma HostTaken(
      q: Request, picks: Picks, components: map<string, ResolvedComponent>, owners: map<string, string>, n: string,
      pick: Option<string>, rc: ResolvedComponent)
    requires ArePicks(q, picks) && ArePicks(q, picks[n := pick])
    requires AllResolved(q, picks, components) && HostsOwned(components, owners)
    requires components.Keys <= ActiveComponents(q.spec, q.env)
    requires n in ActiveComponents(q.spec, q.env) && n !in components
    requires IsComponent(q, n, pick, rc) && rc.fqdn != "" && rc.fqdn in owners
    ensures Collide(q, picks[n := pick], owners[rc.fqdn], n)
  {
    var o := owners[rc.fqdn];
    assert IsComponent(q, o, picks[o], components[o]);
  }

  lemma OthersResolved(
      q: Request, picks: Picks, components: map<string, ResolvedComponent>, n: string, pick: Option<string>)
    requires ArePicks(q, picks) && ArePicks(q, picks[n := pick]) && AllResolved(q, picks, components)
      && n !in components
    ensures AllResolved(q, picks[n := pick], components)
  {
    forall m | m in components ensures IsComponent(q, m, picks[n := pick][m], components[m]) {
      assert IsComponent(q, m, picks[m], components[m]);
    }
  }

  lemma ResolvedAreFine(
      q: Request, picks: Picks, components: map<string, ResolvedComponent>, owners: map<string, string>)
    requires ArePicks(q, picks) && AllResolved(q, picks, components) && HostsOwned(components, owners)
    ensures AllFine(q, picks, components.Keys)
  {
    OwnedHostsDiffer(components, owners);
    DistinctAreFine(q, picks, components);
  }

  lemma DistinctAreFine(q: Request, picks: Picks, components: map<string, ResolvedComponent>)
    requires ArePicks(q, picks) && AllResolved(q, picks, components) && DistinctHosts(components)
    ensures AllFine(q, picks, components.Keys)
  {
    forall n | n in components ensures Resolves(q, picks, n) {
      assert IsComponent(q, n, picks[n], components[n]);
    }
    forall a, b | a in components && b in components ensures !Collide(q, picks, a, b) {
      assert IsComponent(q, a, picks[a], components[a]) && IsComponent(q, b, picks[b], components[b]);
    }
  }

  datatype ComponentsResult = Components(value: map<string, ResolvedComponent>) | Stopped(why: Rejection)

  /** One round of the component loop, for an active component. */
  method ResolveNext(
      q: Request, ghost picks: Picks, n: string, components: map<string, ResolvedComponent>,
      owners: map<string, string>)
    returns (r: ComponentsResult, owners': map<string, string>, ghost picks': Picks)
    requires ArePicks(q, picks) && AllResolved(q, picks, components) && HostsOwned(components, owners)
    requires components.Keys <= ActiveComponents(q.spec, q.env) && n in ActiveComponents(q.spec, q.env)
      && n !in components
    ensures ArePicks(q, picks')
    ensures r.Components? ==>
      r.value.Keys == components.Keys + {n} && AllResolved(q, picks', r.value) && HostsOwned(r.value, owners')
    ensures r.Stopped? ==> AllFine(q, picks', components.Keys)
    ensures r.Stopped? ==>
      || (r.why.ComponentFault? && r.why.name == n && ComponentFails(q, n, picks'[n], r.why.fault))
      || (r.why.HostCollision? && r.why.second == n && r.why.first in components && Collide(q, picks', r.why.first, n))
  {
    var rc, pick := ResolveComponent(q, n);
    picks', owners' := picks[n := pick], owners;
    PickAdded(q, picks, n, pick);
    OthersResolved(q, picks, components, n, pick);
    ResolvedAreFine(q, picks', components, owners);
    if rc.Unresolved? {
      r := Stopped(ComponentFault(n, rc.fault));
      return;
    }
    var fqdn := rc.value.fqdn;
    if fqdn != "" {
      if fqdn in owners {
        HostTaken(q, picks, components, owners, n, pick, rc.value);
        r := Stopped(HostCollision(owners[fqdn], n));
        return;
      }
      owners' := owners[fqdn := n];
    }
    ComponentAdded(q, picks, components, n, pick, rc.value);
    HostAdded(components, owners, n, rc.value);
    r := Components(components[n := rc.value]);
  }

  lemma OwnedHostsDiffer(components: map<string, ResolvedComponent>, owners: map<string, string>)
    requires HostsOwned(components, owners)
    ensures DistinctHosts(components)
  {
  }

  /** The component loop of `Resolve`. */
  method ResolveComponents(q: Request) returns (r: ComponentsResult, ghost picks: Picks)
    requires !EnvMissing(q)
    ensures ArePicks(q, picks)
    ensures r.Components? ==>
      r.value.Keys == ActiveComponents(q.spec, q.env) && AllResolved(q, picks, r.value) && DistinctHosts(r.value)
    ensures r.Stopped? ==> IsRejection(q, picks, r.why)
  {
    picks := SomePicks(q);
    var names := SortedKeys(q.spec.components);
    var components: map<string, ResolvedComponent> := map[];
    var owners: map<string, string> := map[];
    for i := 0 to |names|
      invariant ArePicks(q, picks)
      invariant components.Keys == Members(names[..i]) * ActiveComponents(q.spec, q.env)
      invariant AllResolved(q, picks, components)
      invariant HostsOwned(components, owners)
    {
      var n := names[i];
      assert n in Members(names);
      SeenNext(names, i, ActiveComponents(q.spec, q.env));
      if ActiveIn(q.spec.components[n].environments, q.env) {
        SeenIsEarlier(names, i, q.spec.components.Keys, ActiveComponents(q.spec, q.env));
        r, owners, picks := ResolveNext(q, picks, n, components, owners);
        if r.Stopped? {
          return;
        }
        components := r.value;
      }
    }
    AllNamesSeen(names, q.spec.components.Keys, ActiveComponents(q.spec, q.env));
    OwnedHostsDiffer(components, owners);
    r := Components(components);
  }

  /** In a sorted listing, what comes before a name is what sorts before it. */
  lemma SeenIsEarlier(names: seq<string>, i: nat, all: set<string>, active: set<string>)
    requires IsListing(names, all) && i < |names| && active <= all
    ensures Members(names[..i]) * active == Earlier(active, names[i])
  {
    forall m ensures m in Members(names[..i]) * active <==> m in Earlier(active, names[i]) {
      if m in Earlier(active, names[i]) {
        assert m in Members(names);
        var k :| 0 <= k < |names| && names[k] == m;
        if i < k {
          LeqAntisymmetric(names[i], names[k]);
        }
        assert k < i && names[..i][k] == m;
      }
    }
  }

  /** What is seen of the active names when one more name is. */
  lemma SeenNext(names: seq<string>, i: nat, active: set<string>)
    requires i < |names| && NoDuplicates(names)
    ensures names[i] !in Members(names[..i])
    ensures Members(names[..i + 1]) * active
      == Members(names[..i]) * active + if names[i] in active then {names[i]} else {}
  {
    assert names[..i + 1] == names[..i] + [names[i]];
  }

  datatype TasksResult = Tasks(value: map<string, ResolvedTask>) | TasksStopped(why: Rejection)

  /** One round of the loop in `resolveTasks`. */
  method ResolveTask(q: Request, name: string, weight: int) returns (r: Option<ResolvedTask>, fault: Fault)
    requires name in q.spec.tasks && RunsIn(q.spec, name, q.env)
    ensures r.Some? ==> IsTask(q, name, r.value) && r.value.hookWeight == weight
    ensures r.None? ==> TaskFails(q, name, fault)
  {
    var task := MergedTask(q.spec, name);
    fault := PlatformNotFound;
    if task.profiles.Some? && |task.profiles.value| > 0 && q.platform.None? {
      return None, fault;
    }
    var policy := SelectPolicy(q, task.profiles);
    if policy.NotChosen? {
      return None, policy.fault;
    }
    var broken := CheckPolicy(q, policy.names, policy.merged, TaskTarget(task), "");
    if broken.Some? {
      return None, Policy(broken.value);
    }
    r := Some(ResolvedTask(task, weight, policy.names, policy.merged));
  }

  ghost predicate TasksDone(q: Request, weights: map<string, int>, tasks: map<string, ResolvedTask>) {
    AllTasksResolved(q, tasks) && Weighted(q.spec, weights, tasks)
  }

  lemma TaskAdded(q: Request, weights: map<string, int>, tasks: map<string, ResolvedTask>, n: string, rt: ResolvedTask)
    requires TasksDone(q, weights, tasks) && IsTask(q, n, rt) && rt.hookWeight == if n in weights then weights[n] else 0
    ensures TasksDone(q, weights, tasks[n := rt])
  {
    var tasks' := tasks[n := rt];
    forall m | m in tasks' ensures IsTask(q, m, tasks'[m]) {
      if m != n {
        assert IsTask(q, m, tasks[m]);
      }
    }
  }

  lemma AllNamesSeen(names: seq<string>, all: set<string>, active: set<string>)
    requires Members(names) == all && active <= all
    ensures Members(names[..|names|]) * active == active
  {
    assert names[..|names|] == names;
  }

  lemma ResolvedTasksAreFine(q: Request, tasks: map<string, ResolvedTask>)
    requires AllTasksResolved(q, tasks)
    ensures AllTasksFine(q, tasks.Keys)
  {
    forall n | n in tasks ensures TaskResolves(q, n) {
      assert IsTask(q, n, tasks[n]);
    }
  }

  /** The loop of `resolveTasks`, with the weights there are. */
  method ResolveActiveTasks(
      q: Request, weights: map<string, int>)
      returns (tasks: map<string, ResolvedTask>, failed: Option<string>, fault: Fault)
    ensures failed.None? ==> tasks.Keys == ActiveTasks(q.spec, q.env) && TasksDone(q, weights, tasks)
    ensures failed.Some? ==>
      TaskFails(q, failed.value, fault) && AllTasksFine(q, Earlier(ActiveTasks(q.spec, q.env), failed.value))
  {
    var names := SortedKeys(q.spec.tasks);
    tasks, failed, fault := map[], None, PlatformNotFound;
    for i := 0 to |names|
      invariant tasks.Keys == Members(names[..i]) * ActiveTasks(q.spec, q.env)
      invariant TasksDone(q, weights, tasks)
    {
      var n := names[i];
      assert n in Members(names);
      SeenNext(names, i, ActiveTasks(q.spec, q.env));
      if ActiveIn(MergedTask(q.spec, n).environments, q.env) {
        var rt;
        rt, fault := ResolveTask(q, n, if n in weights then weights[n] else 0);
        if rt.None? {
          SeenIsEarlier(names, i, q.spec.tasks.Keys, ActiveTasks(q.spec, q.env));
          ResolvedTasksAreFine(q, tasks);
          failed := Some(n);
          return;
        }
        TaskAdded(q, weights, tasks, n, rt.value);
        tasks := tasks[n := rt.value];
      }
    }
    AllNamesSeen(names, q.spec.tasks.Keys, ActiveTasks(q.spec, q.env));
  }

  /** `resolveTasks`. */
  method ResolveTasks(q: Request) returns (r: TasksResult)
    ensures r.Tasks? ==> Acyclic(q.spec.tasks, PreDeploy) && Acyclic(q.spec.tasks, PostDeploy)
    ensures r.Tasks? ==> IsEffective(q.spec, q.env, r.value) && AllTasksResolved(q, r.value)
    ensures r.TasksStopped? ==>
      || (r.why.TaskCycle? && IsFault(q.spec, HasCycle(r.why.on, r.why.stuck)))
      || (r.why.TaskFault? && Acyclic(q.spec.tasks, PreDeploy) && Acyclic(q.spec.tasks, PostDeploy)
          && TaskFails(q, r.why.name, r.why.fault) && AllTasksFine(q, Earlier(ActiveTasks(q.spec, q.env), r.why.name)))
  {
    var weights := AssignHookWeights(q.spec.tasks);
    if weights.Rejected? {
      return TasksStopped(TaskCycle(weights.on, weights.stuck));
    }
    var tasks, failed, fault := ResolveActiveTasks(q, weights.weights);
    if failed.Some? {
      return TasksStopped(TaskFault(failed.value, fault));
    }
    WeightsMakeEffective(q.spec, q.env, weights.weights, tasks);
    r := Tasks(tasks);
  }

  /** `Resolve`. */
  method Resolve(q: Request) returns (r: Resolved)
    ensures exists picks :: IsOutcome(q, picks, r)
  {
    ghost var picks := SomePicks(q);
    if q.platform.Some? {
      var keys := AnyKeys(q.platform.value.environments);
      MatchIgnoresOrder(q.env, keys);
      if MatchEnvKey(q.env, keys).None? && q.env != "" {
        r := Refused(EnvironmentNotFound);
        assert IsOutcome(q, picks, r);
        return;
      }
    }
    var context := if EnvOf(q).Some? then EnvOf(q).value.context else "";
    var components;
    components, picks := ResolveComponents(q);
    if components.Stopped? {
      r := Refused(components.why);
      assert IsOutcome(q, picks, r);
      return;
    }
    var tasks := ResolveTasks(q);
    DistinctAreFine(q, picks, components.value);
    if tasks.TasksStopped? {
      r := Refused(tasks.why);
      assert IsOutcome(q, picks, r);
      return;
    }
    r := Success(ResolvedSpec(context, components.value, tasks.value));
    assert IsOutcome(q, picks, r);
  }

  // ----- what resolution guarantees -----

  /** A policy check that fails and the policy being obeyed exclude each other. */
  lemma BrokenIsNotObeyed(q: Request, names: seq<string>, target: Target, domain: string, e: PolicyError)
    requires AllDefined(PlatformProfiles(q), names) && PolicyBroken(q, names, target, domain, e)
    ensures !PolicyObeyed(q, names, target, domain)
  {
  }

  /** The fault reported for a component stands in the way of every resolution of it. */
  lemma FaultIsFinal(q: Request, n: string, pick: Option<string>, f: Fault, rc: ResolvedComponent)
    requires ComponentFails(q, n, pick, f)
    ensures !IsComponent(q, n, pick, rc)
  {
    if IsComponent(q, n, pick, rc) && f.Policy? {
      var c := q.spec.components[n];
      BrokenIsNotObeyed(q, rc.profiles, ComponentTarget(c), rc.domainKey, f.error);
    }
  }

  lemma TaskFaultIsFinal(q: Request, n: string, f: Fault, rt: ResolvedTask)
    requires TaskFails(q, n, f)
    ensures !IsTask(q, n, rt)
  {
    if IsTask(q, n, rt) && f.Policy? {
      BrokenIsNotObeyed(q, rt.profiles, TaskTarget(MergedTask(q.spec, n)), "", f.error);
    }
  }

  /** A rejection is never avoidable: nothing else would have been a resolution. */
  lemma RejectionIsFinal(q: Request, picks: Picks, why: Rejection, rs: ResolvedSpec)
    requires ArePicks(q, picks) && IsRejection(q, picks, why)
    ensures !IsResolvedSpec(q, picks, rs)
  {
    if IsResolvedSpec(q, picks, rs) {
      match why {
        case EnvironmentNotFound =>
        case ComponentFault(n, f) =>
          assert IsComponent(q, n, picks[n], rs.components[n]);
          FaultIsFinal(q, n, picks[n], f, rs.components[n]);
        case HostCollision(a, b) =>
          var ra, rb :| IsComponent(q, a, picks[a], ra) && IsComponent(q, b, picks[b], rb) && ra.fqdn == rb.fqdn != "";
          CollisionIsFinal(q, picks, rs, a, ra, b, rb);
        case TaskCycle(on, stuck) =>
        case TaskFault(n, f) =>
          assert n in ActiveTasks(q.spec, q.env);
          assert IsTask(q, n, rs.tasks[n]);
          TaskFaultIsFinal(q, n, f, rs.tasks[n]);
      }
    }
  }

  /** Two active components that each resolve, to one hostname, leave no resolution of the spec. */
  lemma CollisionIsFinal(
      q: Request, picks: Picks, rs: ResolvedSpec, a: string, ra: ResolvedComponent, b: string, rb: ResolvedComponent)
    requires ArePicks(q, picks) && a != b && a in ActiveComponents(q.spec, q.env)
      && b in ActiveComponents(q.spec, q.env)
    requires IsComponent(q, a, picks[a], ra) && IsComponent(q, b, picks[b], rb) && ra.fqdn == rb.fqdn != ""
    ensures !IsResolvedSpec(q, picks, rs)
  {
    if IsResolvedSpec(q, picks, rs) {
      assert IsComponent(q, a, picks[a], rs.components[a]);
      assert IsComponent(q, b, picks[b], rs.components[b]);
      ComponentUnique(q, a, picks[a], ra, rs.components[a]);
      ComponentUnique(q, b, picks[b], rb, rs.components[b]);
    }
  }

  /** On a consistent platform the default domains do not depend on the map walk. */
  lemma PicksUnique(q: Request, picks: Picks, picks': Picks)
    requires q.platform.Some? ==> Consistent(q.platform.value)
    requires ArePicks(q, picks) && ArePicks(q, picks')
    ensures picks == picks'
  {
    forall n | n in picks ensures picks[n] == picks'[n] {
      assert IsPick(q, picks[n]) && IsPick(q, picks'[n]);
      if EnvOf(q).Some? {
        DefaultIsDetermined(EnvOf(q).value);
      }
    }
  }

  lemma ResolvedSpecUnique(q: Request, picks: Picks, a: ResolvedSpec, b: ResolvedSpec)
    requires ArePicks(q, picks) && IsResolvedSpec(q, picks, a) && IsResolvedSpec(q, picks, b)
    ensures a == b
  {
    forall n | n in a.components ensures a.components[n] == b.components[n] {
      assert IsComponent(q, n, picks[n], a.components[n]) && IsComponent(q, n, picks[n], b.components[n]);
      ComponentUnique(q, n, picks[n], a.components[n], b.components[n]);
    }
    forall n | n in a.tasks ensures a.tasks[n] == b.tasks[n] {
      assert IsTask(q, n, a.tasks[n]) && IsTask(q, n, b.tasks[n]);
      if q.spec.tasks[n].on.IsHook() {
        LongestChainUnique(q.spec.tasks, q.spec.tasks[n].on, n, a.tasks[n].hookWeight, b.tasks[n].hookWeight);
      }
    }
  }

  /** The first fault of a component, or of a task, is one. */
  lemma FaultUnique(q: Request, n: string, pick: Option<string>, f: Fault, g: Fault)
    requires ComponentFails(q, n, pick, f) && ComponentFails(q, n, pick, g)
    ensures f == g
  {
    var c := q.spec.components[n];
    if f.ComponentClassNotFound? && g.Policy? {
      BrokenIsNotObeyed(q, Selects(c.profiles, PlatformProfiles(q)).names,
        ComponentTarget(c), DomainOf(c.expose, pick), g.error);
    } else if g.ComponentClassNotFound? && f.Policy? {
      BrokenIsNotObeyed(q, Selects(c.profiles, PlatformProfiles(q)).names,
        ComponentTarget(c), DomainOf(c.expose, pick), f.error);
    }
  }

  lemma TaskFaultUnique(q: Request, n: string, f: Fault, g: Fault)
    requires TaskFails(q, n, f) && TaskFails(q, n, g)
    ensures f == g
  {
  }

  /** Two components of which one sorts first. */
  lemma EarlierOne(names: set<string>, m: string, n: string)
    requires m in names && n in names && m != n
    ensures m in Earlier(names, n) || n in Earlier(names, m)
  {
    LeqTotal(m, n);
  }

  /** The component at which resolution stops, if it stops at one. */
  function StopsAt(r: Rejection): Option<string> {
    match r
    case ComponentFault(n, _) => Some(n)
    case HostCollision(_, b) => Some(b)
    case _ => None
  }

  /** Where resolution stops at a component, that component is not fine with those before it. */
  lemma StopIsNotFine(q: Request, picks: Picks, r: Rejection, names: set<string>)
    requires ArePicks(q, picks) && IsRejection(q, picks, r) && StopsAt(r).Some? && StopsAt(r).value in names
    requires Earlier(ActiveComponents(q.spec, q.env), StopsAt(r).value) <= names
    ensures !AllFine(q, picks, names)
  {
    if r.ComponentFault? && AllFine(q, picks, names) {
      assert Resolves(q, picks, r.name);
      var rc :| IsComponent(q, r.name, picks[r.name], rc);
      FaultIsFinal(q, r.name, picks[r.name], r.fault, rc);
    }
  }

  lemma EarlierTransitive(names: set<string>, m: string, n: string)
    requires m in Earlier(names, n)
    ensures Earlier(names, m) + {m} <= Earlier(names, n)
  {
    forall k | k in Earlier(names, m) ensures k in Earlier(names, n) {
      LeqTransitive(k, m, n);
      if k == n {
        LeqAntisymmetric(m, n);
      }
    }
  }

  /** Two rejections at components are at the same one. */
  lemma StopsAtOne(q: Request, picks: Picks, r: Rejection, r': Rejection)
    requires ArePicks(q, picks) && IsRejection(q, picks, r) && IsRejection(q, picks, r')
    requires StopsAt(r).Some? && StopsAt(r').Some?
    ensures StopsAt(r) == StopsAt(r')
  {
    var active := ActiveComponents(q.spec, q.env);
    var m, n := StopsAt(r).value, StopsAt(r').value;
    if m != n {
      EarlierOne(active, m, n);
      if m in Earlier(active, n) {
        EarlierTransitive(active, m, n);
        StopIsNotFine(q, picks, r, Earlier(active, n));
      } else {
        EarlierTransitive(active, n, m);
        StopIsNotFine(q, picks, r', Earlier(active, m));
      }
    }
  }

  lemma SameStop(q: Request, picks: Picks, r: Rejection, r': Rejection)
    requires ArePicks(q, picks) && IsRejection(q, picks, r) && IsRejection(q, picks, r')
    requires StopsAt(r).Some? && StopsAt(r) == StopsAt(r')
    ensures r == r'
  {
    var n := StopsAt(r).value;
    if r.ComponentFault? && r'.ComponentFault? {
      FaultUnique(q, n, picks[n], r.fault, r'.fault);
    } else if r.HostCollision? && r'.HostCollision? {
      CollisionUnique(q, picks, r.first, r'.first, n);
    } else if r.ComponentFault? {
      var ra, rb :| IsComponent(q, r'.first, picks[r'.first], ra) && IsComponent(q, n, picks[n], rb)
        && ra.fqdn == rb.fqdn != "";
      FaultIsFinal(q, n, picks[n], r.fault, rb);
    } else {
      var ra, rb :| IsComponent(q, r.first, picks[r.first], ra) && IsComponent(q, n, picks[n], rb)
        && ra.fqdn == rb.fqdn != "";
      FaultIsFinal(q, n, picks[n], r'.fault, rb);
    }
  }

  /** A component collides with one of the earlier ones at most, when those do not collide among themselves. */
  lemma CollisionUnique(q: Request, picks: Picks, a: string, a': string, b: string)
    requires ArePicks(q, picks) && Collide(q, picks, a, b) && Collide(q, picks, a', b)
    requires !Collide(q, picks, a, a')
    ensures a == a'
  {
    var ra, rb :| IsComponent(q, a, picks[a], ra) && IsComponent(q, b, picks[b], rb) && ra.fqdn == rb.fqdn != "";
    var ra', rb' :| IsComponent(q, a', picks[a'], ra') && IsComponent(q, b, picks[b], rb')
      && ra'.fqdn == rb'.fqdn != "";
    ComponentUnique(q, b, picks[b], rb, rb');
  }

  /** The reason for a rejection is the first one there is, so there is one. */
  lemma RejectionUnique(q: Request, picks: Picks, r: Rejection, r': Rejection)
    requires ArePicks(q, picks) && IsRejection(q, picks, r) && IsRejection(q, picks, r')
    ensures r == r'
  {
    if StopsAt(r).Some? && StopsAt(r').Some? {
      StopsAtOne(q, picks, r, r');
      SameStop(q, picks, r, r');
    } else if StopsAt(r).Some? && !r'.EnvironmentNotFound? {
      StopIsNotFine(q, picks, r, ActiveComponents(q.spec, q.env));
    } else if StopsAt(r').Some? && !r.EnvironmentNotFound? {
      StopIsNotFine(q, picks, r', ActiveComponents(q.spec, q.env));
    } else if !r.EnvironmentNotFound? && !r'.EnvironmentNotFound? {
      TaskStopUnique(q, picks, r, r');
    }
  }

  lemma TaskStopUnique(q: Request, picks: Picks, r: Rejection, r': Rejection)
    requires ArePicks(q, picks) && IsRejection(q, picks, r) && IsRejection(q, picks, r')
    requires (r.TaskCycle? || r.TaskFault?) && (r'.TaskCycle? || r'.TaskFault?)
    ensures r == r'
  {
    if r.TaskCycle? && r'.TaskCycle? {
      var stuck := set n | n in Phase(q.spec.tasks, r.on) && ReachesCycle(q.spec.tasks, r.on, n);
      ListingUnique(r.stuck, r'.stuck, stuck);
    } else if r.TaskFault? && r'.TaskFault? {
      if r.name == r'.name {
        TaskFaultUnique(q, r.name, r.fault, r'.fault);
      } else {
        var active := ActiveTasks(q.spec, q.env);
        EarlierOne(active, r.name, r'.name);
        var first := if r.name in Earlier(active, r'.name) then r else r';
        assert TaskResolves(q, first.name);
        var rt :| IsTask(q, first.name, rt);
        TaskFaultIsFinal(q, first.name, first.fault, rt);
      }
    }
  }

  /**
   On a consistent platform resolution is deterministic although maps are walked
   in any order: two outcomes are the same, and so is the reason if it is refused.
   */
  lemma ResolveIsDetermined(q: Request, picks: Picks, r: Resolved, picks': Picks, r': Resolved)
    requires q.platform.Some? ==> Consistent(q.platform.value)
    requires IsOutcome(q, picks, r) && IsOutcome(q, picks', r')
    ensures r == r'
  {
    PicksUnique(q, picks, picks');
    if r.Success? && r'.Refused? {
      RejectionIsFinal(q, picks, r'.why, r.spec);
    } else if r.Refused? && r'.Success? {
      RejectionIsFinal(q, picks, r.why, r'.spec);
    } else if r.Success? {
      ResolvedSpecUnique(q, picks, r.spec, r'.spec);
    } else {
      RejectionUnique(q, picks, r.why, r'.why);
    }
  }

  /**
   Every selected profile of a resolved component is enforced: its domain is on
   the profile's list, if there is one, and no request that is set exceeds a
   ceiling that is set. The platform's default profile is always selected, first.
   */
  lemma EveryProfileIsEnforced(q: Request, picks: Picks, rs: ResolvedSpec, n: string, i: nat)
    requires ArePicks(q, picks) && IsResolvedSpec(q, picks, rs) && n in rs.components && i < |rs.components[n].profiles|
    ensures var rc := rs.components[n]; var c := q.spec.components[n];
      && q.platform.Some? && q.platform.value.profiles.Some? && rc.profiles[i] in q.platform.value.profiles.value
      && var p := q.platform.value.profiles.value[rc.profiles[i]];
      && (rc.domainKey != "" && p.allowedDomains.Some? ==> rc.domainKey in p.allowedDomains.value)
      && !CeilingBroken(p, EffectiveRequests(c.resources, c.resourcePreset))
      && (DEFAULT in q.platform.value.profiles.value ==> rc.profiles[0] == DEFAULT)
      && (c.metricsEnabled ==> exists j :: 0 <= j < |rc.profiles| && HasMonitorLabels(q, rc.profiles[j]))
  {
    var rc := rs.components[n];
    assert IsComponent(q, n, picks[n], rc);
    assert rc.profiles[i] in rc.profiles;
    SelectedNames(q.spec.components[n].profiles, PlatformProfiles(q));
    var ps := ProfilesOf(PlatformProfiles(q), rc.profiles);
    assert ps[i] in ps;
    WithinMeaning(ps[i], EffectiveRequests(q.spec.components[n].resources, q.spec.components[n].resourcePreset));
    if q.spec.components[n].metricsEnabled {
      var j :| 0 <= j < |ps| && KeysOf(MonitorLabels, ps[j]) != map[];
      assert HasMonitorLabels(q, rc.profiles[j]);
    }
  }

  /** The platform defines this profile, with monitor labels. */
  ghost predicate HasMonitorLabels(q: Request, name: string) {
    && q.platform.Some? && q.platform.value.profiles.Some? && name in q.platform.value.profiles.value
    && var metrics := q.platform.value.profiles.value[name].metrics;
    metrics.Some? && metrics.value.monitorLabels != map[]
  }

  /** A resolved task's own or inherited requests are within every ceiling of every profile it selects. */
  lemma EveryProfileIsEnforcedOnTasks(q: Request, picks: Picks, rs: ResolvedSpec, n: string, i: nat)
    requires ArePicks(q, picks) && IsResolvedSpec(q, picks, rs) && n in rs.tasks && i < |rs.tasks[n].profiles|
    ensures var rt := rs.tasks[n];
      && n in q.spec.tasks && rt.task == MergedTask(q.spec, n)
      && q.platform.Some? && q.platform.value.profiles.Some? && rt.profiles[i] in q.platform.value.profiles.value
      && !CeilingBroken(q.platform.value.profiles.value[rt.profiles[i]],
        EffectiveRequests(rt.task.resources, rt.task.resourcePreset))
      && (DEFAULT in q.platform.value.profiles.value ==> rt.profiles[0] == DEFAULT)
  {
    var rt := rs.tasks[n];
    assert IsTask(q, n, rt);
    assert rt.profiles[i] in rt.profiles;
    SelectedNames(rt.task.profiles, PlatformProfiles(q));
    var ps := ProfilesOf(PlatformProfiles(q), rt.profiles);
    assert ps[i] in ps;
    WithinMeaning(ps[i], EffectiveRequests(rt.task.resources, rt.task.resourcePreset));
  }

  /** No component of a platform with a default profile goes without it. */
  lemma DefaultIsUnavoidable(q: Request, picks: Picks, rs: ResolvedSpec, n: string)
    requires ArePicks(q, picks) && IsResolvedSpec(q, picks, rs) && n in rs.components
    requires PlatformProfiles(q).Some? && DEFAULT in PlatformProfiles(q).value
    ensures rs.components[n].profiles != [] && rs.components[n].profiles[0] == DEFAULT
  {
    assert IsComponent(q, n, picks[n], rs.components[n]);
    SelectedNames(q.spec.components[n].profiles, PlatformProfiles(q));
  }

  /**
   The platform environment used is the one of that very name, else the one named by
   the text before the first slash; a request is refused for want of one exactly when
   the platform has neither and the environment has a name.
   */
  lemma EnvironmentUsed(q: Request)
    ensures EnvOf(q).Some? ==> exists k ::
      && q.platform.Some? && k in q.platform.value.environments && EnvOf(q).value == q.platform.value.environments[k]
      && (k == q.env || ('/' !in k && k + "/" <= q.env && q.env !in q.platform.value.environments))
    ensures EnvMissing(q) <==> q.platform.Some? && q.env != "" && forall k :: k in q.platform.value.environments ==>
      k != q.env && ('/' in k || !(k + "/" <= q.env))
  {
    if q.platform.Some? {
      var keys := q.platform.value.environments.Keys;
      forall k | k in keys && '/' !in k && k + "/" <= q.env ensures BeforeSlash(q.env) == k && '/' in q.env {
        CoversBySlash(k, q.env);
      }
    }
  }

  /**
   The hostname of a resolved component is the base domain of its domain, at the apex,
   or the subdomain asked for, the component's own name if none is, before it. The TLS
   settings are the domain's, with an issuer only for cert-manager and a secret only
   for a secret; the storage class is the component's own choice or else its policy's.
   */
  lemma ResolvedFields(q: Request, picks: Picks, rs: ResolvedSpec, n: string)
    requires ArePicks(q, picks) && IsResolvedSpec(q, picks, rs) && n in rs.components
    ensures n in q.spec.components
    ensures var c, rc := q.spec.components[n], rs.components[n];
      && (c.expose.None? ==> rc.domainKey == "" && rc.fqdn == "" && rc.tls == NO_TLS)
      && (c.expose.Some? ==>
        && EnvOf(q).Some? && rc.domainKey in EnvOf(q).value.domains
        && var x, d := c.expose.value, EnvOf(q).value.domains[rc.domainKey];
        && (x.domain != "" ==> rc.domainKey == x.domain)
        && (x.domain == "" ==> |EnvOf(q).value.domains| == 1 || d.isDefault)
        && (x.apex ==> rc.fqdn == d.baseDomain && q.validSubdomain(rc.fqdn))
        && (!x.apex && x.subdomain.Some? ==> rc.fqdn == x.subdomain.value + "." + d.baseDomain)
        && (!x.apex && x.subdomain.None? ==> rc.fqdn == n + "." + d.baseDomain)
        && (!x.apex && n !in q.dynamic ==>
          q.validSubdomain(rc.fqdn) && q.validLabel(if x.subdomain.Some? then x.subdomain.value else n))
        && rc.tls.mode == (if d.tls.Some? then d.tls.value.mode else "")
        && rc.tls.issuer == (if d.tls.Some? && d.tls.value.mode == "certManager" then d.tls.value.issuer else "")
        && rc.tls.secretName
          == (if d.tls.Some? && d.tls.value.mode == "secretName" then d.tls.value.secretName else ""))
  {
    assert IsComponent(q, n, picks[n], rs.components[n]);
    assert IsPick(q, picks[n]);
  }

  /**
   What a component is refused for, on the fields: no platform for profiles or none for
   its environment for a hostname; an opt-out or a name the platform does not define; a
   domain the environment lacks; a hostname that is no DNS name and whose subdomain was
   written out; or a storage class of its own the environment lacks.
   */
  lemma FaultFields(q: Request, n: string, pick: Option<string>, f: Fault)
    requires ComponentFails(q, n, pick, f) && IsPick(q, pick)
    ensures n in q.spec.components
    ensures var c := q.spec.components[n]; match f
      case PlatformNotFound => (c.profiles.Some? && q.platform.None?) || (c.expose.Some? && EnvOf(q).None?)
      case ProfileOptOutBlocked =>
        && c.profiles == Some([]) && q.platform.Some? && q.platform.value.profiles.Some?
        && DEFAULT in q.platform.value.profiles.value
      case ProfileNotFound =>
        && c.profiles.Some? && c.profiles.value != [] && q.platform.Some?
        && (q.platform.value.profiles.None?
            || exists p :: p in c.profiles.value && p != DEFAULT && p !in q.platform.value.profiles.value)
      case NoDomain => c.expose.Some? && EnvOf(q).Some? && LacksDomain(EnvOf(q).value, c.expose.value.domain)
      case InvalidDns => c.expose.Some? && EnvOf(q).Some? && exists d ::
        d in EnvOf(q).value.domains && BadHostname(q, n, c.expose.value, EnvOf(q).value.domains[d])
      case Policy(_) => true
      case ComponentClassNotFound =>
        c.storageClass != "" && (EnvOf(q).None? || c.storageClass !in EnvOf(q).value.storageClasses)
  {
    var c := q.spec.components[n];
    SelectionFaults(c.profiles, PlatformProfiles(q));
    if f.NoDomain? {
      var env := EnvOf(q).value;
      forall d | d in env.domains && env.domains[d].isDefault ensures d in Defaults(env) {
      }
    }
    if f.InvalidDns? {
      var d := DomainKey(c.expose.value, pick).value;
      assert BadHostname(q, n, c.expose.value, EnvOf(q).value.domains[d]);
    }
  }

  lemma SelectionFaults(asked: Option<seq<string>>, profiles: Option<map<string, Profile>>)
    ensures var s := Selects(asked, profiles); s.Selected? && !AllDefined(profiles, s.names) ==>
      && asked.Some? && profiles.Some?
      && exists p :: p in asked.value && p != DEFAULT && p !in profiles.value
  {
    var s := Selects(asked, profiles);
    if s.Selected? && !AllDefined(profiles, s.names) {
      SelectedNames(asked, profiles);
      var p :| p in s.names && !(profiles.Some? && p in profiles.value);
    }
  }

  /** The domain named is not there; or none is named and there is no domain, or are several without a default. */
  ghost predicate LacksDomain(env: PlatformEnv, domain: string) {
    if domain != "" then domain !in env.domains
    else |env.domains| != 1 && forall d :: d in env.domains ==> !env.domains[d].isDefault
  }

  /** A base domain at the apex that is no DNS name, or a written subdomain that is no label or makes no DNS name. */
  ghost predicate BadHostname(q: Request, name: string, x: Expose, d: Domain) {
    if x.apex then !q.validSubdomain(d.baseDomain)
    else
      var subdomain := if x.subdomain.Some? then x.subdomain.value else name;
      name !in q.dynamic && !(q.validLabel(subdomain) && q.validSubdomain(subdomain + "." + d.baseDomain))
  }

  lemma ResolvedStorageClass(q: Request, picks: Picks, rs: ResolvedSpec, n: string)
    requires ArePicks(q, picks) && IsResolvedSpec(q, picks, rs) && n in rs.components
    ensures n in q.spec.components
    ensures var c, rc := q.spec.components[n], rs.components[n];
      var key := if c.storageClass != "" then c.storageClass
        else if rc.merged.Some? then rc.merged.value.storageClass else "";
      && (key == "" ==> rc.storageClass == "")
      && (key != "" ==>
        && EnvOf(q).Some? && key in EnvOf(q).value.storageClasses
        && rc.storageClass == EnvOf(q).value.storageClasses[key])
  {
    assert IsComponent(q, n, picks[n], rs.components[n]);
  }

  /** Helm runs the resolved tasks of an accepted spec with every dependency before its dependent. */
  lemma ResolvedTasksRunInOrder(
      q: Request, picks: Picks, rs: ResolvedSpec, on: TaskOn, order: seq<string>, i: nat, d: string)
    requires ArePicks(q, picks) && IsResolvedSpec(q, picks, rs) && Accepted(q.spec)
    requires on.IsHook() && HelmOrder(rs.tasks, on, order) && i < |order| && d in rs.tasks[order[i]].task.after
    ensures exists j :: 0 <= j < i && order[j] == d
  {
    HelmRunsDependenciesFirst(q.spec, q.env, rs.tasks, on, order, i, d);
  }
}
