/**
 The part of a cluster that volume resizing talks to. Everyone else keeps
 changing it between two calls, and any call may fail.
 */
module ClusterApi {

  /**
   A PersistentVolumeClaim of the release. Quantities are naturals, 0 when unset;
   `storageClass` is empty when unset.
   */
  datatype Claim = Claim(component: string, storageClass: string, request: nat, capacity: nat, resizePending: bool)

  datatype StorageClass = StorageClass(allowExpansion: bool, isDefault: bool)

  datatype ApiCall =
    | ClaimRead(claim: string)
    | ClaimList(component: string)
    | ClassRead(class_: string)
    | ClassList
    | RequestWrite(claim: string, to: nat)
    | SetList(component: string)
    | SetDelete(set_: string)
    | Pause

  /**
   What happened at the calls, in order: what was read, what was changed, and which
   calls ended in an error. A change whose call ends in an error may have been made.
   */
  datatype Event =
    | SawClaim(claim: string, seen: Claim)
    | NoClaim(claim: string)
    | ListedClaims(component: string, names: seq<string>)
    | SawClass(class_: string, allowExpansion: bool)
    | NoClass(class_: string)
    | SawDefault(class_: string)
    | NoDefault
    | Raised(claim: string, to: nat)
    | ListedSets(component: string, names: seq<string>)
    | DeletedSet(set_: string)
    | ReadClock(at: nat)
    | Refused(call: ApiCall)

  datatype Answer<+T> = Found(value: T) | NotFound | Unavailable

  function ClaimAnswer(name: string, r: Answer<Claim>): Event {
    match r
    case Found(c) => SawClaim(name, c)
    case NotFound => NoClaim(name)
    case Unavailable => Refused(ClaimRead(name))
  }

  function ClassAnswer(name: string, r: Answer<StorageClass>): Event {
    match r
    case Found(c) => SawClass(name, c.allowExpansion)
    case NotFound => NoClass(name)
    case Unavailable => Refused(ClassRead(name))
  }

  function DefaultAnswer(r: Answer<string>): Event {
    match r
    case Found(c) => SawDefault(c)
    case NotFound => NoDefault
    case Unavailable => Refused(ClassList)
  }

  function ClaimsAnswer(component: string, r: Answer<seq<string>>): Event {
    if r.Found? then ListedClaims(component, r.value) else Refused(ClaimList(component))
  }

  function SetsAnswer(component: string, r: Answer<seq<string>>): Event {
    if r.Found? then ListedSets(component, r.value) else Refused(SetList(component))
  }

  type Claims = map<string, Claim>

  /** What everyone else may do to a claim: its capacity grows and its resize condition comes and goes. */
  predicate ClaimDrifts(a: Claim, b: Claim) {
    a.component == b.component && a.storageClass == b.storageClass && a.request == b.request && a.capacity <= b.capacity
  }

  predicate Drifts(a: Claims, b: Claims) {
    a.Keys == b.Keys && forall p :: p in a ==> ClaimDrifts(a[p], b[p])
  }

  /** A set in some order. */
  method InSomeOrder(s: set<string>) returns (r: seq<string>)
    ensures forall x :: x in r <==> x in s
    ensures |r| == |s|
  {
    var left := s;
    r := [];
    while left != {}
      invariant left <= s
      invariant forall x :: x in s <==> x in r || x in left
      invariant forall x :: x in r ==> x in s
      invariant |r| + |left| == |s|
      decreases left
    {
      var x :| x in left;
      r, left := r + [x], left - {x};
    }
  }

  class Cluster {
    var claims: Claims
    var classes: map<string, StorageClass>
    /** The StatefulSets of the release, with the component each is labelled with. */
    var sets: map<string, string>
    var clock: nat
    ghost var log: seq<Event>

    constructor (claims: Claims, classes: map<string, StorageClass>, sets: map<string, string>)
      ensures this.claims == claims && this.classes == classes && this.sets == sets && log == []
    {
      this.claims, this.classes, this.sets, clock, log := claims, classes, sets, 0, [];
    }

    /**
     Time passes and the cluster drifts: claims as above, storage classes in any
     way. Then the call gets through, or not.
     */
    method Reach() returns (ok: bool)
      modifies this`claims, this`classes, this`clock
      ensures Drifts(old(claims), claims) && old(clock) <= clock
    {
      assert Drifts(claims, claims);
      var next: Claims :| Drifts(claims, next);
      var pause: nat :| true;
      claims, classes, clock, ok := next, *, clock + pause, *;
    }

    method GetClaim(name: string) returns (r: Answer<Claim>)
      modifies this`claims, this`classes, this`clock, this`log
      ensures Drifts(old(claims), claims) && old(clock) <= clock
      ensures r.Found? ==> name in claims && claims[name] == r.value
      ensures r.NotFound? ==> name !in claims
      ensures log == old(log) + [ClaimAnswer(name, r)]
    {
      var ok := Reach();
      r := if !ok then Unavailable else if name in claims then Found(claims[name]) else NotFound;
      log := log + [ClaimAnswer(name, r)];
    }

    /** The claims labelled with a component, in any order. */
    method ListClaims(component: string) returns (r: Answer<seq<string>>)
      modifies this`claims, this`classes, this`clock, this`log
      ensures Drifts(old(claims), claims) && old(clock) <= clock
      ensures !r.NotFound?
      ensures r.Found? ==> forall p :: p in r.value <==> p in claims && claims[p].component == component
      ensures log == old(log) + [ClaimsAnswer(component, r)]
    {
      var ok := Reach();
      r := Unavailable;
      if ok {
        var names := InSomeOrder(set p | p in claims && claims[p].component == component);
        r := Found(names);
      }
      log := log + [ClaimsAnswer(component, r)];
    }

    method GetClass(name: string) returns (r: Answer<StorageClass>)
      modifies this`claims, this`classes, this`clock, this`log
      ensures Drifts(old(claims), claims) && old(clock) <= clock
      ensures log == old(log) + [ClassAnswer(name, r)]
    {
      var ok := Reach();
      r := if !ok then Unavailable else if name in classes then Found(classes[name]) else NotFound;
      log := log + [ClassAnswer(name, r)];
    }

    /** `defaultStorageClassName`: of the classes marked default the first one listed. */
    method DefaultClass() returns (r: Answer<string>)
      modifies this`claims, this`classes, this`clock, this`log
      ensures Drifts(old(claims), claims) && old(clock) <= clock
      ensures log == old(log) + [DefaultAnswer(r)]
    {
      var ok := Reach();
      var marked := set c | c in classes && classes[c].isDefault;
      r := if ok then NotFound else Unavailable;
      if ok && marked != {} {
        var first :| first in marked;
        r := Found(first);
      }
      log := log + [DefaultAnswer(r)];
    }

    /**
     Writes a claim's request. The server may refuse, for instance because the claim
     changed since it was read, and it may write and still answer with an error.
     */
    method UpdateRequest(name: string, request: nat) returns (ok: bool, ghost written: bool)
      modifies this`claims, this`classes, this`clock, this`log
      ensures old(clock) <= clock && (ok ==> written)
      ensures written ==> name in old(claims)
      ensures Drifts(
        if written then old(claims)[name := old(claims)[name].(request := request)] else old(claims), claims)
      ensures log == old(log)
        + (if written then [Raised(name, request)] else [])
        + (if ok then [] else [Refused(RequestWrite(name, request))])
    {
      ok := Reach();
      ok := ok && name in claims;
      var done: bool :| (ok ==> done) && (done ==> name in claims);
      if done {
        claims := claims[name := claims[name].(request := request)];
        log := log + [Raised(name, request)];
      }
      if !ok {
        log := log + [Refused(RequestWrite(name, request))];
      }
      written := done;
    }

    method ListSets(component: string) returns (r: Answer<seq<string>>)
      modifies this`claims, this`classes, this`clock, this`log
      ensures Drifts(old(claims), claims) && old(clock) <= clock
      ensures !r.NotFound?
      ensures r.Found? ==> (forall s :: s in r.value <==> s in sets && sets[s] == component)
      ensures r.Found? ==> |r.value| == |set s | s in sets && sets[s] == component|
      ensures log == old(log) + [SetsAnswer(component, r)]
    {
      var ok := Reach();
      r := Unavailable;
      if ok {
        var names := InSomeOrder(set s | s in sets && sets[s] == component);
        r := Found(names);
      }
      log := log + [SetsAnswer(component, r)];
    }

    /** Deletes a StatefulSet with orphan propagation: its claims stay. It may be gone in spite of an error. */
    method DeleteSet(name: string) returns (ok: bool, ghost deleted: bool)
      modifies this`claims, this`classes, this`clock, this`sets, this`log
      ensures Drifts(old(claims), claims) && old(clock) <= clock && (ok ==> deleted)
      ensures deleted ==> name in old(sets)
      ensures sets == if deleted then old(sets) - {name} else old(sets)
      ensures log == old(log)
        + (if deleted then [DeletedSet(name)] else [])
        + (if ok then [] else [Refused(SetDelete(name))])
    {
      ok := Reach();
      ok := ok && name in sets;
      var done: bool :| (ok ==> done) && (done ==> name in sets);
      if done {
        sets := sets - {name};
        log := log + [DeletedSet(name)];
      }
      if !ok {
        log := log + [Refused(SetDelete(name))];
      }
      deleted := done;
    }

    /** `time.Now`. */
    method Now() returns (now: nat)
      modifies this`log
      ensures now == clock && log == old(log) + [ReadClock(now)]
    {
      now := clock;
      log := log + [ReadClock(now)];
    }

    /** The next tick of a poll loop, unless the caller's context ends first. */
    method Tick() returns (ok: bool)
      modifies this`claims, this`classes, this`clock, this`log
      ensures Drifts(old(claims), claims) && old(clock) < clock
      ensures log == old(log) + if ok then [] else [Refused(Pause)]
    {
      ok := Reach();
      clock := clock + 1;
      if !ok {
        log := log + [Refused(Pause)];
      }
    }
  }
}
