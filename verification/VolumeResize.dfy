/**
 Growing the volumes of a release: patch every claim, wait until every claim has
 grown, then orphan-delete the StatefulSets so Helm can recreate them.
 */
module VolumeResize {
  import opened Wrappers
  import opened ClusterApi
  import opened Names

  datatype Resize = Resize(component: string, previousSize: string, newSize: string,
      storageClass: string, stateful: bool)

  /** How `resource.ParseQuantity` reads a size. */
  type Parser = string -> Option<nat>

  datatype Result = Resized | BadSize | PatchFailed | WaitFailed | DeleteFailed

  const RESIZE_WAIT_TIMEOUT: nat := 300

  function Max(a: nat, b: nat): nat {
    if a < b then b else a
  }

  // ----- what a resize is to achieve -----

  function Requests(claims: Claims): map<string, nat> {
    map p | p in claims :: claims[p].request
  }

  /**
   The claims of a component: of a Deployment the one with the chart's name if it
   exists, else those with its label.
   */
  function ClaimsOf(claims: Claims, release: string, r: Resize): set<string> {
    var direct := release + "-" + r.component;
    if !r.stateful && direct in claims then {direct}
    else set p | p in claims && claims[p].component == r.component
  }

  /** A resize is about the chart's own claim, for a Deployment that has it, and else about those with its label. */
  lemma ClaimsOfMeaning(claims: Claims, release: string, resizes: seq<Resize>, r: Resize, p: string)
    ensures !r.stateful && release + "-" + r.component in claims ==>
      (p in ClaimsOf(claims, release, r) <==> p == release + "-" + r.component)
    ensures r.stateful || release + "-" + r.component !in claims ==>
      (p in ClaimsOf(claims, release, r) <==> p in claims && claims[p].component == r.component)
    ensures p in Covered(claims, release, resizes) <==> exists q :: q in resizes && p in ClaimsOf(claims, release, q)
  {
  }

  function Raise(requests: map<string, nat>, names: set<string>, size: nat): map<string, nat> {
    map p | p in requests :: if p in names then Max(requests[p], size) else requests[p]
  }

  /** The requests an uninterrupted resize ends with. */
  function Goal(claims: Claims, release: string, parse: Parser, resizes: seq<Resize>): (g: map<string, nat>)
    ensures g.Keys == claims.Keys
  {
    if resizes == [] then Requests(claims)
    else
      var last := resizes[|resizes| - 1];
      var before := Goal(claims, release, parse, resizes[..|resizes| - 1]);
      match parse(last.newSize)
      case Some(size) => Raise(before, ClaimsOf(claims, release, last), size)
      case None => before
  }

  /** The claims a resize is about. */
  function Covered(claims: Claims, release: string, resizes: seq<Resize>): set<string> {
    set r, p | r in resizes && p in ClaimsOf(claims, release, r) :: p
  }

  function StatefulComponents(resizes: seq<Resize>): set<string> {
    set r | r in resizes && r.stateful :: r.component
  }

  ghost predicate SameLayout(a: Claims, b: Claims) {
    && a.Keys == b.Keys
    && forall p :: p in a ==> a[p].component == b[p].component && a[p].storageClass == b[p].storageClass
  }

  /** Pointwise order on requests. */
  ghost predicate AtMost(a: map<string, nat>, b: map<string, nat>) {
    a.Keys == b.Keys && forall p :: p in a ==> a[p] <= b[p]
  }

  lemma SameClaimsOf(a: Claims, b: Claims, release: string, r: Resize)
    requires SameLayout(a, b)
    ensures ClaimsOf(a, release, r) == ClaimsOf(b, release, r)
  {
  }

  /** One more resize in the list only raises the goal. */
  lemma GoalStep(claims: Claims, release: string, parse: Parser, resizes: seq<Resize>)
    requires resizes != []
    ensures AtMost(Goal(claims, release, parse, resizes[..|resizes| - 1]), Goal(claims, release, parse, resizes))
  {
  }

  lemma {:induction false} GoalGrows(claims: Claims, release: string, parse: Parser, resizes: seq<Resize>, i: nat)
    requires i <= |resizes|
    ensures AtMost(Goal(claims, release, parse, resizes[..i]), Goal(claims, release, parse, resizes))
    decreases |resizes| - i
  {
    if i == |resizes| {
      assert resizes[..i] == resizes;
    } else {
      GoalGrows(claims, release, parse, resizes, i + 1);
      GoalStep(claims, release, parse, resizes[..i + 1]);
      assert resizes[..i + 1][..i] == resizes[..i];
    }
  }

  /** The largest size asked for one claim, 0 if none. */
  function Target(claims: Claims, release: string, parse: Parser, resizes: seq<Resize>, p: string): nat {
    if resizes == [] then 0
    else
      var last := resizes[|resizes| - 1];
      var before := Target(claims, release, parse, resizes[..|resizes| - 1], p);
      if p in ClaimsOf(claims, release, last) && parse(last.newSize).Some? then Max(before, parse(last.newSize).value)
      else before
  }

  /** A claim ends with the larger of its request and the largest size asked for it. */
  lemma {:induction false} GoalIsMaximum(
      claims: Claims, release: string, parse: Parser, resizes: seq<Resize>, p: string)
    requires p in claims
    ensures Goal(claims, release, parse, resizes)[p]
      == Max(claims[p].request, Target(claims, release, parse, resizes, p))
    decreases |resizes|
  {
    if resizes != [] {
      GoalIsMaximum(claims, release, parse, resizes[..|resizes| - 1], p);
    }
  }

  /** The goal is at least the request and every size asked, and is one of them. */
  lemma {:induction false} GoalIsReached(
    claims: Claims, release: string, parse: Parser, resizes: seq<Resize>, p: string)
    requires p in claims
    ensures var goal := Goal(claims, release, parse, resizes)[p];
      && claims[p].request <= goal
      && (forall r :: r in resizes && p in ClaimsOf(claims, release, r) && parse(r.newSize).Some? ==>
        parse(r.newSize).value <= goal)
      && (goal == claims[p].request
          || exists r :: r in resizes && p in ClaimsOf(claims, release, r) && parse(r.newSize) == Some(goal))
    decreases |resizes|
  {
    if resizes != [] {
      var before, last := resizes[..|resizes| - 1], resizes[|resizes| - 1];
      assert forall r :: r in resizes <==> r in before || r == last;
      GoalIsReached(claims, release, parse, before, p);
    }
  }

  lemma {:induction false} SameTarget(
      a: Claims, b: Claims, release: string, parse: Parser, resizes: seq<Resize>, p: string)
    requires SameLayout(a, b)
    ensures Target(a, release, parse, resizes, p) == Target(b, release, parse, resizes, p)
    decreases |resizes|
  {
    if resizes != [] {
      SameTarget(a, b, release, parse, resizes[..|resizes| - 1], p);
      SameClaimsOf(a, b, release, resizes[|resizes| - 1]);
    }
  }

  /** Wherever a resize stopped, running it again has the same goal as an uninterrupted run. */
  lemma RetryReachesSameRequests(a: Claims, b: Claims, release: string, parse: Parser, resizes: seq<Resize>)
    requires SameLayout(a, b)
    requires AtMost(Requests(a), Requests(b)) && AtMost(Requests(b), Goal(a, release, parse, resizes))
    ensures Goal(b, release, parse, resizes) == Goal(a, release, parse, resizes)
  {
    forall p | p in a ensures Goal(b, release, parse, resizes)[p] == Goal(a, release, parse, resizes)[p] {
      GoalIsMaximum(a, release, parse, resizes, p);
      GoalIsMaximum(b, release, parse, resizes, p);
      SameTarget(a, b, release, parse, resizes, p);
      assert Requests(a)[p] <= Requests(b)[p] <= Goal(a, release, parse, resizes)[p];
    }
  }

  // ----- what the order of calls has to respect -----

  /** `resolveStorageClassForExpansion`: the claim's own class, else the hint, else a default the server named. */
  ghost predicate ClassFor(seen: Claim, hint: string, c: string, before: seq<Event>) {
    if seen.storageClass != "" then c == seen.storageClass
    else if hint != "" then c == hint
    else SawDefault(c) in before
  }

  /** What a run of the protocol works on: the claims it finds, and the resizes asked of it. */
  datatype Job = Job(claims: Claims, release: string, parse: Parser, resizes: seq<Resize>)

  /** A resize of the job asks for this size of this claim. */
  predicate Asks(job: Job, r: Resize, claim: string, size: nat) {
    r in job.resizes && claim in ClaimsOf(job.claims, job.release, r) && job.parse(r.newSize) == Some(size)
  }

  /**
   A claim is raised to the size a resize asks of it, above a request that was seen,
   after the class that resize puts it in was seen to allow expansion.
   */
  ghost predicate RaiseJustified(before: seq<Event>, claim: string, to: nat, job: Job) {
    exists seen: Claim, r: Resize, c: string ::
      && SawClaim(claim, seen) in before && seen.request < to && Asks(job, r, claim, to)
      && ClassFor(seen, r.storageClass, c, before) && SawClass(c, true) in before
  }

  ghost predicate RaisesJustified(log: seq<Event>, job: Job) {
    forall i :: 0 <= i < |log| && log[i].Raised? ==> RaiseJustified(log[..i], log[i].claim, log[i].to, job)
  }

  /** The claim was seen grown at its final request, and no claim was raised since. */
  ghost predicate SeenGrown(log: seq<Event>, p: string, request: nat) {
    exists i :: 0 <= i < |log| && GrownAt(log, i, p, request)
  }

  ghost predicate GrownAt(log: seq<Event>, i: nat, p: string, request: nat)
    requires i < |log|
  {
    && log[i].SawClaim? && log[i].claim == p && log[i].seen.request == request
    && (log[i].seen.resizePending || (log[i].seen.capacity != 0 && log[i].seen.capacity >= request))
    && forall k :: i <= k < |log| ==> !log[k].Raised?
  }

  ghost predicate AllSeenGrown(log: seq<Event>, covered: set<string>, goal: map<string, nat>) {
    forall p :: p in covered ==> p in goal && SeenGrown(log, p, goal[p])
  }

  /** Before any StatefulSet goes, each of these claims was seen at its goal with its capacity or a resize pending. */
  ghost predicate DeletesAfterGrowth(log: seq<Event>, covered: set<string>, goal: map<string, nat>) {
    forall d, p :: 0 <= d < |log| && log[d].DeletedSet? && p in covered ==> p in goal && exists i ::
      && 0 <= i < d && log[i].SawClaim? && log[i].claim == p && log[i].seen.request == goal[p]
      && (log[i].seen.resizePending || (log[i].seen.capacity != 0 && log[i].seen.capacity >= goal[p]))
  }

  /** Which is what the deletes being justified means on the claims' own fields. */
  lemma DeletesFollowGrowth(log: seq<Event>, covered: set<string>, goal: map<string, nat>)
    requires DeletesJustified(log, covered, goal)
    ensures DeletesAfterGrowth(log, covered, goal)
  {
    forall d, p | 0 <= d < |log| && log[d].DeletedSet? && p in covered
      ensures p in goal && exists i ::
        && 0 <= i < d && log[i].SawClaim? && log[i].claim == p && log[i].seen.request == goal[p]
        && (log[i].seen.resizePending || (log[i].seen.capacity != 0 && log[i].seen.capacity >= goal[p]))
    {
      assert AllSeenGrown(log[..d], covered, goal) && SeenGrown(log[..d], p, goal[p]);
      var i :| 0 <= i < |log[..d]| && GrownAt(log[..d], i, p, goal[p]);
      assert log[..d][i] == log[i];
    }
  }

  ghost predicate DeletesJustified(log: seq<Event>, covered: set<string>, goal: map<string, nat>) {
    forall i :: 0 <= i < |log| && log[i].DeletedSet? ==> AllSeenGrown(log[..i], covered, goal)
  }

  // ----- why a run stops -----

  /** The calls of the patch phase. */
  predicate PatchCall(call: ApiCall) {
    call.ClaimRead? || call.ClaimList? || call.ClassRead? || call.ClassList? || call.RequestWrite?
  }

  /** A refused call, no claims for a component, or no class that is known to allow expansion. */
  ghost predicate StopsPatching(e: Event, job: Job) {
    match e
    case Refused(call) => PatchCall(call)
    case ListedClaims(component, names) => names == [] && exists r :: r in job.resizes && r.component == component
    case SawClass(_, allowExpansion) => !allowExpansion
    case NoClass(_) => true
    case NoDefault => true
    case _ => false
  }

  /** The last thing that happened is a reason to give up patching. */
  ghost predicate PatchStopped(more: seq<Event>, job: Job) {
    more != [] && StopsPatching(more[|more| - 1], job)
  }

  /** A claim was polled from one reading of the clock to another, past the time limit, and never seen grown. */
  ghost predicate TimeUp(more: seq<Event>, p: string) {
    && 2 <= |more| && more[|more| - 1].ReadClock? && more[|more| - 2].SawClaim?
    && exists i :: 0 <= i < |more| - 2 && PolledFrom(more, i, p)
  }

  ghost predicate PolledFrom(more: seq<Event>, i: nat, p: string)
    requires i < |more| && more[|more| - 1].ReadClock?
  {
    && more[i].ReadClock? && more[i].at + RESIZE_WAIT_TIMEOUT < more[|more| - 1].at
    && forall k :: i < k < |more| ==> PollEvent(more[k], p)
  }

  /** The claim was polled since `began`, and not seen grown. */
  ghost predicate Polled(more: seq<Event>, began: nat, p: string) {
    1 <= |more| && more[0] == ReadClock(began) && forall k :: 0 < k < |more| ==> PollEvent(more[k], p)
  }

  ghost predicate PollEvent(e: Event, p: string) {
    || e.ReadClock?
    || (e.SawClaim? && e.claim == p && !e.seen.resizePending
        && (e.seen.capacity == 0 || e.seen.capacity < e.seen.request))
  }

  /** The last thing that happened is a reason to give up waiting for this claim. */
  ghost predicate WaitStopped(more: seq<Event>, p: string) {
    more != [] && (more[|more| - 1] in {Refused(ClaimRead(p)), Refused(Pause)} || TimeUp(more, p))
  }

  /** The last thing that happened is a refused call, or a component without exactly one StatefulSet. */
  ghost predicate DeleteStopped(more: seq<Event>, components: set<string>) {
    more != [] && match more[|more| - 1]
      case Refused(SetList(component)) => component in components
      case Refused(SetDelete(_)) => true
      case ListedSets(component, names) => component in components && |names| != 1
      case _ => false
  }

  ghost predicate Quiet(e: Event) {
    !e.Raised? && !e.DeletedSet?
  }

  lemma RaisesJustifiedAppend(log: seq<Event>, e: Event, job: Job)
    requires RaisesJustified(log, job)
    requires e.Raised? ==> RaiseJustified(log, e.claim, e.to, job)
    ensures RaisesJustified(log + [e], job)
  {
    var log' := log + [e];
    forall i | 0 <= i < |log'| && log'[i].Raised? ensures RaiseJustified(log'[..i], log'[i].claim, log'[i].to, job) {
      assert log'[..i] == log[..i];
      if i == |log| {
        assert log[..i] == log;
      }
    }
  }

  lemma DeletesJustifiedAppend(log: seq<Event>, e: Event, covered: set<string>, goal: map<string, nat>)
    requires DeletesJustified(log, covered, goal)
    requires e.DeletedSet? ==> AllSeenGrown(log, covered, goal)
    ensures DeletesJustified(log + [e], covered, goal)
  {
    var log' := log + [e];
    forall i | 0 <= i < |log'| && log'[i].DeletedSet? ensures AllSeenGrown(log'[..i], covered, goal) {
      assert log'[..i] == log[..i];
      if i == |log| {
        assert log[..i] == log;
      }
    }
  }

  lemma AllSeenGrownAppend(log: seq<Event>, e: Event, covered: set<string>, goal: map<string, nat>)
    requires AllSeenGrown(log, covered, goal) && !e.Raised?
    ensures AllSeenGrown(log + [e], covered, goal)
  {
    forall p | p in covered ensures SeenGrown(log + [e], p, goal[p]) {
      var i :| 0 <= i < |log| && GrownAt(log, i, p, goal[p]);
      assert GrownAt(log + [e], i, p, goal[p]);
    }
  }

  ghost predicate AllQuiet(more: seq<Event>) {
    forall i :: 0 <= i < |more| ==> Quiet(more[i])
  }

  /** Calls that neither raise nor delete leave everything justified. */
  lemma {:induction false} QuietAppend(
      log: seq<Event>, more: seq<Event>, job: Job, covered: set<string>, goal: map<string, nat>)
    requires AllQuiet(more)
    ensures RaisesJustified(log, job) ==> RaisesJustified(log + more, job)
    ensures DeletesJustified(log, covered, goal) ==> DeletesJustified(log + more, covered, goal)
    ensures AllSeenGrown(log, covered, goal) ==> AllSeenGrown(log + more, covered, goal)
    decreases |more|
  {
    if more == [] {
      assert log + more == log;
    } else {
      var e, rest := more[0], more[1..];
      assert log + more == log + [e] + rest;
      assert Quiet(e);
      if RaisesJustified(log, job) {
        RaisesJustifiedAppend(log, e, job);
      }
      if DeletesJustified(log, covered, goal) {
        DeletesJustifiedAppend(log, e, covered, goal);
      }
      if AllSeenGrown(log, covered, goal) {
        AllSeenGrownAppend(log, e, covered, goal);
      }
      QuietAppend(log + [e], rest, job, covered, goal);
    }
  }

  ghost predicate NoDeletes(log: seq<Event>) {
    forall i :: 0 <= i < |log| ==> !log[i].DeletedSet?
  }

  // ----- the patch phase -----

  /** `componentPVCNames`. */
  method ComponentClaimNames(cluster: Cluster, release: string, r: Resize, ghost job: Job)
    returns (names: Answer<seq<string>>, ghost more: seq<Event>)
    requires r in job.resizes
    modifies cluster`claims, cluster`classes, cluster`clock, cluster`log
    ensures Drifts(old(cluster.claims), cluster.claims)
    ensures cluster.log == old(cluster.log) + more && AllQuiet(more)
    ensures !names.NotFound?
    ensures names.Found? ==> forall p :: p in names.value <==> p in ClaimsOf(cluster.claims, release, r)
    ensures names.Unavailable? || names.value == [] ==> PatchStopped(more, job)
  {
    more := [];
    if !r.stateful {
      var direct := release + "-" + r.component;
      var got := cluster.GetClaim(direct);
      more := [ClaimAnswer(direct, got)];
      if got.Found? {
        return Found([direct]), more;
      }
      if got.Unavailable? {
        return Unavailable, more;
      }
    }
    names := cluster.ListClaims(r.component);
    more := more + [ClaimsAnswer(r.component, names)];
  }

  /** `resolveStorageClassForExpansion`. */
  method ResolveClass(cluster: Cluster, seen: Claim, hint: string, ghost job: Job)
    returns (c: Option<string>, ghost more: seq<Event>)
    modifies cluster`claims, cluster`classes, cluster`clock, cluster`log
    ensures Drifts(old(cluster.claims), cluster.claims)
    ensures cluster.log == old(cluster.log) + more && AllQuiet(more)
    ensures c.Some? ==> ClassFor(seen, hint, c.value, more)
    ensures c.None? ==> PatchStopped(more, job)
  {
    more := [];
    if seen.storageClass != "" {
      return Some(seen.storageClass), more;
    }
    if hint != "" {
      return Some(hint), more;
    }
    var default := cluster.DefaultClass();
    more := [DefaultAnswer(default)];
    c := if default.Found? then Some(default.value) else None;
  }

  /** `ensureVolumeExpansionAllowed`, skipped for a class already checked. */
  method EnsureExpandable(cluster: Cluster, c: string, checked: set<string>, ghost job: Job)
    returns (ok: bool, checked': set<string>, ghost more: seq<Event>)
    modifies cluster`claims, cluster`classes, cluster`clock, cluster`log
    ensures Drifts(old(cluster.claims), cluster.claims)
    ensures cluster.log == old(cluster.log) + more && AllQuiet(more)
    ensures ok ==> c in checked' && checked' == checked + {c} && (c in checked || SawClass(c, true) in more)
    ensures !ok ==> checked' == checked && PatchStopped(more, job)
  {
    more, checked' := [], checked;
    if c in checked {
      assert checked + {c} == checked;
      return true, checked', more;
    }
    var class_ := cluster.GetClass(c);
    more := [ClassAnswer(c, class_)];
    if !class_.Found? || !class_.value.allowExpansion {
      return false, checked', more;
    }
    ok, checked' := true, checked + {c};
  }

  /** Where the patch phase stands: only requests have moved, to `want`, and every move so far was justified. */
  ghost predicate Patching(
    claims: Claims, log: seq<Event>, start: nat, job: Job, want: map<string, nat>, checked: set<string>)
  {
    && start <= |log|
    && SameLayout(job.claims, claims) && Requests(claims) == want
    && RaisesJustified(log[start..], job) && NoDeletes(log[start..])
    && forall c :: c in checked ==> SawClass(c, true) in log[start..]
  }

  /** Reading keeps the patch phase where it stands. */
  lemma PatchingQuiet(
    claims: Claims, log: seq<Event>, claims': Claims, log': seq<Event>, more: seq<Event>,
    start: nat, job: Job, want: map<string, nat>, checked: set<string>)
    requires Patching(claims, log, start, job, want, checked)
    requires Drifts(claims, claims') && log' == log + more && AllQuiet(more)
    ensures Patching(claims', log', start, job, want, checked)
    ensures log'[start..] == log[start..] + more
  {
    DriftKeepsRequests(job.claims, claims, claims', want);
    assert log'[start..] == log[start..] + more;
    QuietAppend(log[start..], more, job, {}, map[]);
    forall i | 0 <= i < |log'[start..]| ensures !log'[start..][i].DeletedSet? {
      if |log[start..]| <= i {
        assert log'[start..][i] == more[i - |log[start..]|];
      }
    }
  }

  lemma DriftKeepsRequests(before: Claims, a: Claims, b: Claims, want: map<string, nat>)
    requires SameLayout(before, a) && Requests(a) == want && Drifts(a, b)
    ensures SameLayout(before, b) && Requests(b) == want
  {
    forall p | p in b ensures b[p].request == want[p] {
      assert Requests(a)[p] == want[p];
    }
  }

  lemma UpdateMovesRequest(before: Claims, a: Claims, b: Claims, want: map<string, nat>, name: string, to: nat)
    requires SameLayout(before, a) && Requests(a) == want && name in a
    requires Drifts(a[name := a[name].(request := to)], b)
    ensures SameLayout(before, b) && Requests(b) == want[name := to]
  {
    var a' := a[name := a[name].(request := to)];
    assert a'.Keys == a.Keys;
    forall p | p in b ensures b[p].request == want[name := to][p] {
      assert Requests(a)[p] == want[p];
    }
  }

  /** A justified raise moves the patch phase on by one request. */
  lemma PatchingRaised(
    claims: Claims, log: seq<Event>, claims': Claims, log': seq<Event>,
    start: nat, job: Job, want: map<string, nat>, checked: set<string>, name: string, size: nat)
    requires Patching(claims, log, start, job, want, checked) && name in claims
    requires Drifts(claims[name := claims[name].(request := size)], claims') && log' == log + [Raised(name, size)]
    requires RaiseJustified(log[start..], name, size, job)
    ensures Patching(claims', log', start, job, want[name := size], checked)
  {
    UpdateMovesRequest(job.claims, claims, claims', want, name, size);
    assert log'[start..] == log[start..] + [Raised(name, size)];
    RaisesJustifiedAppend(log[start..], Raised(name, size), job);
  }

  ghost function Tried(log: seq<Event>, name: string, size: nat, written: bool): seq<Event> {
    log + if written then [Raised(name, size)] else []
  }

  /** A write that is justified keeps the patch phase going, made or not. */
  lemma PatchingTried(
    claims: Claims, log: seq<Event>, claims': Claims,
    start: nat, job: Job, want: map<string, nat>, checked: set<string>, name: string, size: nat, written: bool)
    requires Patching(claims, log, start, job, want, checked) && (written ==> name in claims)
    requires Drifts(if written then claims[name := claims[name].(request := size)] else claims, claims')
    requires RaiseJustified(log[start..], name, size, job)
    ensures Patching(claims', Tried(log, name, size, written), start, job,
      if written then want[name := size] else want, checked)
  {
    if written {
      PatchingRaised(claims, log, claims', log + [Raised(name, size)], start, job, want, checked, name, size);
    } else {
      assert log + [] == log;
      DriftKeepsRequests(job.claims, claims, claims', want);
    }
  }

  /** A refused call ends it. */
  lemma PatchingRefused(
    claims: Claims, log: seq<Event>, log': seq<Event>,
    start: nat, job: Job, want: map<string, nat>, checked: set<string>, call: ApiCall)
    requires Patching(claims, log, start, job, want, checked) && log' == log + [Refused(call)] && PatchCall(call)
    ensures Patching(claims, log', start, job, want, checked) && PatchStopped(log'[start..], job)
  {
    PatchingQuiet(claims, log, claims, log', [Refused(call)], start, job, want, checked);
    assert log'[start..][|log'[start..]| - 1] == Refused(call);
  }

  /** `patchPVCSize` on a claim as it was read. */
  method PatchClaim(
    cluster: Cluster, name: string, seen: Claim, size: nat,
    ghost start: nat, ghost job: Job, ghost want: map<string, nat>, ghost checked: set<string>)
    returns (ok: bool, ghost want': map<string, nat>)
    requires Patching(cluster.claims, cluster.log, start, job, want, checked)
    requires name in want && want[name] == seen.request
    requires seen.request < size ==> RaiseJustified(cluster.log[start..], name, size, job)
    modifies cluster`claims, cluster`classes, cluster`clock, cluster`log
    ensures Patching(cluster.claims, cluster.log, start, job, want', checked)
    ensures MovedAtMost(want, want', name, size, ok)
    ensures old(cluster.log) <= cluster.log
    ensures !ok ==> PatchStopped(cluster.log[start..], job)
  {
    want' := want;
    if seen.request >= size {
      return true, want';
    }
    ghost var written;
    ok, written := cluster.UpdateRequest(name, size);
    if written {
      want' := want[name := size];
    }
    ghost var tried := Tried(old(cluster.log), name, size, written);
    PatchingTried(old(cluster.claims), old(cluster.log), cluster.claims, start,
      job, want, checked, name, size, written);
    if ok {
      assert cluster.log == tried;
    } else {
      assert cluster.log == tried + [Refused(RequestWrite(name, size))];
      PatchingRefused(cluster.claims, tried, cluster.log, start, job, want', checked, RequestWrite(name, size));
    }
  }

  /** The request of one claim has moved to the size or, when something failed, perhaps not. */
  ghost predicate MovedAtMost(want: map<string, nat>, want': map<string, nat>, name: string, size: nat, ok: bool)
    requires name in want
  {
    want' == want[name := Max(want[name], size)] || (!ok && want' == want)
  }

  /** What the three checks add up to. */
  lemma Cleared(
    log0: seq<Event>, log1: seq<Event>, log2: seq<Event>, more: seq<Event>, more': seq<Event>,
    name: string, seen: Claim, r: Resize, c: string, size: nat, job: Job, checked: set<string>)
    requires log1 == log0 + more && log2 == log1 + more'
    requires SawClaim(name, seen) in log0 && Asks(job, r, name, size) && ClassFor(seen, r.storageClass, c, more)
    requires forall k :: k in checked ==> SawClass(k, true) in log1
    requires c in checked || SawClass(c, true) in more'
    ensures forall k :: k in checked + {c} ==> SawClass(k, true) in log2
    ensures seen.request < size ==> RaiseJustified(log2, name, size, job)
  {
    assert SawClass(c, true) in log2;
    assert SawClaim(name, seen) in log2;
    assert ClassFor(seen, r.storageClass, c, log2);
  }

  /** Finds the class of a claim that was read and makes sure it allows expansion. */
  method ClearClass(
    cluster: Cluster, name: string, seen: Claim, r: Resize, size: nat, checked: set<string>,
    ghost start: nat, ghost job: Job, ghost want: map<string, nat>)
    returns (ok: bool, checked': set<string>)
    requires Patching(cluster.claims, cluster.log, start, job, want, checked) && Asks(job, r, name, size)
    requires SawClaim(name, seen) in cluster.log[start..]
    modifies cluster`claims, cluster`classes, cluster`clock, cluster`log
    ensures Patching(cluster.claims, cluster.log, start, job, want, checked')
    ensures old(cluster.log) <= cluster.log
    ensures ok && seen.request < size ==> RaiseJustified(cluster.log[start..], name, size, job)
    ensures !ok ==> PatchStopped(cluster.log[start..], job)
  {
    checked' := checked;
    ghost var log0 := cluster.log[start..];
    var c, more := ResolveClass(cluster, seen, r.storageClass, job);
    PatchingQuiet(old(cluster.claims), old(cluster.log), cluster.claims, cluster.log, more, start, job, want, checked);
    if c.None? {
      return false, checked';
    }
    ghost var claims1, log1 := cluster.claims, cluster.log;
    ghost var more';
    ok, checked', more' := EnsureExpandable(cluster, c.value, checked, job);
    PatchingQuiet(claims1, log1, cluster.claims, cluster.log, more', start, job, want, checked);
    if ok {
      Cleared(log0, log1[start..], cluster.log[start..], more, more', name, seen, r, c.value, size, job, checked);
    }
  }

  /** The body of the inner loop: read a claim, check its class, patch it. */
  method PatchOne(
    cluster: Cluster, name: string, r: Resize, size: nat, checked: set<string>,
    ghost start: nat, ghost job: Job, ghost want: map<string, nat>)
    returns (ok: bool, checked': set<string>, ghost want': map<string, nat>)
    requires Patching(cluster.claims, cluster.log, start, job, want, checked) && Asks(job, r, name, size)
      && name in want
    modifies cluster`claims, cluster`classes, cluster`clock, cluster`log
    ensures Patching(cluster.claims, cluster.log, start, job, want', checked')
    ensures MovedAtMost(want, want', name, size, ok)
    ensures old(cluster.log) <= cluster.log
    ensures !ok ==> PatchStopped(cluster.log[start..], job)
  {
    checked', want' := checked, want;
    var got := cluster.GetClaim(name);
    ghost var more := [ClaimAnswer(name, got)];
    PatchingQuiet(old(cluster.claims), old(cluster.log), cluster.claims, cluster.log, more, start, job, want, checked);
    assert name in cluster.claims;
    if !got.Found? {
      ok := false;
      return;
    }
    assert want[name] == got.value.request by {
      assert Requests(cluster.claims)[name] == got.value.request;
    }
    ok, checked' := ClearClass(cluster, name, got.value, r, size, checked, start, job, want);
    if !ok {
      return;
    }
    ok, want' := PatchClaim(cluster, name, got.value, size, start, job, want, checked');
  }

  /** The inner loop: every claim of one component. */
  method PatchComponent(
    cluster: Cluster, names: seq<string>, r: Resize, size: nat, checked: set<string>,
    ghost start: nat, ghost job: Job, ghost want: map<string, nat>)
    returns (ok: bool, checked': set<string>, ghost want': map<string, nat>)
    requires Patching(cluster.claims, cluster.log, start, job, want, checked)
    requires forall p :: p in names ==> p in want && Asks(job, r, p, size)
    modifies cluster`claims, cluster`classes, cluster`clock, cluster`log
    ensures Patching(cluster.claims, cluster.log, start, job, want', checked')
    ensures AtMost(want, want') && AtMost(want', Raise(want, Members(names), size))
    ensures ok ==> want' == Raise(want, Members(names), size)
    ensures old(cluster.log) <= cluster.log
    ensures !ok ==> PatchStopped(cluster.log[start..], job)
  {
    ok, checked', want' := true, checked, want;
    for j := 0 to |names|
      invariant Patching(cluster.claims, cluster.log, start, job, want', checked')
      invariant want'.Keys == want.Keys
      invariant forall p :: p in want ==> want'[p] == if p in names[..j] then Max(want[p], size) else want[p]
      invariant old(cluster.log) <= cluster.log
    {
      assert names[..j + 1] == names[..j] + [names[j]];
      ok, checked', want' := PatchOne(cluster, names[j], r, size, checked', start, job, want');
      if !ok {
        return;
      }
    }
    assert names[..|names|] == names;
    assert want' == Raise(want, Members(names), size);
    ok := true;
  }

  /** The body of the outer loop: one component, given the resizes `earlier` already patched. */
  method PatchResize(
    cluster: Cluster, release: string, r: Resize, parse: Parser, checked: set<string>,
    ghost start: nat, ghost job: Job, ghost want: map<string, nat>, ghost earlier: seq<Resize>)
    returns (failure: Option<Result>, names: seq<string>, checked': set<string>, ghost want': map<string, nat>)
    requires Patching(cluster.claims, cluster.log, start, job, want, checked)
    requires job.release == release && job.parse == parse && r in job.resizes
    requires want == Goal(job.claims, release, parse, earlier)
    modifies cluster`claims, cluster`classes, cluster`clock, cluster`log
    ensures old(cluster.log) <= cluster.log
    ensures Patching(cluster.claims, cluster.log, start, job, want', checked')
    ensures AtMost(want, want') && AtMost(want', Goal(job.claims, release, parse, earlier + [r]))
    ensures failure.None? ==> want' == Goal(job.claims, release, parse, earlier + [r])
    ensures failure.None? ==> Members(names) == ClaimsOf(job.claims, release, r)
    ensures failure.Some? ==>
      || (failure.value == PatchFailed && PatchStopped(cluster.log[start..], job))
      || (failure.value == BadSize && parse(r.newSize).None?)
  {
    failure, names, checked', want' := None, [], checked, want;
    assert (earlier + [r])[..|earlier|] == earlier;
    GoalStep(job.claims, release, parse, earlier + [r]);
    var size := parse(r.newSize);
    if size.None? {
      failure := Some(BadSize);
      return;
    }
    var listed, more := ComponentClaimNames(cluster, release, r, job);
    PatchingQuiet(old(cluster.claims), old(cluster.log), cluster.claims, cluster.log, more,
      start, job, want, checked);
    if listed.Unavailable? || |listed.value| == 0 {
      failure := Some(PatchFailed);
      return;
    }
    names := listed.value;
    SameClaimsOf(job.claims, cluster.claims, release, r);
    assert Members(names) == ClaimsOf(job.claims, release, r);
    var ok;
    ok, checked', want' := PatchComponent(cluster, names, r, size.value, checked, start, job, want);
    if !ok {
      failure := Some(PatchFailed);
    }
  }

  /** The patch phase: every claim of every component, in order. Stops at the first failure. */
  method PatchAll(cluster: Cluster, release: string, resizes: seq<Resize>, parse: Parser)
    returns (failure: Option<Result>, patched: seq<string>, stateful: seq<string>, ghost want: map<string, nat>)
    modifies cluster`claims, cluster`classes, cluster`clock, cluster`log
    ensures old(cluster.log) <= cluster.log
    ensures Patching(cluster.claims, cluster.log, |old(cluster.log)|,
      Job(old(cluster.claims), release, parse, resizes), want, {})
    ensures AtMost(Requests(old(cluster.claims)), want)
    ensures AtMost(want, Goal(old(cluster.claims), release, parse, resizes))
    ensures failure.None? ==> want == Goal(old(cluster.claims), release, parse, resizes)
    ensures failure.None? ==> Listed(patched, stateful, old(cluster.claims), release, resizes)
    ensures failure.Some? ==>
      || (failure.value == PatchFailed
          && PatchStopped(cluster.log[|old(cluster.log)|..], Job(old(cluster.claims), release, parse, resizes)))
      || (failure.value == BadSize && exists r :: r in resizes && parse(r.newSize).None?)
  {
    ghost var start, before := |cluster.log|, cluster.claims;
    ghost var job := Job(before, release, parse, resizes);
    var checked: set<string> := {};
    failure, patched, stateful := None, [], [];
    want := Requests(before);
    for i := 0 to |resizes|
      invariant old(cluster.log) <= cluster.log
      invariant Patching(cluster.claims, cluster.log, start, job, want, checked)
      invariant want == Goal(before, release, parse, resizes[..i])
      invariant Listed(patched, stateful, before, release, resizes[..i])
      invariant failure.None?
    {
      var r := resizes[i];
      assert resizes[..i + 1] == resizes[..i] + [r];
      assert resizes[..i + 1][..i] == resizes[..i];
      GoalGrows(before, release, parse, resizes[..i], 0);
      GoalGrows(before, release, parse, resizes, i + 1);
      var names;
      failure, names, checked, want := PatchResize(cluster, release, r, parse, checked, start, job, want, resizes[..i]);
      if failure.Some? {
        return;
      }
      ListedNext(patched, stateful, before, release, resizes[..i], r, names);
      patched := patched + names;
      if r.stateful {
        stateful := stateful + [r.component];
      }
    }
    assert resizes[..|resizes|] == resizes;
    GoalGrows(before, release, parse, resizes, 0);
  }

  lemma MembersAppend(a: seq<string>, b: seq<string>)
    ensures Members(a + b) == Members(a) + Members(b)
    ensures forall x :: b == [x] ==> Members(b) == {x}
  {
  }

  /** The claims patched and the components to recreate, for the resizes done. */
  ghost predicate Listed(
      patched: seq<string>, stateful: seq<string>, claims: Claims, release: string, resizes: seq<Resize>) {
    Members(patched) == Covered(claims, release, resizes) && Members(stateful) == StatefulComponents(resizes)
  }

  lemma ListedNext(
    patched: seq<string>, stateful: seq<string>, claims: Claims, release: string, resizes: seq<Resize>,
    r: Resize, names: seq<string>)
    requires Listed(patched, stateful, claims, release, resizes) && Members(names) == ClaimsOf(claims, release, r)
    ensures Listed(
      patched + names, if r.stateful then stateful + [r.component] else stateful, claims, release, resizes + [r])
  {
    CoveredStep(claims, release, resizes, r);
    MembersAppend(patched, names);
    MembersAppend(stateful, [r.component]);
  }

  lemma CoveredStep(claims: Claims, release: string, resizes: seq<Resize>, r: Resize)
    ensures Covered(claims, release, resizes + [r]) == Covered(claims, release, resizes) + ClaimsOf(claims, release, r)
    ensures StatefulComponents(resizes + [r])
      == StatefulComponents(resizes) + (if r.stateful then {r.component} else {})
  {
    assert forall q :: q in resizes + [r] <==> q in resizes || q == r;
  }

  // ----- the wait phase -----

  /** `waitForPVCExpansion`: polls until the claim has grown, the time is up, or a call fails. */
  method WaitForExpansion(cluster: Cluster, name: string) returns (ok: bool, ghost more: seq<Event>)
    requires name in cluster.claims
    modifies cluster`claims, cluster`classes, cluster`clock, cluster`log
    ensures Drifts(old(cluster.claims), cluster.claims)
    ensures cluster.log == old(cluster.log) + more && AllQuiet(more)
    ensures ok ==> name in cluster.claims && more != [] && more[|more| - 1] == SawClaim(name, cluster.claims[name])
    ensures ok ==> var c := cluster.claims[name]; c.resizePending || (c.capacity != 0 && c.capacity >= c.request)
    // The time can only be up on a claim that no poll saw grown.
    ensures !ok ==> WaitStopped(more, name)
    ensures !ok ==> forall k :: 0 <= k < |more| && more[k].SawClaim? ==>
      !more[k].seen.resizePending && (more[k].seen.capacity == 0 || more[k].seen.capacity < more[k].seen.request)
  {
    var began := cluster.Now();
    var deadline := began + RESIZE_WAIT_TIMEOUT;
    more := [ReadClock(began)];
    while true
      invariant Drifts(old(cluster.claims), cluster.claims)
      invariant cluster.log == old(cluster.log) + more && AllQuiet(more)
      invariant Polled(more, began, name)
      decreases if cluster.clock <= deadline then deadline - cluster.clock + 1 else 0
    {
      var got := cluster.GetClaim(name);
      more := more + [ClaimAnswer(name, got)];
      if !got.Found? {
        return false, more;
      }
      var claim := got.value;
      if claim.capacity != 0 && claim.capacity >= claim.request {
        return true, more;
      }
      if claim.resizePending {
        return true, more;
      }
      var now := cluster.Now();
      more := more + [ReadClock(now)];
      assert Polled(more, began, name);
      if now > deadline {
        assert PolledFrom(more, 0, name);
        return false, more;
      }
      ok := cluster.Tick();
      if !ok {
        more := more + [Refused(Pause)];
        return false, more;
      }
    }
  }

  lemma SeenGrownNow(log: seq<Event>, more: seq<Event>, p: string, c: Claim)
    requires more != [] && more[|more| - 1] == SawClaim(p, c)
    requires c.resizePending || (c.capacity != 0 && c.capacity >= c.request)
    ensures SeenGrown(log + more, p, c.request)
  {
    assert GrownAt(log + more, |log + more| - 1, p, c.request);
  }

  lemma WaitStoppedLater(before: seq<Event>, more: seq<Event>, p: string)
    requires WaitStopped(more, p)
    ensures WaitStopped(before + more, p)
  {
    var log := before + more;
    assert log[|log| - 1] == more[|more| - 1];
    if TimeUp(more, p) {
      var i :| 0 <= i < |more| - 2 && PolledFrom(more, i, p);
      assert log[|log| - 2] == more[|more| - 2];
      forall k | |before| + i < k < |log| ensures PollEvent(log[k], p) {
        assert log[k] == more[k - |before|];
      }
      assert PolledFrom(log, |before| + i, p);
    }
  }

  /** The wait phase: every patched claim, in order. */
  method WaitAll(
    cluster: Cluster, patched: seq<string>,
    ghost start: nat, ghost job: Job, ghost want: map<string, nat>, ghost covered: set<string>)
    returns (ok: bool)
    requires Patching(cluster.claims, cluster.log, start, job, want, {})
    requires Members(patched) == covered && covered <= want.Keys
    modifies cluster`claims, cluster`classes, cluster`clock, cluster`log
    ensures Patching(cluster.claims, cluster.log, start, job, want, {})
    ensures old(cluster.log) <= cluster.log
    ensures ok ==> AllSeenGrown(cluster.log[start..], covered, want)
    ensures !ok ==> exists p :: p in covered && WaitStopped(cluster.log[start..], p)
  {
    ghost var done := {};
    for w := 0 to |patched|
      invariant Patching(cluster.claims, cluster.log, start, job, want, {})
      invariant old(cluster.log) <= cluster.log
      invariant forall p :: p in done <==> p in patched[..w]
      invariant AllSeenGrown(cluster.log[start..], done, want)
    {
      assert patched[..w + 1] == patched[..w] + [patched[w]];
      label poll:
      assert patched[w] in covered;
      ghost var more;
      ok, more := WaitForExpansion(cluster, patched[w]);
      PatchingQuiet(old@poll(cluster.claims), old@poll(cluster.log), cluster.claims, cluster.log, more,
        start, job, want, {});
      if !ok {
        WaitStoppedLater(old@poll(cluster.log)[start..], more, patched[w]);
        return;
      }
      QuietAppend(old@poll(cluster.log)[start..], more, job, done, want);
      SeenGrownNow(old@poll(cluster.log)[start..], more, patched[w], cluster.claims[patched[w]]);
      assert Requests(cluster.claims)[patched[w]] == want[patched[w]];
      done := done + {patched[w]};
    }
    assert patched[..|patched|] == patched;
    assert done == covered;
    ok := true;
  }

  // ----- the delete phase -----

  ghost predicate NoRaises(more: seq<Event>) {
    forall i :: 0 <= i < |more| ==> !more[i].Raised?
  }

  function Without(sets: map<string, string>, components: set<string>): map<string, string> {
    map s | s in sets && sets[s] !in components :: sets[s]
  }

  /** Once all is done the StatefulSets left are those of no component with a stateful resize. */
  lemma SetsLeft(sets: map<string, string>, resizes: seq<Resize>, s: string)
    ensures s in Without(sets, StatefulComponents(resizes))
      <==> s in sets && forall r :: r in resizes && r.stateful ==> r.component != sets[s]
  {
  }

  /** The StatefulSets left when some of the components, in order, have lost theirs. */
  ghost predicate SomeDeleted(before: map<string, string>, after: map<string, string>, components: seq<string>) {
    exists k :: 0 <= k <= |components| && after == Without(before, Members(components[..k]))
  }

  /** One component: it must have exactly one StatefulSet when its turn comes. */
  method DeleteOne(cluster: Cluster, component: string)
    returns (ok: bool, ghost gone: set<string>, ghost more: seq<Event>)
    modifies cluster`claims, cluster`classes, cluster`clock, cluster`sets, cluster`log
    ensures Drifts(old(cluster.claims), cluster.claims)
    ensures cluster.log == old(cluster.log) + more && NoRaises(more)
    ensures cluster.sets == Without(old(cluster.sets), gone) && gone <= {component} && (ok ==> gone == {component})
    ensures !ok ==> DeleteStopped(more, {component})
  {
    var listed := cluster.ListSets(component);
    more, gone := [SetsAnswer(component, listed)], {};
    assert cluster.sets == Without(cluster.sets, {});
    if listed.Unavailable? || |listed.value| != 1 {
      return false, gone, more;
    }
    var name := listed.value[0];
    assert cluster.sets - {name} == Without(cluster.sets, {component}) by {
      OnlyOne(listed.value, name);
    }
    ghost var deleted;
    ok, deleted := cluster.DeleteSet(name);
    more := more + (if deleted then [DeletedSet(name)] else []) + if ok then [] else [Refused(SetDelete(name))];
    gone := if deleted then {component} else {};
  }

  /** `orphanDeleteStatefulSets`: the components in order; stops at the first that fails. */
  method OrphanDelete(cluster: Cluster, components: seq<string>) returns (ok: bool, ghost more: seq<Event>)
    modifies cluster`claims, cluster`classes, cluster`clock, cluster`sets, cluster`log
    ensures Drifts(old(cluster.claims), cluster.claims)
    ensures cluster.log == old(cluster.log) + more && NoRaises(more)
    ensures ok ==> cluster.sets == Without(old(cluster.sets), Members(components))
    ensures SomeDeleted(old(cluster.sets), cluster.sets, components)
    ensures !ok ==> DeleteStopped(more, Members(components))
  {
    more := [];
    assert Without(cluster.sets, Members(components[..0])) == cluster.sets;
    for k := 0 to |components|
      invariant Drifts(old(cluster.claims), cluster.claims)
      invariant cluster.log == old(cluster.log) + more && NoRaises(more)
      invariant cluster.sets == Without(old(cluster.sets), Members(components[..k]))
    {
      assert components[..k + 1] == components[..k] + [components[k]];
      ghost var gone, next;
      ok, gone, next := DeleteOne(cluster, components[k]);
      more := more + next;
      WithoutBoth(old(cluster.sets), Members(components[..k]), gone);
      if !ok {
        assert gone == {} || gone == {components[k]};
        assert Members(components[..k]) + gone == Members(components[..if gone == {} then k else k + 1]);
        return;
      }
    }
    assert components[..|components|] == components;
    ok := true;
  }

  lemma WithoutBoth(sets: map<string, string>, a: set<string>, b: set<string>)
    ensures Without(Without(sets, a), b) == Without(sets, a + b)
  {
  }

  lemma OnlyOne(names: seq<string>, name: string)
    requires |names| == 1 && name in names
    ensures forall s :: s in names <==> s == name
  {
  }

  lemma {:induction false} DeletesAppend(
      log: seq<Event>, more: seq<Event>, job: Job, covered: set<string>, goal: map<string, nat>)
    requires RaisesJustified(log, job) && DeletesJustified(log, covered, goal)
    requires NoRaises(more) && AllSeenGrown(log, covered, goal)
    ensures RaisesJustified(log + more, job) && DeletesJustified(log + more, covered, goal)
    ensures AllSeenGrown(log + more, covered, goal)
    decreases |more|
  {
    if more == [] {
      assert log + more == log;
    } else {
      var e, rest := more[0], more[1..];
      assert log + more == log + [e] + rest;
      RaisesJustifiedAppend(log, e, job);
      DeletesJustifiedAppend(log, e, covered, goal);
      AllSeenGrownAppend(log, e, covered, goal);
      DeletesAppend(log + [e], rest, job, covered, goal);
    }
  }

  lemma DeleteStoppedLater(before: seq<Event>, more: seq<Event>, components: set<string>)
    requires DeleteStopped(more, components)
    ensures DeleteStopped(before + more, components)
  {
    assert (before + more)[|before + more| - 1] == more[|more| - 1];
  }

  lemma TailAppend(log: seq<Event>, more: seq<Event>, start: nat)
    requires start <= |log|
    ensures (log + more)[start..] == log[start..] + more
  {
  }

  lemma SomeGone(before: map<string, string>, after: map<string, string>, components: seq<string>)
    requires SomeDeleted(before, after, components)
    ensures exists gone :: gone <= Members(components) && after == Without(before, gone)
  {
    var k :| 0 <= k <= |components| && after == Without(before, Members(components[..k]));
    assert Members(components[..k]) <= Members(components);
  }

  // ----- the whole protocol -----

  /** `resizeVolumes`, whatever the cluster does meanwhile and whichever calls fail. */
  method ResizeVolumes(cluster: Cluster, release: string, resizes: seq<Resize>, parse: Parser) returns (result: Result)
    modifies cluster
    ensures old(cluster.log) <= cluster.log
    // No request falls, and none passes what was asked for.
    ensures SameLayout(old(cluster.claims), cluster.claims)
    ensures AtMost(Requests(old(cluster.claims)), Requests(cluster.claims))
    ensures AtMost(Requests(cluster.claims), Goal(old(cluster.claims), release, parse, resizes))
    ensures result in {Resized, WaitFailed, DeleteFailed} ==>
      Requests(cluster.claims) == Goal(old(cluster.claims), release, parse, resizes)
    // Every raise and every delete was justified when it was made.
    ensures RaisesJustified(cluster.log[|old(cluster.log)|..], Job(old(cluster.claims), release, parse, resizes))
    ensures DeletesJustified(cluster.log[|old(cluster.log)|..],
      Covered(old(cluster.claims), release, resizes), Goal(old(cluster.claims), release, parse, resizes))
    ensures result in {Resized, DeleteFailed} ==> AllSeenGrown(cluster.log[|old(cluster.log)|..],
      Covered(old(cluster.claims), release, resizes), Goal(old(cluster.claims), release, parse, resizes))
    // The StatefulSets: untouched before the delete phase, gone after it.
    ensures result in {BadSize, PatchFailed, WaitFailed} ==> cluster.sets == old(cluster.sets)
    ensures result == Resized ==> cluster.sets == Without(old(cluster.sets), StatefulComponents(resizes))
    ensures exists gone :: gone <= StatefulComponents(resizes) && cluster.sets == Without(old(cluster.sets), gone)
    // Every failure has its reason, and is reported at once.
    ensures result == BadSize ==> exists r :: r in resizes && parse(r.newSize).None?
    ensures result == PatchFailed ==>
      PatchStopped(cluster.log[|old(cluster.log)|..], Job(old(cluster.claims), release, parse, resizes))
    ensures result == WaitFailed ==> exists p ::
      p in Covered(old(cluster.claims), release, resizes) && WaitStopped(cluster.log[|old(cluster.log)|..], p)
    ensures result == DeleteFailed ==> DeleteStopped(cluster.log[|old(cluster.log)|..], StatefulComponents(resizes))
  {
    ghost var start, before, sets := |cluster.log|, cluster.claims, cluster.sets;
    ghost var job := Job(before, release, parse, resizes);
    ghost var covered, goal := Covered(before, release, resizes), Goal(before, release, parse, resizes);
    assert Without(sets, {}) == sets;
    if |resizes| == 0 {
      assert StatefulComponents(resizes) == {};
      return Resized;
    }
    var failure, patched, stateful, want := PatchAll(cluster, release, resizes, parse);
    assert DeletesJustified(cluster.log[start..], covered, goal);
    if failure.Some? {
      return failure.value;
    }
    var ok := WaitAll(cluster, patched, start, job, want, covered);
    assert DeletesJustified(cluster.log[start..], covered, goal);
    if !ok {
      return WaitFailed;
    }
    label delete:
    ghost var more;
    ok, more := OrphanDelete(cluster, stateful);
    DriftKeepsRequests(before, old@delete(cluster.claims), cluster.claims, want);
    TailAppend(old@delete(cluster.log), more, start);
    DeletesAppend(old@delete(cluster.log)[start..], more, job, covered, goal);
    if !ok {
      DeleteStoppedLater(old@delete(cluster.log)[start..], more, StatefulComponents(resizes));
    }
    SomeGone(sets, cluster.sets, stateful);
    result := if ok then Resized else DeleteFailed;
  }

  /**
   A resize and its retry: once the retry gets past the patch phase, the requests
   are those of one uninterrupted run; and when the first attempt failed before the
   delete phase, so is what a successful retry leaves of the StatefulSets.
   */
  method ResizeAndRetry(
      cluster: Cluster, release: string, resizes: seq<Resize>, parse: Parser) returns (first: Result, second: Result)
    modifies cluster
    ensures SameLayout(old(cluster.claims), cluster.claims)
    ensures second in {Resized, WaitFailed, DeleteFailed} ==>
      Requests(cluster.claims) == Goal(old(cluster.claims), release, parse, resizes)
    ensures first in {BadSize, PatchFailed, WaitFailed} && second == Resized ==>
      cluster.sets == Without(old(cluster.sets), StatefulComponents(resizes))
  {
    first := ResizeVolumes(cluster, release, resizes, parse);
    RetryReachesSameRequests(old(cluster.claims), cluster.claims, release, parse, resizes);
    second := ResizeVolumes(cluster, release, resizes, parse);
  }
}
