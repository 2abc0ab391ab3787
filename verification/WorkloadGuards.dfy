/**
 The deploy-time rules about a previous release, and the volume resizes they
 let through.
 */
module WorkloadGuards {
  import opened Names
  import opened Wrappers
  import opened Environments
  import opened VolumeResize

  datatype Role = Service | Worker

  /** The part of a component the rules look at; `size` is absent when the component has no persistence. */
  datatype Workload = Workload(stateful: bool, role: Role, size: Option<string>, environments: seq<string>)

  /** What the previous release recorded for a component; any entry may be missing or empty. */
  datatype Previous = Previous(workloadKind: string, role: string, persistenceSize: string)

  datatype GuardError =
    | KindChange(component: string)
    | RoleChange(component: string)
    | PersistenceAdded(component: string)
    | PersistenceRemoved(component: string)
    | BadQuantity(component: string)
    | SizeDecrease(component: string)

  function KindName(w: Workload): string {
    if w.stateful then "StatefulSet" else "Deployment"
  }

  function RoleName(role: Role): string {
    if role.Service? then "service" else "worker"
  }

  /** An empty recorded role means service. */
  function PreviousRole(p: Previous): string {
    if p.role == "" then "service" else p.role
  }

  datatype Comparison = Incomparable | Decreased | NotDecreased

  /** `persistenceSizeDecreased`. */
  function CompareSizes(parse: Parser, prev: string, next: string): Comparison {
    match (parse(prev), parse(next))
    case (Some(p), Some(n)) => if n < p then Decreased else NotDecreased
    case _ => Incomparable
  }

  /** A component the rules apply to: active in the environment and part of the previous release. */
  predicate Compared(workloads: map<string, Workload>, env: string, prev: map<string, Previous>, name: string) {
    name in workloads && ActiveIn(workloads[name].environments, env) && name in prev
  }

  /** What each error says about a component and its previous self. */
  predicate IsViolationOf(w: Workload, p: Previous, parse: Parser, e: GuardError) {
    var either := w.stateful || p.workloadKind == "StatefulSet";
    var both := w.size.Some? && p.persistenceSize != "";
    match e
    case KindChange(_) => p.workloadKind != "" && p.workloadKind != KindName(w)
    case RoleChange(_) => PreviousRole(p) != RoleName(w.role)
    case PersistenceAdded(_) => either && p.persistenceSize == "" && w.size.Some?
    case PersistenceRemoved(_) => either && p.persistenceSize != "" && w.size.None?
    case BadQuantity(_) => both && CompareSizes(parse, p.persistenceSize, w.size.value).Incomparable?
    case SizeDecrease(_) => both && CompareSizes(parse, p.persistenceSize, w.size.value).Decreased?
  }

  predicate IsViolation(
      workloads: map<string, Workload>, env: string, prev: map<string, Previous>, parse: Parser, e: GuardError) {
    && Compared(workloads, env, prev, e.component)
    && IsViolationOf(workloads[e.component], prev[e.component], parse, e)
  }

  /** What each error says on the fields themselves. */
  lemma ViolationFields(w: Workload, p: Previous, parse: Parser, name: string)
    ensures IsViolationOf(w, p, parse, KindChange(name)) <==>
      p.workloadKind != "" && (w.stateful ==> p.workloadKind != "StatefulSet")
      && (!w.stateful ==> p.workloadKind != "Deployment")
    ensures IsViolationOf(w, p, parse, RoleChange(name)) <==>
      (w.role == Service && p.role != "" && p.role != "service") || (w.role == Worker && p.role != "worker")
    ensures IsViolationOf(w, p, parse, PersistenceAdded(name)) <==>
      (w.stateful || p.workloadKind == "StatefulSet") && p.persistenceSize == "" && w.size.Some?
    ensures IsViolationOf(w, p, parse, PersistenceRemoved(name)) <==>
      (w.stateful || p.workloadKind == "StatefulSet") && p.persistenceSize != "" && w.size.None?
    ensures IsViolationOf(w, p, parse, BadQuantity(name)) <==>
      p.persistenceSize != "" && w.size.Some? && (parse(p.persistenceSize).None? || parse(w.size.value).None?)
    ensures IsViolationOf(w, p, parse, SizeDecrease(name)) <==>
      && p.persistenceSize != "" && w.size.Some? && parse(p.persistenceSize).Some? && parse(w.size.value).Some?
      && parse(w.size.value).value < parse(p.persistenceSize).value
  {
  }

  /** Who is compared: a component active in the environment that the previous release recorded. */
  lemma ComparedMeaning(workloads: map<string, Workload>, env: string, prev: map<string, Previous>, name: string)
    ensures Compared(workloads, env, prev, name) <==>
      && name in workloads && name in prev
      && var filter := workloads[name].environments;
      filter == [] || exists e :: e in filter && (e == env || ('/' !in e && e + "/" <= env))
  {
    if name in workloads {
      ActiveInMeaning(workloads[name].environments, env);
    }
  }

  /** The loop body: the errors of one component, in the order they are found. */
  method CheckWorkload(name: string, w: Workload, p: Previous, parse: Parser) returns (errs: seq<GuardError>)
    ensures forall e :: e in errs <==> e.component == name && IsViolationOf(w, p, parse, e)
  {
    errs := [];
    var wantKind := KindName(w);
    if p.workloadKind != "" && p.workloadKind != wantKind {
      errs := errs + [KindChange(name)];
    }
    if PreviousRole(p) != RoleName(w.role) {
      errs := errs + [RoleChange(name)];
    }
    var had, has := p.persistenceSize != "", w.size.Some?;
    if (wantKind == "StatefulSet" || p.workloadKind == "StatefulSet") && had != has {
      if !had && has {
        errs := errs + [PersistenceAdded(name)];
      } else if had && !has {
        errs := errs + [PersistenceRemoved(name)];
      }
    }
    if w.size.None? || p.persistenceSize == "" {
      return;
    }
    match CompareSizes(parse, p.persistenceSize, w.size.value) {
      case Incomparable => errs := errs + [BadQuantity(name)];
      case Decreased => errs := errs + [SizeDecrease(name)];
      case NotDecreased =>
    }
  }

  /** `checkWorkloadGuards`: the errors it reports are exactly the violations; it accepts when there are none. */
  method CheckWorkloadGuards(workloads: map<string, Workload>, env: string, prev: map<string, Previous>, parse: Parser)
    returns (errs: seq<GuardError>)
    ensures forall e :: e in errs <==> IsViolation(workloads, env, prev, parse, e)
  {
    errs := [];
    var left := workloads.Keys;
    while left != {}
      invariant left <= workloads.Keys
      invariant forall e :: e in errs <==> e.component !in left && IsViolation(workloads, env, prev, parse, e)
      decreases left
    {
      var name :| name in left;
      left := left - {name};
      if ActiveIn(workloads[name].environments, env) && name in prev {
        var more := CheckWorkload(name, workloads[name], prev[name], parse);
        errs := errs + more;
      }
    }
  }

  /** Whether a component's volume has to grow: its size text differs from a recorded one and is no smaller. */
  predicate NeedsResize(
      workloads: map<string, Workload>, env: string, prev: map<string, Previous>, parse: Parser, name: string) {
    && Compared(workloads, env, prev, name)
    && workloads[name].size.Some? && prev[name].persistenceSize != ""
    && prev[name].persistenceSize != workloads[name].size.value
    && CompareSizes(parse, prev[name].persistenceSize, workloads[name].size.value).NotDecreased?
  }

  /** On the fields: a recorded size, another text now, and both readable with no decrease. */
  lemma NeedsResizeMeaning(
    workloads: map<string, Workload>, env: string, prev: map<string, Previous>, parse: Parser, name: string)
    requires Compared(workloads, env, prev, name)
    ensures NeedsResize(workloads, env, prev, parse, name) <==>
      && workloads[name].size.Some?
      && var old', new' := prev[name].persistenceSize, workloads[name].size.value;
      && old' != "" && old' != new' && parse(old').Some? && parse(new').Some?
      && parse(old').value <= parse(new').value
  {
  }

  function Needing(
      workloads: map<string, Workload>, env: string, prev: map<string, Previous>, parse: Parser): set<string> {
    set n | n in workloads && NeedsResize(workloads, env, prev, parse, n)
  }

  predicate IsResizeOf(
    workloads: map<string, Workload>, env: string, prev: map<string, Previous>,
    classes: map<string, string>, parse: Parser, r: Resize)
  {
    && NeedsResize(workloads, env, prev, parse, r.component)
    && r.previousSize == prev[r.component].persistenceSize && Some(r.newSize) == workloads[r.component].size
    && r.storageClass == (if r.component in classes then classes[r.component] else "")
    && r.stateful == workloads[r.component].stateful
  }

  function Components(resizes: seq<Resize>): (r: seq<string>)
    ensures |r| == |resizes| && forall i :: 0 <= i < |r| ==> r[i] == resizes[i].component
  {
    seq(|resizes|, i requires 0 <= i < |resizes| => resizes[i].component)
  }

  /** `detectPersistenceResizes`: one resize for each component that needs one, sorted by component. */
  method DetectPersistenceResizes(
    workloads: map<string, Workload>, env: string, prev: map<string, Previous>,
    classes: map<string, string>, parse: Parser)
    returns (out: seq<Resize>)
    ensures IsListing(Components(out), Needing(workloads, env, prev, parse))
    ensures forall r :: r in out ==> IsResizeOf(workloads, env, prev, classes, parse, r)
  {
    var names := SortedKeys(workloads);
    out := [];
    ghost var picked := [];
    for i := 0 to |names|
      invariant Components(out) == picked
      invariant Sorted(picked) && NoDuplicates(picked)
      invariant forall n :: n in picked <==> n in names[..i] && NeedsResize(workloads, env, prev, parse, n)
      invariant forall r :: r in out ==> IsResizeOf(workloads, env, prev, classes, parse, r)
    {
      var name := names[i];
      assert name in Members(names);
      assert names[..i + 1] == names[..i] + [name];
      assert forall k :: 0 <= k < |picked| ==> picked[k] in names[..i];
      var w := workloads[name];
      if !ActiveIn(w.environments, env) || w.size.None? {
        continue;
      }
      if name !in prev {
        continue;
      }
      var prevSize := prev[name].persistenceSize;
      if prevSize == "" || prevSize == w.size.value {
        continue;
      }
      if !CompareSizes(parse, prevSize, w.size.value).NotDecreased? {
        continue;
      }
      out := out + [Resize(name, prevSize, w.size.value, if name in classes then classes[name] else "", w.stateful)];
      picked := picked + [name];
    }
    assert names[..|names|] == names;
    assert forall n :: n in workloads ==> n in Members(names);
  }

  /** `requireResizeFlag`. */
  predicate RequireResizeFlag(resizes: seq<Resize>, enabled: bool) {
    |resizes| == 0 || enabled
  }

  /** No violation: what `CheckWorkloadGuards` accepts. */
  ghost predicate Admitted(workloads: map<string, Workload>, env: string, prev: map<string, Previous>, parse: Parser) {
    forall e :: !IsViolation(workloads, env, prev, parse, e)
  }

  /** A component whose volume size text is not the one recorded. */
  predicate SizeTextChanged(workloads: map<string, Workload>, env: string, prev: map<string, Previous>, name: string) {
    && Compared(workloads, env, prev, name)
    && workloads[name].size.Some? && prev[name].persistenceSize != ""
    && workloads[name].size.value != prev[name].persistenceSize
  }

  /** After the guards, the detected resizes are exactly the changed sizes, and none of them shrinks. */
  lemma AdmittedResizesAreTheChanges(
    workloads: map<string, Workload>, env: string, prev: map<string, Previous>,
    classes: map<string, string>, parse: Parser, out: seq<Resize>)
    requires Admitted(workloads, env, prev, parse)
    requires IsListing(Components(out), Needing(workloads, env, prev, parse))
    requires forall r :: r in out ==> IsResizeOf(workloads, env, prev, classes, parse, r)
    ensures forall n :: n in Components(out) <==> SizeTextChanged(workloads, env, prev, n)
    ensures forall r :: r in out ==> parse(r.previousSize).Some? && parse(r.newSize).Some?
    ensures forall r :: r in out ==> parse(r.previousSize).value <= parse(r.newSize).value
    ensures RequireResizeFlag(out, false) <==> forall n :: !SizeTextChanged(workloads, env, prev, n)
    ensures RequireResizeFlag(out, true)
  {
    forall n ensures n in Components(out) <==> SizeTextChanged(workloads, env, prev, n) {
      assert n in Components(out) <==> n in Members(Components(out));
      assert !IsViolation(workloads, env, prev, parse, BadQuantity(n));
      assert !IsViolation(workloads, env, prev, parse, SizeDecrease(n));
    }
    if out != [] {
      assert Components(out)[0] in Components(out);
    }
  }
}
