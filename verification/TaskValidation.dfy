/**
 The check on a spec's `after` edges, the tasks that run in one environment,
 and what the two give together: in every environment Helm's weight order
 runs each dependency before its dependent.
 */
module TaskValidation {
  import opened Names
  import opened SpecTypes
  import opened Environments
  import opened HookGraph
  import opened HookScheduler
  import opened Wrappers
  import opened Profiles

  /** `MergeFrom`: what a task leaves empty it takes from its parent component. */
  function MergeFrom(task: Task, parent: Component): Task {
    var inherits := task.resourcePreset == "" && !task.resources.AnySet();
    task.(
      environments := if |task.environments| == 0 then parent.environments else task.environments,
      profiles := if task.profiles.None? || task.profiles.value == [] then parent.profiles else task.profiles,
      resourcePreset := if inherits then parent.resourcePreset else task.resourcePreset,
      resources := if inherits && parent.resources.AnySet() then parent.resources else task.resources)
  }

  /** `MergedTask`. */
  function MergedTask(spec: Spec, name: string): Task
    requires name in spec.tasks
  {
    var task := spec.tasks[name];
    if task.from != "" && task.from in spec.components then MergeFrom(task, spec.components[task.from]) else task
  }

  /**
   A task's own environments, profiles and sizing come before its parent's: each is
   the parent's only where the task has none, and sizing is a preset and requests
   together. Everything else is the task's own.
   */
  lemma OwnSettingsWin(spec: Spec, name: string)
    requires name in spec.tasks
    ensures var own, merged := spec.tasks[name], MergedTask(spec, name);
      && merged.from == own.from && merged.on == own.on && merged.after == own.after
      && (own.environments != [] ==> merged.environments == own.environments)
      && (own.profiles.Some? && own.profiles.value != [] ==> merged.profiles == own.profiles)
      && (own.resourcePreset != "" || HasRequests(own.resources) ==>
        merged.resourcePreset == own.resourcePreset && merged.resources == own.resources)
      && (own.from == "" || own.from !in spec.components ==> merged == own)
    ensures var own, merged := spec.tasks[name], MergedTask(spec, name);
      own.from != "" && own.from in spec.components ==> var parent := spec.components[own.from];
        && (own.environments == [] ==> merged.environments == parent.environments)
        && (own.profiles.None? || own.profiles.value == [] ==> merged.profiles == parent.profiles)
        && (own.resourcePreset == "" && !HasRequests(own.resources) ==>
          && merged.resourcePreset == parent.resourcePreset
          && merged.resources == if HasRequests(parent.resources) then parent.resources else own.resources)
  {
  }

  ghost predicate HasRequests(r: Resources) {
    || (r.cpu.Some? && r.cpu.value != 0)
    || (r.memory.Some? && r.memory.value != 0)
    || (r.ephemeralStorage.Some? && r.ephemeralStorage.value != 0)
  }

  predicate RunsIn(spec: Spec, name: string, env: string)
    requires name in spec.tasks
  {
    ActiveIn(MergedTask(spec, name).environments, env)
  }

  datatype GraphError =
    | UnknownDependency(task: string, dep: string)
    | OtherPhase(task: string, dep: string)
    | NotCovered(task: string, dep: string)
    | HasCycle(on: TaskOn, stuck: seq<string>)

  /** `n` is a hook task that lists `d`. */
  ghost predicate Lists(spec: Spec, n: string, d: string) {
    n in spec.tasks && spec.tasks[n].on.IsHook() && d in spec.tasks[n].after
  }

  /** What each error says about the spec. */
  ghost predicate IsFault(spec: Spec, e: GraphError) {
    match e
    case UnknownDependency(n, d) => Lists(spec, n, d) && d !in spec.tasks
    case OtherPhase(n, d) => Lists(spec, n, d) && d in spec.tasks && spec.tasks[d].on != spec.tasks[n].on
    case NotCovered(n, d) =>
      && Lists(spec, n, d) && d in spec.tasks && spec.tasks[d].on == spec.tasks[n].on
      && exists env :: RunsIn(spec, n, env) && !RunsIn(spec, d, env)
    case HasCycle(on, stuck) =>
      && on.IsHook() && !Acyclic(spec.tasks, on)
      && (on == PostDeploy ==> Acyclic(spec.tasks, PreDeploy))
      && IsListing(stuck, set n | n in Phase(spec.tasks, on) && ReachesCycle(spec.tasks, on, n))
  }

  /** The faults that concern the edge from `n` to `d`. */
  ghost predicate IsEdgeFault(spec: Spec, e: GraphError, n: string, d: string) {
    !e.HasCycle? && e.task == n && e.dep == d && IsFault(spec, e)
  }

  /** The body of the inner loop: the error of one edge, if any. */
  method CheckEdge(spec: Spec, name: string, dep: string) returns (errs: seq<GraphError>)
    requires Lists(spec, name, dep)
    ensures forall e :: e in errs <==> IsEdgeFault(spec, e, name, dep)
  {
    var task := spec.tasks[name];
    if dep !in spec.tasks {
      return [UnknownDependency(name, dep)];
    }
    if spec.tasks[dep].on != task.on {
      return [OtherPhase(name, dep)];
    }
    var dependent, depTask := MergedTask(spec, name), MergedTask(spec, dep);
    AfterCoversExactly(dependent.environments, depTask.environments);
    if !AfterCoversDependentEnvs(dependent.environments, depTask.environments) {
      ghost var env :| ActiveIn(dependent.environments, env) && !ActiveIn(depTask.environments, env);
      assert RunsIn(spec, name, env) && !RunsIn(spec, dep, env);
      return [NotCovered(name, dep)];
    }
    return [];
  }

  method CheckTask(spec: Spec, name: string) returns (errs: seq<GraphError>)
    requires name in spec.tasks && spec.tasks[name].on.IsHook()
    ensures forall e :: e in errs <==> exists d :: IsEdgeFault(spec, e, name, d)
  {
    var after := spec.tasks[name].after;
    errs := [];
    for j := 0 to |after|
      invariant forall e :: e in errs <==> exists d :: d in after[..j] && IsEdgeFault(spec, e, name, d)
    {
      assert after[..j + 1] == after[..j] + [after[j]];
      var more := CheckEdge(spec, name, after[j]);
      errs := errs + more;
    }
    assert after[..|after|] == after;
  }

  /** `validateTaskAfterGraph`: the errors it collects are exactly the faults of the spec. */
  method ValidateTaskAfterGraph(spec: Spec) returns (errs: seq<GraphError>)
    ensures forall e :: e in errs <==> IsFault(spec, e)
  {
    var names := SortedKeys(spec.tasks);
    errs := [];
    for i := 0 to |names|
      invariant forall e :: e in errs <==> !e.HasCycle? && e.task in names[..i] && IsFault(spec, e)
    {
      var name := names[i];
      assert name in Members(names);
      assert names[..i + 1] == names[..i] + [name];
      if spec.tasks[name].on.IsHook() {
        var more := CheckTask(spec, name);
        forall e ensures e in more <==> !e.HasCycle? && e.task == name && IsFault(spec, e) {
          if !e.HasCycle? && e.task == name && IsFault(spec, e) {
            assert IsEdgeFault(spec, e, name, e.dep);
          }
        }
        errs := errs + more;
      }
    }
    assert names[..|names|] == names;
    assert forall n :: n in spec.tasks ==> n in Members(names);
    var weights := AssignHookWeights(spec.tasks);
    ghost var edges := errs;
    if weights.Rejected? {
      errs := errs + [HasCycle(weights.on, weights.stuck)];
    }
    forall e: GraphError | e.HasCycle? ensures e in errs <==> IsFault(spec, e) {
      assert e !in edges;
      if IsFault(spec, e) {
        ListingUnique(
          e.stuck, weights.stuck, set n | n in Phase(spec.tasks, e.on) && ReachesCycle(spec.tasks, e.on, n));
      }
    }
  }

  ghost predicate Accepted(spec: Spec) {
    forall e :: !IsFault(spec, e)
  }

  /** `profiles` and `merged` are only filled in by resolution. */
  datatype ResolvedTask = ResolvedTask(task: Task, hookWeight: int, profiles: seq<string>, merged: Option<Profile>)

  datatype EffectiveResult = Effective(tasks: map<string, ResolvedTask>) | Failed(on: TaskOn, stuck: seq<string>)

  function ActiveTasks(spec: Spec, env: string): set<string> {
    set n | n in spec.tasks && RunsIn(spec, n, env)
  }

  /** `out` is what runs in `env`: the merged active tasks, hook tasks with their weight over the whole spec. */
  ghost predicate IsEffective(spec: Spec, env: string, out: map<string, ResolvedTask>) {
    && out.Keys == ActiveTasks(spec, env)
    && forall n {:trigger out[n]} :: n in out ==>
      && out[n].task == MergedTask(spec, n)
      && if spec.tasks[n].on.IsHook() then LongestChain(spec.tasks, spec.tasks[n].on, n, out[n].hookWeight)
         else out[n].hookWeight == 0
  }

  /** `tasksInEnvironment`. */
  method TasksInEnvironment(spec: Spec, env: string) returns (out: map<string, Task>)
    ensures out.Keys == ActiveTasks(spec, env)
    ensures forall n :: n in out ==> out[n] == MergedTask(spec, n)
  {
    var names := SortedKeys(spec.tasks);
    out := map[];
    for i := 0 to |names|
      invariant forall n :: n in out <==> n in names[..i] && n in spec.tasks && RunsIn(spec, n, env)
      invariant forall n :: n in out ==> out[n] == MergedTask(spec, n)
    {
      assert names[i] in Members(names);
      assert names[..i + 1] == names[..i] + [names[i]];
      var task := MergedTask(spec, names[i]);
      if ActiveIn(task.environments, env) {
        out := out[names[i] := task];
      }
    }
    assert names[..|names|] == names;
    assert forall n :: n in spec.tasks ==> n in Members(names);
  }

  /** The tasks as merged, with the weight found for them; a missing weight reads as 0. */
  ghost predicate Weighted(spec: Spec, weights: map<string, int>, out: map<string, ResolvedTask>) {
    forall n {:trigger out[n]} :: n in out ==>
      n in spec.tasks && out[n].task == MergedTask(spec, n)
        && out[n].hookWeight == if n in weights then weights[n] else 0
  }

  lemma WeightsMakeEffective(spec: Spec, env: string, weights: map<string, int>, out: map<string, ResolvedTask>)
    requires HookWeights(spec.tasks, weights) && out.Keys == ActiveTasks(spec, env) && Weighted(spec, weights, out)
    ensures IsEffective(spec, env, out)
  {
    forall n | n in out && spec.tasks[n].on.IsHook()
      ensures LongestChain(spec.tasks, spec.tasks[n].on, n, out[n].hookWeight)
    {
      assert n in Phase(spec.tasks, spec.tasks[n].on);
      assert n in weights;
    }
  }

  /** A spec with a cycle is not accepted. */
  lemma AcceptedIsAcyclic(spec: Spec)
    requires Accepted(spec)
    ensures Acyclic(spec.tasks, PreDeploy) && Acyclic(spec.tasks, PostDeploy)
  {
    if !Acyclic(spec.tasks, PreDeploy) {
      var stuck := SomeListing(set n | n in Phase(spec.tasks, PreDeploy) && ReachesCycle(spec.tasks, PreDeploy, n));
      assert IsFault(spec, HasCycle(PreDeploy, stuck));
    } else if !Acyclic(spec.tasks, PostDeploy) {
      var stuck := SomeListing(set n | n in Phase(spec.tasks, PostDeploy) && ReachesCycle(spec.tasks, PostDeploy, n));
      assert IsFault(spec, HasCycle(PostDeploy, stuck));
    }
  }

  /** `EffectiveTasks` without a resolved spec. */
  method EffectiveTasks(spec: Spec, env: string) returns (r: EffectiveResult)
    ensures r.Effective? <==> Acyclic(spec.tasks, PreDeploy) && Acyclic(spec.tasks, PostDeploy)
    ensures r.Effective? ==> IsEffective(spec, env, r.tasks)
    ensures r.Failed? ==>
      && r.on == (if !Acyclic(spec.tasks, PreDeploy) then PreDeploy else PostDeploy)
      && IsListing(r.stuck, set n | n in Phase(spec.tasks, r.on) && ReachesCycle(spec.tasks, r.on, n))
    ensures Accepted(spec) ==> r.Effective?
  {
    if Accepted(spec) {
      AcceptedIsAcyclic(spec);
    }
    var weights := AssignHookWeights(spec.tasks);
    if weights.Rejected? {
      return Failed(weights.on, weights.stuck);
    }
    var envTasks := TasksInEnvironment(spec, env);
    var out := map n | n in envTasks ::
      ResolvedTask(envTasks[n], if n in weights.weights then weights.weights[n] else 0, [], None);
    WeightsMakeEffective(spec, env, weights.weights, out);
    r := Effective(out);
  }

  /** In an accepted spec the tasks of an environment are closed under `after`, with strictly increasing weights. */
  lemma EffectiveClosedUnderAfter(spec: Spec, env: string, out: map<string, ResolvedTask>, n: string, d: string)
    requires Accepted(spec) && IsEffective(spec, env, out)
    requires n in out && out[n].task.on.IsHook() && d in out[n].task.after
    ensures d in out && out[d].task.on == out[n].task.on
    ensures out[d].hookWeight < out[n].hookWeight
  {
    assert Lists(spec, n, d);
    assert !IsFault(spec, UnknownDependency(n, d));
    assert !IsFault(spec, OtherPhase(n, d));
    assert !IsFault(spec, NotCovered(n, d));
    assert RunsIn(spec, n, env) && RunsIn(spec, d, env);
    var on := spec.tasks[n].on;
    assert WaitsFor(spec.tasks, on, n, d);
    DependencyIsLighter(spec.tasks, on, n, d, out[n].hookWeight, out[d].hookWeight);
  }

  /** Helm runs the hooks of a phase by weight, and by name within a weight. */
  ghost predicate HelmOrder(out: map<string, ResolvedTask>, on: TaskOn, order: seq<string>) {
    && NoDuplicates(order)
    && (forall n :: n in order <==> n in out && out[n].task.on == on)
    && (forall i, j :: 0 <= i < j < |order| ==>
      || out[order[i]].hookWeight < out[order[j]].hookWeight
      || (out[order[i]].hookWeight == out[order[j]].hookWeight && Leq(order[i], order[j])))
  }

  /** In every environment each dependency is run, and run before its dependent. */
  lemma HelmRunsDependenciesFirst(
    spec: Spec, env: string, out: map<string, ResolvedTask>, on: TaskOn, order: seq<string>, i: nat, d: string)
    requires Accepted(spec) && IsEffective(spec, env, out) && on.IsHook() && HelmOrder(out, on, order)
    requires i < |order| && d in out[order[i]].task.after
    ensures exists j :: 0 <= j < i && order[j] == d
  {
    assert order[i] in order;
    EffectiveClosedUnderAfter(spec, env, out, order[i], d);
    assert d in order;
    var j :| 0 <= j < |order| && order[j] == d;
  }
}
