/**
 Cancelling a create: when the call returns, which clusters its cleanup removes,
 and what the cleanup of one call does to the cluster of another.
 */
module ClusterCancellation {
  import opened Wrappers
  import opened ClusterLifecycle
  import opened ClusterOutcomes

  // ----- building runs -----

  lemma {:induction false} Then(run: seq<State>, steps: seq<Step>, step: Step)
    returns (run': seq<State>, steps': seq<Step>)
    requires IsRun(run, steps) && Enabled(run[|steps|], step)
    ensures IsRun(run', steps') && run <= run' && steps' == steps + [step] && run'[0] == run[0]
    ensures run'[|steps'|] == Next(run[|steps|], step)
  {
    steps' := steps + [step];
    run' := run + [Next(run[|steps|], step)];
    forall i | 0 <= i < |steps'| ensures Enabled(run'[i], steps'[i]) && run'[i + 1] == Next(run'[i], steps'[i]) {
      if i < |steps| {
        assert Enabled(run[i], steps[i]) && run[i + 1] == Next(run[i], steps[i]);
      }
    }
  }

  function Lone(call: Call, wg: int, clusters: set<string>): State {
    State(map[0 := call], map[], wg, clusters)
  }

  lemma FirstCall(config: Config, clusters: set<string>) returns (run: seq<State>, steps: seq<Step>)
    ensures IsRun(run, steps) && run[|steps|] == Lone(NewCall(config), 0, clusters) && run[0].clusters == clusters
    ensures steps == [Begin(0, config)]
  {
    steps := [Begin(0, config)];
    run := [State(map[], map[], 0, clusters), Lone(NewCall(config), 0, clusters)];
  }

  /** One more step of a run with one call. */
  lemma Extend(
      run: seq<State>, steps: seq<Step>, step: Step,
      call: Call, wg: int, clusters: set<string>, call': Call, wg': int, clusters': set<string>)
    returns (run': seq<State>, steps': seq<Step>)
    requires IsRun(run, steps) && run[|steps|] == Lone(call, wg, clusters)
    requires !OfNoCall(step) && !step.Begin? && step.c == 0 && Enabled(Lone(call, wg, clusters), step)
    requires call' == CallNext(call, step) && wg' == WaitGroupAfter(Lone(call, wg, clusters), step)
    requires clusters' == ClustersAfter(Lone(call, wg, clusters), step)
    ensures IsRun(run', steps') && run'[|steps'|] == Lone(call', wg', clusters') && run'[0] == run[0]
    ensures run <= run' && steps' == steps + [step]
  {
    run', steps' := Then(run, steps, step);
  }

  /** Nobody asks for any cluster to be deleted. */
  predicate NoDeletes(steps: seq<Step>) {
    forall step :: step in steps ==> !step.DeleteCluster?
  }

  // ----- when a cancelled call returns -----

  /** In step i call c returns that it was cancelled. */
  ghost predicate ReturnsCancelled(run: seq<State>, steps: seq<Step>, i: nat, c: CallId) {
    && IsRun(run, steps) && i < |steps|
    && c in run[i].calls && !run[i].calls[c].caller.Done?
    && c in run[i + 1].calls && run[i + 1].calls[c].caller == Done(Cancelled)
  }

  lemma CancelledCallReturns(call: Call, step: Step)
    requires CallInv(call) && CallEnabled(call, step) && !call.caller.Done?
      && CallNext(call, step).caller == Done(Cancelled)
    ensures CallNext(call, step).waits == if call.config.retainOnFail then 1 else 0
    ensures call.config.retainOnFail ==> !CallNext(call, step).kind.Running?
    ensures CallNext(call, step).config == call.config
  {
  }

  /** A cancelled call that retains returns after its wait for Kind; one that does not returns before its cleanup's. */
  lemma CancelledReturn(run: seq<State>, steps: seq<Step>, i: nat, c: CallId)
    requires ReturnsCancelled(run, steps, i, c)
    ensures var call := run[i + 1].calls[c];
      && call.waits == (if call.config.retainOnFail then 1 else 0)
      && (call.config.retainOnFail ==> !call.kind.Running?)
  {
    RunInv(run, steps, i);
    assert Enabled(run[i], steps[i]) && run[i + 1] == Next(run[i], steps[i]);
    CancelledCallReturns(run[i].calls[c], steps[i]);
  }

  /** It is the first call that returns, with this configuration, having waited as often. */
  ghost predicate ReturnsAfter(run: seq<State>, steps: seq<Step>, i: nat, cfg: Config, waits: nat) {
    ReturnsCancelled(run, steps, i, 0) && run[i + 1].calls[0].config == cfg && run[i + 1].calls[0].waits == waits
  }

  ghost predicate ReturnsWhileKindRuns(run: seq<State>, steps: seq<Step>, i: nat, cfg: Config) {
    ReturnsCancelled(run, steps, i, 0) && run[i + 1].calls[0].config == cfg && run[i + 1].calls[0].kind.Running?
  }

  /** A call cancelled when it has come to decide what to do. */
  lemma CancelledDecides(cfg: Config, clusters: set<string>) returns (run: seq<State>, steps: seq<Step>, call: Call)
    ensures IsRun(run, steps) && run[|steps|] == Lone(call, 0, clusters) && run[0].clusters == clusters
      && NoDeletes(steps)
    ensures call == if cfg.badConfig then NewCall(cfg).(cancelled := true, caller := Deciding(BadConfig, Noop))
      else NewCall(cfg).(cancelled := true, caller := Deciding(ContextDone, Drain), kind := Running)
  {
    var c1 := NewCall(cfg);
    var c2 := c1.(cancelled := true);
    run, steps := FirstCall(cfg, clusters);
    run, steps := Extend(run, steps, Cancel(0), c1, 0, clusters, c2, 0, clusters);
    if cfg.badConfig {
      call := c2.(caller := Deciding(BadConfig, Noop));
      run, steps := Extend(run, steps, RejectConfig(0), c2, 0, clusters, call, 0, clusters);
    } else {
      var c3 := c2.(caller := Selecting, kind := Running);
      call := c3.(caller := Deciding(ContextDone, Drain));
      run, steps := Extend(run, steps, StartKind(0), c2, 0, clusters, c3, 0, clusters);
      run, steps := Extend(run, steps, SelectDone(0), c3, 0, clusters, call, 0, clusters);
    }
  }

  /** A call that is cancelled and returns, leaving its cleanup to wait for Kind. */
  lemma CancelledReturnsEarly(cfg: Config, clusters: set<string>)
    returns (run: seq<State>, steps: seq<Step>, i: nat, call: Call)
    requires !cfg.retainOnFail
    ensures ReturnsAfter(run, steps, i, cfg, 0) && |steps| == i + 1 && NoDeletes(steps)
    ensures run[|steps|] == Lone(call, 1, clusters) && run[0].clusters == clusters && call.config == cfg
    ensures if cfg.badConfig
      then call.cleanup == WaitingForKind(Noop) && call.kind.NotStarted?
      else call.cleanup == WaitingForKind(Drain) && call.kind.Running? && call.channel.None?
  {
    var deciding;
    run, steps, deciding := CancelledDecides(cfg, clusters);
    i, call := |steps|, DecideCall(deciding);
    run, steps := Extend(run, steps, Decide(0), deciding, 0, clusters, call, 1, clusters);
  }

  /** A call that is cancelled and retains, and waits for Kind before it returns. */
  lemma CancelledReturnsLate(cfg: Config) returns (run: seq<State>, steps: seq<Step>, i: nat)
    requires cfg.retainOnFail
    ensures ReturnsAfter(run, steps, i, cfg, 1)
  {
    var deciding;
    run, steps, deciding := CancelledDecides(cfg, {});
    var waiting := DecideCall(deciding);
    run, steps := Extend(run, steps, Decide(0), deciding, 0, {}, waiting, 0, {});
    if !cfg.badConfig {
      var ended := waiting.(kind := Ended(KindOther), channel := Some(KindOther));
      run, steps := Extend(run, steps, KindReturns(0, KindOther, false), waiting, 0, {}, ended, 0, {});
      waiting := ended;
    }
    run, steps, i := WaitAndReturn(run, steps, waiting, cfg);
  }

  lemma WaitAndReturn(run: seq<State>, steps: seq<Step>, waiting: Call, cfg: Config)
    returns (run': seq<State>, steps': seq<Step>, i: nat)
    requires IsRun(run, steps) && run[|steps|] == Lone(waiting, 0, {}) && waiting.config == cfg
    requires waiting.caller.Waiting? && waiting.caller.outcome == Cancelled && waiting.waits == 0
    requires WaitReady(waiting, waiting.caller.wait)
    ensures ReturnsAfter(run', steps', i, cfg, 1)
  {
    var finishing := AfterWait(waiting, waiting.caller.wait).(caller := Finishing(Cancelled));
    run', steps' := Extend(run, steps, WaitReturns(0), waiting, 0, {}, finishing, 0, {});
    i := |steps'|;
    run', steps' := Extend(run', steps', Return(0), finishing, 0, {}, ReturnCall(finishing), 0, {});
  }

  /**
   A cancelled call can return at once, before anyone has waited for Kind, exactly
   when it was not told to retain; and with Kind still running exactly when it also
   got as far as starting Kind. Told to retain, it can return only after the wait.
   */
  lemma ReturnsAtOnceUnlessRetaining(cfg: Config)
    ensures (exists run: seq<State>, steps: seq<Step>, i: nat :: ReturnsAfter(run, steps, i, cfg, 0))
      <==> !cfg.retainOnFail
    ensures (exists run: seq<State>, steps: seq<Step>, i: nat :: ReturnsAfter(run, steps, i, cfg, 1))
      <==> cfg.retainOnFail
    ensures (exists run: seq<State>, steps: seq<Step>, i: nat :: ReturnsWhileKindRuns(run, steps, i, cfg))
      <==> !cfg.retainOnFail && !cfg.badConfig
  {
    forall run: seq<State>, steps: seq<Step>, i: nat, n: nat | ReturnsAfter(run, steps, i, cfg, n)
      ensures n == if cfg.retainOnFail then 1 else 0
    {
      CancelledReturn(run, steps, i, 0);
    }
    forall run: seq<State>, steps: seq<Step>, i: nat | ReturnsWhileKindRuns(run, steps, i, cfg)
      ensures !cfg.retainOnFail && !cfg.badConfig
    {
      CancelledReturn(run, steps, i, 0);
      RunInv(run, steps, i + 1);
      assert CallInv(run[i + 1].calls[0]);
    }
    if cfg.retainOnFail {
      var run, steps, i := CancelledReturnsLate(cfg);
    } else {
      var run, steps, i, call := CancelledReturnsEarly(cfg, {});
      assert ReturnsWhileKindRuns(run, steps, i, cfg) <==> !cfg.badConfig;
    }
  }

  // ----- which clusters a cancelled create removes -----

  predicate CleanedUp(call: Call) {
    call.cleanup == Deleted(true) || call.cleanup == Exited(true)
  }

  predicate RemovedBy(call: Call, name: string) {
    call.config.name == name && call.caller == Done(Cancelled) && !call.config.retainOnFail && CleanedUp(call)
  }

  /** Someone asked for the cluster to be deleted between two states of a run. */
  predicate DeletedBetween(steps: seq<Step>, b: nat, e: nat, name: string)
    requires b <= e <= |steps|
  {
    DeleteCluster(name) in steps[b..e]
  }

  lemma DeletedLater(steps: seq<Step>, b: nat, e: nat, name: string)
    requires b < e <= |steps|
    ensures DeletedBetween(steps, b, e, name)
      <==> DeletedBetween(steps, b, e - 1, name) || steps[e - 1] == DeleteCluster(name)
  {
    assert steps[b..e] == steps[b..e - 1] + [steps[e - 1]];
  }

  /** This call's cleanup has removed the cluster, and had not at state b. */
  ghost predicate RemovedSince(run: seq<State>, b: nat, e: nat, c: CallId, name: string)
    requires b <= e < |run|
  {
    c in run[e].calls && RemovedBy(run[e].calls[c], name) && !(c in run[b].calls && CleanedUp(run[b].calls[c]))
  }

  /** The one step that removes a cluster without being asked to. */
  lemma StepRemoves(s: State, step: Step, name: string)
    requires Inv(s) && Enabled(s, step) && name in s.clusters && name !in Next(s, step).clusters
    ensures step == DeleteCluster(name) || step == CleanupDeleted(step.c, true)
    ensures step.CleanupDeleted? ==> !CleanedUp(s.calls[step.c]) && RemovedBy(Next(s, step).calls[step.c], name)
  {
    if step.CleanupDeleted? {
      assert CallInv(s.calls[step.c]);
    }
  }

  lemma CleanedUpCallStays(call: Call, step: Step)
    requires CallInv(call) && CallEnabled(call, step) && CleanedUp(call)
    ensures CleanedUp(CallNext(call, step)) && CallNext(call, step).config == call.config
    ensures CallNext(call, step).caller == call.caller
  {
  }

  lemma CleanedUpStays(s: State, step: Step, c: CallId)
    requires Inv(s) && Enabled(s, step) && c in s.calls && CleanedUp(s.calls[c])
    ensures c in Next(s, step).calls && CleanedUp(Next(s, step).calls[c])
    ensures Next(s, step).calls[c].config == s.calls[c].config && Next(s, step).calls[c].caller == s.calls[c].caller
  {
    if !OfNoCall(step) && step.c == c && !step.Begin? {
      assert CallInv(s.calls[c]);
      CleanedUpCallStays(s.calls[c], step);
    }
  }

  lemma {:induction false} CleanedUpForever(run: seq<State>, steps: seq<Step>, b: nat, e: nat, c: CallId)
    requires IsRun(run, steps) && b <= e < |run| && c in run[b].calls && CleanedUp(run[b].calls[c])
    ensures c in run[e].calls && CleanedUp(run[e].calls[c])
    decreases e
  {
    if b < e {
      CleanedUpForever(run, steps, b, e - 1, c);
      RunInv(run, steps, e - 1);
      assert Enabled(run[e - 1], steps[e - 1]) && run[e] == Next(run[e - 1], steps[e - 1]);
      CleanedUpStays(run[e - 1], steps[e - 1], c);
    }
  }

  lemma RemovedSinceStays(run: seq<State>, steps: seq<Step>, b: nat, e: nat, c: CallId, name: string)
    requires IsRun(run, steps) && b < e < |run| && RemovedSince(run, b, e - 1, c, name)
    ensures RemovedSince(run, b, e, c, name)
  {
    RunInv(run, steps, e - 1);
    assert Enabled(run[e - 1], steps[e - 1]) && run[e] == Next(run[e - 1], steps[e - 1]);
    CleanedUpStays(run[e - 1], steps[e - 1], c);
  }

  lemma RemovedNow(run: seq<State>, steps: seq<Step>, b: nat, e: nat, name: string)
    requires IsRun(run, steps) && b < e < |run| && name in run[e - 1].clusters && name !in run[e].clusters
    requires steps[e - 1] != DeleteCluster(name)
    ensures steps[e - 1].CleanupDeleted? && RemovedSince(run, b, e, steps[e - 1].c, name)
  {
    RunInv(run, steps, e - 1);
    assert Enabled(run[e - 1], steps[e - 1]) && run[e] == Next(run[e - 1], steps[e - 1]);
    StepRemoves(run[e - 1], steps[e - 1], name);
    var c := steps[e - 1].c;
    if c in run[b].calls && CleanedUp(run[b].calls[c]) {
      CleanedUpForever(run, steps, b, e - 1, c);
    }
  }

  /**
   Between any two states of a run, a cluster that was there and is gone was deleted
   on request or removed meanwhile by the cleanup of a cancelled call that was not
   told to retain.
   */
  lemma {:induction false} OnlyCleanupRemoves(run: seq<State>, steps: seq<Step>, b: nat, e: nat, name: string)
    requires IsRun(run, steps) && b <= e < |run| && name in run[b].clusters && name !in run[e].clusters
    ensures DeletedBetween(steps, b, e, name) || exists c :: RemovedSince(run, b, e, c, name)
    decreases e
  {
    DeletedLater(steps, b, e, name);
    if name !in run[e - 1].clusters {
      OnlyCleanupRemoves(run, steps, b, e - 1, name);
      if !DeletedBetween(steps, b, e - 1, name) {
        var c :| RemovedSince(run, b, e - 1, c, name);
        RemovedSinceStays(run, steps, b, e, c, name);
      }
    } else if steps[e - 1] != DeleteCluster(name) {
      RemovedNow(run, steps, b, e, name);
    }
  }

  lemma CallsGrow(s: State, step: Step)
    requires Enabled(s, step)
    ensures s.calls.Keys <= Next(s, step).calls.Keys
  {
  }

  /**
   A lone complete call leaves an existing cluster in place exactly when it was not
   cancelled, retains, or its delete failed.
   */
  lemma LoneCallKeepsCluster(run: seq<State>, steps: seq<Step>, i: nat, c: CallId)
    requires IsRun(run, steps) && i < |run| && run[i].calls.Keys == {c} && Complete(run[i].calls[c])
    requires var name := run[i].calls[c].config.name; name in run[0].clusters && !DeletedBetween(steps, 0, i, name)
    ensures var call := run[i].calls[c];
      call.config.name in run[i].clusters <==>
        !(call.caller.outcome.Cancelled? && !call.config.retainOnFail && call.cleanup == Exited(true))
  {
    var call := run[i].calls[c];
    RunInv(run, steps, i);
    assert CallInv(call);
    if call.config.name !in run[i].clusters {
      OnlyCleanupRemoves(run, steps, 0, i, call.config.name);
    } else if call.cleanup == Exited(true) {
      RemovedStaysRemoved(run, steps, i, c);
    }
  }

  /** Once a call's cleanup has deleted, the call itself can put no cluster back. */
  lemma CleanedUpAddsNothing(call: Call, step: Step)
    requires CallInv(call) && CallEnabled(call, step) && CleanedUp(call)
    ensures !step.KindReturns?
  {
  }

  lemma CleanedUpBefore(call: Call, step: Step)
    requires CallEnabled(call, step) && CleanedUp(CallNext(call, step))
    ensures CleanedUp(call) || step == CleanupDeleted(step.c, true)
  {
  }

  predicate Gone(s: State, c: CallId)
    requires c in s.calls
  {
    CleanedUp(s.calls[c]) ==> s.calls[c].config.name !in s.clusters
  }

  lemma GoneKept(s: State, step: Step, c: CallId)
    requires Inv(s) && Enabled(s, step) && Next(s, step).calls.Keys == {c}
    requires c in s.calls ==> Gone(s, c)
    ensures Gone(Next(s, step), c)
  {
    if !OfNoCall(step) && !step.Begin? {
      assert step.c in Next(s, step).calls.Keys;
      assert step.c == c && CallInv(s.calls[c]);
      if CleanedUp(CallNext(s.calls[c], step)) {
        CleanedUpBefore(s.calls[c], step);
        if CleanedUp(s.calls[c]) {
          CleanedUpAddsNothing(s.calls[c], step);
        }
      }
    }
  }

  lemma OnlyCallBefore(s: State, step: Step, c: CallId)
    requires Enabled(s, step) && Next(s, step).calls.Keys == {c} && c in s.calls
    ensures s.calls.Keys == {c}
  {
    CallsGrow(s, step);
  }

  lemma {:induction false} RemovedStaysRemoved(run: seq<State>, steps: seq<Step>, i: nat, c: CallId)
    requires IsRun(run, steps) && i < |run| && run[i].calls.Keys == {c}
    ensures Gone(run[i], c)
    decreases i
  {
    if 0 < i {
      var s, step := run[i - 1], steps[i - 1];
      assert Enabled(s, step) && run[i] == Next(s, step);
      RunInv(run, steps, i - 1);
      if c in s.calls {
        OnlyCallBefore(s, step, c);
        RemovedStaysRemoved(run, steps, i - 1, c);
      }
      GoneKept(s, step, c);
    }
  }

  /** The cleanup gets its wait function back and starts to delete. */
  lemma CleanupStarts(run: seq<State>, steps: seq<Step>, call: Call, clusters: set<string>)
    returns (run': seq<State>, steps': seq<Step>, call': Call)
    requires IsRun(run, steps) && run[|steps|] == Lone(call, 1, clusters) && NoDeletes(steps)
    requires call.cleanup.WaitingForKind? && WaitReady(call, call.cleanup.wait)
    ensures IsRun(run', steps') && run'[0] == run[0] && NoDeletes(steps')
    ensures run'[|steps'|] == Lone(call', 1, clusters)
      && call' == AfterWait(call, call.cleanup.wait).(cleanup := Deleting)
  {
    var drained := AfterWait(call, call.cleanup.wait).(cleanup := Drained);
    call' := drained.(cleanup := Deleting);
    run', steps' := Extend(run, steps, CleanupWaitReturns(0), call, 1, clusters, drained, 1, clusters);
    run', steps' := Extend(run', steps', CleanupDelete(0), drained, 1, clusters, call', 1, clusters);
  }

  /** The delete succeeds and the cleanup ends. */
  lemma CleanupEnds(run: seq<State>, steps: seq<Step>, call: Call, clusters: set<string>)
    returns (run': seq<State>, steps': seq<Step>)
    requires IsRun(run, steps) && run[|steps|] == Lone(call, 1, clusters) && NoDeletes(steps) && call.cleanup.Deleting?
    ensures IsRun(run', steps') && run'[0] == run[0] && NoDeletes(steps')
    ensures run'[|steps'|] == Lone(call.(cleanup := Exited(true)), 0, clusters - {call.config.name})
  {
    var gone := clusters - {call.config.name};
    var deleted, exited := call.(cleanup := Deleted(true)), call.(cleanup := Exited(true));
    run', steps' := Extend(run, steps, CleanupDeleted(0, true), call, 1, clusters, deleted, 1, gone);
    run', steps' := Extend(run', steps', CleanupExits(0), deleted, 1, gone, exited, 0, gone);
  }

  /**
   Kind's answer plays no part: a call cancelled on a cluster that was already
   there, which Kind refused to create again or was never asked to, still removes
   that cluster.
   */
  lemma CancelledCreateRemovesExistingCluster(cfg: Config) returns (run: seq<State>, steps: seq<Step>)
    requires !cfg.retainOnFail
    ensures IsLoneRun(run, steps, cfg) && 0 in run[|steps|].calls && Complete(run[|steps|].calls[0])
    ensures run[|steps|].calls[0].kind == if cfg.badConfig then NotStarted else Ended(KindExists)
    ensures cfg.name !in run[|steps|].clusters
  {
    var there := {cfg.name};
    var i, call;
    run, steps, i, call := CancelledReturnsEarly(cfg, there);
    if !cfg.badConfig {
      var ended := call.(kind := Ended(KindExists), channel := Some(KindExists));
      run, steps := Extend(run, steps, KindReturns(0, KindExists, false), call, 1, there, ended, 1, there);
      call := ended;
    }
    run, steps, call := CleanupStarts(run, steps, call, there);
    run, steps := CleanupEnds(run, steps, call, there);
  }

  /**
   A run in which one call with this configuration is made at most, on a cluster
   that is there at the start and that nobody asks to delete.
   */
  ghost predicate IsLoneRun(run: seq<State>, steps: seq<Step>, cfg: Config) {
    && IsRun(run, steps) && cfg.name in run[0].clusters && !DeletedBetween(steps, 0, |steps|, cfg.name)
    && forall c :: c in run[|steps|].calls ==> c == 0 && run[|steps|].calls[c].config == cfg
  }

  ghost predicate RunKeeps(run: seq<State>, steps: seq<Step>, cfg: Config) {
    IsLoneRun(run, steps, cfg) ==> cfg.name in run[|steps|].clusters
  }

  /**
   Creating a cluster that is already there never loses it, however the call is
   cancelled and whatever Kind does, exactly when the call was told to retain.
   */
  lemma CreateKeepsExistingCluster(cfg: Config)
    ensures (forall run: seq<State>, steps: seq<Step> :: RunKeeps(run, steps, cfg)) <==> cfg.retainOnFail
  {
    if cfg.retainOnFail {
      forall run: seq<State>, steps: seq<Step> ensures RunKeeps(run, steps, cfg) {
        if IsLoneRun(run, steps, cfg) && cfg.name !in run[|steps|].clusters {
          OnlyCleanupRemoves(run, steps, 0, |steps|, cfg.name);
        }
      }
    } else {
      var run, steps := CancelledCreateRemovesExistingCluster(cfg);
      assert !RunKeeps(run, steps, cfg);
    }
  }

  // ----- the cluster of another call -----

  /** The call is cancelled and was not told to retain, and its cleanup has not deleted yet but still may. */
  predicate MayStillDelete(call: Call, name: string) {
    && call.config.name == name && !call.config.retainOnFail && call.cancelled
    && match call.caller
       case Entered => true
       case Selecting => true
       case Deciding(err, _) => err != NoError && !(err == FromKind(KindExists) && call.config.createIfMissing)
       case Done(_) => call.cleanup.WaitingForKind? || call.cleanup.Drained? || call.cleanup.Deleting?
       case _ => false
  }

  ghost predicate Safe(s: State, name: string) {
    forall c :: c in s.calls ==> !MayStillDelete(s.calls[c], name)
  }

  /** The run goes on: no new call, no new cancellation, and nobody asks for this cluster to be deleted. */
  ghost predicate GoesOn(run: seq<State>, steps: seq<Step>, run': seq<State>, steps': seq<Step>, name: string) {
    && IsRun(run', steps') && run <= run' && steps <= steps'
    && forall i :: |steps| <= i < |steps'| ==> Harmless(steps'[i], name)
  }

  predicate Harmless(step: Step, name: string) {
    !step.Begin? && !step.Cancel? && step != DeleteCluster(name)
  }

  lemma HarmlessCallStays(call: Call, step: Step, name: string)
    requires CallInv(call) && CallEnabled(call, step) && !step.Cancel? && !MayStillDelete(call, name)
    ensures !MayStillDelete(CallNext(call, step), name)
    ensures step.CleanupDeleted? ==> call.config.name != name
  {
  }

  lemma SafeStays(s: State, step: Step, name: string)
    requires Inv(s) && Enabled(s, step) && Harmless(step, name) && Safe(s, name) && name in s.clusters
    ensures Safe(Next(s, step), name) && name in Next(s, step).clusters
  {
    var s' := Next(s, step);
    if !OfNoCall(step) {
      assert CallInv(s.calls[step.c]) && !MayStillDelete(s.calls[step.c], name);
      HarmlessCallStays(s.calls[step.c], step, name);
      forall c | c in s'.calls ensures !MayStillDelete(s'.calls[c], name) {
        assert c != step.c ==> c in s.calls && s'.calls[c] == s.calls[c];
      }
    }
  }

  lemma {:induction false} SafeGoesOn(
      run: seq<State>, steps: seq<Step>, run': seq<State>, steps': seq<Step>, name: string, i: nat)
    requires IsRun(run, steps) && GoesOn(run, steps, run', steps', name) && |steps| <= i <= |steps'|
    requires Safe(run[|steps|], name) && name in run[|steps|].clusters
    ensures Safe(run'[i], name) && name in run'[i].clusters
    decreases i
  {
    if i == |steps| {
      assert run'[i] == run[i];
    } else {
      SafeGoesOn(run, steps, run', steps', name, i - 1);
      RunInv(run', steps', i - 1);
      assert Enabled(run'[i - 1], steps'[i - 1]) && run'[i] == Next(run'[i - 1], steps'[i - 1]);
      SafeStays(run'[i - 1], steps'[i - 1], name);
    }
  }

  /** The next step of a call on its way to deleting. */
  lemma NextTowardsDelete(call: Call, c: CallId, name: string) returns (step: Step)
    requires CallInv(call) && MayStillDelete(call, name)
    ensures !OfNoCall(step) && Harmless(step, name) && step.c == c && CallEnabled(call, step)
    ensures step.KindReturns? ==> step.result.KindOther?
    ensures step == CleanupDeleted(c, true) || MayStillDelete(CallNext(call, step), name)
  {
    if call.kind.Running? {
      step := KindReturns(c, KindOther, false);
    } else {
      match call.caller {
        case Entered => step := if call.config.badConfig then RejectConfig(c) else StartKind(c);
        case Selecting => step := SelectDone(c);
        case Deciding(_, _) => step := Decide(c);
        case Done(_) =>
          step := if call.cleanup.WaitingForKind? then CleanupWaitReturns(c)
            else if call.cleanup.Drained? then CleanupDelete(c)
            else CleanupDeleted(c, true);
      }
    }
  }

  lemma {:induction false} DeleteIsReached(run: seq<State>, steps: seq<Step>, c: CallId, name: string)
    returns (run': seq<State>, steps': seq<Step>)
    requires IsRun(run, steps) && c in run[|steps|].calls && MayStillDelete(run[|steps|].calls[c], name)
    ensures GoesOn(run, steps, run', steps', name) && name !in run'[|steps'|].clusters
    decreases Rank(run[|steps|].calls[c])
  {
    var s := run[|steps|];
    RunInv(run, steps, |steps|);
    assert CallInv(s.calls[c]);
    var step := NextTowardsDelete(s.calls[c], c, name);
    var run1, steps1 := Then(run, steps, step);
    if step != CleanupDeleted(c, true) {
      RankFalls(s, step, c);
      run', steps' := DeleteIsReached(run1, steps1, c, name);
      assert steps'[|steps|] == step;
    } else {
      run', steps' := run1, steps1;
    }
  }

  /**
   Left to itself, a cluster stays whatever the calls under way still do, exactly
   when none of them is a cancelled one of its name, not told to retain, that has yet
   to delete or may still come to that.
   */
  lemma SafeExactly(run: seq<State>, steps: seq<Step>, name: string)
    requires IsRun(run, steps) && name in run[|steps|].clusters
    ensures (forall run': seq<State>, steps': seq<Step> ::
        GoesOn(run, steps, run', steps', name) ==> name in run'[|steps'|].clusters)
      <==> Safe(run[|steps|], name)
  {
    if Safe(run[|steps|], name) {
      forall run': seq<State>, steps': seq<Step> | GoesOn(run, steps, run', steps', name)
        ensures name in run'[|steps'|].clusters
      {
        SafeGoesOn(run, steps, run', steps', name, |steps'|);
      }
    } else {
      var c :| c in run[|steps|].calls && MayStillDelete(run[|steps|].calls[c], name);
      var run', steps' := DeleteIsReached(run, steps, c, name);
    }
  }

  predicate CreatedOrFound(call: Call) {
    call.kind == Ended(KindOk) || call.kind == Ended(KindExists)
  }

  lemma AnsweredBefore(s: State, step: Step, c: CallId)
    requires Inv(s) && Enabled(s, step) && c in Next(s, step).calls && CreatedOrFound(Next(s, step).calls[c])
    ensures (c in s.calls && CreatedOrFound(s.calls[c]) && Next(s, step).calls[c].config == s.calls[c].config)
      || (step.KindReturns? && step.c == c && Next(s, step).calls[c].config.name in Next(s, step).clusters)
  {
    if c in s.calls {
      assert CallInv(s.calls[c]);
    }
  }

  /** The step in which Kind answered a call. */
  lemma {:induction false} KindAnswered(run: seq<State>, steps: seq<Step>, e: nat, c: CallId) returns (b: nat)
    requires IsRun(run, steps) && e < |run| && c in run[e].calls && CreatedOrFound(run[e].calls[c])
    ensures b < e && steps[b].KindReturns? && steps[b].c == c && run[e].calls[c].config.name in run[b + 1].clusters
    decreases e
  {
    RunInv(run, steps, e - 1);
    assert Enabled(run[e - 1], steps[e - 1]) && run[e] == Next(run[e - 1], steps[e - 1]);
    AnsweredBefore(run[e - 1], steps[e - 1], c);
    if c in run[e - 1].calls && CreatedOrFound(run[e - 1].calls[c]) {
      b := KindAnswered(run, steps, e - 1, c);
    } else {
      b := e - 1;
    }
  }

  /**
   When a create has succeeded, its cluster can be missing only because someone
   deleted it, or the cleanup of another, cancelled call of that name removed it
   after Kind had answered.
   */
  lemma CreatedClusterIsLostToOthers(run: seq<State>, steps: seq<Step>, i: nat, c: CallId) returns (b: nat)
    requires IsRun(run, steps) && i < |run| && c in run[i].calls && run[i].calls[c].caller == Done(Success)
    requires run[i].calls[c].config.name !in run[i].clusters
    ensures b < i && steps[b].KindReturns? && steps[b].c == c
    ensures DeletedBetween(steps, b + 1, i, run[i].calls[c].config.name)
      || exists d {:trigger RemovedSince(run, b + 1, i, d, run[i].calls[c].config.name)} ::
        d != c && RemovedSince(run, b + 1, i, d, run[i].calls[c].config.name)
  {
    OutcomeIsKindsAnswer(run, steps, i, c);
    b := KindAnswered(run, steps, i, c);
    OnlyCleanupRemoves(run, steps, b + 1, i, run[i].calls[c].config.name);
  }

  function Two(first: Call, second: Call, clusters: set<string>): State {
    State(map[0 := first, 1 := second], map[], 1, clusters)
  }

  /** One more step of the second of two calls. */
  lemma ExtendSecond(
      run: seq<State>, steps: seq<Step>, step: Step,
      first: Call, second: Call, clusters: set<string>, second': Call, clusters': set<string>)
    returns (run': seq<State>, steps': seq<Step>)
    requires IsRun(run, steps) && run[|steps|] == Two(first, second, clusters) && first.cleanup.Deleting?
    requires CallInv(second) && !second.cancelled
    requires !OfNoCall(step) && !step.Begin? && step.c == 1 && !step.Cancel?
      && Enabled(Two(first, second, clusters), step)
    requires second' == CallNext(second, step) && clusters' == ClustersAfter(Two(first, second, clusters), step)
    requires !step.CleanupExits? && !step.CleanupDeleted?
    ensures IsRun(run', steps') && run'[|steps'|] == Two(first, second', clusters') && run <= run' && run'[0] == run[0]
    ensures steps' == steps + [step]
  {
    run', steps' := Then(run, steps, step);
  }

  /** A cancelled call whose cleanup is about to delete. */
  lemma CleanupDeletes(cfg: Config) returns (run: seq<State>, steps: seq<Step>, call: Call)
    requires !cfg.retainOnFail && !cfg.badConfig
    ensures IsRun(run, steps) && run[|steps|] == Lone(call, 1, {}) && NoDeletes(steps) && run[0].clusters == {}
    ensures call.config == cfg && call.cleanup.Deleting?
  {
    var j, first;
    run, steps, j, first := CancelledReturnsEarly(cfg, {});
    var ended := first.(kind := Ended(KindOther), channel := Some(KindOther));
    run, steps := Extend(run, steps, KindReturns(0, KindOther, false), first, 1, {}, ended, 1, {});
    run, steps, call := CleanupStarts(run, steps, ended, {});
  }

  /** Beside it, a second call of the same name has its Kind running. */
  lemma SecondStarts(cfg: Config) returns (run: seq<State>, steps: seq<Step>, first: Call, second: Call)
    requires !cfg.retainOnFail && !cfg.badConfig
    ensures IsRun(run, steps) && run[|steps|] == Two(first, second, {}) && NoDeletes(steps) && run[0].clusters == {}
    ensures first.config == cfg && first.cleanup.Deleting?
    ensures second == NewCall(cfg).(caller := Selecting, kind := Running)
  {
    run, steps, first := CleanupDeletes(cfg);
    var entered := NewCall(cfg);
    second := entered.(caller := Selecting, kind := Running);
    run, steps := Then(run, steps, Begin(1, cfg));
    assert run[|steps|] == Two(first, entered, {});
    run, steps := ExtendSecond(run, steps, StartKind(1), first, entered, {}, second, {});
  }

  /** Kind creates the cluster of the second call. */
  lemma SecondCreated(run: seq<State>, steps: seq<Step>, first: Call, cfg: Config)
    returns (run': seq<State>, steps': seq<Step>, second': Call)
    requires !cfg.badConfig && first.cleanup.Deleting? && NoDeletes(steps) && IsRun(run, steps)
    requires run[|steps|] == Two(first, NewCall(cfg).(caller := Selecting, kind := Running), {})
    ensures IsRun(run', steps') && run <= run' && NoDeletes(steps') && run'[|steps'|] == Two(first, second', {cfg.name})
    ensures second' == NewCall(cfg).(kind := Ended(KindOk), caller := Deciding(NoError, Noop)) && |steps| < |steps'|
  {
    var running := NewCall(cfg).(caller := Selecting, kind := Running);
    var answered := running.(kind := Ended(KindOk), channel := Some(KindOk));
    second' := answered.(channel := None, caller := Deciding(NoError, Noop));
    run', steps' := ExtendSecond(run, steps, KindReturns(1, KindOk, true), first, running, {}, answered, {cfg.name});
    run', steps' := ExtendSecond(run', steps', SelectResult(1), first, answered, {cfg.name}, second', {cfg.name});
  }

  /** It has nothing to wait for. */
  lemma SecondWaits(run: seq<State>, steps: seq<Step>, first: Call, deciding: Call, clusters: set<string>)
    returns (run': seq<State>, steps': seq<Step>, second': Call)
    requires first.cleanup.Deleting? && NoDeletes(steps) && IsRun(run, steps)
    requires run[|steps|] == Two(first, deciding, clusters)
    requires deciding.caller == Deciding(NoError, Noop) && CallInv(deciding) && !deciding.cancelled
    ensures IsRun(run', steps') && run <= run' && NoDeletes(steps') && run'[|steps'|] == Two(first, second', clusters)
    ensures second'.caller == Finishing(Success) && CallInv(second') && !second'.cancelled && |steps| < |steps'|
  {
    var waiting := deciding.(caller := Waiting(Noop, Success));
    second' := waiting.(caller := Finishing(Success), waits := waiting.waits + 1);
    run', steps' := ExtendSecond(run, steps, Decide(1), first, deciding, clusters, waiting, clusters);
    run', steps' := ExtendSecond(run', steps', WaitReturns(1), first, waiting, clusters, second', clusters);
  }

  /**
   The cleanup of one call waits for that call's Kind only: it may be deleting while
   Kind works for a second call of the same name, which then succeeds and loses its
   cluster.
   */
  lemma CleanupCanHitAnotherCreate(cfg: Config) returns (run: seq<State>, steps: seq<Step>, i: nat)
    requires !cfg.retainOnFail && !cfg.badConfig
    ensures IsRun(run, steps) && i < |steps| && NoDeletes(steps)
    ensures 0 in run[i].calls && run[i].calls[0].cleanup.Deleting?
    ensures 1 in run[i].calls && run[i].calls[1].kind.Running? && run[i].calls[1].config == cfg
    ensures 1 in run[|steps|].calls && run[|steps|].calls[1].caller == Done(Success)
    ensures cfg.name !in run[|steps|].clusters
  {
    var first, second;
    run, steps, first, second := SecondStarts(cfg);
    i := |steps|;
    assert run[i] == Two(first, second, {});
    run, steps, second := SecondCreated(run, steps, first, cfg);
    run, steps, second := SecondWaits(run, steps, first, second, {cfg.name});
    run, steps := ExtendSecond(run, steps, Return(1), first, second, {cfg.name}, ReturnCall(second), {cfg.name});
    run, steps := Then(run, steps, CleanupDeleted(0, true));
  }
}
