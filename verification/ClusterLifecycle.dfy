/**
 Creating a local cluster under cancellation. Each `Create` call runs beside the
 Kind create it cannot stop, hands over a wait function, and may leave a cleanup
 goroutine behind; `Close` waits for those. The protocol is a state machine
 whose steps are the points where these goroutines can interleave.
 */
module ClusterLifecycle {
  import opened Wrappers

  type CallId = nat
  type CloseId = nat

  /** What Kind's own create ends with, as `classifyKindErr` sorts it. */
  datatype KindResult = KindOk | KindExists | KindOther

  /** What the provider's `create` returns beside the wait function. */
  datatype ProviderResult = NoError | BadConfig | FromKind(result: KindResult) | ContextDone

  /** `func() {}` (also standing for nil), or the function that receives from the one-slot channel. */
  datatype WaitFunc = Noop | Drain

  datatype Outcome = Success | Cancelled | Failure(cause: ProviderResult)

  datatype Event = Started | Completed | Failed

  datatype Config = Config(name: string, badConfig: bool, createIfMissing: bool, retainOnFail: bool)

  datatype Caller =
    | Entered
    | Selecting
    | Deciding(err: ProviderResult, wait: WaitFunc)
    | Waiting(wait: WaitFunc, outcome: Outcome)
    | Finishing(outcome: Outcome)
    | Done(outcome: Outcome)

  datatype Kind = NotStarted | Running | Ended(result: KindResult)

  datatype Cleanup = NoCleanup | WaitingForKind(wait: WaitFunc) | Drained | Deleting | Deleted(ok: bool)
      | Exited(ok: bool)

  /**
   One `Create` call: the caller, its Kind goroutine and channel, its cleanup
   goroutine, and what can be observed of it.
   */
  datatype Call = Call(
    config: Config,
    caller: Caller,
    cancelled: bool,
    kind: Kind,
    channel: Option<KindResult>,
    cleanup: Cleanup,
    waits: nat,
    events: seq<Event>)

  datatype Closer = Blocked(returnedBefore: set<CallId>) | Closed(returnedBefore: set<CallId>)

  /** `wg` is the manager's WaitGroup counter, `clusters` the clusters there are. */
  datatype State = State(calls: map<CallId, Call>, closers: map<CloseId, Closer>, wg: int, clusters: set<string>)

  datatype Step =
    | Begin(c: CallId, config: Config)
    | Cancel(c: CallId)
    | RejectConfig(c: CallId)
    | StartKind(c: CallId)
    | KindReturns(c: CallId, result: KindResult, leavesCluster: bool)
    | SelectResult(c: CallId)
    | SelectDone(c: CallId)
    | Decide(c: CallId)
    | WaitReturns(c: CallId)
    | Return(c: CallId)
    | CleanupWaitReturns(c: CallId)
    | CleanupDelete(c: CallId)
    | CleanupDeleted(c: CallId, ok: bool)
    | CleanupExits(c: CallId)
    | CloseBegin(k: CloseId)
    | CloseReturns(k: CloseId)
    /** `Delete`, also as the first half of `Recreate`: it removes a cluster whatever calls are under way. */
    | DeleteCluster(name: string)

  // ----- the steps of one call -----

  function NewCall(config: Config): Call {
    Call(config, Entered, false, NotStarted, None, NoCleanup, 0, [Started])
  }

  /** A wait function can return: always, or once a value can be received. */
  predicate WaitReady(call: Call, wait: WaitFunc) {
    wait.Drain? ==> call.channel.Some?
  }

  function AfterWait(call: Call, wait: WaitFunc): Call {
    call.(waits := call.waits + 1, channel := if wait.Drain? then None else call.channel)
  }

  /** The branches after the provider's `create` failed. */
  function DecideCall(call: Call): Call
    requires call.caller.Deciding?
  {
    var err, wait := call.caller.err, call.caller.wait;
    if err == NoError then
      call.(caller := Waiting(wait, Success))
    else if err == FromKind(KindExists) && call.config.createIfMissing then
      call.(caller := Waiting(wait, Success))
    else if call.cancelled then
      var failed := call.(events := call.events + [Failed]);
      if call.config.retainOnFail then failed.(caller := Waiting(wait, Cancelled))
      else failed.(caller := Done(Cancelled), cleanup := WaitingForKind(wait))
    else
      call.(caller := Waiting(wait, Failure(err)))
  }

  /** After the wait function: success and plain failure emit their event; a cancelled call has emitted its own. */
  function ReturnCall(call: Call): Call
    requires call.caller.Finishing?
  {
    var outcome := call.caller.outcome;
    var events := match outcome
      case Success => call.events + [Completed]
      case Failure(_) => call.events + [Failed]
      case Cancelled => call.events;
    call.(caller := Done(outcome), events := events)
  }

  predicate CallEnabled(call: Call, step: Step) {
    match step
    case Cancel(_) => true
    case RejectConfig(_) => call.caller.Entered? && call.config.badConfig
    case StartKind(_) => call.caller.Entered? && !call.config.badConfig
    // Sending to the channel needs room in it.
    case KindReturns(_, _, _) => call.kind.Running? && call.channel.None?
    case SelectResult(_) => call.caller.Selecting? && call.channel.Some?
    case SelectDone(_) => call.caller.Selecting? && call.cancelled
    case Decide(_) => call.caller.Deciding?
    case WaitReturns(_) => call.caller.Waiting? && WaitReady(call, call.caller.wait)
    case Return(_) => call.caller.Finishing?
    case CleanupWaitReturns(_) => call.cleanup.WaitingForKind? && WaitReady(call, call.cleanup.wait)
    case CleanupDelete(_) => call.cleanup.Drained?
    case CleanupDeleted(_, _) => call.cleanup.Deleting?
    case CleanupExits(_) => call.cleanup.Deleted?
    case _ => false
  }

  function CallNext(call: Call, step: Step): Call
    requires CallEnabled(call, step)
  {
    match step
    case Cancel(_) => call.(cancelled := true)
    case RejectConfig(_) => call.(caller := Deciding(BadConfig, Noop))
    case StartKind(_) => call.(caller := Selecting, kind := Running)
    case KindReturns(_, r, _) => call.(kind := Ended(r), channel := Some(r))
    case SelectResult(_) =>
      var r := call.channel.value;
      call.(channel := None, caller := Deciding(if r.KindOk? then NoError else FromKind(r), Noop))
    case SelectDone(_) => call.(caller := Deciding(ContextDone, Drain))
    case Decide(_) => DecideCall(call)
    case WaitReturns(_) => AfterWait(call, call.caller.wait).(caller := Finishing(call.caller.outcome))
    case Return(_) => ReturnCall(call)
    case CleanupWaitReturns(_) => AfterWait(call, call.cleanup.wait).(cleanup := Drained)
    case CleanupDelete(_) => call.(cleanup := Deleting)
    case CleanupDeleted(_, ok) => call.(cleanup := Deleted(ok))
    case CleanupExits(_) => call.(cleanup := Exited(call.cleanup.ok))
  }

  // ----- the steps of the whole system -----

  /** The steps that belong to no call. */
  predicate OfNoCall(step: Step) {
    step.CloseBegin? || step.CloseReturns? || step.DeleteCluster?
  }

  predicate Enabled(s: State, step: Step) {
    match step
    case Begin(c, _) => c !in s.calls
    case CloseBegin(k) => k !in s.closers
    case DeleteCluster(_) => true
    // WaitGroup.Wait returns when it sees the counter at zero.
    case CloseReturns(k) => k in s.closers && s.closers[k].Blocked? && s.wg == 0
    case KindReturns(c, r, _) =>
      && c in s.calls && CallEnabled(s.calls[c], step)
      && (r.KindExists? ==> s.calls[c].config.name in s.clusters)
    case _ => step.c in s.calls && CallEnabled(s.calls[step.c], step)
  }

  function Returned(s: State): set<CallId> {
    set c | c in s.calls && s.calls[c].caller.Done?
  }

  /** `wg.Go` in the caller's step, the goroutine's deferred `Done` in its last one. */
  function WaitGroupAfter(s: State, step: Step): int
    requires Enabled(s, step)
  {
    if step.Decide? && DecideCall(s.calls[step.c]).cleanup.WaitingForKind? then s.wg + 1
    else if step.CleanupExits? then s.wg - 1
    else s.wg
  }

  /** Kind may leave a cluster behind even when it fails; it never adds one when it finds one there. */
  function ClustersAfter(s: State, step: Step): set<string>
    requires Enabled(s, step)
  {
    match step
    case KindReturns(c, KindOk, _) => s.clusters + {s.calls[c].config.name}
    case KindReturns(c, KindOther, true) => s.clusters + {s.calls[c].config.name}
    case CleanupDeleted(c, true) => s.clusters - {s.calls[c].config.name}
    case _ => s.clusters
  }

  function Next(s: State, step: Step): State
    requires Enabled(s, step)
  {
    if step.Begin? then s.(calls := s.calls[step.c := NewCall(step.config)])
    else if step.CloseBegin? then s.(closers := s.closers[step.k := Blocked(Returned(s))])
    else if step.CloseReturns? then s.(closers := s.closers[step.k := Closed(s.closers[step.k].returnedBefore)])
    else if step.DeleteCluster? then s.(clusters := s.clusters - {step.name})
    else
      var call := CallNext(s.calls[step.c], step);
      State(s.calls[step.c := call], s.closers, WaitGroupAfter(s, step), ClustersAfter(s, step))
  }

  predicate Init(s: State) {
    s.calls == map[] && s.closers == map[] && s.wg == 0
  }

  /** `run` lists the states of a run, `steps` the steps between them. */
  ghost predicate IsRun(run: seq<State>, steps: seq<Step>) {
    && |run| == |steps| + 1 && Init(run[0])
    && forall i :: 0 <= i < |steps| ==> Enabled(run[i], steps[i]) && run[i + 1] == Next(run[i], steps[i])
  }

  // ----- the invariant of one call -----

  /** The value Kind sent is in the channel until someone receives it, and nobody else is left to receive it then. */
  predicate ChannelInv(call: Call) {
    && (call.channel.Some? ==> call.kind == Ended(call.channel.value))
    && (call.kind.NotStarted? <==> call.caller.Entered? || call.config.badConfig)
    && (call.kind.Running? ==> call.channel.None?)
    && (call.caller.Selecting? && call.kind.Ended? ==> call.channel.Some?)
    && (call.caller.Selecting? ==> !call.config.badConfig)
  }

  /** While a draining wait function is still to be called, Kind runs or its value is in the channel. */
  predicate WaitInv(call: Call, wait: WaitFunc) {
    if wait.Drain? then call.kind.Running? || call.channel.Some? else !call.kind.Running?
  }

  predicate CallInv(call: Call) {
    && ChannelInv(call)
    && (match call.caller
        case Entered => call.waits == 0 && call.events == [Started] && call.cleanup.NoCleanup?
        case Selecting => call.waits == 0 && call.events == [Started] && call.cleanup.NoCleanup?
        case Deciding(err, wait) =>
          && call.waits == 0 && call.events == [Started] && call.cleanup.NoCleanup? && WaitInv(call, wait)
          && (err.ContextDone? ==> call.cancelled)
        case Waiting(wait, outcome) =>
          && call.waits == 0 && call.cleanup.NoCleanup? && WaitInv(call, wait)
          && call.events == (if outcome.Cancelled? then [Started, Failed] else [Started])
          && (outcome.Cancelled? ==> call.cancelled && call.config.retainOnFail)
        case Finishing(outcome) =>
          && call.waits == 1 && call.cleanup.NoCleanup? && !call.kind.Running?
          && call.events == (if outcome.Cancelled? then [Started, Failed] else [Started])
          && (outcome.Cancelled? ==> call.cancelled && call.config.retainOnFail)
        case Done(outcome) =>
          && call.events == [Started, if outcome.Success? then Completed else Failed]
          && (call.cleanup.NoCleanup? <==> !(outcome.Cancelled? && !call.config.retainOnFail))
          && (outcome.Cancelled? ==> call.cancelled)
          && (match call.cleanup
              case WaitingForKind(wait) => call.waits == 0 && WaitInv(call, wait)
              case _ => call.waits == 1 && !call.kind.Running?))
  }

  lemma CallInvKept(call: Call, step: Step)
    requires CallInv(call) && CallEnabled(call, step)
    ensures CallInv(CallNext(call, step))
  {
  }

  // ----- the invariant of the system -----

  predicate Live(call: Call) {
    !call.cleanup.NoCleanup? && !call.cleanup.Exited?
  }

  function LiveIn(calls: map<CallId, Call>): set<CallId> {
    set c | c in calls && Live(calls[c])
  }

  function LiveCalls(s: State): set<CallId> {
    LiveIn(s.calls)
  }

  lemma LiveInUpdate(calls: map<CallId, Call>, c: CallId, call: Call)
    ensures LiveIn(calls[c := call]) == if Live(call) then LiveIn(calls) + {c} else LiveIn(calls) - {c}
    ensures c in LiveIn(calls) <==> c in calls && Live(calls[c])
  {
  }

  /** A call `Close` has to account for: it returned before, so its cleanup has been spawned if it ever will be. */
  predicate Settled(s: State, k: Closer) {
    && k.returnedBefore <= Returned(s)
    && (k.Closed? ==> forall c :: c in k.returnedBefore ==> c in s.calls && !Live(s.calls[c]))
  }

  ghost predicate Inv(s: State) {
    && (forall c :: c in s.calls ==> CallInv(s.calls[c]))
    && s.wg == |LiveCalls(s)|
    && (forall k :: k in s.closers ==> Settled(s, s.closers[k]))
  }

  /** What one step does to the live cleanups is what it does to the WaitGroup counter. */
  lemma LiveCallsAfter(s: State, step: Step)
    requires Enabled(s, step) && forall c :: c in s.calls ==> CallInv(s.calls[c])
    ensures |LiveCalls(Next(s, step))|
      == |LiveCalls(s)| + (if OfNoCall(step) || step.Begin? then 0 else WaitGroupAfter(s, step) - s.wg)
  {
    if OfNoCall(step) {
      assert Next(s, step).calls == s.calls;
    } else if step.Begin? {
      LiveInUpdate(s.calls, step.c, NewCall(step.config));
    } else {
      LiveInUpdate(s.calls, step.c, CallNext(s.calls[step.c], step));
      LiveAfter(s.calls[step.c], step);
    }
  }

  lemma LiveAfter(call: Call, step: Step)
    requires CallInv(call) && CallEnabled(call, step)
    ensures step.CleanupExits? ==> Live(call) && !Live(CallNext(call, step))
    ensures step.Decide? && DecideCall(call).cleanup.WaitingForKind? ==> !Live(call) && Live(CallNext(call, step))
    ensures !step.CleanupExits? && !(step.Decide? && DecideCall(call).cleanup.WaitingForKind?)
      ==> Live(call) == Live(CallNext(call, step))
  {
  }

  lemma CallsKept(s: State, step: Step)
    requires Inv(s) && Enabled(s, step)
    ensures forall c :: c in Next(s, step).calls ==> CallInv(Next(s, step).calls[c])
  {
    var s' := Next(s, step);
    forall c | c in s'.calls ensures CallInv(s'.calls[c]) {
      if c in s.calls && !OfNoCall(step) && step.c == c {
        CallInvKept(s.calls[c], step);
      }
    }
  }

  /** A call that has returned and left no live cleanup never gets one. */
  lemma QuietStays(s: State, step: Step, c: CallId)
    requires Inv(s) && Enabled(s, step) && c in Returned(s) && !Live(s.calls[c])
    ensures c in Next(s, step).calls && !Live(Next(s, step).calls[c])
  {
    assert CallInv(s.calls[c]);
  }

  lemma SettledKept(s: State, step: Step, k: CloseId)
    requires Inv(s) && Enabled(s, step) && k in s.closers
    requires !(step.CloseReturns? && k == step.k) && !(step.CloseBegin? && k == step.k)
    ensures Settled(Next(s, step), s.closers[k])
  {
    ReturnedGrows(s, step);
    assert Settled(s, s.closers[k]);
    if s.closers[k].Closed? {
      forall c | c in s.closers[k].returnedBefore ensures c in Next(s, step).calls && !Live(Next(s, step).calls[c]) {
        QuietStays(s, step, c);
      }
    }
  }

  /** `Close` returns only when no cleanup of a call it waits for is live. */
  lemma ClosedIsSettled(s: State, k: CloseId)
    requires Inv(s) && Enabled(s, CloseReturns(k))
    ensures Settled(Next(s, CloseReturns(k)), Next(s, CloseReturns(k)).closers[k])
  {
    var s' := Next(s, CloseReturns(k));
    assert Settled(s, s.closers[k]);
    assert LiveCalls(s) == {};
    forall c | c in s'.closers[k].returnedBefore ensures c in s'.calls && !Live(s'.calls[c]) {
      assert c in Returned(s) && c !in LiveCalls(s);
    }
  }

  lemma InvKept(s: State, step: Step)
    requires Inv(s) && Enabled(s, step)
    ensures Inv(Next(s, step))
  {
    var s' := Next(s, step);
    LiveCallsAfter(s, step);
    CallsKept(s, step);
    forall k | k in s'.closers ensures Settled(s', s'.closers[k]) {
      if step.CloseReturns? && k == step.k {
        ClosedIsSettled(s, k);
      } else if !(step.CloseBegin? && k == step.k) {
        SettledKept(s, step, k);
      }
    }
  }

  lemma ReturnedGrows(s: State, step: Step)
    requires Enabled(s, step)
    ensures Returned(s) <= Returned(Next(s, step))
  {
  }

  lemma {:induction false} RunInv(run: seq<State>, steps: seq<Step>, i: nat)
    requires IsRun(run, steps) && i < |run|
    ensures Inv(run[i])
  {
    if i == 0 {
      assert LiveCalls(run[0]) == {};
    } else {
      RunInv(run, steps, i - 1);
      InvKept(run[i - 1], steps[i - 1]);
    }
  }

  // ----- safety over every run -----

  /** From the moment a call's cleanup may start its delete, that call's Kind create is not running. */
  lemma DeleteNeverRacesCreate(run: seq<State>, steps: seq<Step>, i: nat, c: CallId)
    requires IsRun(run, steps) && i < |run| && c in run[i].calls
    requires !run[i].calls[c].cleanup.NoCleanup? && !run[i].calls[c].cleanup.WaitingForKind?
    ensures !run[i].calls[c].kind.Running?
  {
    RunInv(run, steps, i);
    assert CallInv(run[i].calls[c]);
  }

  /** Kind's goroutine is never stuck sending: the slot is free whenever it has something to send. */
  lemma SendNeverBlocks(run: seq<State>, steps: seq<Step>, i: nat, c: CallId)
    requires IsRun(run, steps) && i < |run| && c in run[i].calls && run[i].calls[c].kind.Running?
    ensures Enabled(run[i], KindReturns(c, KindOther, false))
  {
    RunInv(run, steps, i);
  }

  /** A call is complete when it has returned and left no goroutine behind. */
  predicate Complete(call: Call) {
    call.caller.Done? && !Live(call)
  }

  /**
   The wait function is called at most once, and exactly once by the time a call is
   complete; Kind has stopped by then.
   */
  lemma WaitCalledOnce(run: seq<State>, steps: seq<Step>, i: nat, c: CallId)
    requires IsRun(run, steps) && i < |run| && c in run[i].calls
    ensures run[i].calls[c].waits <= 1
    ensures Complete(run[i].calls[c]) ==> run[i].calls[c].waits == 1 && !run[i].calls[c].kind.Running?
  {
    RunInv(run, steps, i);
    assert CallInv(run[i].calls[c]);
  }

  /** A call emits Started and then one final event, which agrees with what it returns. */
  lemma OneFinalEvent(run: seq<State>, steps: seq<Step>, i: nat, c: CallId)
    requires IsRun(run, steps) && i < |run| && c in run[i].calls && run[i].calls[c].caller.Done?
    ensures run[i].calls[c].events == [Started, if run[i].calls[c].caller.outcome.Success? then Completed else Failed]
  {
    RunInv(run, steps, i);
    assert CallInv(run[i].calls[c]);
  }

  /** `Close` returns only after the cleanup of every call that had returned when it was called. */
  lemma CloseWaitsForCleanup(run: seq<State>, steps: seq<Step>, b: nat, e: nat, k: CloseId, c: CallId)
    requires IsRun(run, steps) && b < e < |run|
    requires steps[b] == CloseBegin(k) && k in run[e].closers && run[e].closers[k].Closed?
    requires c in run[b].calls && run[b].calls[c].caller.Done?
    ensures c in run[e].calls && Complete(run[e].calls[c])
    ensures run[e].calls[c].cleanup.Exited?
      <==> run[b].calls[c].caller.outcome.Cancelled? && !run[b].calls[c].config.retainOnFail
  {
    RunInv(run, steps, e);
    ClosersRemember(run, steps, b, e, k);
    assert c in Returned(run[b]);
    assert Settled(run[e], run[e].closers[k]);
    ReturnedStays(run, steps, b, e, c);
    assert CallInv(run[e].calls[c]);
  }

  lemma {:induction false} ClosersRemember(run: seq<State>, steps: seq<Step>, b: nat, e: nat, k: CloseId)
    requires IsRun(run, steps) && b < e < |run| && steps[b] == CloseBegin(k)
    ensures k in run[e].closers && run[e].closers[k].returnedBefore == Returned(run[b])
    decreases e
  {
    assert Enabled(run[e - 1], steps[e - 1]) && run[e] == Next(run[e - 1], steps[e - 1]);
    if b + 1 < e {
      ClosersRemember(run, steps, b, e - 1, k);
    }
  }

  lemma {:induction false} ReturnedStays(run: seq<State>, steps: seq<Step>, b: nat, e: nat, c: CallId)
    requires IsRun(run, steps) && b <= e < |run| && c in run[b].calls && run[b].calls[c].caller.Done?
    ensures c in run[e].calls
    ensures run[e].calls[c].caller == run[b].calls[c].caller && run[e].calls[c].config == run[b].calls[c].config
    decreases e
  {
    if b < e {
      ReturnedStays(run, steps, b, e - 1, c);
      assert Enabled(run[e - 1], steps[e - 1]) && run[e] == Next(run[e - 1], steps[e - 1]);
    }
  }

  // ----- progress: no call is ever stuck, and no call goes on forever -----

  /** The work a call has left. */
  function Rank(call: Call): nat {
    (match call.caller
     case Entered => 12
     case Selecting => 10
     case Deciding(_, _) => 8
     case Waiting(_, _) => 3
     case Finishing(_) => 1
     case Done(_) => 0) +
    (if call.kind.Running? then 1 else 0) +
    (match call.cleanup
     case NoCleanup => 0
     case WaitingForKind(_) => 5
     case Drained => 4
     case Deleting => 3
     case Deleted(_) => 2
     case Exited(_) => 1)
  }

  /** The steps a call takes by itself; cancelling is the caller's choice. */
  predicate OwnStep(step: Step, c: CallId) {
    !OfNoCall(step) && !step.Begin? && !step.Cancel? && step.c == c
  }

  /** An incomplete call always has a step it can take: no wait blocks forever. */
  lemma NeverStuck(run: seq<State>, steps: seq<Step>, i: nat, c: CallId) returns (step: Step)
    requires IsRun(run, steps) && i < |run| && c in run[i].calls && !Complete(run[i].calls[c])
    ensures OwnStep(step, c) && Enabled(run[i], step)
  {
    RunInv(run, steps, i);
    var call := run[i].calls[c];
    assert CallInv(call);
    if call.kind.Running? {
      step := KindReturns(c, KindOther, false);
    } else {
      match call.caller {
        case Entered => step := if call.config.badConfig then RejectConfig(c) else StartKind(c);
        case Selecting => step := SelectResult(c);
        case Deciding(_, _) => step := Decide(c);
        case Waiting(_, _) => step := WaitReturns(c);
        case Finishing(_) => step := Return(c);
        case Done(_) =>
          match call.cleanup {
            case WaitingForKind(_) => step := CleanupWaitReturns(c);
            case Drained => step := CleanupDelete(c);
            case Deleting => step := CleanupDeleted(c, false);
            case Deleted(_) => step := CleanupExits(c);
          }
      }
    }
  }

  /** When every call is complete, a blocked `Close` can return. */
  lemma CloseNotStuck(run: seq<State>, steps: seq<Step>, i: nat, k: CloseId)
    requires IsRun(run, steps) && i < |run| && k in run[i].closers && run[i].closers[k].Blocked?
    requires forall c :: c in run[i].calls ==> Complete(run[i].calls[c])
    ensures Enabled(run[i], CloseReturns(k))
  {
    RunInv(run, steps, i);
    assert LiveCalls(run[i]) == {};
  }

  lemma CallRankFalls(call: Call, step: Step)
    requires CallInv(call) && CallEnabled(call, step)
    ensures if step.Cancel? then Rank(CallNext(call, step)) == Rank(call) else Rank(CallNext(call, step)) < Rank(call)
  {
  }

  lemma RankFalls(s: State, step: Step, c: CallId)
    requires Inv(s) && Enabled(s, step) && c in s.calls
    ensures OwnStep(step, c) ==> Rank(Next(s, step).calls[c]) < Rank(s.calls[c])
    ensures !OwnStep(step, c) ==> Rank(Next(s, step).calls[c]) == Rank(s.calls[c])
  {
    if !OfNoCall(step) && !step.Begin? && step.c == c {
      CallRankFalls(s.calls[c], step);
    }
  }

  function OwnSteps(steps: seq<Step>, c: CallId): nat {
    if steps == [] then 0
    else OwnSteps(steps[..|steps| - 1], c) + if OwnStep(steps[|steps| - 1], c) then 1 else 0
  }

  /** In every run a call takes at most twelve steps of its own, whatever the others do. */
  lemma {:induction false} CallsAreFinite(run: seq<State>, steps: seq<Step>, c: CallId)
    requires IsRun(run, steps)
    ensures OwnSteps(steps, c) <= 12
    ensures c in run[|steps|].calls ==> OwnSteps(steps, c) + Rank(run[|steps|].calls[c]) <= 12
    ensures c !in run[|steps|].calls ==> OwnSteps(steps, c) == 0
    decreases |steps|
  {
    if steps != [] {
      var last := |steps| - 1;
      RunPrefix(run, steps);
      CallsAreFinite(run[..|steps|], steps[..last], c);
      RunInv(run, steps, last);
      assert Enabled(run[last], steps[last]) && run[last + 1] == Next(run[last], steps[last]);
      OneStepCounts(run[last], steps[last], c);
    }
  }

  lemma RunPrefix(run: seq<State>, steps: seq<Step>)
    requires IsRun(run, steps) && steps != []
    ensures IsRun(run[..|steps|], steps[..|steps| - 1])
  {
    var run', steps' := run[..|steps|], steps[..|steps| - 1];
    forall j | 0 <= j < |steps'| ensures Enabled(run'[j], steps'[j]) && run'[j + 1] == Next(run'[j], steps'[j]) {
      assert Enabled(run[j], steps[j]);
    }
  }

  /** One step of the system, as one call sees it. */
  lemma OneStepCounts(s: State, step: Step, c: CallId)
    requires Inv(s) && Enabled(s, step)
    ensures c in s.calls ==> c in Next(s, step).calls
    ensures c in s.calls ==> Rank(Next(s, step).calls[c]) + (if OwnStep(step, c) then 1 else 0) <= Rank(s.calls[c])
    ensures c !in s.calls ==> !OwnStep(step, c)
    ensures c !in s.calls && c in Next(s, step).calls ==> Rank(Next(s, step).calls[c]) == 12
  {
    if c in s.calls {
      RankFalls(s, step, c);
    }
  }
}
