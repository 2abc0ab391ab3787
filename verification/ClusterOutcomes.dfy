/**
 What a create returns: over every run, from the configuration, what Kind answered
 and whether the call was cancelled.
 */
module ClusterOutcomes {
  import opened ClusterLifecycle

  /** An outcome a call with this configuration may have after what Kind did. */
  predicate Earned(call: Call, outcome: Outcome) {
    match outcome
    case Success => call.kind == Ended(KindOk) || (call.kind == Ended(KindExists) && call.config.createIfMissing)
    case Cancelled => call.cancelled
    case Failure(BadConfig) => call.config.badConfig
    case Failure(FromKind(r)) =>
      call.kind == Ended(r) && !r.KindOk? && !(r.KindExists? && call.config.createIfMissing)
    case Failure(_) => false
  }

  predicate OutcomeInv(call: Call) {
    match call.caller
    case Deciding(NoError, _) => call.kind == Ended(KindOk)
    case Deciding(BadConfig, _) => call.config.badConfig
    case Deciding(FromKind(r), _) => call.kind == Ended(r) && !r.KindOk?
    case Deciding(ContextDone, _) => call.cancelled
    case Waiting(_, outcome) => Earned(call, outcome)
    case Finishing(outcome) => Earned(call, outcome)
    case Done(outcome) => Earned(call, outcome)
    case _ => true
  }

  lemma OutcomeInvKept(call: Call, step: Step)
    requires CallInv(call) && OutcomeInv(call) && CallEnabled(call, step)
    ensures OutcomeInv(CallNext(call, step))
  {
  }

  lemma {:induction false} RunOutcome(run: seq<State>, steps: seq<Step>, i: nat, c: CallId)
    requires IsRun(run, steps) && i < |run| && c in run[i].calls
    ensures OutcomeInv(run[i].calls[c])
    decreases i
  {
    var s, step := run[i - 1], steps[i - 1];
    assert Enabled(s, step) && run[i] == Next(s, step);
    if c in s.calls {
      RunOutcome(run, steps, i - 1, c);
      RunInv(run, steps, i - 1);
      assert CallInv(s.calls[c]);
      if !OfNoCall(step) && step.c == c {
        OutcomeInvKept(s.calls[c], step);
      }
    }
  }

  /**
   A call succeeds only when Kind created the cluster, or found it and the call was
   told that this will do. It is cancelled only when it was. It fails only with what
   Kind answered or with a rejected configuration, and never when Kind created the
   cluster or found it and that would do.
   */
  lemma OutcomeIsKindsAnswer(run: seq<State>, steps: seq<Step>, i: nat, c: CallId)
    requires IsRun(run, steps) && i < |run| && c in run[i].calls && run[i].calls[c].caller.Done?
    ensures var call := run[i].calls[c]; match call.caller.outcome
      case Success => call.kind == Ended(KindOk) || (call.kind == Ended(KindExists) && call.config.createIfMissing)
      case Cancelled => call.cancelled
      case Failure(cause) =>
        || (cause == BadConfig && call.config.badConfig && call.kind.NotStarted?)
        || (cause == FromKind(KindOther) && call.kind == Ended(KindOther))
        || (cause == FromKind(KindExists) && call.kind == Ended(KindExists) && !call.config.createIfMissing)
  {
    RunOutcome(run, steps, i, c);
    RunInv(run, steps, i);
    assert CallInv(run[i].calls[c]);
  }

  /** So a call that is not cancelled has just one outcome. */
  lemma UncancelledOutcome(run: seq<State>, steps: seq<Step>, i: nat, c: CallId)
    requires IsRun(run, steps) && i < |run| && c in run[i].calls && run[i].calls[c].caller.Done?
    requires !run[i].calls[c].cancelled
    ensures var call := run[i].calls[c]; var outcome := call.caller.outcome;
      && (call.config.badConfig ==> outcome == Failure(BadConfig))
      && (!call.config.badConfig ==> call.kind.Ended? && match call.kind.result
          case KindOk => outcome == Success
          case KindExists => outcome == if call.config.createIfMissing then Success else Failure(FromKind(KindExists))
          case KindOther => outcome == Failure(FromKind(KindOther)))
  {
    OutcomeIsKindsAnswer(run, steps, i, c);
    RunInv(run, steps, i);
    assert CallInv(run[i].calls[c]);
  }

  // ----- what was decided stands -----

  /** The call is on its way to this outcome, or has it. */
  predicate HeadsFor(call: Call, outcome: Outcome) {
    match call.caller
    case Waiting(_, o) => o == outcome
    case Finishing(o) => o == outcome
    case Done(o) => o == outcome
    case _ => false
  }

  lemma HeadsForKept(call: Call, step: Step, outcome: Outcome)
    requires CallEnabled(call, step) && HeadsFor(call, outcome)
    ensures HeadsFor(CallNext(call, step), outcome)
  {
  }

  lemma {:induction false} RunHeadsFor(
      run: seq<State>, steps: seq<Step>, b: nat, e: nat, c: CallId, outcome: Outcome)
    requires IsRun(run, steps) && b <= e < |run| && c in run[b].calls && HeadsFor(run[b].calls[c], outcome)
    ensures c in run[e].calls && HeadsFor(run[e].calls[c], outcome)
    decreases e
  {
    if b < e {
      RunHeadsFor(run, steps, b, e - 1, c, outcome);
      var s, step := run[e - 1], steps[e - 1];
      assert Enabled(s, step) && run[e] == Next(s, step);
      if !OfNoCall(step) && !step.Begin? && step.c == c {
        HeadsForKept(s.calls[c], step, outcome);
      }
    }
  }

  /**
   The outcome is settled in the step in which the call decides: success, or an
   existing cluster that will do, comes before a cancellation, and a cancellation
   before any other error.
   */
  lemma DecisionStands(run: seq<State>, steps: seq<Step>, b: nat, e: nat, c: CallId)
    requires IsRun(run, steps) && b < e < |run| && steps[b] == Decide(c)
    requires c in run[e].calls && run[e].calls[c].caller.Done?
    ensures c in run[b].calls && run[b].calls[c].caller.Deciding?
    ensures var call := run[b].calls[c]; var outcome := run[e].calls[c].caller.outcome; match call.caller.err
      case NoError => outcome == Success
      case BadConfig => outcome == if call.cancelled then Cancelled else Failure(BadConfig)
      case ContextDone => outcome == Cancelled
      case FromKind(KindExists) =>
        outcome == if call.config.createIfMissing then Success
          else if call.cancelled then Cancelled else Failure(FromKind(KindExists))
      case FromKind(r) => outcome == if call.cancelled then Cancelled else Failure(FromKind(r))
  {
    RunInv(run, steps, b);
    RunOutcome(run, steps, b, c);
    assert Enabled(run[b], steps[b]) && run[b + 1] == Next(run[b], steps[b]);
    var after := run[b + 1].calls[c];
    var outcome := if after.caller.Waiting? then after.caller.outcome else Cancelled;
    assert HeadsFor(after, outcome);
    RunHeadsFor(run, steps, b + 1, e, c, outcome);
  }

  /** The error a received answer of Kind is turned into is decided upon next, or was. */
  predicate Follows(call: Call, r: KindResult) {
    match call.caller
    case Deciding(err, _) => err == if r.KindOk? then NoError else FromKind(r)
    case Waiting(_, o) => AnswerGives(call, r, o)
    case Finishing(o) => AnswerGives(call, r, o)
    case Done(o) => AnswerGives(call, r, o)
    case _ => false
  }

  predicate AnswerGives(call: Call, r: KindResult, outcome: Outcome) {
    if r.KindOk? || (r.KindExists? && call.config.createIfMissing) then outcome == Success
    else (outcome == Cancelled && call.cancelled) || outcome == Failure(FromKind(r))
  }

  lemma FollowsKept(call: Call, step: Step, r: KindResult)
    requires CallEnabled(call, step) && Follows(call, r)
    ensures Follows(CallNext(call, step), r) && CallNext(call, step).config == call.config
  {
  }

  lemma {:induction false} RunFollows(run: seq<State>, steps: seq<Step>, b: nat, e: nat, c: CallId, r: KindResult)
    requires IsRun(run, steps) && b <= e < |run| && c in run[b].calls && Follows(run[b].calls[c], r)
    ensures c in run[e].calls && Follows(run[e].calls[c], r)
    decreases e
  {
    if b < e {
      RunFollows(run, steps, b, e - 1, c, r);
      var s, step := run[e - 1], steps[e - 1];
      assert Enabled(s, step) && run[e] == Next(s, step);
      if !OfNoCall(step) && !step.Begin? && step.c == c {
        FollowsKept(s.calls[c], step, r);
      }
    }
  }

  /**
   A call that has received Kind's answer returns just that: a created cluster, or
   one found that will do, is a success whatever is cancelled meanwhile, and anything
   else is that very error unless the call is cancelled.
   */
  lemma ReceivedAnswerDecides(run: seq<State>, steps: seq<Step>, b: nat, e: nat, c: CallId)
    requires IsRun(run, steps) && b < e < |run| && steps[b] == SelectResult(c)
    requires c in run[e].calls && run[e].calls[c].caller.Done?
    ensures c in run[b].calls && run[b].calls[c].channel.Some?
    ensures var r, call := run[b].calls[c].channel.value, run[e].calls[c]; var outcome := call.caller.outcome;
      if r == KindOk || (r == KindExists && call.config.createIfMissing) then outcome == Success
      else (outcome == Cancelled && call.cancelled) || outcome == Failure(FromKind(r))
  {
    assert Enabled(run[b], steps[b]) && run[b + 1] == Next(run[b], steps[b]);
    var r := run[b].calls[c].channel.value;
    assert Follows(run[b + 1].calls[c], r);
    RunFollows(run, steps, b + 1, e, c, r);
  }
}
