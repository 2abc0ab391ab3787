/**
 Numbers that end up in 32-bit fields: the Job a task runs as, and the failure
 threshold of a liveness probe.
 */
module BoundedNumbers {
  import opened Wrappers

  const MAX_INT32: int := 0x7fff_ffff

  /** Go's int32(n): the low 32 bits, read as a signed number. */
  function Int32(n: int): (r: int)
    ensures -MAX_INT32 - 1 <= r <= MAX_INT32
    ensures -MAX_INT32 - 1 <= n <= MAX_INT32 <==> r == n
  {
    (n + MAX_INT32 + 1) % 0x1_0000_0000 - MAX_INT32 - 1
  }

  // ----- the Job of a task -----

  const MAX_FANOUT_PARALLELISM: int := 100_000
  const DEFAULT_BACKOFF_LIMIT: int := 3

  datatype Fanout = Fanout(count: int, parallelism: int) {
    function EffectiveCount(): int {
      if count <= 0 then 1 else count
    }

    function EffectiveParallelism(): int {
      if parallelism <= 0 then 1 else parallelism
    }
  }

  /** The numeric part of a task; a timeout is the text of a duration, empty when there is none. */
  datatype JobTask = JobTask(fanout: Fanout, backoffLimit: Option<int>, ttl: Option<int>, timeout: string)

  datatype JobSpec = JobSpec(completions: int, parallelism: int, backoffLimit: int,
      ttl: Option<int>, deadline: Option<int>)

  /** `ParseDuration`: whole seconds of a positive duration. */
  type Durations = string -> Option<nat>

  predicate Fits(n: int) {
    0 <= n <= MAX_INT32
  }

  /** `toInt32`. */
  function ToInt32(n: int): Option<int> {
    if n < 0 || n > MAX_INT32 then None else Some(Int32(n))
  }

  function Count(task: JobTask, count: int): int {
    if count < 1 then task.fanout.EffectiveCount() else count
  }

  function Parallelism(task: JobTask, parallelism: int): int {
    if parallelism < 1 then task.fanout.EffectiveParallelism() else parallelism
  }

  /** What a Job needs: every number within its field, and a timeout that can be read. */
  predicate JobFits(task: JobTask, count: int, parallelism: int, durations: Durations) {
    && Parallelism(task, parallelism) <= MAX_FANOUT_PARALLELISM
    && Fits(Count(task, count))
    && (task.backoffLimit.Some? ==> Fits(task.backoffLimit.value))
    && (task.ttl.Some? ==> Fits(task.ttl.value))
    && (task.timeout != "" ==> durations(task.timeout).Some?)
  }

  /** In terms of the task's own numbers: counts below one read as one, and zero is a limit like any other. */
  lemma JobFitsMeaning(task: JobTask, durations: Durations)
    ensures JobFits(task, 0, 0, durations) <==>
      && task.fanout.parallelism <= 100_000 && task.fanout.count <= 0x7fff_ffff
      && (task.backoffLimit.Some? ==> 0 <= task.backoffLimit.value <= 0x7fff_ffff)
      && (task.ttl.Some? ==> 0 <= task.ttl.value <= 0x7fff_ffff)
      && (task.timeout == "" || durations(task.timeout).Some?)
  {
  }

  /** `NewTaskJobSpec`: it succeeds exactly when the numbers fit, and narrows none of them. */
  method NewTaskJobSpec(task: JobTask, count: int, parallelism: int, durations: Durations) returns (r: Option<JobSpec>)
    ensures r.Some? <==> JobFits(task, count, parallelism, durations)
    ensures r.Some? ==>
      && r.value.completions
        == (if 1 <= count then count else if 1 <= task.fanout.count then task.fanout.count else 1)
      && 1 <= r.value.parallelism <= r.value.completions && r.value.parallelism <= MAX_FANOUT_PARALLELISM
      && (var asked := if 1 <= parallelism then parallelism
            else if 1 <= task.fanout.parallelism then task.fanout.parallelism else 1;
          r.value.parallelism == if asked <= r.value.completions then asked else r.value.completions)
      && r.value.backoffLimit == (if task.backoffLimit.Some? then task.backoffLimit.value else DEFAULT_BACKOFF_LIMIT)
      && r.value.ttl == task.ttl
      && r.value.deadline == (if task.timeout == "" then None else durations(task.timeout))
  {
    var n, p := count, parallelism;
    if n < 1 {
      n := task.fanout.EffectiveCount();
    }
    if p < 1 {
      p := task.fanout.EffectiveParallelism();
    }
    if p > MAX_FANOUT_PARALLELISM {
      return None;
    }
    if p > n {
      p := n;
    }
    var backoff := DEFAULT_BACKOFF_LIMIT;
    if task.backoffLimit.Some? {
      backoff := task.backoffLimit.value;
    }
    var completions32, backoff32 := ToInt32(n), ToInt32(backoff);
    if completions32.None? || backoff32.None? {
      return None;
    }
    var out := JobSpec(completions32.value, Int32(p), backoff32.value, None, None);
    if task.ttl.Some? {
      var ttl32 := ToInt32(task.ttl.value);
      if ttl32.None? {
        return None;
      }
      out := out.(ttl := ttl32);
    }
    if task.timeout != "" {
      var seconds := durations(task.timeout);
      if seconds.None? {
        return None;
      }
      out := out.(deadline := Some(seconds.value));
    }
    r := Some(out);
  }

  datatype NumberFault =
    | CountOutOfRange
    | ParallelismTooLarge
    | ParallelismAboveCount
    | BackoffOutOfRange
    | TtlOutOfRange
    | BadTimeout

  predicate IsNumberFault(task: JobTask, durations: Durations, f: NumberFault) {
    match f
    case CountOutOfRange => !Fits(task.fanout.EffectiveCount())
    case ParallelismTooLarge => task.fanout.EffectiveParallelism() > MAX_FANOUT_PARALLELISM
    case ParallelismAboveCount => task.fanout.EffectiveParallelism() > task.fanout.EffectiveCount()
    case BackoffOutOfRange => task.backoffLimit.Some? && !Fits(task.backoffLimit.value)
    case TtlOutOfRange => task.ttl.Some? && !Fits(task.ttl.value)
    case BadTimeout => task.timeout != "" && durations(task.timeout).None?
  }

  /** The numeric checks of `validateTask`. */
  method ValidateNumbers(task: JobTask, durations: Durations) returns (errs: seq<NumberFault>)
    ensures forall f :: f in errs <==> IsNumberFault(task, durations, f)
  {
    errs := [];
    var count, parallelism := task.fanout.EffectiveCount(), task.fanout.EffectiveParallelism();
    if ToInt32(count).None? {
      errs := errs + [CountOutOfRange];
    }
    if parallelism > MAX_FANOUT_PARALLELISM {
      errs := errs + [ParallelismTooLarge];
    }
    if parallelism > count {
      errs := errs + [ParallelismAboveCount];
    }
    if task.backoffLimit.Some? && ToInt32(task.backoffLimit.value).None? {
      errs := errs + [BackoffOutOfRange];
    }
    if task.ttl.Some? && ToInt32(task.ttl.value).None? {
      errs := errs + [TtlOutOfRange];
    }
    if task.timeout != "" && durations(task.timeout).None? {
      errs := errs + [BadTimeout];
    }
  }

  /**
   An accepted task becomes a Job as it stands; the only check a Job does not need
   is that parallelism stays below the count.
   */
  lemma AcceptedTaskFits(task: JobTask, durations: Durations)
    ensures (forall f :: !IsNumberFault(task, durations, f))
      <==> JobFits(task, 0, 0, durations) && Parallelism(task, 0) <= Count(task, 0)
  {
    if JobFits(task, 0, 0, durations) && Parallelism(task, 0) <= Count(task, 0) {
      forall f ensures !IsNumberFault(task, durations, f) {
      }
    } else {
      var f := if Count(task, 0) > MAX_INT32 then CountOutOfRange
        else if Parallelism(task, 0) > MAX_FANOUT_PARALLELISM then ParallelismTooLarge
        else if Parallelism(task, 0) > Count(task, 0) then ParallelismAboveCount
        else if task.backoffLimit.Some? && !Fits(task.backoffLimit.value) then BackoffOutOfRange
        else if task.ttl.Some? && !Fits(task.ttl.value) then TtlOutOfRange
        else BadTimeout;
      assert IsNumberFault(task, durations, f);
    }
  }

  // ----- the liveness probe -----

  const SECOND: int := 1_000_000_000
  const DEFAULT_PERIOD: int := 10
  const DEFAULT_RESTART_AFTER: int := 60

  /** A duration in nanoseconds, as `time.ParseDuration` reads it. */
  type Nanoseconds = string -> Option<int>

  /** `ParseDuration`: an error unless positive, cut down to whole seconds. */
  function Seconds(ns: Option<int>): Option<nat> {
    if ns.None? || ns.value <= 0 then None else Some(ns.value / SECOND)
  }

  /** The value in effect: an unreadable duration, or one below a second, falls back to the default. */
  function InEffect(ns: Option<int>, default: int): int {
    if Seconds(ns).None? || Seconds(ns).value <= 0 then default else Seconds(ns).value
  }

  function CeilDiv(a: int, b: int): int
    requires 0 < b
  {
    (a + b - 1) / b
  }

  datatype Probe = Probe(period: int, threshold: int)

  function Min(a: int, b: int): int {
    if a <= b then a else b
  }

  function Max(a: int, b: int): int {
    if a <= b then b else a
  }

  function Given(text: string, default: string): string {
    if text == "" then default else text
  }

  /** The numbers of `buildLivenessProbe`. */
  function BuildLivenessProbe(interval: string, restartAfter: string, parse: Nanoseconds): Probe {
    var i := InEffect(parse(Given(interval, "10s")), DEFAULT_PERIOD);
    var s := InEffect(parse(Given(restartAfter, "60s")), DEFAULT_RESTART_AFTER);
    Probe(Int32(i), Int32(Min(Max(CeilDiv(s, i), 1), MAX_INT32)))
  }

  lemma CeilDivMeaning(a: int, b: int)
    requires 0 < b
    ensures (CeilDiv(a, b) - 1) * b < a <= CeilDiv(a, b) * b
    ensures a % b == 0 ==> CeilDiv(a, b) * b == a
  {
    var q := CeilDiv(a, b);
    assert a + b - 1 == q * b + (a + b - 1) % b;
    assert (q - 1) * b == q * b - b;
    if a % b == 0 {
      RestBelow(a / b, q, b);
    }
  }

  lemma MulMonotone(x: int, y: int, b: nat)
    requires y <= x
    ensures y * b <= x * b
  {
    assert (x - y) * b == x * b - y * b;
  }

  lemma LessFromMul(x: int, y: int, b: int)
    requires 0 < b && x * b < y * b
    ensures x < y
  {
    if y <= x {
      MulMonotone(x, y, b);
    }
  }

  /** A multiple of b that is less than b below another one is that one. */
  lemma RestBelow(k: int, q: int, b: int)
    requires 0 < b && q * b - b < k * b <= q * b
    ensures k == q
  {
    assert (q - 1) * b == q * b - b && (q + 1) * b == q * b + b;
    LessFromMul(q - 1, k, b);
    LessFromMul(k, q + 1, b);
  }

  /**
   The probe restarts within one interval of the seconds asked for, unless the
   threshold is cut at the 32-bit limit.
   */
  lemma ThresholdCoversSeconds(i: int, s: int)
    requires 0 < i && 0 < s
    ensures 1 <= Min(Max(CeilDiv(s, i), 1), MAX_INT32) <= MAX_INT32
    ensures CeilDiv(s, i) <= MAX_INT32 ==>
      var t := Min(Max(CeilDiv(s, i), 1), MAX_INT32);
      t == CeilDiv(s, i) && (t - 1) * i < s <= t * i
  {
    CeilDivMeaning(s, i);
  }

  lemma MultipleHasNoRest(q: int, b: int)
    requires 0 < b
    ensures (q * b) % b == 0
  {
    var d := (q * b) / b;
    assert q * b == d * b + (q * b) % b;
    assert (d + 1) * b == d * b + b && (d - 1) * b == d * b - b;
    LessFromMul(q, d + 1, b);
    LessFromMul(d - 1, q, b);
  }

  /** The time after which the pod is restarted, in nanoseconds. */
  function Window(probe: Probe): int {
    probe.period * probe.threshold * SECOND
  }

  /** Whole seconds, or no multiple of the interval: cutting off the fraction is made up for by rounding up. */
  predicate FractionMadeUpFor(i: int, ns: int)
    requires 0 < i
  {
    ns % SECOND == 0 || (ns / SECOND) % i != 0
  }

  lemma CeilingCovers(i: int, ns: int)
    requires 0 < i && SECOND <= ns
    ensures ns <= CeilDiv(ns / SECOND, i) * i * SECOND <==> FractionMadeUpFor(i, ns)
  {
    var s := ns / SECOND;
    CeilDivMeaning(s, i);
    var window := CeilDiv(s, i) * i;
    assert ns == s * SECOND + ns % SECOND;
    if s % i == 0 {
      assert window == s;
    } else {
      MultipleHasNoRest(CeilDiv(s, i), i);
      assert s + 1 <= window;
      assert (s + 1) * SECOND <= window * SECOND;
    }
  }

  /** The threshold is cut at the limit exactly when the seconds are more than the limit's worth of intervals. */
  lemma ClampMeaning(i: int, s: int)
    requires 0 < i && 0 < s
    ensures CeilDiv(s, i) <= MAX_INT32 <==> s <= MAX_INT32 * i
    ensures 1 <= CeilDiv(s, i)
  {
    var q := CeilDiv(s, i);
    CeilDivMeaning(s, i);
    if q <= MAX_INT32 {
      MulMonotone(MAX_INT32, q, i);
    } else {
      MulMonotone(q - 1, MAX_INT32, i);
    }
    if q <= 0 {
      MulMonotone(0, q, i);
    }
  }

  /** An interval that does not fit its field comes out shorter than a third of itself. */
  lemma WrappedInterval(i: int)
    requires MAX_INT32 < i
    ensures 3 * Int32(i) < i
  {
  }

  /** A wrapped interval never covers a request at least as long as it was meant to be. */
  lemma WrappedFallsShort(i: int, s: int, t: int)
    requires MAX_INT32 < i <= s && 1 <= t <= CeilDiv(s, i)
    ensures Int32(i) * t < s
  {
    var p, q := Int32(i), CeilDiv(s, i);
    WrappedInterval(i);
    CeilDivMeaning(s, i);
    if p <= 0 {
      MulMonotone(t, 1, -p);
    } else {
      MulMonotone(q, t, p);
      if q == 1 {
        assert p * q == p;
      } else {
        ProductBelow(p, i, q);
      }
    }
  }

  lemma ProductBelow(p: int, i: int, q: int)
    requires 0 < 2 * p < i && 2 <= q
    ensures p * q <= (q - 1) * i
  {
    MulMonotone(i, 2 * p, q - 1);
    assert 2 * p * (q - 1) == p * (2 * q - 2);
    MulMonotone(2 * q - 2, q, p);
  }

  lemma TimesSecond(a: int, ns: int)
    requires a < ns / SECOND
    ensures a * SECOND < ns
  {
  }

  /** The window a request of `ns` gets at an interval of `i` whole seconds. */
  lemma WindowAt(i: int, ns: int)
    requires 0 < i && SECOND <= ns
    ensures var s := ns / SECOND;
      var probe := Probe(Int32(i), Int32(Min(Max(CeilDiv(s, i), 1), MAX_INT32)));
      ns <= Window(probe) <==>
        if i <= MAX_INT32 then s <= MAX_INT32 * i && FractionMadeUpFor(i, ns)
        else s < i && ns <= Int32(i) * SECOND
  {
    var s := ns / SECOND;
    var t := Min(Max(CeilDiv(s, i), 1), MAX_INT32);
    ClampMeaning(i, s);
    if MAX_INT32 < i {
      if i <= s {
        WrappedFallsShort(i, s, t);
        TimesSecond(Int32(i) * t, ns);
      } else {
        assert (s + i - 1) / i == 1 by {
          CeilDivMeaning(s, i);
          LessFromMul(CeilDiv(s, i) - 1, 1, i);
        }
        assert t == 1;
      }
    } else if CeilDiv(s, i) <= MAX_INT32 {
      CeilingCovers(i, ns);
      assert t * i == i * t;
    } else {
      TimesSecond(i * MAX_INT32, ns);
    }
  }

  /**
   The restart window is meant never to be shorter than requested. For durations of a
   second or more it is at least as long exactly when the request is not too long for
   the threshold's field and its fraction of a second, if any, is made up for; with an
   interval too long for its field, only when the wrapped interval alone covers it.
   */
  lemma WindowCoversRequest(interval: string, restartAfter: string, parse: Nanoseconds)
    requires parse(Given(interval, "10s")).Some? && SECOND <= parse(Given(interval, "10s")).value
    requires parse(Given(restartAfter, "60s")).Some? && SECOND <= parse(Given(restartAfter, "60s")).value
    ensures var ns := parse(Given(restartAfter, "60s")).value;
      var i, s := parse(Given(interval, "10s")).value / SECOND, ns / SECOND;
      ns <= Window(BuildLivenessProbe(interval, restartAfter, parse)) <==>
        if i <= MAX_INT32 then s <= MAX_INT32 * i && FractionMadeUpFor(i, ns)
        else s < i && ns <= Int32(i) * SECOND
  {
    WindowAt(parse(Given(interval, "10s")).value / SECOND, parse(Given(restartAfter, "60s")).value);
  }

  /** A duration that cannot be read, or is below a second, reads as the default; any other as its whole seconds. */
  lemma InEffectMeaning(ns: Option<int>, default: int)
    ensures ns.None? || ns.value < SECOND ==> InEffect(ns, default) == default
    ensures ns.Some? && SECOND <= ns.value ==>
      InEffect(ns, default) * SECOND <= ns.value < InEffect(ns, default) * SECOND + SECOND
  {
  }

  /** Without durations: every ten seconds, and a restart after six failures. */
  lemma DefaultProbe(parse: Nanoseconds)
    requires parse("10s").None? || parse("10s") == Some(10 * SECOND)
    requires parse("60s").None? || parse("60s") == Some(60 * SECOND)
    ensures BuildLivenessProbe("", "", parse) == Probe(10, 6)
  {
    assert CeilDiv(60, 10) == 6;
  }

  /** 10.5 seconds at an interval of 10: the pod is restarted after 10. */
  lemma ShortWindow(parse: Nanoseconds)
    requires parse("10s") == Some(10 * SECOND) && parse("10500ms") == Some(10 * SECOND + SECOND / 2)
    ensures BuildLivenessProbe("10s", "10500ms", parse) == Probe(10, 1)
    ensures Window(Probe(10, 1)) < 10 * SECOND + SECOND / 2
  {
    assert CeilDiv(10, 10) == 1;
    assert (10 * SECOND + SECOND / 2) / SECOND == 10;
  }

  /** 2147483648 seconds at an interval of one: the threshold is cut, and the pod is restarted a second early. */
  lemma ClampedWindow(parse: Nanoseconds)
    requires parse("1s") == Some(SECOND) && parse("2147483648s") == Some((MAX_INT32 + 1) * SECOND)
    ensures BuildLivenessProbe("1s", "2147483648s", parse) == Probe(1, MAX_INT32)
    ensures Window(Probe(1, MAX_INT32)) < (MAX_INT32 + 1) * SECOND
  {
    assert (MAX_INT32 + 1) * SECOND / SECOND == MAX_INT32 + 1;
    assert CeilDiv(MAX_INT32 + 1, 1) == MAX_INT32 + 1;
  }
}
