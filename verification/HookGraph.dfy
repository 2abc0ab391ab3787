/**
 The `after` graph of one hook phase: chains, cycles, and the length of the
 longest chain. This is what the scheduler in HookScheduler.dfy is proved
 against; nothing here mentions its worklist.
 */
module HookGraph {
  import opened Names
  import opened SpecTypes

  type Tasks = map<string, Task>

  function Phase(tasks: Tasks, on: TaskOn): set<string> {
    set n | n in tasks && tasks[n].on == on
  }

  /** `n` waits for `d`, both in the phase. */
  predicate WaitsFor(tasks: Tasks, on: TaskOn, n: string, d: string) {
    n in Phase(tasks, on) && d in Phase(tasks, on) && d in tasks[n].after
  }

  /** On the tasks' own fields: both are hooks of the phase, and the one lists the other. */
  lemma WaitsForMeaning(tasks: Tasks, on: TaskOn, n: string, d: string)
    ensures WaitsFor(tasks, on, n, d)
      <==> n in tasks && d in tasks && tasks[n].on == on && tasks[d].on == on && d in tasks[n].after
    ensures n in Phase(tasks, on) <==> n in tasks && tasks[n].on == on
  {
  }

  /** `p` starts at `n`, and each task on it waits for the next. */
  ghost predicate ChainFrom(tasks: Tasks, on: TaskOn, n: string, p: seq<string>) {
    && 0 < |p| && p[0] == n && n in Phase(tasks, on)
    && forall i :: 0 <= i < |p| - 1 ==> WaitsFor(tasks, on, p[i], p[i + 1])
  }

  ghost predicate OnCycle(tasks: Tasks, on: TaskOn, n: string) {
    exists c :: ChainFrom(tasks, on, n, c) && 1 < |c| && c[|c| - 1] == n
  }

  /** A cycle is reachable from `n` through `after`. */
  ghost predicate ReachesCycle(tasks: Tasks, on: TaskOn, n: string) {
    exists p :: ChainFrom(tasks, on, n, p) && OnCycle(tasks, on, p[|p| - 1])
  }

  ghost predicate Acyclic(tasks: Tasks, on: TaskOn) {
    forall n :: n in Phase(tasks, on) ==> !OnCycle(tasks, on, n)
  }

  /** `w` is the number of edges on the longest chain from `n`. */
  ghost predicate LongestChain(tasks: Tasks, on: TaskOn, n: string, w: int) {
    && (exists p :: ChainFrom(tasks, on, n, p) && |p| == w + 1)
    && (forall p :: ChainFrom(tasks, on, n, p) ==> |p| <= w + 1)
  }

  /** `weights` gives every task of the phase, and no other, the length of its longest chain. */
  ghost predicate PhaseWeights(tasks: Tasks, on: TaskOn, weights: map<string, int>) {
    && weights.Keys == Phase(tasks, on)
    && forall n {:trigger LongestChain(tasks, on, n, weights[n])} :: n in weights ==>
      LongestChain(tasks, on, n, weights[n])
  }

  // ----- what the worklist establishes locally, and why it means the above -----

  /** Everything in `weights` waits only for lighter tasks in `weights`, one of them exactly one lighter. */
  ghost predicate Ranked(tasks: Tasks, on: TaskOn, weights: map<string, int>) {
    && weights.Keys <= Phase(tasks, on)
    && forall n {:trigger RankedAt(tasks, on, weights, n)} :: n in weights ==> RankedAt(tasks, on, weights, n)
  }

  ghost predicate RankedAt(tasks: Tasks, on: TaskOn, weights: map<string, int>, n: string)
    requires n in weights
  {
    && 0 <= weights[n]
    && (forall d :: WaitsFor(tasks, on, n, d) ==> d in weights && weights[d] < weights[n])
    && (0 < weights[n] ==> exists d :: WaitsFor(tasks, on, n, d) && d in weights && weights[d] == weights[n] - 1)
  }

  lemma {:induction false} RankedBoundsChains(
      tasks: Tasks, on: TaskOn, weights: map<string, int>, n: string, p: seq<string>)
    requires Ranked(tasks, on, weights) && n in weights && ChainFrom(tasks, on, n, p)
    ensures |p| <= weights[n] + 1
    ensures p[|p| - 1] in weights
    ensures 1 < |p| ==> weights[p[|p| - 1]] < weights[n]
    decreases |p|
  {
    assert RankedAt(tasks, on, weights, n);
    if 1 < |p| {
      assert WaitsFor(tasks, on, p[0], p[1]);
      forall i | 0 <= i < |p[1..]| - 1 ensures WaitsFor(tasks, on, p[1..][i], p[1..][i + 1]) {
        assert WaitsFor(tasks, on, p[i + 1], p[i + 1 + 1]);
      }
      RankedBoundsChains(tasks, on, weights, p[1], p[1..]);
    }
  }

  lemma {:induction false} RankedHasChain(tasks: Tasks, on: TaskOn, weights: map<string, int>, n: string)
    returns (p: seq<string>)
    requires Ranked(tasks, on, weights) && n in weights
    ensures ChainFrom(tasks, on, n, p) && |p| == weights[n] + 1
    decreases weights[n]
  {
    assert RankedAt(tasks, on, weights, n);
    if weights[n] == 0 {
      p := [n];
    } else {
      var d :| WaitsFor(tasks, on, n, d) && d in weights && weights[d] == weights[n] - 1;
      var q := RankedHasChain(tasks, on, weights, d);
      p := [n] + q;
    }
  }

  /** A ranking gives longest-chain lengths, and nothing it covers can reach a cycle. */
  lemma RankedIsLongest(tasks: Tasks, on: TaskOn, weights: map<string, int>, n: string)
    requires Ranked(tasks, on, weights) && n in weights
    ensures LongestChain(tasks, on, n, weights[n])
    ensures !ReachesCycle(tasks, on, n)
  {
    var q := RankedHasChain(tasks, on, weights, n);
    forall p | ChainFrom(tasks, on, n, p) ensures |p| <= weights[n] + 1 && !OnCycle(tasks, on, p[|p| - 1]) {
      RankedBoundsChains(tasks, on, weights, n, p);
      var m := p[|p| - 1];
      forall c | ChainFrom(tasks, on, m, c) && 1 < |c| ensures c[|c| - 1] != m {
        RankedBoundsChains(tasks, on, weights, m, c);
      }
    }
  }

  /** `n` waits for some task of `stuck`. */
  ghost predicate WaitsInside(tasks: Tasks, on: TaskOn, stuck: set<string>, n: string) {
    exists d :: d in stuck && WaitsFor(tasks, on, n, d)
  }

  ghost predicate AllWaitInside(tasks: Tasks, on: TaskOn, stuck: set<string>) {
    && stuck <= Phase(tasks, on)
    && forall m {:trigger WaitsInside(tasks, on, stuck, m)} :: m in stuck ==> WaitsInside(tasks, on, stuck, m)
  }

  /** From a set in which every task waits for another one of the set there is a chain of any length inside it. */
  lemma {:induction false} LongChain(tasks: Tasks, on: TaskOn, stuck: set<string>, n: string, edges: nat)
    returns (p: seq<string>)
    requires AllWaitInside(tasks, on, stuck) && n in stuck
    ensures ChainFrom(tasks, on, n, p) && |p| == edges + 1
    ensures forall m :: m in p ==> m in stuck
    decreases edges
  {
    if edges == 0 {
      p := [n];
    } else {
      assert WaitsInside(tasks, on, stuck, n);
      var d :| d in stuck && WaitsFor(tasks, on, n, d);
      var q := LongChain(tasks, on, stuck, d, edges - 1);
      p := [n] + q;
    }
  }

  lemma ChainSlice(tasks: Tasks, on: TaskOn, n: string, p: seq<string>, i: nat, j: nat)
    requires ChainFrom(tasks, on, n, p) && i < j <= |p|
    ensures ChainFrom(tasks, on, p[i], p[i..j])
  {
    if i + 1 < |p| {
      assert WaitsFor(tasks, on, p[i], p[i + 1]);
    }
    if 0 < i {
      assert WaitsFor(tasks, on, p[i - 1], p[i - 1 + 1]);
    }
    forall k | 0 <= k < |p[i..j]| - 1 ensures WaitsFor(tasks, on, p[i..j][k], p[i..j][k + 1]) {
      assert WaitsFor(tasks, on, p[i + k], p[i + k + 1]);
    }
  }

  /** A chain with a repeated task runs into a cycle. */
  lemma RepeatIsCycle(tasks: Tasks, on: TaskOn, n: string, p: seq<string>, i: nat, j: nat)
    requires ChainFrom(tasks, on, n, p) && i < j < |p| && p[i] == p[j]
    ensures ReachesCycle(tasks, on, n)
  {
    ChainSlice(tasks, on, n, p, i, j + 1);
    var c := p[i..j + 1];
    assert c[|c| - 1] == p[j];
    assert OnCycle(tasks, on, p[i]);
    ChainSlice(tasks, on, n, p, 0, i + 1);
    assert p[0..i + 1][|p[0..i + 1]| - 1] == p[i];
  }

  /** A finite set in which every task waits for another one of the set runs into a cycle. */
  lemma StuckReachesCycle(tasks: Tasks, on: TaskOn, stuck: set<string>, n: string)
    requires AllWaitInside(tasks, on, stuck) && n in stuck
    ensures ReachesCycle(tasks, on, n)
  {
    var p := LongChain(tasks, on, stuck, n, |stuck|);
    var i, j := Pigeonhole(p, stuck);
    RepeatIsCycle(tasks, on, n, p, i, j);
  }

  // ----- what the weights mean to a caller -----

  lemma LongestChainUnique(tasks: Tasks, on: TaskOn, n: string, v: int, w: int)
    requires LongestChain(tasks, on, n, v) && LongestChain(tasks, on, n, w)
    ensures v == w
  {
  }

  /** The weights are determined by the tasks: map order cannot change them. */
  lemma PhaseWeightsUnique(tasks: Tasks, on: TaskOn, v: map<string, int>, w: map<string, int>)
    requires PhaseWeights(tasks, on, v) && PhaseWeights(tasks, on, w)
    ensures v == w
  {
    forall n | n in v ensures v[n] == w[n] {
      LongestChainUnique(tasks, on, n, v[n], w[n]);
    }
  }

  /** A dependency is strictly lighter than its dependent. */
  lemma DependencyIsLighter(tasks: Tasks, on: TaskOn, n: string, d: string, weight: int, dependencyWeight: int)
    requires WaitsFor(tasks, on, n, d)
    requires LongestChain(tasks, on, n, weight) && LongestChain(tasks, on, d, dependencyWeight)
    ensures dependencyWeight < weight
  {
    var p :| ChainFrom(tasks, on, d, p) && |p| == dependencyWeight + 1;
    assert ChainFrom(tasks, on, n, [n] + p);
  }

  /** No assignment that puts dependencies first is smaller anywhere. */
  lemma {:induction false} WeightsAreLeast(
      tasks: Tasks, on: TaskOn, weights: map<string, int>, other: map<string, int>, n: string)
    requires PhaseWeights(tasks, on, weights) && n in weights
    requires other.Keys == Phase(tasks, on) && (forall m :: m in other ==> 0 <= other[m])
    requires forall m, d :: WaitsFor(tasks, on, m, d) ==> other[d] < other[m]
    ensures weights[n] <= other[n]
  {
    assert LongestChain(tasks, on, n, weights[n]);
    var p :| ChainFrom(tasks, on, n, p) && |p| == weights[n] + 1;
    ChainRaises(tasks, on, other, n, p);
  }

  lemma {:induction false} ChainRaises(tasks: Tasks, on: TaskOn, other: map<string, int>, n: string, p: seq<string>)
    requires other.Keys == Phase(tasks, on) && (forall m :: m in other ==> 0 <= other[m])
    requires forall m, d :: WaitsFor(tasks, on, m, d) ==> other[d] < other[m]
    requires ChainFrom(tasks, on, n, p)
    ensures |p| <= other[n] + 1
    decreases |p|
  {
    if 1 < |p| {
      assert WaitsFor(tasks, on, p[0], p[0 + 1]);
      ChainSlice(tasks, on, n, p, 1, |p|);
      assert p[1..|p|] == p[1..];
      ChainRaises(tasks, on, other, p[1], p[1..]);
    }
  }

  /** Every weight is below the number of tasks in the phase. */
  lemma WeightsBelowCount(tasks: Tasks, on: TaskOn, weights: map<string, int>, n: string)
    requires PhaseWeights(tasks, on, weights) && Acyclic(tasks, on) && n in weights
    ensures 0 <= weights[n] < |Phase(tasks, on)|
  {
    assert LongestChain(tasks, on, n, weights[n]);
    assert ChainFrom(tasks, on, n, [n]);
    var p :| ChainFrom(tasks, on, n, p) && |p| == weights[n] + 1;
    if |Phase(tasks, on)| < |p| {
      forall m | m in p ensures m in Phase(tasks, on) {
        var k :| 0 <= k < |p| && p[k] == m;
        ChainSlice(tasks, on, n, p, k, k + 1);
      }
      var i, j := Pigeonhole(p, Phase(tasks, on));
      RepeatIsCycle(tasks, on, n, p, i, j);
      assert false;
    }
  }

  /** Same phases and the same `after` sets, whatever their order and repeats. */
  ghost predicate SameAfterSets(tasks: Tasks, tasks': Tasks) {
    && tasks.Keys == tasks'.Keys
    && forall n :: n in tasks ==> tasks[n].on == tasks'[n].on && Members(tasks[n].after) == Members(tasks'[n].after)
  }

  lemma SameAfterSetsWaitsFor(tasks: Tasks, tasks': Tasks, on: TaskOn, n: string, d: string)
    requires SameAfterSets(tasks, tasks')
    ensures WaitsFor(tasks, on, n, d) <==> WaitsFor(tasks', on, n, d)
  {
    if n in tasks {
      assert d in tasks[n].after <==> d in Members(tasks[n].after);
      assert d in tasks'[n].after <==> d in Members(tasks'[n].after);
    }
  }

  lemma SameAfterSetsChain(tasks: Tasks, tasks': Tasks, on: TaskOn, n: string, p: seq<string>)
    requires SameAfterSets(tasks, tasks') && ChainFrom(tasks, on, n, p)
    ensures ChainFrom(tasks', on, n, p)
  {
    forall i | 0 <= i < |p| - 1 ensures WaitsFor(tasks', on, p[i], p[i + 1]) {
      SameAfterSetsWaitsFor(tasks, tasks', on, p[i], p[i + 1]);
    }
  }

  /** Reordering or repeating `after` entries changes no weight. */
  lemma AfterOrderIsIrrelevant(tasks: Tasks, tasks': Tasks, on: TaskOn, weights: map<string, int>)
    requires SameAfterSets(tasks, tasks') && PhaseWeights(tasks, on, weights)
    ensures PhaseWeights(tasks', on, weights)
  {
    assert Phase(tasks', on) == Phase(tasks, on);
    forall n | n in weights ensures LongestChain(tasks', on, n, weights[n]) {
      assert LongestChain(tasks, on, n, weights[n]);
      var p :| ChainFrom(tasks, on, n, p) && |p| == weights[n] + 1;
      SameAfterSetsChain(tasks, tasks', on, n, p);
      forall q | ChainFrom(tasks', on, n, q) ensures |q| <= weights[n] + 1 {
        SameAfterSetsChain(tasks', tasks, on, n, q);
      }
    }
  }

  /** A cycle is exactly what keeps a phase from having weights. */
  lemma CycleHasNoWeights(tasks: Tasks, on: TaskOn, n: string, w: int)
    requires OnCycle(tasks, on, n)
    ensures !LongestChain(tasks, on, n, w)
  {
    if LongestChain(tasks, on, n, w) {
      var c :| ChainFrom(tasks, on, n, c) && 1 < |c| && c[|c| - 1] == n;
      var p :| ChainFrom(tasks, on, n, p) && |p| == w + 1;
      var q := c[..|c| - 1] + p;
      forall i | 0 <= i < |q| - 1 ensures WaitsFor(tasks, on, q[i], q[i + 1]) {
        if i < |c| - 1 {
          assert WaitsFor(tasks, on, c[i], c[i + 1]);
        } else {
          var k := i - (|c| - 1);
          assert WaitsFor(tasks, on, p[k], p[k + 1]);
        }
      }
      assert ChainFrom(tasks, on, n, q);
    }
  }
}
