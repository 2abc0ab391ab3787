/**
 The hook scheduler: a worklist topological sort that gives each hook task of
 a phase its Helm hook-weight, or reports the tasks a cycle holds back.
 */
module HookScheduler {
  import opened Names
  import opened SpecTypes
  import opened HookGraph

  datatype PhaseResult = Weights(weights: map<string, int>) | Cycle(stuck: seq<string>)

  /** How often `x` occurs in `s`. */
  function Count(s: seq<string>, x: string): (n: nat) {
    if s == [] then 0 else Count(s[..|s| - 1], x) + (if s[|s| - 1] == x then 1 else 0)
  }

  lemma CountAppend(s: seq<string>, y: string, x: string)
    ensures Count(s + [y], x) == Count(s, x) + (if y == x then 1 else 0)
  {
    assert (s + [y])[..|s|] == s;
  }

  lemma {:induction false} CountPositive(s: seq<string>, x: string)
    ensures 0 < Count(s, x) <==> x in s
  {
    if s != [] {
      var last := |s| - 1;
      CountPositive(s[..last], x);
      assert s == s[..last] + [s[last]];
    }
  }

  lemma {:induction false} CountPrefix(s: seq<string>, j: nat, x: string)
    requires j < |s|
    ensures Count(s[..j + 1], x) == Count(s[..j], x) + (if s[j] == x then 1 else 0)
    ensures Count(s[..j + 1], x) <= Count(s, x)
    decreases |s| - j
  {
    assert s[..j + 1] == s[..j] + [s[j]];
    CountAppend(s[..j], s[j], x);
    if j + 1 < |s| {
      CountPrefix(s, j + 1, x);
    } else {
      assert s[..j + 1] == s;
    }
  }

  /** How many entries of `after` name a task still open. Entries count with multiplicity. */
  function Pending(after: seq<string>, open: set<string>): (n: nat) {
    if after == [] then 0
    else Pending(after[..|after| - 1], open) + (if after[|after| - 1] in open then 1 else 0)
  }

  lemma {:induction false} PendingZero(after: seq<string>, open: set<string>)
    ensures Pending(after, open) == 0 <==> forall d :: d in after ==> d !in open
  {
    if after != [] {
      var last := |after| - 1;
      PendingZero(after[..last], open);
      assert after == after[..last] + [after[last]];
    }
  }

  /** Closing one task lowers the count by the number of entries that name it. */
  lemma {:induction false} PendingClose(after: seq<string>, open: set<string>, d: string)
    requires d in open
    ensures Pending(after, open - {d}) == Pending(after, open) - Count(after, d)
  {
    if after != [] {
      var last := |after| - 1;
      PendingClose(after[..last], open, d);
      assert after == after[..last] + [after[last]];
    }
  }

  /** Reading a missing key of a Go map of slices gives the empty slice. */
  function Entry(m: map<string, seq<string>>, k: string): seq<string> {
    if k in m then m[k] else []
  }

  /** The names of the tasks of the phase, sorted. */
  method PhaseNames(tasks: Tasks, on: TaskOn) returns (names: seq<string>)
    ensures IsListing(names, Phase(tasks, on))
  {
    var picked := map n | n in tasks && tasks[n].on == on :: tasks[n];
    names := SortedKeys(picked);
    assert picked.Keys == Phase(tasks, on);
  }

  /** How often `c` is recorded as a dependent of `d`. */
  function Edges(dependents: map<string, seq<string>>, d: string, c: string): nat {
    Count(Entry(dependents, d), c)
  }

  /** `dependents` inverts the lists `after` of the phase, with multiplicity. */
  ghost predicate Inverts(phase: set<string>, after: map<string, seq<string>>, dependents: map<string, seq<string>>) {
    && after.Keys == phase
    && forall d, c {:trigger Edges(dependents, d, c)} :: d in phase ==>
      Edges(dependents, d, c) == if c in phase then Count(after[c], d) else 0
  }

  /** The state of the graph loops when the entries `seen[c]` of each task `c` have been counted. */
  ghost predicate Counted(
    phase: set<string>, seen: map<string, seq<string>>, indegree: map<string, int>,
    dependents: map<string, seq<string>>)
  {
    && indegree.Keys == phase
    && Inverts(phase, seen, dependents)
    && (forall c :: c in phase ==> indegree[c] == Pending(seen[c], phase))
  }

  function Afters(tasks: Tasks, phase: set<string>): map<string, seq<string>>
    requires phase <= tasks.Keys
  {
    map c | c in phase :: tasks[c].after
  }

  lemma PendingAppend(s: seq<string>, x: string, open: set<string>)
    ensures Pending(s + [x], open) == Pending(s, open) + (if x in open then 1 else 0)
  {
    assert (s + [x])[..|s|] == s;
  }

  /** One turn of the inner graph loop: counts the entry `dep` of task `n`. */
  method CountEntry(
    phase: set<string>, ghost seen: map<string, seq<string>>, n: string, dep: string,
    indegree: map<string, int>, dependents: map<string, seq<string>>)
    returns (indegree': map<string, int>, dependents': map<string, seq<string>>)
    requires n in phase && Counted(phase, seen, indegree, dependents)
    ensures Counted(phase, seen[n := seen[n] + [dep]], indegree', dependents')
  {
    PendingAppend(seen[n], dep, phase);
    if dep !in phase {
      forall d | d in phase ensures Count(seen[n] + [dep], d) == Count(seen[n], d) {
        CountAppend(seen[n], dep, d);
      }
      return indegree, dependents;
    }
    dependents' := dependents[dep := Entry(dependents, dep) + [n]];
    indegree' := indegree[n := indegree[n] + 1];
    forall d, c | d in phase
      ensures Edges(dependents', d, c) == if c in phase then Count(seen[n := seen[n] + [dep]][c], d) else 0
    {
      assert Edges(dependents, d, c) == if c in phase then Count(seen[c], d) else 0;
      CountAppend(Entry(dependents, dep), n, c);
      CountAppend(seen[n], dep, d);
    }
  }

  lemma UpdateSame(m: map<string, seq<string>>, n: string)
    requires n in m
    ensures m == m[n := m[n]]
  {
  }

  lemma UpdatePrefix(m: map<string, seq<string>>, n: string, after: seq<string>, j: nat)
    requires j < |after|
    ensures after[..j + 1] == after[..j] + [after[j]]
    ensures m[n := after[..j]][n := after[..j] + [after[j]]] == m[n := after[..j + 1]]
  {
    assert after[..j + 1] == after[..j] + [after[j]];
  }

  /** The inner graph loop: counts every entry of `n`. */
  method CountAfter(
    phase: set<string>, ghost seen: map<string, seq<string>>, n: string, after: seq<string>,
    indegree: map<string, int>, dependents: map<string, seq<string>>)
    returns (indegree': map<string, int>, dependents': map<string, seq<string>>)
    requires Counted(phase, seen, indegree, dependents) && n in phase && seen[n] == []
    ensures Counted(phase, seen[n := after], indegree', dependents')
  {
    indegree', dependents' := indegree, dependents;
    ghost var now := seen;
    UpdateSame(seen, n);
    for j := 0 to |after|
      invariant Counted(phase, now, indegree', dependents')
      invariant now == seen[n := after[..j]]
    {
      indegree', dependents' := CountEntry(phase, now, n, after[j], indegree', dependents');
      UpdatePrefix(seen, n, after, j);
      now := now[n := now[n] + [after[j]]];
    }
    assert after[..|after|] == after;
  }

  lemma AllSeen(tasks: Tasks, names: seq<string>, phase: set<string>, seen: map<string, seq<string>>)
    requires phase <= tasks.Keys && Members(names) == phase && seen.Keys == phase
    requires forall k :: 0 <= k < |names| ==> names[k] in phase && seen[names[k]] == tasks[names[k]].after
    ensures seen == Afters(tasks, phase)
  {
    forall c | c in phase ensures seen[c] == tasks[c].after {
      assert c in Members(names);
    }
  }

  /** The first two loops: indegrees and reverse edges of the phase. */
  method BuildGraph(tasks: Tasks, names: seq<string>, phase: set<string>)
    returns (indegree: map<string, int>, dependents: map<string, seq<string>>)
    requires phase <= tasks.Keys && NoDuplicates(names) && Members(names) == phase
    ensures indegree.Keys == phase
    ensures forall c :: c in phase ==> indegree[c] == Pending(tasks[c].after, phase)
    ensures Inverts(phase, Afters(tasks, phase), dependents)
  {
    indegree := map n | n in names :: 0;
    dependents := map[];
    ghost var seen: map<string, seq<string>> := map n | n in names :: [];
    for i := 0 to |names|
      invariant Counted(phase, seen, indegree, dependents)
      invariant forall k :: 0 <= k < |names| ==>
        names[k] in phase && seen[names[k]] == if k < i then tasks[names[k]].after else []
    {
      var n := names[i];
      indegree, dependents := CountAfter(phase, seen, n, tasks[n].after, indegree, dependents);
      seen := seen[n := tasks[n].after];
    }
    AllSeen(tasks, names, phase, seen);
  }

  /** The heaviest weighted entry of `after`, or -1. */
  method MaxDependency(after: seq<string>, phase: set<string>, weights: map<string, int>) returns (maxDep: int)
    requires weights.Keys <= phase && forall d :: d in weights ==> 0 <= weights[d]
    ensures forall d :: d in after && d in weights ==> weights[d] <= maxDep
    ensures maxDep == -1 || (exists d :: d in after && d in weights && weights[d] == maxDep)
    ensures -1 <= maxDep
  {
    maxDep := -1;
    for j := 0 to |after|
      invariant forall d :: d in after[..j] && d in weights ==> weights[d] <= maxDep
      invariant maxDep == -1 || (exists d :: d in after && d in weights && weights[d] == maxDep)
      invariant -1 <= maxDep
    {
      var dep := after[j];
      assert dep in after;
      if dep in phase {
        if dep in weights && weights[dep] > maxDep {
          maxDep := weights[dep];
        }
      }
      assert after[..j + 1] == after[..j] + [dep];
    }
    assert after[..|after|] == after;
  }

  /** Lowers the indegree of each dependent once per edge and collects those that reach zero, sorted. */
  method Release(children: seq<string>, indegree: map<string, int>)
    returns (indegree': map<string, int>, next: seq<string>)
    requires forall c :: c in children ==> c in indegree
    requires forall c :: c in indegree ==> Count(children, c) <= indegree[c]
    ensures indegree'.Keys == indegree.Keys
    ensures forall c :: c in indegree ==> indegree'[c] == indegree[c] - Count(children, c)
    ensures NoDuplicates(next) && Sorted(next)
    ensures forall c :: c in next <==> c in children && indegree'[c] == 0
  {
    indegree', next := indegree, [];
    for j := 0 to |children|
      invariant indegree'.Keys == indegree.Keys
      invariant forall c :: c in indegree ==> indegree'[c] == indegree[c] - Count(children[..j], c)
      invariant NoDuplicates(next)
      invariant forall c :: c in next <==> c in children[..j] && indegree'[c] == 0
    {
      var child := children[j];
      CountPrefix(children, j, child);
      forall c ensures Count(children[..j + 1], c) == Count(children[..j], c) + (if child == c then 1 else 0) {
        CountPrefix(children, j, c);
      }
      assert 0 < indegree'[child];
      indegree' := indegree'[child := indegree'[child] - 1];
      if indegree'[child] == 0 {
        next := next + [child];
      }
      forall c ensures c in children[..j + 1] <==> c in children[..j] || c == child {
      }
    }
    assert children[..|children|] == children;
    var sorted := Sort(next);
    SameMultiset(next, sorted);
    forall c ensures c in sorted <==> c in next {
      assert c in sorted <==> c in Members(sorted);
    }
    next := sorted;
  }

  /** The facts the worklist keeps. `open` is the set of tasks not yet given a weight. */
  ghost predicate WorklistInv(
    tasks: Tasks, on: TaskOn, open: set<string>, ready: seq<string>,
    indegree: map<string, int>, weights: map<string, int>)
  {
    var phase := Phase(tasks, on);
    && indegree.Keys == phase
    && weights.Keys == phase - open && open <= phase
    && Ranked(tasks, on, weights)
    && NoDuplicates(ready)
    && (forall n :: n in ready <==> n in open && indegree[n] == 0)
    && (forall n :: n in phase ==> indegree[n] == Pending(tasks[n].after, open))
  }

  lemma RankedExtends(tasks: Tasks, on: TaskOn, weights: map<string, int>, n: string, maxDep: int)
    requires Ranked(tasks, on, weights) && n !in weights && n in Phase(tasks, on) && -1 <= maxDep
    requires forall d :: WaitsFor(tasks, on, n, d) ==> d in weights && weights[d] <= maxDep
    requires maxDep == -1 || (exists d :: d in tasks[n].after && d in weights && weights[d] == maxDep)
    ensures Ranked(tasks, on, weights[n := maxDep + 1])
  {
    var weights' := weights[n := maxDep + 1];
    forall m | m in weights' ensures RankedAt(tasks, on, weights', m) {
      if m != n {
        assert RankedAt(tasks, on, weights, m);
      } else if 0 <= maxDep {
        var d :| d in tasks[n].after && d in weights && weights[d] == maxDep;
        assert WaitsFor(tasks, on, n, d) && d in weights' && weights'[d] == weights'[n] - 1;
      }
    }
  }

  /** A task that still has a positive indegree waits for another open task. */
  lemma OpenWaitsInside(tasks: Tasks, on: TaskOn, open: set<string>)
    requires open <= Phase(tasks, on)
    requires forall n :: n in open ==> 0 < Pending(tasks[n].after, open)
    ensures AllWaitInside(tasks, on, open)
  {
    forall n | n in open ensures WaitsInside(tasks, on, open, n) {
      PendingZero(tasks[n].after, open);
      var d :| d in tasks[n].after && d in open;
      assert WaitsFor(tasks, on, n, d);
    }
  }

  /** After closing `n`, the indegrees lowered by its dependents count what is pending again. */
  lemma IndegreesAfter(
    tasks: Tasks, phase: set<string>, open: set<string>, n: string,
    children: seq<string>, indegree: map<string, int>)
    requires phase <= tasks.Keys && open <= phase && n in open && indegree.Keys == phase
    requires forall c :: c in phase ==> indegree[c] == Pending(tasks[c].after, open)
    requires forall c :: c in phase ==> Count(children, c) == Count(tasks[c].after, n)
    ensures forall c :: c in phase ==> indegree[c] - Count(children, c) == Pending(tasks[c].after, open - {n})
  {
    forall c | c in phase ensures indegree[c] - Count(children, c) == Pending(tasks[c].after, open - {n}) {
      PendingClose(tasks[c].after, open, n);
    }
  }

  /** The queue after the pop holds exactly the open tasks that wait for nothing open. */
  lemma ReadyAfter(
    phase: set<string>, open: set<string>, ready: seq<string>, next: seq<string>,
    children: seq<string>, indegree: map<string, int>, indegree': map<string, int>)
    requires ready != [] && open <= phase && indegree.Keys == indegree'.Keys == phase
    requires NoDuplicates(ready) && NoDuplicates(next)
    requires forall c :: c in ready <==> c in open && indegree[c] == 0
    requires forall c :: c in children ==> c in phase
    requires forall c :: c in phase ==> indegree'[c] == indegree[c] - Count(children, c) >= 0
    requires forall c :: c in phase && c !in open ==> indegree[c] == 0
    requires forall c :: c in next <==> c in children && indegree'[c] == 0
    ensures NoDuplicates(ready[1..] + next)
    ensures ready[0] in open
    ensures forall c :: c in ready[1..] + next <==> c in open - {ready[0]} && indegree'[c] == 0
  {
    var rest := ready[1..];
    assert ready == [ready[0]] + rest;
    assert forall c :: c in rest ==> c in ready;
    forall c | c in children ensures c in open && 0 < indegree[c] && c !in ready {
      CountPositive(children, c);
    }
    assert ready[0] in ready;
    forall i, j | 0 <= i < |rest| <= j < |rest| + |next| ensures (rest + next)[i] != (rest + next)[j] {
      assert (rest + next)[i] in rest && (rest + next)[j] in next;
      assert (rest + next)[j] in children;
    }
    forall c | c in phase && indegree'[c] == 0 && 0 < indegree[c] ensures c in next {
      CountPositive(children, c);
    }
  }

  lemma ChildrenCount(tasks: Tasks, phase: set<string>, dependents: map<string, seq<string>>, n: string)
    requires phase <= tasks.Keys && Inverts(phase, Afters(tasks, phase), dependents) && n in phase
    ensures forall c :: c in Entry(dependents, n) ==> c in phase
    ensures forall c :: c in phase ==> Count(Entry(dependents, n), c) == Count(tasks[c].after, n)
  {
    forall c
      ensures c in Entry(dependents, n) ==> c in phase
      ensures c in phase ==> Count(Entry(dependents, n), c) == Count(tasks[c].after, n)
    {
      assert Edges(dependents, n, c) == if c in phase then Count(Afters(tasks, phase)[c], n) else 0;
      CountPositive(Entry(dependents, n), c);
    }
  }

  lemma InitialInv(tasks: Tasks, on: TaskOn, ready: seq<string>, indegree: map<string, int>)
    requires indegree.Keys == Phase(tasks, on)
    requires forall c :: c in indegree ==> indegree[c] == Pending(tasks[c].after, Phase(tasks, on))
    requires IsListing(ready, ByDegree(indegree, true))
    ensures WorklistInv(tasks, on, Phase(tasks, on), ready, indegree, map[])
  {
    forall n ensures n in ready <==> n in indegree && indegree[n] == 0 {
      assert n in ready <==> n in Members(ready);
    }
  }

  /** The task at the head of the queue gets its weight. */
  method Weigh(
    tasks: Tasks, on: TaskOn, ghost open: set<string>, n: string,
    ghost ready: seq<string>, ghost indegree: map<string, int>, weights: map<string, int>, phase: set<string>)
    returns (weights': map<string, int>)
    requires phase == Phase(tasks, on) && WorklistInv(tasks, on, open, ready, indegree, weights) && n in ready
    ensures weights'.Keys == weights.Keys + {n} && Ranked(tasks, on, weights')
  {
    var maxDep := MaxDependency(tasks[n].after, phase, weights) by {
      assert forall d :: d in weights ==> RankedAt(tasks, on, weights, d);
    }
    PendingZero(tasks[n].after, open);
    RankedExtends(tasks, on, weights, n, maxDep);
    weights' := weights[n := maxDep + 1];
  }

  /** Those that waited for it wait for one less, and join the queue when they wait for nothing any more. */
  method ReleaseChildren(
    tasks: Tasks, on: TaskOn, ghost open: set<string>, dependents: map<string, seq<string>>,
    ready: seq<string>, indegree: map<string, int>, ghost weights: map<string, int>, ghost phase: set<string>)
    returns (ready': seq<string>, indegree': map<string, int>)
    requires phase == Phase(tasks, on) && Inverts(phase, Afters(tasks, phase), dependents)
    requires WorklistInv(tasks, on, open, ready, indegree, weights) && ready != []
    ensures ready[0] in open && indegree'.Keys == phase && NoDuplicates(ready')
    ensures forall c :: c in ready' <==> c in open - {ready[0]} && indegree'[c] == 0
    ensures forall c :: c in phase ==> indegree'[c] == Pending(tasks[c].after, open - {ready[0]})
  {
    var n := ready[0];
    assert n in ready;
    var children := Entry(dependents, n);
    ChildrenCount(tasks, phase, dependents, n);
    IndegreesAfter(tasks, phase, open, n, children, indegree);
    ClosedWaitForNothing(tasks, on, open, indegree, weights);
    var next;
    indegree', next := Release(children, indegree);
    ReadyAfter(phase, open, ready, next, children, indegree, indegree');
    ready' := ready[1..] + next;
  }

  /** One round of the worklist: pop, weigh, release. */
  method Step(
    tasks: Tasks, on: TaskOn, ghost open: set<string>, dependents: map<string, seq<string>>,
    ready: seq<string>, indegree: map<string, int>, weights: map<string, int>, phase: set<string>)
    returns (ready': seq<string>, indegree': map<string, int>, weights': map<string, int>)
    requires phase == Phase(tasks, on) && Inverts(phase, Afters(tasks, phase), dependents)
    requires WorklistInv(tasks, on, open, ready, indegree, weights) && ready != []
    ensures ready[0] in open
    ensures WorklistInv(tasks, on, open - {ready[0]}, ready', indegree', weights')
    ensures weights'.Keys == weights.Keys + {ready[0]}
  {
    weights' := Weigh(tasks, on, open, ready[0], ready, indegree, weights, phase);
    ready', indegree' := ReleaseChildren(tasks, on, open, dependents, ready, indegree, weights, phase);
  }

  lemma ClosedWaitForNothing(
      tasks: Tasks, on: TaskOn, open: set<string>, indegree: map<string, int>, weights: map<string, int>)
    requires open <= Phase(tasks, on) && weights.Keys == Phase(tasks, on) - open && indegree.Keys == Phase(tasks, on)
    requires Ranked(tasks, on, weights)
    requires forall n :: n in Phase(tasks, on) ==> indegree[n] == Pending(tasks[n].after, open)
    ensures forall n :: n in weights ==> indegree[n] == 0
  {
    forall n | n in weights ensures indegree[n] == 0 {
      assert RankedAt(tasks, on, weights, n);
      PendingZero(tasks[n].after, open);
      forall d | d in tasks[n].after ensures d !in open {
        assert d in open ==> WaitsFor(tasks, on, n, d);
      }
    }
  }

  /** The tasks whose indegree is zero, or those whose indegree is not. */
  function ByDegree(indegree: map<string, int>, zero: bool): set<string> {
    set c | c in indegree && (indegree[c] == 0) == zero
  }

  /** The members of `ByDegree`, in listing order. */
  method Select(names: seq<string>, indegree: map<string, int>, zero: bool) returns (picked: seq<string>)
    requires Sorted(names) && NoDuplicates(names) && Members(names) == indegree.Keys
    ensures IsListing(picked, ByDegree(indegree, zero))
  {
    picked := [];
    for i := 0 to |names|
      invariant Sorted(picked) && NoDuplicates(picked)
      invariant forall c :: c in picked <==> c in names[..i] && (indegree[c] == 0) == zero
    {
      assert names[i] in Members(names);
      assert names[..i + 1] == names[..i] + [names[i]];
      assert forall k :: 0 <= k < |picked| ==> picked[k] in names[..i];
      if (indegree[names[i]] == 0) == zero {
        picked := picked + [names[i]];
      }
    }
    assert names[..|names|] == names;
    forall c ensures c in indegree <==> c in names {
      assert c in Members(names) <==> c in indegree;
    }
  }

  /** The main loop: runs the worklist dry. `seen` counts the rounds. */
  method RunWorklist(
    tasks: Tasks, on: TaskOn, phase: set<string>, dependents: map<string, seq<string>>,
    start: seq<string>, indegrees: map<string, int>)
    returns (weights: map<string, int>, indegree: map<string, int>, seen: nat)
    requires phase == Phase(tasks, on) && Inverts(phase, Afters(tasks, phase), dependents)
    requires WorklistInv(tasks, on, phase, start, indegrees, map[])
    ensures weights.Keys <= phase && seen == |weights|
    ensures WorklistInv(tasks, on, phase - weights.Keys, [], indegree, weights)
  {
    var ready := start;
    indegree, weights, seen := indegrees, map[], 0;
    ghost var open := phase;
    while |ready| > 0
      invariant WorklistInv(tasks, on, open, ready, indegree, weights)
      invariant seen == |weights|
      decreases open
    {
      ghost var was, n := weights, ready[0];
      assert n in ready;
      ready, indegree, weights := Step(tasks, on, open, dependents, ready, indegree, weights, phase);
      open := open - {n};
      assert |weights.Keys| == |was.Keys + {n}| == |was.Keys| + 1;
      seen := seen + 1;
    }
    assert open == phase - weights.Keys;
  }

  /** What an empty worklist means: the tasks left over are exactly those a cycle is reachable from. */
  lemma WorklistDry(tasks: Tasks, on: TaskOn, open: set<string>, indegree: map<string, int>, weights: map<string, int>)
    requires WorklistInv(tasks, on, open, [], indegree, weights)
    ensures open == set n | n in Phase(tasks, on) && ReachesCycle(tasks, on, n)
    ensures indegree.Keys == Phase(tasks, on) && open == ByDegree(indegree, false)
    ensures Acyclic(tasks, on) <==> open == {}
  {
    WeighedAreFree(tasks, on, weights);
    ClosedWaitForNothing(tasks, on, open, indegree, weights);
    LeftoversReachCycle(tasks, on, open, indegree);
    CyclesAreReached(tasks, on);
  }

  /** The round counter tells whether every task got its weight. */
  lemma AllWeighed(tasks: Tasks, on: TaskOn, open: set<string>, weights: map<string, int>)
    requires Ranked(tasks, on, weights) && open <= Phase(tasks, on) && weights.Keys == Phase(tasks, on) - open
    ensures |weights| == |Phase(tasks, on)| <==> open == {}
    ensures open == {} ==> PhaseWeights(tasks, on, weights)
  {
    SubsetSize(weights.Keys, Phase(tasks, on));
    assert |weights| == |weights.Keys|;
    WeighedAreFree(tasks, on, weights);
  }

  lemma WeighedAreFree(tasks: Tasks, on: TaskOn, weights: map<string, int>)
    requires Ranked(tasks, on, weights)
    ensures forall n :: n in weights ==> LongestChain(tasks, on, n, weights[n]) && !ReachesCycle(tasks, on, n)
  {
    forall n | n in weights ensures LongestChain(tasks, on, n, weights[n]) && !ReachesCycle(tasks, on, n) {
      RankedIsLongest(tasks, on, weights, n);
    }
  }

  lemma LeftoversReachCycle(tasks: Tasks, on: TaskOn, open: set<string>, indegree: map<string, int>)
    requires open <= Phase(tasks, on) == indegree.Keys
    requires forall n :: n in open ==> indegree[n] != 0
    requires forall n :: n in open ==> indegree[n] == Pending(tasks[n].after, open)
    ensures forall n :: n in open ==> ReachesCycle(tasks, on, n)
  {
    OpenWaitsInside(tasks, on, open);
    forall n | n in open ensures ReachesCycle(tasks, on, n) {
      StuckReachesCycle(tasks, on, open, n);
    }
  }

  /** `hookWeightsForPhase`: weights exactly when the phase has no cycle, else the tasks a cycle holds back. */
  method HookWeightsForPhase(tasks: Tasks, on: TaskOn) returns (r: PhaseResult)
    ensures r.Weights? ==> PhaseWeights(tasks, on, r.weights)
    ensures r.Weights? <==> Acyclic(tasks, on)
    ensures r.Cycle? ==> r.stuck != []
    ensures r.Cycle? ==> IsListing(r.stuck, set n | n in Phase(tasks, on) && ReachesCycle(tasks, on, n))
  {
    var names := PhaseNames(tasks, on);
    var phase := Phase(tasks, on);
    if |names| == 0 {
      assert phase == Members(names) == {};
      return Weights(map[]);
    }
    var indegree, dependents := BuildGraph(tasks, names, phase);
    var ready := Select(names, indegree, true);
    InitialInv(tasks, on, ready, indegree);
    var weights, seen;
    weights, indegree, seen := RunWorklist(tasks, on, phase, dependents, ready, indegree);
    ghost var open := phase - weights.Keys;
    WorklistDry(tasks, on, open, indegree, weights);
    AllWeighed(tasks, on, open, weights);
    MembersSize(names);
    if seen != |names| {
      var stuck := Select(names, indegree, false);
      r := Cycle(stuck);
    } else {
      r := Weights(weights);
    }
  }

  /** Some task reaches a cycle exactly when there is one. */
  lemma CyclesAreReached(tasks: Tasks, on: TaskOn)
    ensures Acyclic(tasks, on) <==> forall n :: n in Phase(tasks, on) ==> !ReachesCycle(tasks, on, n)
  {
    forall n | n in Phase(tasks, on) && OnCycle(tasks, on, n) ensures ReachesCycle(tasks, on, n) {
      assert ChainFrom(tasks, on, n, [n]);
    }
    forall n | n in Phase(tasks, on) && ReachesCycle(tasks, on, n) ensures !Acyclic(tasks, on) {
      ReachedIsCyclic(tasks, on, n);
    }
  }

  lemma ReachedIsCyclic(tasks: Tasks, on: TaskOn, n: string)
    requires ReachesCycle(tasks, on, n)
    ensures !Acyclic(tasks, on)
  {
    var p :| ChainFrom(tasks, on, n, p) && OnCycle(tasks, on, p[|p| - 1]);
    ChainSlice(tasks, on, n, p, |p| - 1, |p|);
  }

  datatype WeightsResult = Assigned(weights: map<string, int>) | Rejected(on: TaskOn, stuck: seq<string>)

  /** The weights of both hook phases together; tasks of no hook phase get none. */
  ghost predicate HookWeights(tasks: Tasks, weights: map<string, int>) {
    && weights.Keys == Phase(tasks, PreDeploy) + Phase(tasks, PostDeploy)
    && forall n :: n in weights ==> LongestChain(tasks, tasks[n].on, n, weights[n])
  }

  /** Within a phase they are the weights of that phase. */
  lemma HookWeightsOfPhase(tasks: Tasks, weights: map<string, int>, on: TaskOn)
    requires HookWeights(tasks, weights) && on.IsHook()
    ensures PhaseWeights(tasks, on, map n | n in Phase(tasks, on) :: weights[n])
  {
    var part := map n | n in Phase(tasks, on) :: weights[n];
    forall n | n in part ensures LongestChain(tasks, on, n, part[n]) {
      assert n in weights && LongestChain(tasks, tasks[n].on, n, weights[n]);
    }
  }

  /** The weights of both phases are determined by the tasks. */
  lemma HookWeightsUnique(tasks: Tasks, v: map<string, int>, w: map<string, int>)
    requires HookWeights(tasks, v) && HookWeights(tasks, w)
    ensures v == w
  {
    forall n | n in v ensures v[n] == w[n] {
      var on := tasks[n].on;
      HookWeightsOfPhase(tasks, v, on);
      HookWeightsOfPhase(tasks, w, on);
      var vs, ws := map m | m in Phase(tasks, on) :: v[m], map m | m in Phase(tasks, on) :: w[m];
      PhaseWeightsUnique(tasks, on, vs, ws);
      assert n in Phase(tasks, on) && vs[n] == v[n] && ws[n] == w[n];
    }
  }

  /** `AssignHookWeights`: both phases, preDeploy first; the first phase with a cycle is the one reported. */
  method AssignHookWeights(tasks: Tasks) returns (r: WeightsResult)
    ensures r.Assigned? ==> HookWeights(tasks, r.weights)
    ensures r.Assigned? <==> Acyclic(tasks, PreDeploy) && Acyclic(tasks, PostDeploy)
    ensures r.Rejected? ==>
      && r.on == (if !Acyclic(tasks, PreDeploy) then PreDeploy else PostDeploy)
      && IsListing(r.stuck, set n | n in Phase(tasks, r.on) && ReachesCycle(tasks, r.on, n))
  {
    var pre := HookWeightsForPhase(tasks, PreDeploy);
    if pre.Cycle? {
      return Rejected(PreDeploy, pre.stuck);
    }
    var post := HookWeightsForPhase(tasks, PostDeploy);
    if post.Cycle? {
      return Rejected(PostDeploy, post.stuck);
    }
    r := Assigned(pre.weights + post.weights);
    forall n | n in r.weights ensures LongestChain(tasks, tasks[n].on, n, r.weights[n]) {
      if n in post.weights {
        assert LongestChain(tasks, PostDeploy, n, post.weights[n]);
      } else {
        assert LongestChain(tasks, PreDeploy, n, pre.weights[n]);
      }
    }
  }
}
