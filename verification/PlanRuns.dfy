/** Whole runs of a plan: completing one ready step after another from nothing done.

    The claim documentOrderEdges makes of itself (internal/orch/plan_import.go:178-185), over every
    run rather than for one state. */
module PlanRuns {
  import opened Sequences
  import opened Wrappers
  import opened PlanTree
  import opened PlanDecompose
  import opened DocumentOrder
  import opened SchedulerEquivalence

  predicate DistinctIDs(nodes: seq<Node>) {
    forall i, j :: 0 <= i < j < |nodes| ==> nodes[i].ID() != nodes[j].ID()
  }

  /** The task ids finished by a run, given as the walk indices it completes. */
  function DoneAfter(nodes: seq<Node>, run: seq<nat>): set<string> {
    if run == [] then {}
    else
      var last := run[|run| - 1];
      DoneAfter(nodes, run[..|run| - 1]) + (if last < |nodes| then {nodes[last].ID()} else {})
  }

  /** The positions finished by a run: the done-set the positional scheduler is given. */
  function PositionsAfter(nodes: seq<Node>, run: seq<nat>): set<string> {
    if run == [] then {}
    else
      var last := run[|run| - 1];
      PositionsAfter(nodes, run[..|run| - 1]) + (if last < |nodes| then {nodes[last].visit.ref.ID()} else {})
  }

  /** A run that only completes steps whose dependencies are finished. */
  predicate EdgeRun(nodes: seq<Node>, run: seq<nat>) {
    run == [] ||
    (var before, last := run[..|run| - 1], run[|run| - 1];
     EdgeRun(nodes, before) && last < |nodes| && EdgeReady(nodes[last], DoneAfter(nodes, before)))
  }

  /** A run that only completes steps the positional scheduler releases. */
  predicate PositionalRun(plan: seq<Group>, run: seq<nat>) {
    var nodes := PlanNodes(plan);
    run == [] ||
    (var before, last := run[..|run| - 1], run[|run| - 1];
     PositionalRun(plan, before) && last < |nodes| &&
     nodes[last].visit in Decompose(plan, PositionsAfter(nodes, before)).visits)
  }

  // ---------------------------------------------------------------- states a run reaches

  lemma {:induction false} RunClosed(nodes: seq<Node>, run: seq<nat>)
    requires DistinctIDs(nodes) && EdgeRun(nodes, run)
    ensures Closed(nodes, DoneAfter(nodes, run))
  {
    if run != [] {
      var before, last := run[..|run| - 1], run[|run| - 1];
      RunClosed(nodes, before);
      forall i | 0 <= i < |nodes| && nodes[i].ID() in DoneAfter(nodes, run)
        ensures AllIn(nodes[i].deps, DoneAfter(nodes, run))
      {
        if i != last { assert nodes[i].ID() in DoneAfter(nodes, before); }
      }
    }
  }

  lemma PlanRefsDistinct(plan: seq<Group>, i: nat, j: nat)
    requires i < |PlanNodes(plan)| && j < |PlanNodes(plan)|
    requires PlanNodes(plan)[i].visit.ref.ID() == PlanNodes(plan)[j].visit.ref.ID()
    ensures i == j
  {
    var nodes := PlanNodes(plan);
    OrderFromVisits(plan, 0, [], []);
    assert Visits(nodes)[i] == Walk(plan)[i] && Visits(nodes)[j] == Walk(plan)[j];
    if i < j { StepIDsDistinct(plan, i, j); }
    if j < i { StepIDsDistinct(plan, j, i); }
  }

  lemma {:induction false} RunSameSteps(plan: seq<Group>, run: seq<nat>)
    requires DistinctIDs(PlanNodes(plan))
    ensures var nodes := PlanNodes(plan); SameSteps(nodes, DoneAfter(nodes, run), PositionsAfter(nodes, run))
  {
    var nodes := PlanNodes(plan);
    if run != [] {
      var before, last := run[..|run| - 1], run[|run| - 1];
      RunSameSteps(plan, before);
      forall i | 0 <= i < |nodes|
        ensures nodes[i].ID() in DoneAfter(nodes, run) <==> nodes[i].visit.ref.ID() in PositionsAfter(nodes, run)
      {
        if last < |nodes| && nodes[i].visit.ref.ID() == nodes[last].visit.ref.ID() {
          PlanRefsDistinct(plan, i, last);
        }
      }
    }
  }

  // ---------------------------------------------------------------- the main theorems

  /** After any run, the steps whose dependencies are finished are exactly the steps the positional
      scheduler releases, in the same order. */
  lemma ReadySetsCoincide(plan: seq<Group>, run: seq<nat>)
    requires DistinctIDs(PlanNodes(plan))
    requires EdgeRun(PlanNodes(plan), run)
    ensures var nodes := PlanNodes(plan);
            ReadyVisits(nodes, DoneAfter(nodes, run)) == Decompose(plan, PositionsAfter(nodes, run)).visits
  {
    var nodes := PlanNodes(plan);
    var positions := PositionsAfter(nodes, run);
    RunClosed(nodes, run);
    RunSameSteps(plan, run);
    AgreeFrom(plan, 0, [], [], DoneAfter(nodes, run), positions);
    if GroupsDone(plan, 0, [], positions) { FinishedReleasesNothing(plan, 0, [], positions); }
  }

  lemma {:induction false} FinishedReleasesNothing(groups: seq<Group>, base: nat, path: seq<nat>, done: set<string>)
    requires GroupsDone(groups, base, path, done)
    ensures DecomposeFrom(groups, base, path, done) == None
  {
    if groups != [] { FinishedReleasesNothing(groups[1..], base + 1, path, done); }
  }

  /** The two schedulers admit exactly the same runs. */
  lemma {:induction false} SameRuns(plan: seq<Group>, run: seq<nat>)
    requires DistinctIDs(PlanNodes(plan))
    ensures EdgeRun(PlanNodes(plan), run) <==> PositionalRun(plan, run)
  {
    if run != [] {
      var nodes := PlanNodes(plan);
      var before, last := run[..|run| - 1], run[|run| - 1];
      SameRuns(plan, before);
      if EdgeRun(nodes, before) && last < |nodes| {
        var done := DoneAfter(nodes, before);
        ReadySetsCoincide(plan, before);
        ReadyVisitsOf(nodes, done, nodes[last].visit);
        if i :| 0 <= i < |nodes| && nodes[i].visit == nodes[last].visit && EdgeReady(nodes[i], done) {
          PlanRefsDistinct(plan, i, last);
        }
      }
    }
  }

  // ---------------------------------------------------------------- progress and termination

  function AllIDs(nodes: seq<Node>): set<string> {
    if nodes == [] then {} else AllIDs(nodes[..|nodes| - 1]) + {nodes[|nodes| - 1].ID()}
  }

  lemma {:induction false} AllIDsOf(nodes: seq<Node>, id: string)
    ensures id in AllIDs(nodes) <==> exists i :: 0 <= i < |nodes| && nodes[i].ID() == id
  {
    if nodes != [] {
      var front, n := nodes[..|nodes| - 1], |nodes| - 1;
      AllIDsOf(front, id);
      if i :| 0 <= i < |front| && front[i].ID() == id {
        assert nodes[i].ID() == id;
      }
      if i :| 0 <= i < |nodes| && nodes[i].ID() == id {
        if i < n { assert front[i].ID() == id; }
      }
    }
  }

  lemma {:induction false} AllIDsCount(nodes: seq<Node>)
    requires DistinctIDs(nodes)
    ensures |AllIDs(nodes)| == |nodes|
  {
    if nodes != [] {
      var front, last := nodes[..|nodes| - 1], nodes[|nodes| - 1].ID();
      AllIDsCount(front);
      AllIDsOf(front, last);
    }
  }

  lemma {:induction false} RunCounts(nodes: seq<Node>, run: seq<nat>)
    requires EdgeRun(nodes, run)
    ensures |DoneAfter(nodes, run)| == |run|
    ensures DoneAfter(nodes, run) <= AllIDs(nodes)
  {
    if run != [] {
      RunCounts(nodes, run[..|run| - 1]);
      AllIDsOf(nodes, nodes[run[|run| - 1]].ID());
    }
  }

  /** Some step no later than an unfinished one is ready: every edge points back. */
  lemma {:induction false} FirstUnfinishedIsReady(nodes: seq<Node>, terminals: seq<string>, done: set<string>, i: nat)
    returns (k: nat)
    requires PointsBack(Chain(nodes, terminals), [])
    requires i < |nodes| && nodes[i].ID() !in done
    ensures k <= i && EdgeReady(nodes[k], done)
    decreases i
  {
    k := i;
    if !EdgeReady(nodes[i], done) {
      var dep :| dep in nodes[i].deps && dep !in done;
      assert FromEarlier(nodes, i, [], dep);
      var j: nat :| j < i && nodes[j].ID() == dep;
      k := FirstUnfinishedIsReady(nodes, terminals, done, j);
    }
  }

  /** No run is longer than the plan, and a run as long as the plan has finished every step. */
  lemma RunsAreBounded(plan: seq<Group>, run: seq<nat>)
    requires DistinctIDs(PlanNodes(plan)) && EdgeRun(PlanNodes(plan), run)
    ensures var nodes := PlanNodes(plan);
            && |nodes| == |Walk(plan)|
            && |run| <= |nodes|
            && (|run| == |nodes| <==> forall i :: 0 <= i < |nodes| ==> nodes[i].ID() in DoneAfter(nodes, run))
  {
    var nodes := PlanNodes(plan);
    var done := DoneAfter(nodes, run);
    OrderFromVisits(plan, 0, [], []);
    RunCounts(nodes, run);
    AllIDsCount(nodes);
    SubsetIsSmaller(done, AllIDs(nodes));
    forall i | 0 <= i < |nodes| ensures nodes[i].ID() in AllIDs(nodes) {
      AllIDsOf(nodes, nodes[i].ID());
    }
    if |run| < |nodes| {
      var i := UnfinishedStep(nodes, done);
      assert nodes[i].ID() !in done;
    }
  }

  /** A run can be continued exactly when some step is unfinished, and then both schedulers have a
      step to release: no run gets stuck, and every run that is never abandoned ends after exactly
      as many completions as the plan has steps. */
  lemma RunsAreNeverStuck(plan: seq<Group>, run: seq<nat>)
    requires DistinctIDs(PlanNodes(plan)) && EdgeRun(PlanNodes(plan), run)
    ensures var nodes := PlanNodes(plan);
            && (|run| < |nodes| <==> exists next: nat :: EdgeRun(nodes, run + [next]))
            && (|run| < |nodes| <==> Decompose(plan, PositionsAfter(nodes, run)).visits != [])
  {
    var nodes := PlanNodes(plan);
    RunsAreBounded(plan, run);
    if |run| < |nodes| {
      var next := NextStep(plan, run);
      assert EdgeRun(nodes, run + [next]);
    } else {
      ReadySetsCoincide(plan, run);
      NothingReady(nodes, DoneAfter(nodes, run));
      forall next: nat ensures !EdgeRun(nodes, run + [next]) {
        Extends(nodes, run, next);
      }
    }
  }

  lemma Extends(nodes: seq<Node>, run: seq<nat>, next: nat)
    ensures EdgeRun(nodes, run + [next]) <==>
              EdgeRun(nodes, run) && next < |nodes| && EdgeReady(nodes[next], DoneAfter(nodes, run))
  {
    assert (run + [next])[..|run|] == run;
  }

  lemma NextStep(plan: seq<Group>, run: seq<nat>) returns (next: nat)
    requires DistinctIDs(PlanNodes(plan)) && EdgeRun(PlanNodes(plan), run) && |run| < |PlanNodes(plan)|
    ensures EdgeRun(PlanNodes(plan), run + [next])
    ensures Decompose(plan, PositionsAfter(PlanNodes(plan), run)).visits != []
  {
    var nodes := PlanNodes(plan);
    var done := DoneAfter(nodes, run);
    OrderFromPointsBack(plan, 0, [], []);
    RunCounts(nodes, run);
    AllIDsCount(nodes);
    var i := UnfinishedStep(nodes, done);
    next := FirstUnfinishedIsReady(nodes, OrderFrom(plan, 0, [], []).terminals, done, i);
    Extends(nodes, run, next);
    ReadySetsCoincide(plan, run);
    ReadyVisitsOf(nodes, done, nodes[next].visit);
  }

  lemma UnfinishedStep(nodes: seq<Node>, done: set<string>) returns (i: nat)
    requires |done| < |AllIDs(nodes)|
    ensures i < |nodes| && nodes[i].ID() !in done
  {
    var rest := AllIDs(nodes) - done;
    if rest == {} { SubsetIsSmaller(AllIDs(nodes), done); }
    var id :| id in rest;
    AllIDsOf(nodes, id);
    i :| 0 <= i < |nodes| && nodes[i].ID() == id;
  }

  lemma {:induction false} NothingReady(nodes: seq<Node>, done: set<string>)
    requires forall i :: 0 <= i < |nodes| ==> nodes[i].ID() in done
    ensures ReadyVisits(nodes, done) == []
  {
    if nodes != [] {
      assert nodes[0].ID() in done;
      NothingReady(nodes[1..], done);
    }
  }

  // ---------------------------------------------------------------- which done-sets runs reach

  /** The finished steps among the first n of the walk, in walk order. */
  function FinishedBelow(nodes: seq<Node>, done: set<string>, n: nat): seq<nat>
    requires n <= |nodes|
  {
    if n == 0 then []
    else FinishedBelow(nodes, done, n - 1) + (if nodes[n - 1].ID() in done then [n - 1] else [])
  }

  predicate Among(nodes: seq<Node>, n: nat, id: string)
    requires n <= |nodes|
  {
    exists i :: 0 <= i < n && nodes[i].ID() == id
  }

  lemma {:induction false} FinishedBelowIsRun(nodes: seq<Node>, terminals: seq<string>, done: set<string>, n: nat)
    requires n <= |nodes| && DistinctIDs(nodes) && Closed(nodes, done)
    requires PointsBack(Chain(nodes, terminals), [])
    ensures EdgeRun(nodes, FinishedBelow(nodes, done, n))
    ensures forall id :: id in DoneAfter(nodes, FinishedBelow(nodes, done, n)) <==> id in done && Among(nodes, n, id)
  {
    if n > 0 {
      FinishedBelowIsRun(nodes, terminals, done, n - 1);
      var before, last := FinishedBelow(nodes, done, n - 1), nodes[n - 1];
      forall id ensures Among(nodes, n, id) <==> last.ID() == id || Among(nodes, n - 1, id) {
        AmongNext(nodes, n, id);
      }
      if last.ID() in done {
        assert (before + [n - 1])[..|before|] == before;
        WaitsOnlyBelow(nodes, terminals, done, n - 1);
        Extends(nodes, before, n - 1);
      } else {
        PlusEmpty(before);
      }
    }
  }

  lemma AmongNext(nodes: seq<Node>, n: nat, id: string)
    requires 0 < n <= |nodes|
    ensures Among(nodes, n, id) <==> nodes[n - 1].ID() == id || Among(nodes, n - 1, id)
  {
    if i :| 0 <= i < n && nodes[i].ID() == id {
      if i < n - 1 { assert Among(nodes, n - 1, id); }
    }
  }

  lemma WaitsOnlyBelow(nodes: seq<Node>, terminals: seq<string>, done: set<string>, i: nat)
    requires i < |nodes| && DistinctIDs(nodes) && Closed(nodes, done)
    requires PointsBack(Chain(nodes, terminals), [])
    requires nodes[i].ID() in done
    ensures !Among(nodes, i, nodes[i].ID())
    ensures forall dep :: dep in nodes[i].deps ==> dep in done && Among(nodes, i, dep)
  {
    forall dep | dep in nodes[i].deps ensures dep in done && Among(nodes, i, dep) {
      assert FromEarlier(nodes, i, [], dep);
    }
  }

  /** The done-sets runs reach are exactly the sets of plan steps closed under the edges. */
  lemma ReachableIffClosed(plan: seq<Group>, done: set<string>)
    requires DistinctIDs(PlanNodes(plan))
    ensures var nodes := PlanNodes(plan);
            (exists run :: EdgeRun(nodes, run) && DoneAfter(nodes, run) == done) <==>
            done <= AllIDs(nodes) && Closed(nodes, done)
  {
    var nodes := PlanNodes(plan);
    if run :| EdgeRun(nodes, run) && DoneAfter(nodes, run) == done {
      RunClosed(nodes, run);
      RunCounts(nodes, run);
    }
    if done <= AllIDs(nodes) && Closed(nodes, done) {
      var run := ClosedIsReached(plan, done);
    }
  }

  lemma ClosedIsReached(plan: seq<Group>, done: set<string>) returns (run: seq<nat>)
    requires DistinctIDs(PlanNodes(plan)) && done <= AllIDs(PlanNodes(plan)) && Closed(PlanNodes(plan), done)
    ensures EdgeRun(PlanNodes(plan), run) && DoneAfter(PlanNodes(plan), run) == done
  {
    var nodes := PlanNodes(plan);
    OrderFromPointsBack(plan, 0, [], []);
    FinishedBelowIsRun(nodes, OrderFrom(plan, 0, [], []).terminals, done, |nodes|);
    forall id | id in done ensures Among(nodes, |nodes|, id) {
      AllIDsOf(nodes, id);
    }
    run := FinishedBelow(nodes, done, |nodes|);
  }

  // ---------------------------------------------------------------- plans without ids of their own

  /** No step carries a metadata id, so task ids are positions. */
  predicate Unannotated(plan: seq<Group>) {
    forall v :: v in Walk(plan) ==> StepTaskID(v) == v.ref.ID()
  }

  lemma UnannotatedNodes(plan: seq<Group>)
    requires Unannotated(plan)
    ensures var nodes := PlanNodes(plan);
            DistinctIDs(nodes) && forall i :: 0 <= i < |nodes| ==> nodes[i].ID() == nodes[i].visit.ref.ID()
  {
    var nodes := PlanNodes(plan);
    OrderFromVisits(plan, 0, [], []);
    forall i | 0 <= i < |nodes| ensures nodes[i].ID() == nodes[i].visit.ref.ID() {
      assert Visits(nodes)[i] in Walk(plan);
    }
    forall i, j | 0 <= i < j < |nodes| ensures nodes[i].ID() != nodes[j].ID() {
      if nodes[i].ID() == nodes[j].ID() { PlanRefsDistinct(plan, i, j); }
    }
  }

  lemma {:induction false} UnannotatedDoneAfter(plan: seq<Group>, run: seq<nat>)
    requires Unannotated(plan)
    ensures DoneAfter(PlanNodes(plan), run) == PositionsAfter(PlanNodes(plan), run)
  {
    UnannotatedNodes(plan);
    if run != [] { UnannotatedDoneAfter(plan, run[..|run| - 1]); }
  }

  /** Every unannotated plan, of any shape: after every run the edges release, in the same order,
      exactly what the positional scheduler releases for the same done-set. */
  lemma UnannotatedPlansAgree(plan: seq<Group>, run: seq<nat>)
    requires Unannotated(plan)
    requires EdgeRun(PlanNodes(plan), run)
    ensures var nodes := PlanNodes(plan);
            var done := DoneAfter(nodes, run);
            ReadyVisits(nodes, done) == Decompose(plan, done).visits
  {
    UnannotatedNodes(plan);
    UnannotatedDoneAfter(plan, run);
    ReadySetsCoincide(plan, run);
  }

  /** A parallel leaf of one step followed by a sequential leaf of two. */
  function FanThenChain(first: Step, second: Step, third: Step): seq<Group> {
    [Group("a", true, [first], []), Group("b", false, [second, third], [])]
  }

  lemma FanThenChainNodes(first: Step, second: Step, third: Step)
    requires first.metadata == second.metadata == third.metadata == None
    ensures var plan := FanThenChain(first, second, third);
            var r0, r1, r2 := StepRef([0], 0), StepRef([1], 0), StepRef([1], 1);
            && Walk(plan) == [Visit(r0, first), Visit(r1, second), Visit(r2, third)]
            && PlanNodes(plan) == [Node(Visit(r0, first), []), Node(Visit(r1, second), [r0.ID()]),
                                   Node(Visit(r2, third), [r1.ID()])]
  {
    var plan := FanThenChain(first, second, third);
    var v0, v1, v2 := Visit(StepRef([0], 0), first), Visit(StepRef([1], 0), second), Visit(StepRef([1], 1), third);
    assert [] + [0] == [0] && [] + [1] == [1];
    assert LeafVisits([first], 0, [0]) == [v0];
    assert LeafVisits([second, third], 0, [1]) == [v1, v2];
    assert plan[1..] == [plan[1]];
    assert WalkGroup(plan[0], [0]) == [v0] && WalkGroup(plan[1], [1]) == [v1, v2];
    assert WalkFrom([plan[1]], 1, []) == [v1, v2];
    assert Walk(plan) == [v0] + [v1, v2];
    var chainA := OrderGroup(plan[0], [0], []);
    assert chainA.nodes == [Node(v0, [])] && chainA.terminals == [v0.ref.ID()];
    assert OrderGroup(plan[1], [1], chainA.terminals).nodes == [Node(v1, [v0.ref.ID()]), Node(v2, [v1.ref.ID()])];
    assert OrderFrom([plan[1]], 1, [], chainA.terminals).nodes == [Node(v1, [v0.ref.ID()]), Node(v2, [v1.ref.ID()])];
    assert PlanNodes(plan) == chainA.nodes + [Node(v1, [v0.ref.ID()]), Node(v2, [v1.ref.ID()])];
  }

  /** The agreement is about done-sets a run reaches. With a later step finished out of order, as an
      operator's skip can do, the edges release that step's successor and positions do not. */
  lemma OutOfOrderDoneSetsDiffer(first: Step, second: Step, third: Step)
    requires first.metadata == second.metadata == third.metadata == None
    ensures var plan := FanThenChain(first, second, third);
            var done := {StepRef([1], 0).ID()};
            && Unannotated(plan)
            && |ReadyVisits(PlanNodes(plan), done)| == 2
            && |Decompose(plan, done).visits| == 1
  {
    FanThenChainNodes(first, second, third);
    var plan := FanThenChain(first, second, third);
    var r0, r1, r2 := StepRef([0], 0), StepRef([1], 0), StepRef([1], 1);
    var done := {r1.ID()};
    if r0.ID() == r1.ID() { StepIDInjective(r0, r1); }
    if r2.ID() == r1.ID() { StepIDInjective(r2, r1); }
    var nodes := PlanNodes(plan);
    assert nodes[1..] == [nodes[1], nodes[2]] && nodes[1..][1..] == [nodes[2]];
    assert ReadyVisits([nodes[2]], done) == [nodes[2].visit];
    assert ReadyVisits(nodes[1..], done) == [nodes[2].visit];
    assert [] + [0] == [0];
    assert LeafReadyVisits([first], 0, [0], true, done) == [Visit(r0, first)];
    assert DecomposeGroup(plan[0], [0], done) == Some(Ready([Visit(r0, first)], true));
    assert !GroupDone(plan[0], [0], done) by { assert StepRef([0], 0).ID() !in done; }
  }
}
