/** The two schedulers on every done-set, also those no run reaches.

    Completes the comparison of internal/orch/plan_import.go:178-230 with internal/plan/decompose.go: an
    operator can skip a step whose dependencies are not finished, and then the edges and the positions
    need not agree. */
module PlanDoneSets {
  import opened Sequences
  import opened PlanTree
  import opened PlanDecompose
  import opened DocumentOrder
  import opened SchedulerEquivalence
  import opened PlanRuns

  /** Everything nodes[i] waits for, directly or through others, is finished. */
  predicate Supported(nodes: seq<Node>, i: nat, done: set<string>)
    requires i < |nodes|
    decreases i
  {
    forall dep :: dep in nodes[i].deps ==>
      dep in done && forall j: nat :: j < i && nodes[j].ID() == dep ==> Supported(nodes, j, done)
  }

  /** The positions of the steps a done-set finishes. */
  function PositionsOf(nodes: seq<Node>, done: set<string>): set<string> {
    set i | 0 <= i < |nodes| && nodes[i].ID() in done :: nodes[i].visit.ref.ID()
  }

  /** The unfinished steps among the first n whose support is finished, in walk order. */
  function SupportedBelow(nodes: seq<Node>, done: set<string>, n: nat): seq<Visit>
    requires n <= |nodes|
  {
    if n == 0 then []
    else SupportedBelow(nodes, done, n - 1) +
         (if nodes[n - 1].ID() !in done && Supported(nodes, n - 1, done) then [nodes[n - 1].visit] else [])
  }

  lemma PositionsAreSame(plan: seq<Group>, done: set<string>)
    ensures SameSteps(PlanNodes(plan), done, PositionsOf(PlanNodes(plan), done))
  {
    var nodes := PlanNodes(plan);
    forall i | 0 <= i < |nodes|
      ensures nodes[i].ID() in done <==> nodes[i].visit.ref.ID() in PositionsOf(nodes, done)
    {
      if nodes[i].visit.ref.ID() in PositionsOf(nodes, done) {
        var j :| 0 <= j < |nodes| && nodes[j].ID() in done && nodes[j].visit.ref.ID() == nodes[i].visit.ref.ID();
        PlanRefsDistinct(plan, i, j);
      }
    }
  }

  // ---------------------------------------------------------------- the soundly finished steps

  /** The finished steps whose support is finished: the largest closed part of a done-set. */
  function Core(nodes: seq<Node>, done: set<string>): set<string> {
    set i: nat | i < |nodes| && nodes[i].ID() in done && Supported(nodes, i, done) :: nodes[i].ID()
  }

  /** A step is soundly finished exactly when it is finished and all it waits for is soundly finished. */
  predicate IsCore(nodes: seq<Node>, done: set<string>, core: set<string>) {
    forall i :: 0 <= i < |nodes| ==> (nodes[i].ID() in core <==> nodes[i].ID() in done && AllIn(nodes[i].deps, core))
  }

  lemma InCore(nodes: seq<Node>, done: set<string>, i: nat)
    requires DistinctIDs(nodes) && i < |nodes|
    ensures nodes[i].ID() in Core(nodes, done) <==> nodes[i].ID() in done && Supported(nodes, i, done)
  {
    if nodes[i].ID() in Core(nodes, done) {
      var j: nat :| j < |nodes| && nodes[j].ID() in done && Supported(nodes, j, done) && nodes[j].ID() == nodes[i].ID();
      assert i == j;
    }
  }

  lemma SupportedByCore(nodes: seq<Node>, terminals: seq<string>, done: set<string>, i: nat)
    requires DistinctIDs(nodes) && PointsBack(Chain(nodes, terminals), []) && i < |nodes|
    ensures Supported(nodes, i, done) <==> AllIn(nodes[i].deps, Core(nodes, done))
  {
    forall dep | dep in nodes[i].deps
      ensures dep in Core(nodes, done) <==>
                dep in done && forall j: nat :: j < i && nodes[j].ID() == dep ==> Supported(nodes, j, done)
    {
      assert FromEarlier(nodes, i, [], dep);
      var k: nat :| k < i && nodes[k].ID() == dep;
      InCore(nodes, done, k);
      forall j: nat | j < i && nodes[j].ID() == dep ensures j == k {}
    }
  }

  lemma CoreIsCore(plan: seq<Group>, done: set<string>)
    requires DistinctIDs(PlanNodes(plan))
    ensures IsCore(PlanNodes(plan), done, Core(PlanNodes(plan), done))
  {
    var nodes := PlanNodes(plan);
    OrderFromPointsBack(plan, 0, [], []);
    forall i | 0 <= i < |nodes|
      ensures nodes[i].ID() in Core(nodes, done) <==> nodes[i].ID() in done && AllIn(nodes[i].deps, Core(nodes, done))
    {
      InCore(nodes, done, i);
      SupportedByCore(nodes, OrderFrom(plan, 0, [], []).terminals, done, i);
    }
  }

  // ---------------------------------------------------------------- positions cannot tell

  /** What two done-sets, and their positions, have in common on one stretch of the plan. */
  predicate Aligned(nodes: seq<Node>, done: set<string>, core: set<string>, positions: set<string>, corePositions: set<string>) {
    IsCore(nodes, done, core) && SameSteps(nodes, done, positions) && SameSteps(nodes, core, corePositions)
  }

  lemma AlignedParts(a: seq<Node>, b: seq<Node>, done: set<string>, core: set<string>,
                     positions: set<string>, corePositions: set<string>)
    requires Aligned(a + b, done, core, positions, corePositions)
    ensures Aligned(a, done, core, positions, corePositions) && Aligned(b, done, core, positions, corePositions)
  {
    var all := a + b;
    assert forall i :: 0 <= i < |a| ==> a[i] == all[i];
    assert forall i :: 0 <= i < |b| ==> b[i] == all[|a| + i];
  }

  /** In a leaf that may start, the positions finished up to the first gap are the same. */
  lemma {:induction false} ChainCannotTell(steps: seq<Step>, index: nat, path: seq<nat>, prev: seq<string>, done: set<string>,
                                           core: set<string>, positions: set<string>, corePositions: set<string>)
    requires Aligned(ChainNodes(LeafVisits(steps, index, path), prev), done, core, positions, corePositions)
    requires AllIn(prev, core)
    ensures LeafReadyVisits(steps, index, path, false, positions) == LeafReadyVisits(steps, index, path, false, corePositions)
  {
    if steps != [] {
      var vs := LeafVisits(steps, index, path);
      var nodes, first := ChainNodes(vs, prev), StepTaskID(vs[0]);
      assert nodes == [nodes[0]] + ChainNodes(vs[1..], [first]);
      AlignedParts([nodes[0]], ChainNodes(vs[1..], [first]), done, core, positions, corePositions);
      assert nodes[0].visit.ref == StepRef(path, index);
      if first in done {
        OneIn(first, core);
        ChainCannotTell(steps[1..], index + 1, path, [first], done, core, positions, corePositions);
      }
    }
  }

  lemma {:induction false} FanCannotTell(steps: seq<Step>, index: nat, path: seq<nat>, prev: seq<string>, done: set<string>,
                                         core: set<string>, positions: set<string>, corePositions: set<string>)
    requires Aligned(FanNodes(LeafVisits(steps, index, path), prev), done, core, positions, corePositions)
    requires AllIn(prev, core)
    ensures LeafReadyVisits(steps, index, path, true, positions) == LeafReadyVisits(steps, index, path, true, corePositions)
  {
    if steps != [] {
      var vs := LeafVisits(steps, index, path);
      var nodes := FanNodes(vs, prev);
      assert nodes == [nodes[0]] + FanNodes(vs[1..], prev);
      AlignedParts([nodes[0]], FanNodes(vs[1..], prev), done, core, positions, corePositions);
      assert nodes[0].visit.ref == StepRef(path, index);
      FanCannotTell(steps[1..], index + 1, path, prev, done, core, positions, corePositions);
    }
  }

  lemma LeafCannotTell(g: Group, path: seq<nat>, prev: seq<string>, done: set<string>,
                       core: set<string>, positions: set<string>, corePositions: set<string>)
    requires g.subGroups == []
    requires Aligned(OrderGroup(g, path, prev).nodes, done, core, positions, corePositions) && AllIn(prev, core)
    ensures LeafReadyVisits(g.steps, 0, path, g.parallel, positions) == LeafReadyVisits(g.steps, 0, path, g.parallel, corePositions)
    ensures GroupDone(g, path, positions) == GroupDone(g, path, corePositions)
  {
    if g.steps != [] {
      if g.parallel {
        FanCannotTell(g.steps, 0, path, prev, done, core, positions, corePositions);
      } else {
        ChainCannotTell(g.steps, 0, path, prev, done, core, positions, corePositions);
      }
    }
    NothingReleased(g.steps, 0, path, g.parallel, positions);
    NothingReleased(g.steps, 0, path, g.parallel, corePositions);
  }

  lemma {:induction false} GroupCannotTell(g: Group, path: seq<nat>, prev: seq<string>, done: set<string>,
                                           core: set<string>, positions: set<string>, corePositions: set<string>)
    requires Aligned(OrderGroup(g, path, prev).nodes, done, core, positions, corePositions) && AllIn(prev, core)
    ensures DecomposeGroup(g, path, positions) == DecomposeGroup(g, path, corePositions)
    ensures GroupDone(g, path, positions) == GroupDone(g, path, corePositions)
    decreases g, 1
  {
    if g.subGroups != [] {
      CannotTell(g.subGroups, 0, path, prev, done, core, positions, corePositions);
    } else {
      LeafCannotTell(g, path, prev, done, core, positions, corePositions);
    }
  }

  /** Positions release the same steps for a done-set and for its core. */
  lemma {:induction false} CannotTell(groups: seq<Group>, base: nat, path: seq<nat>, prev: seq<string>, done: set<string>,
                                      core: set<string>, positions: set<string>, corePositions: set<string>)
    requires Aligned(OrderFrom(groups, base, path, prev).nodes, done, core, positions, corePositions) && AllIn(prev, core)
    ensures DecomposeFrom(groups, base, path, positions) == DecomposeFrom(groups, base, path, corePositions)
    ensures GroupsDone(groups, base, path, positions) == GroupsDone(groups, base, path, corePositions)
    decreases groups, 0
  {
    if groups != [] {
      var head := OrderGroup(groups[0], path + [base], prev);
      var tail := OrderFrom(groups[1..], base + 1, path, head.terminals);
      AlignedParts(head.nodes, tail.nodes, done, core, positions, corePositions);
      GroupCannotTell(groups[0], path + [base], prev, done, core, positions, corePositions);
      if GroupDone(groups[0], path + [base], positions) {
        AgreeGroup(groups[0], path + [base], prev, core, corePositions);
        CannotTell(groups[1..], base + 1, path, head.terminals, done, core, positions, corePositions);
      }
    }
  }

  // ---------------------------------------------------------------- the theorems

  lemma ReadyLast(nodes: seq<Node>, n: nat, done: set<string>)
    requires 0 < n <= |nodes|
    ensures ReadyVisits(nodes[..n], done) == ReadyVisits(nodes[..n - 1], done) + IfReady(nodes[n - 1], done)
  {
    assert nodes[..n] == nodes[..n - 1] + [nodes[n - 1]];
    ReadyVisitsConcat(nodes[..n - 1], [nodes[n - 1]], done);
    assert [nodes[n - 1]][1..] == [];
    PlusEmpty(IfReady(nodes[n - 1], done));
  }

  lemma {:induction false} CoreReady(nodes: seq<Node>, terminals: seq<string>, done: set<string>, n: nat)
    requires DistinctIDs(nodes) && PointsBack(Chain(nodes, terminals), []) && n <= |nodes|
    ensures ReadyVisits(nodes[..n], Core(nodes, done)) == SupportedBelow(nodes, done, n)
  {
    if n > 0 {
      CoreReady(nodes, terminals, done, n - 1);
      ReadyLast(nodes, n, Core(nodes, done));
      SupportedByCore(nodes, terminals, done, n - 1);
      InCore(nodes, done, n - 1);
    }
  }

  /** On every done-set: positions release exactly the unfinished steps all of whose support is finished,
      in walk order. */
  lemma PositionsReleaseSupported(plan: seq<Group>, done: set<string>)
    requires DistinctIDs(PlanNodes(plan))
    ensures var nodes := PlanNodes(plan);
            Decompose(plan, PositionsOf(nodes, done)).visits == SupportedBelow(nodes, done, |nodes|)
  {
    var nodes := PlanNodes(plan);
    var core := Core(nodes, done);
    var positions, corePositions := PositionsOf(nodes, done), PositionsOf(nodes, core);
    CoreIsCore(plan, done);
    PositionsAreSame(plan, done);
    PositionsAreSame(plan, core);
    CannotTell(plan, 0, [], [], done, core, positions, corePositions);
    AgreeFrom(plan, 0, [], [], core, corePositions);
    if GroupsDone(plan, 0, [], corePositions) { FinishedReleasesNothing(plan, 0, [], corePositions); }
    OrderFromPointsBack(plan, 0, [], []);
    CoreReady(nodes, OrderFrom(plan, 0, [], []).terminals, done, |nodes|);
    assert nodes[..|nodes|] == nodes;
  }

  lemma {:induction false} SupportedVisit(nodes: seq<Node>, done: set<string>, n: nat, v: Visit)
    requires n <= |nodes|
    ensures v in SupportedBelow(nodes, done, n) <==>
              exists i: nat :: i < n && nodes[i].visit == v && nodes[i].ID() !in done && Supported(nodes, i, done)
  {
    if n > 0 { SupportedVisit(nodes, done, n - 1, v); }
  }

  /** So what positions release is always edge-ready. */
  lemma ReleasedAreEdgeReady(plan: seq<Group>, done: set<string>, v: Visit)
    requires DistinctIDs(PlanNodes(plan))
    requires v in Decompose(plan, PositionsOf(PlanNodes(plan), done)).visits
    ensures v in ReadyVisits(PlanNodes(plan), done)
  {
    var nodes := PlanNodes(plan);
    PositionsReleaseSupported(plan, done);
    SupportedVisit(nodes, done, |nodes|, v);
    ReadyVisitsOf(nodes, done, v);
    var i: nat :| i < |nodes| && nodes[i].visit == v && nodes[i].ID() !in done && Supported(nodes, i, done);
    assert EdgeReady(nodes[i], done);
  }

  /** Every edge-ready step has all it transitively waits for finished. */
  predicate ReadyMeansSupported(nodes: seq<Node>, done: set<string>) {
    forall i: nat :: i < |nodes| && EdgeReady(nodes[i], done) ==> Supported(nodes, i, done)
  }

  lemma {:induction false} ReadyIsSupported(nodes: seq<Node>, done: set<string>, n: nat)
    requires n <= |nodes| && ReadyMeansSupported(nodes, done)
    ensures ReadyVisits(nodes[..n], done) == SupportedBelow(nodes, done, n)
  {
    if n > 0 {
      ReadyIsSupported(nodes, done, n - 1);
      ReadyLast(nodes, n, done);
    }
  }

  /** For every plan and every done-set, the edges and the positions release the same steps in the same
      order exactly when every edge-ready step has all it transitively waits for finished. */
  lemma SchedulersAgreeWhen(plan: seq<Group>, done: set<string>)
    requires DistinctIDs(PlanNodes(plan))
    ensures var nodes := PlanNodes(plan);
            ReadyVisits(nodes, done) == Decompose(plan, PositionsOf(nodes, done)).visits <==>
            ReadyMeansSupported(nodes, done)
  {
    var nodes := PlanNodes(plan);
    PositionsReleaseSupported(plan, done);
    assert nodes[..|nodes|] == nodes;
    if ReadyMeansSupported(nodes, done) {
      ReadyIsSupported(nodes, done, |nodes|);
    } else {
      var i: nat :| i < |nodes| && EdgeReady(nodes[i], done) && !Supported(nodes, i, done);
      ReadyVisitsOf(nodes, done, nodes[i].visit);
      SupportedVisit(nodes, done, |nodes|, nodes[i].visit);
      if j: nat :| j < |nodes| && nodes[j].visit == nodes[i].visit && nodes[j].ID() !in done && Supported(nodes, j, done) {
        PlanRefsDistinct(plan, i, j);
      }
    }
  }

  /** Being closed under the edges is enough. */
  lemma ClosedIsEnough(plan: seq<Group>, done: set<string>)
    requires DistinctIDs(PlanNodes(plan)) && Closed(PlanNodes(plan), done)
    ensures ReadyMeansSupported(PlanNodes(plan), done)
  {
    var nodes := PlanNodes(plan);
    forall i: nat | i < |nodes| && AllIn(nodes[i].deps, done) ensures Supported(nodes, i, done) {
      ClosedSupports(nodes, i, done);
    }
  }

  lemma {:induction false} ClosedSupports(nodes: seq<Node>, i: nat, done: set<string>)
    requires Closed(nodes, done) && i < |nodes| && AllIn(nodes[i].deps, done)
    ensures Supported(nodes, i, done)
    decreases i
  {
    forall dep, j: nat | dep in nodes[i].deps && j < i && nodes[j].ID() == dep ensures Supported(nodes, j, done) {
      ClosedSupports(nodes, j, done);
    }
  }
}
