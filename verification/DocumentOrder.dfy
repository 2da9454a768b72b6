/** Dependency edges derived from document order.

    Models documentOrderEdges of internal/orch/plan_import.go and stepTaskID of
    internal/orch/dispatch_graph.go. */
module DocumentOrder {
  import opened Sequences
  import opened Wrappers
  import opened PlanTree

  /** A step's store id: its metadata id when it has one, else its position. */
  function StepTaskID(v: Visit): string {
    if v.step.metadata.Some? && v.step.metadata.value.id != "" then v.step.metadata.value.id
    else v.ref.ID()
  }

  function TaskIDs(vs: seq<Visit>): (ids: seq<string>)
    ensures |ids| == |vs|
    ensures forall i :: 0 <= i < |vs| ==> ids[i] == StepTaskID(vs[i])
  {
    seq(|vs|, i requires 0 <= i < |vs| => StepTaskID(vs[i]))
  }

  /** A step with the tasks it waits for. */
  datatype Node = Node(visit: Visit, deps: seq<string>) {
    function ID(): string {
      StepTaskID(visit)
    }
  }

  /** The nodes of a stretch of the plan, and the tasks whatever follows it must wait for. */
  datatype Chain = Chain(nodes: seq<Node>, terminals: seq<string>)

  function DepsOf(nodes: seq<Node>): (edges: seq<seq<string>>)
    ensures |edges| == |nodes|
    ensures forall i :: 0 <= i < |nodes| ==> edges[i] == nodes[i].deps
  {
    seq(|nodes|, i requires 0 <= i < |nodes| => nodes[i].deps)
  }

  /** A parallel leaf: every step waits for the same tasks. */
  function FanNodes(vs: seq<Visit>, prev: seq<string>): (nodes: seq<Node>)
    ensures |nodes| == |vs|
    ensures forall i {:trigger nodes[i]} :: 0 <= i < |vs| ==> nodes[i] == Node(vs[i], prev)
  {
    seq(|vs|, i requires 0 <= i < |vs| => Node(vs[i], prev))
  }

  /** A sequential leaf: the first step waits for prev, every other for its predecessor. */
  function ChainNodes(vs: seq<Visit>, prev: seq<string>): (nodes: seq<Node>)
    ensures |nodes| == |vs|
    ensures forall i {:trigger nodes[i]} :: 0 <= i < |vs| ==>
              nodes[i] == Node(vs[i], if i == 0 then prev else [StepTaskID(vs[i - 1])])
  {
    seq(|vs|, i requires 0 <= i < |vs| => Node(vs[i], if i == 0 then prev else [StepTaskID(vs[i - 1])]))
  }

  function OrderFrom(groups: seq<Group>, base: nat, path: seq<nat>, prev: seq<string>): Chain
    decreases groups, 0
  {
    if groups == [] then Chain([], prev)
    else
      var head := OrderGroup(groups[0], path + [base], prev);
      var tail := OrderFrom(groups[1..], base + 1, path, head.terminals);
      Chain(head.nodes + tail.nodes, tail.terminals)
  }

  function OrderGroup(g: Group, path: seq<nat>, prev: seq<string>): Chain
    decreases g, 1
  {
    if g.subGroups != [] then OrderFrom(g.subGroups, 0, path, prev)
    else LeafChain(LeafVisits(g.steps, 0, path), g.parallel, prev)
  }

  /** A leaf without steps leaves what follows it waiting for the same tasks as before. */
  function LeafChain(vs: seq<Visit>, parallel: bool, prev: seq<string>): (c: Chain)
    ensures |c.nodes| == |vs|
    ensures forall i {:trigger c.nodes[i]} :: 0 <= i < |vs| ==>
              c.nodes[i] == Node(vs[i], if parallel || i == 0 then prev else [StepTaskID(vs[i - 1])])
  {
    if vs == [] then Chain([], prev)
    else if parallel then Chain(FanNodes(vs, prev), TaskIDs(vs))
    else Chain(ChainNodes(vs, prev), [StepTaskID(vs[|vs| - 1])])
  }

  /** A plan's steps in document order, each with the tasks document order makes it wait for. */
  function PlanNodes(plan: seq<Group>): seq<Node> {
    OrderFrom(plan, 0, [], []).nodes
  }

  // ---------------------------------------------------------------- shape

  function Visits(nodes: seq<Node>): (vs: seq<Visit>)
    ensures |vs| == |nodes|
    ensures forall i :: 0 <= i < |nodes| ==> vs[i] == nodes[i].visit
  {
    seq(|nodes|, i requires 0 <= i < |nodes| => nodes[i].visit)
  }

  /** Edges line up index for index with the walk. */
  lemma {:induction false} OrderFromVisits(groups: seq<Group>, base: nat, path: seq<nat>, prev: seq<string>)
    ensures Visits(OrderFrom(groups, base, path, prev).nodes) == WalkFrom(groups, base, path)
    decreases groups, 0
  {
    if groups != [] {
      var head := OrderGroup(groups[0], path + [base], prev);
      var tail := OrderFrom(groups[1..], base + 1, path, head.terminals);
      OrderGroupVisits(groups[0], path + [base], prev);
      OrderFromVisits(groups[1..], base + 1, path, head.terminals);
      assert Visits(head.nodes + tail.nodes) == Visits(head.nodes) + Visits(tail.nodes);
    }
  }

  lemma {:induction false} OrderGroupVisits(g: Group, path: seq<nat>, prev: seq<string>)
    ensures Visits(OrderGroup(g, path, prev).nodes) == WalkGroup(g, path)
    decreases g, 1
  {
    if g.subGroups != [] {
      OrderFromVisits(g.subGroups, 0, path, prev);
    } else {
      var vs := LeafVisits(g.steps, 0, path);
      assert vs != [] ==> Visits(FanNodes(vs, prev)) == vs && Visits(ChainNodes(vs, prev)) == vs;
    }
  }

  /** Where a dependency of nodes[i] comes from: the tasks waited for before, or an earlier node. */
  predicate FromEarlier(nodes: seq<Node>, i: nat, prev: seq<string>, dep: string)
    requires i < |nodes|
  {
    dep in prev || exists j :: 0 <= j < i && nodes[j].ID() == dep
  }

  predicate PointsBack(c: Chain, prev: seq<string>) {
    && (forall i, dep :: 0 <= i < |c.nodes| && dep in c.nodes[i].deps ==> FromEarlier(c.nodes, i, prev, dep))
    && (forall t :: t in c.terminals ==> t in prev || exists j :: 0 <= j < |c.nodes| && c.nodes[j].ID() == t)
  }

  /** Every edge points at an earlier step of the walk, so the edges are acyclic. */
  lemma {:induction false} OrderFromPointsBack(groups: seq<Group>, base: nat, path: seq<nat>, prev: seq<string>)
    ensures PointsBack(OrderFrom(groups, base, path, prev), prev)
    decreases groups, 0
  {
    if groups != [] {
      var head := OrderGroup(groups[0], path + [base], prev);
      var tail := OrderFrom(groups[1..], base + 1, path, head.terminals);
      OrderGroupPointsBack(groups[0], path + [base], prev);
      OrderFromPointsBack(groups[1..], base + 1, path, head.terminals);
      ConcatPointsBack(head, tail, prev);
    }
  }

  lemma ConcatPointsBack(head: Chain, tail: Chain, prev: seq<string>)
    requires PointsBack(head, prev) && PointsBack(tail, head.terminals)
    ensures PointsBack(Chain(head.nodes + tail.nodes, tail.terminals), prev)
  {
    var all := head.nodes + tail.nodes;
    assert forall j :: 0 <= j < |head.nodes| ==> all[j] == head.nodes[j];
    assert forall j :: 0 <= j < |tail.nodes| ==> all[|head.nodes| + j] == tail.nodes[j];
    forall i, dep | 0 <= i < |all| && dep in all[i].deps
      ensures FromEarlier(all, i, prev, dep)
    {
      if i < |head.nodes| {
        assert FromEarlier(head.nodes, i, prev, dep);
      } else {
        assert FromEarlier(tail.nodes, i - |head.nodes|, head.terminals, dep);
      }
    }
  }

  lemma {:induction false} OrderGroupPointsBack(g: Group, path: seq<nat>, prev: seq<string>)
    ensures PointsBack(OrderGroup(g, path, prev), prev)
    decreases g, 1
  {
    if g.subGroups != [] {
      OrderFromPointsBack(g.subGroups, 0, path, prev);
    } else {
      LeafPointsBack(LeafVisits(g.steps, 0, path), g.parallel, prev);
    }
  }

  lemma LeafPointsBack(vs: seq<Visit>, parallel: bool, prev: seq<string>)
    ensures PointsBack(LeafChain(vs, parallel, prev), prev)
  {
    var c := LeafChain(vs, parallel, prev);
    assert forall j :: 0 <= j < |vs| ==> c.nodes[j].ID() == StepTaskID(vs[j]);
    forall i, dep | 0 <= i < |c.nodes| && dep in c.nodes[i].deps
      ensures FromEarlier(c.nodes, i, prev, dep)
    {
      if !parallel && i > 0 { assert c.nodes[i - 1].ID() == dep; }
    }
    forall t | t in c.terminals && vs != []
      ensures exists j :: 0 <= j < |c.nodes| && c.nodes[j].ID() == t
    {
      var j := if parallel then var k :| 0 <= k < |vs| && TaskIDs(vs)[k] == t; k else |vs| - 1;
      assert c.nodes[j].ID() == t;
    }
  }

  // ---------------------------------------------------------------- the source's builder

  /** The variables documentOrderEdges' visitor closes over. */
  class EdgeBuilder {
    const ids: seq<string>
    var edges: seq<seq<string>>
    var prevTerminals: seq<string>
    var idx: nat

    constructor (ids: seq<string>)
      ensures this.ids == ids && |edges| == |ids|
      ensures prevTerminals == [] && idx == 0
    {
      this.ids := ids;
      edges := seq(|ids|, _ => []);
      prevTerminals := [];
      idx := 0;
    }

    /** The ids still to be placed start with the ids of these visits. */
    ghost predicate Aligned(vs: seq<Visit>)
      reads this
    {
      |edges| == |ids| && idx + |vs| <= |ids| && ids[idx..idx + |vs|] == TaskIDs(vs)
    }

    /** Placing a stretch of the plan appends its edges and leaves its terminals behind. */
    twostate predicate Placed(c: Chain)
      reads this
    {
      && |edges| == |ids|
      && old(idx) + |c.nodes| == idx <= |ids|
      && prevTerminals == c.terminals
      && old(|edges| == |ids|)
      && edges[..idx] == old(edges[..idx]) + DepsOf(c.nodes)
    }

    /** edges[idx] = e; idx++ */
    method PlaceEdge(e: seq<string>)
      requires idx < |edges|
      modifies `edges, `idx
      ensures idx == old(idx) + 1 && |edges| == old(|edges|)
      ensures edges[..idx] == old(edges[..idx]) + [e]
    {
      edges := edges[idx := e];
      idx := idx + 1;
    }

    method PlaceLeaf(g: Group, ghost deps: seq<seq<string>>)
      requires 0 < |g.steps| == |deps| && idx + |deps| <= |edges| == |ids|
      requires forall i {:trigger deps[i]} :: 0 <= i < |deps| ==>
                 deps[i] == if g.parallel || i == 0 then prevTerminals else [ids[idx + i - 1]]
      modifies this
      ensures idx == old(idx) + |deps| && |edges| == |ids|
      ensures edges[..idx] == old(edges[..idx]) + deps
      ensures prevTerminals == if g.parallel then ids[old(idx)..idx] else [ids[idx - 1]]
    {
      ghost var before := edges[..idx];
      var start := idx;
      for i := 0 to |g.steps|
        modifies `edges, `idx
        invariant idx == start + i && |edges| == |ids|
        invariant edges[..idx] == before + deps[..i]
      {
        var e := if g.parallel || idx == start then prevTerminals else [ids[idx - 1]];
        assert before + deps[..i] + [deps[i]] == before + deps[..i + 1];
        PlaceEdge(e);
      }
      assert deps[..|g.steps|] == deps;
      if g.parallel {
        prevTerminals := ids[start..idx];
      } else {
        prevTerminals := [ids[idx - 1]];
      }
    }

    method VisitGroup(g: Group, ghost path: seq<nat>)
      requires Aligned(WalkGroup(g, path))
      modifies this
      ensures Placed(OrderGroup(g, path, old(prevTerminals)))
      decreases g, 1
    {
      if |g.subGroups| > 0 {
        VisitGroups(g.subGroups, path);
        return;
      }
      if |g.steps| == 0 {
        NoDeps(edges[..idx]);
        return;
      }
      ghost var c := LeafChain(LeafVisits(g.steps, 0, path), g.parallel, prevTerminals);
      LeafAt(ids, idx, LeafVisits(g.steps, 0, path), g.parallel, prevTerminals);
      PlaceLeaf(g, DepsOf(c.nodes));
      assert prevTerminals == c.terminals;
    }

    method VisitGroups(groups: seq<Group>, ghost path: seq<nat>)
      requires Aligned(WalkFrom(groups, 0, path))
      modifies this
      ensures Placed(OrderFrom(groups, 0, path, old(prevTerminals)))
      decreases groups, 0
    {
      ghost var goal, before := OrderFrom(groups, 0, path, prevTerminals), edges[..idx];
      ghost var placed: seq<Node> := [];
      EmptyPlus(goal.nodes);
      NoDeps(before);
      for i := 0 to |groups|
        invariant Aligned(WalkFrom(groups[i..], i, path))
        invariant idx == |before| + |placed| && edges[..idx] == before + DepsOf(placed)
        invariant var rest := OrderFrom(groups[i..], i, path, prevTerminals);
                  goal == Chain(placed + rest.nodes, rest.terminals)
      {
        assert groups[i..][1..] == groups[i + 1..];
        ghost var head := OrderGroup(groups[i], path + [i], prevTerminals);
        OrderGroupVisits(groups[i], path + [i], prevTerminals);
        AlignedSplit(ids, idx, WalkGroup(groups[i], path + [i]), WalkFrom(groups[i + 1..], i + 1, path));
        Assoc(placed, head.nodes, OrderFrom(groups[i + 1..], i + 1, path, head.terminals).nodes);
        DepsOfConcat(placed, head.nodes);
        Assoc(before, DepsOf(placed), DepsOf(head.nodes));
        VisitGroup(groups[i], path + [i]);
        placed := placed + head.nodes;
      }
      PlusEmpty(placed);
    }
  }

  lemma NoDeps(before: seq<seq<string>>)
    ensures before + DepsOf([]) == before
  {
    PlusEmpty(before);
  }

  lemma DepsOfConcat(a: seq<Node>, b: seq<Node>)
    ensures DepsOf(a + b) == DepsOf(a) + DepsOf(b)
  {}

  /** The ids at a position are those of the visits aligned with it. */
  lemma IdsAt(ids: seq<string>, at: nat, vs: seq<Visit>)
    requires at + |vs| <= |ids| && ids[at..at + |vs|] == TaskIDs(vs)
    ensures forall m :: at <= m < at + |vs| ==> ids[m] == StepTaskID(vs[m - at])
  {
    forall m | at <= m < at + |vs| ensures ids[m] == StepTaskID(vs[m - at]) {
      assert ids[m] == ids[at..at + |vs|][m - at];
    }
  }

  /** A leaf's edges and terminals, read off the ids aligned with it. */
  lemma LeafAt(ids: seq<string>, at: nat, vs: seq<Visit>, parallel: bool, prev: seq<string>)
    requires vs != [] && at + |vs| <= |ids| && ids[at..at + |vs|] == TaskIDs(vs)
    ensures var c := LeafChain(vs, parallel, prev);
            && (forall i {:trigger DepsOf(c.nodes)[i]} :: 0 <= i < |vs| ==>
                  DepsOf(c.nodes)[i] == if parallel || i == 0 then prev else [ids[at + i - 1]])
            && c.terminals == if parallel then ids[at..at + |vs|] else [ids[at + |vs| - 1]]
  {
    IdsAt(ids, at, vs);
  }

  lemma AlignedSplit(ids: seq<string>, at: nat, head: seq<Visit>, tail: seq<Visit>)
    requires at + |head + tail| <= |ids| && ids[at..at + |head + tail|] == TaskIDs(head + tail)
    ensures ids[at..at + |head|] == TaskIDs(head)
    ensures ids[at + |head|..at + |head| + |tail|] == TaskIDs(tail)
  {
    IdsAt(ids, at, head + tail);
    forall k | 0 <= k < |head| ensures ids[at..at + |head|][k] == TaskIDs(head)[k] {
      assert ids[at + k] == StepTaskID((head + tail)[k]);
    }
    forall k | 0 <= k < |tail| ensures ids[at + |head|..at + |head| + |tail|][k] == TaskIDs(tail)[k] {
      assert ids[at + |head| + k] == StepTaskID((head + tail)[|head| + k]);
    }
  }

  /** The edges the source computes are those of the specification, for every plan tree. */
  method DocumentOrderEdges(plan: seq<Group>, ids: seq<string>) returns (edges: seq<seq<string>>)
    requires ids == TaskIDs(Walk(plan))
    ensures edges == DepsOf(PlanNodes(plan))
  {
    var b := new EdgeBuilder(ids);
    assert ids[0..|Walk(plan)|] == ids;
    OrderFromVisits(plan, 0, [], []);
    b.VisitGroups(plan, []);
    assert b.edges[..b.idx] == b.edges;
    edges := b.edges;
  }
}
