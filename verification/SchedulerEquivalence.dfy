/** The explicit edges reproduce the positional scheduler, over every plan tree and every run.

    Relates internal/orch/plan_import.go (edges) to internal/plan/decompose.go (positions). */
module SchedulerEquivalence {
  import opened Sequences
  import opened Wrappers
  import opened PlanTree
  import opened PlanDecompose
  import opened DocumentOrder

  // ---------------------------------------------------------------- edge readiness

  predicate AllIn(ids: seq<string>, done: set<string>) {
    forall d :: d in ids ==> d in done
  }

  /** The store's readiness: not finished, and every dependency finished. */
  predicate EdgeReady(n: Node, done: set<string>) {
    n.ID() !in done && AllIn(n.deps, done)
  }

  function ReadyVisits(nodes: seq<Node>, done: set<string>): seq<Visit> {
    if nodes == [] then [] else IfReady(nodes[0], done) + ReadyVisits(nodes[1..], done)
  }

  function IfReady(n: Node, done: set<string>): seq<Visit> {
    if EdgeReady(n, done) then [n.visit] else []
  }

  /** Nothing is finished before what it waits for. */
  predicate Closed(nodes: seq<Node>, done: set<string>) {
    forall i :: 0 <= i < |nodes| && nodes[i].ID() in done ==> AllIn(nodes[i].deps, done)
  }

  predicate NoneDone(nodes: seq<Node>, done: set<string>) {
    forall i :: 0 <= i < |nodes| ==> nodes[i].ID() !in done
  }

  /** The finished task ids and the finished positions describe the same steps. */
  predicate SameSteps(nodes: seq<Node>, done: set<string>, positions: set<string>) {
    forall i :: 0 <= i < |nodes| ==> (nodes[i].ID() in done <==> nodes[i].visit.ref.ID() in positions)
  }

  lemma {:induction false} ReadyVisitsConcat(a: seq<Node>, b: seq<Node>, done: set<string>)
    ensures ReadyVisits(a + b, done) == ReadyVisits(a, done) + ReadyVisits(b, done)
  {
    if a == [] {
      EmptyPlus(b);
      EmptyPlus(ReadyVisits(b, done));
    } else {
      TailOfConcat(a, b);
      ReadyVisitsConcat(a[1..], b, done);
      Assoc(IfReady(a[0], done), ReadyVisits(a[1..], done), ReadyVisits(b, done));
    }
  }

  lemma {:induction false} ReadyVisitsOf(nodes: seq<Node>, done: set<string>, v: Visit)
    ensures v in ReadyVisits(nodes, done) <==>
              exists i :: 0 <= i < |nodes| && nodes[i].visit == v && EdgeReady(nodes[i], done)
  {
    if nodes != [] {
      ReadyVisitsOf(nodes[1..], done, v);
      if i :| 0 <= i < |nodes[1..]| && nodes[1..][i].visit == v && EdgeReady(nodes[1..][i], done) {
        assert nodes[i + 1].visit == v;
      }
      if i :| 0 <= i < |nodes| && nodes[i].visit == v && EdgeReady(nodes[i], done) {
        if i > 0 { assert nodes[1..][i - 1] == nodes[i]; }
      }
    }
  }

  // ---------------------------------------------------------------- one state

  /** What the two schedulers have in common on one stretch of the plan, given whether the tasks it
      waits for (prev) are all finished, and which steps the positional scheduler would release. */
  predicate Agree(c: Chain, prev: seq<string>, done: set<string>, finished: bool, released: seq<Visit>) {
    if AllIn(prev, done) then
      && (AllIn(c.terminals, done) <==> finished)
      && ReadyVisits(c.nodes, done) == (if finished then [] else released)
    else
      && !AllIn(c.terminals, done)
      && ReadyVisits(c.nodes, done) == []
      && NoneDone(c.nodes, done)
  }

  function Released(r: Option<Ready>): seq<Visit> {
    if r.None? then [] else r.value.visits
  }

  lemma {:induction false} FanAgree(steps: seq<Step>, index: nat, path: seq<nat>, prev: seq<string>,
                                    done: set<string>, positions: set<string>)
    requires var nodes := FanNodes(LeafVisits(steps, index, path), prev);
             Closed(nodes, done) && SameSteps(nodes, done, positions)
    ensures var nodes := FanNodes(LeafVisits(steps, index, path), prev);
            ReadyVisits(nodes, done) ==
            if AllIn(prev, done) then LeafReadyVisits(steps, index, path, true, positions) else []
  {
    if steps != [] {
      var vs := LeafVisits(steps, index, path);
      assert FanNodes(vs, prev)[1..] == FanNodes(vs[1..], prev);
      FanAgree(steps[1..], index + 1, path, prev, done, positions);
    }
  }

  lemma {:induction false} ChainAgree(steps: seq<Step>, index: nat, path: seq<nat>, prev: seq<string>,
                                      done: set<string>, positions: set<string>)
    requires var nodes := ChainNodes(LeafVisits(steps, index, path), prev);
             Closed(nodes, done) && SameSteps(nodes, done, positions)
    ensures var nodes := ChainNodes(LeafVisits(steps, index, path), prev);
            && (AllIn(prev, done) ==> ReadyVisits(nodes, done) == LeafReadyVisits(steps, index, path, false, positions))
            && (!AllIn(prev, done) ==> ReadyVisits(nodes, done) == [] && NoneDone(nodes, done))
            && (nodes != [] && nodes[|nodes| - 1].ID() in done ==>
                  forall i :: 0 <= i < |nodes| ==> nodes[i].ID() in done)
  {
    if steps != [] {
      var vs := LeafVisits(steps, index, path);
      var first := StepTaskID(vs[0]);
      var nodes, rest := ChainNodes(vs, prev), ChainNodes(vs[1..], [first]);
      assert nodes[1..] == rest;
      ClosedTail(nodes, done, positions);
      ChainAgree(steps[1..], index + 1, path, [first], done, positions);
      assert AllIn([first], done) <==> first in done by { assert first in [first]; }
      if nodes[|nodes| - 1].ID() in done && rest != [] {
        assert rest[|rest| - 1] == nodes[|nodes| - 1];
        assert rest[0].ID() in done && rest[0].deps == [first];
      }
      AllOrNone(nodes, done);
    }
  }

  lemma ClosedTail(nodes: seq<Node>, done: set<string>, positions: set<string>)
    requires nodes != [] && Closed(nodes, done) && SameSteps(nodes, done, positions)
    ensures Closed(nodes[1..], done) && SameSteps(nodes[1..], done, positions)
  {
    assert forall i :: 0 <= i < |nodes[1..]| ==> nodes[1..][i] == nodes[i + 1];
  }

  lemma AllOrNone(nodes: seq<Node>, done: set<string>)
    requires nodes != []
    ensures nodes[0].ID() !in done && NoneDone(nodes[1..], done) ==> NoneDone(nodes, done)
    ensures nodes[0].ID() in done && (forall i :: 0 <= i < |nodes[1..]| ==> nodes[1..][i].ID() in done) ==>
              forall i :: 0 <= i < |nodes| ==> nodes[i].ID() in done
  {
    assert forall i :: 0 < i < |nodes| ==> nodes[i] == nodes[1..][i - 1];
  }

  /** Once every position is finished, a leaf has nothing left to release. */
  lemma {:induction false} NothingReleased(steps: seq<Step>, index: nat, path: seq<nat>, parallel: bool, positions: set<string>)
    ensures LeafReadyVisits(steps, index, path, parallel, positions) == [] <==>
              forall k :: index <= k < index + |steps| ==> StepRef(path, k).ID() in positions
  {
    if steps != [] { NothingReleased(steps[1..], index + 1, path, parallel, positions); }
  }

  /** A leaf's terminals are finished exactly when all its steps are. */
  lemma LeafTerminals(steps: seq<Step>, path: seq<nat>, parallel: bool, prev: seq<string>,
                      done: set<string>, positions: set<string>)
    requires steps != []
    requires var nodes := LeafChain(LeafVisits(steps, 0, path), parallel, prev).nodes;
             Closed(nodes, done) && SameSteps(nodes, done, positions)
    ensures var c := LeafChain(LeafVisits(steps, 0, path), parallel, prev);
            && (AllIn(c.terminals, done) <==> forall k :: 0 <= k < |steps| ==> StepRef(path, k).ID() in positions)
            && (!AllIn(prev, done) ==> NoneDone(c.nodes, done))
  {
    var vs := LeafVisits(steps, 0, path);
    var c := LeafChain(vs, parallel, prev);
    LeafPositions(steps, path, c.nodes, done, positions);
    if parallel {
      FanTerminals(vs, prev, done);
    } else {
      ChainTerminals(steps, path, prev, done, positions);
    }
  }

  lemma ChainTerminals(steps: seq<Step>, path: seq<nat>, prev: seq<string>, done: set<string>, positions: set<string>)
    requires steps != []
    requires var nodes := ChainNodes(LeafVisits(steps, 0, path), prev);
             Closed(nodes, done) && SameSteps(nodes, done, positions)
    ensures var vs := LeafVisits(steps, 0, path);
            var nodes := ChainNodes(vs, prev);
            && (AllIn(LeafChain(vs, false, prev).terminals, done) <==> forall k :: 0 <= k < |steps| ==> nodes[k].ID() in done)
            && (!AllIn(prev, done) ==> NoneDone(nodes, done))
  {
    var vs := LeafVisits(steps, 0, path);
    var nodes := ChainNodes(vs, prev);
    ChainAgree(steps, 0, path, prev, done, positions);
    OneIn(nodes[|vs| - 1].ID(), done);
  }

  lemma OneIn(id: string, done: set<string>)
    ensures AllIn([id], done) <==> id in done
  {
    assert id in [id];
  }

  lemma LeafPositions(steps: seq<Step>, path: seq<nat>, nodes: seq<Node>, done: set<string>, positions: set<string>)
    requires |nodes| == |steps| && SameSteps(nodes, done, positions)
    requires forall k :: 0 <= k < |steps| ==> nodes[k].visit == LeafVisits(steps, 0, path)[k]
    ensures forall k :: 0 <= k < |steps| ==> (nodes[k].ID() in done <==> StepRef(path, k).ID() in positions)
  {
    forall k | 0 <= k < |steps|
      ensures nodes[k].ID() in done <==> StepRef(path, k).ID() in positions
    {
      LeafVisitAt(steps, 0, path, k);
      assert nodes[k].visit.ref == StepRef(path, k);
    }
  }

  lemma FanTerminals(vs: seq<Visit>, prev: seq<string>, done: set<string>)
    requires vs != [] && Closed(FanNodes(vs, prev), done)
    ensures AllIn(TaskIDs(vs), done) <==> forall k :: 0 <= k < |vs| ==> FanNodes(vs, prev)[k].ID() in done
    ensures !AllIn(prev, done) ==> NoneDone(FanNodes(vs, prev), done)
  {
    assert forall k :: 0 <= k < |vs| ==> TaskIDs(vs)[k] == FanNodes(vs, prev)[k].ID();
  }

  lemma LeafAgree(g: Group, path: seq<nat>, prev: seq<string>, done: set<string>, positions: set<string>)
    requires g.subGroups == []
    requires var nodes := OrderGroup(g, path, prev).nodes;
             Closed(nodes, done) && SameSteps(nodes, done, positions)
    ensures Agree(OrderGroup(g, path, prev), prev, done, GroupDone(g, path, positions),
                  LeafReadyVisits(g.steps, 0, path, g.parallel, positions))
  {
    if g.steps != [] {
      LeafTerminals(g.steps, path, g.parallel, prev, done, positions);
      NothingReleased(g.steps, 0, path, g.parallel, positions);
      if g.parallel {
        FanAgree(g.steps, 0, path, prev, done, positions);
      } else {
        ChainAgree(g.steps, 0, path, prev, done, positions);
      }
      if !AllIn(prev, done) {
        var c := OrderGroup(g, path, prev);
        assert c.nodes[0].ID() !in done;
      }
    }
  }

  lemma {:induction false} AgreeGroup(g: Group, path: seq<nat>, prev: seq<string>, done: set<string>, positions: set<string>)
    requires var nodes := OrderGroup(g, path, prev).nodes;
             Closed(nodes, done) && SameSteps(nodes, done, positions)
    ensures Agree(OrderGroup(g, path, prev), prev, done, GroupDone(g, path, positions),
                  Released(DecomposeGroup(g, path, positions)))
    decreases g, 1
  {
    if g.subGroups != [] {
      AgreeFrom(g.subGroups, 0, path, prev, done, positions);
    } else {
      LeafAgree(g, path, prev, done, positions);
    }
  }

  lemma {:induction false} AgreeFrom(groups: seq<Group>, base: nat, path: seq<nat>, prev: seq<string>,
                                     done: set<string>, positions: set<string>)
    requires var nodes := OrderFrom(groups, base, path, prev).nodes;
             Closed(nodes, done) && SameSteps(nodes, done, positions)
    ensures Agree(OrderFrom(groups, base, path, prev), prev, done, GroupsDone(groups, base, path, positions),
                  Released(DecomposeFrom(groups, base, path, positions)))
    decreases groups, 0
  {
    if groups != [] {
      var head := OrderGroup(groups[0], path + [base], prev);
      var tail := OrderFrom(groups[1..], base + 1, path, head.terminals);
      var all := head.nodes + tail.nodes;
      assert forall i :: 0 <= i < |head.nodes| ==> head.nodes[i] == all[i];
      assert forall i :: 0 <= i < |tail.nodes| ==> tail.nodes[i] == all[|head.nodes| + i];
      AgreeGroup(groups[0], path + [base], prev, done, positions);
      AgreeFrom(groups[1..], base + 1, path, head.terminals, done, positions);
      ReadyVisitsConcat(head.nodes, tail.nodes, done);
    }
  }
}
