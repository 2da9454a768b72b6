/** The positional scheduler: what a plan's tree and a set of finished positions make ready.

    Models groupDone, decomposeGroups, leafReady and DecomposeRefs of internal/plan/decompose.go. */
module PlanDecompose {
  import opened Wrappers
  import opened PlanTree

  /** The ready steps with their positions, in document order. */
  datatype Ready = Ready(visits: seq<Visit>, parallel: bool)

  // ---------------------------------------------------------------- specification

  /** Every step under the group is finished; done holds positional identifiers. */
  predicate GroupDone(g: Group, path: seq<nat>, done: set<string>)
    decreases g, 1
  {
    if g.subGroups != [] then GroupsDone(g.subGroups, 0, path, done)
    else forall j :: 0 <= j < |g.steps| ==> StepRef(path, j).ID() in done
  }

  predicate GroupsDone(groups: seq<Group>, base: nat, path: seq<nat>, done: set<string>)
    decreases groups, 0
  {
    groups == [] ||
    (GroupDone(groups[0], path + [base], done) && GroupsDone(groups[1..], base + 1, path, done))
  }

  /** A leaf's unfinished steps from index onwards: all of them when parallel, else the first. */
  function LeafReadyVisits(steps: seq<Step>, index: nat, path: seq<nat>, parallel: bool, done: set<string>): seq<Visit> {
    if steps == [] then []
    else
      var ref := StepRef(path, index);
      if ref.ID() in done then LeafReadyVisits(steps[1..], index + 1, path, parallel, done)
      else if parallel then [Visit(ref, steps[0])] + LeafReadyVisits(steps[1..], index + 1, path, parallel, done)
      else [Visit(ref, steps[0])]
  }

  /** The ready steps of the first unfinished group; None when every group is finished. */
  function DecomposeFrom(groups: seq<Group>, base: nat, path: seq<nat>, done: set<string>): Option<Ready>
    decreases groups, 0
  {
    if groups == [] then None
    else if GroupDone(groups[0], path + [base], done) then DecomposeFrom(groups[1..], base + 1, path, done)
    else DecomposeGroup(groups[0], path + [base], done)
  }

  function DecomposeGroup(g: Group, path: seq<nat>, done: set<string>): Option<Ready>
    decreases g, 1
  {
    if g.subGroups != [] then DecomposeFrom(g.subGroups, 0, path, done)
    else
      var visits := LeafReadyVisits(g.steps, 0, path, g.parallel, done);
      if visits == [] then None else Some(Ready(visits, g.parallel))
  }

  function Decompose(plan: seq<Group>, done: set<string>): Ready {
    match DecomposeFrom(plan, 0, [], done)
    case None => Ready([], false)
    case Some(r) => r
  }

  // ---------------------------------------------------------------- the source's loops

  method IsGroupDone(g: Group, path: seq<nat>, done: set<string>) returns (finished: bool)
    ensures finished == GroupDone(g, path, done)
    decreases g
  {
    if |g.subGroups| > 0 {
      for i := 0 to |g.subGroups|
        invariant GroupsDone(g.subGroups[i..], i, path, done) == GroupsDone(g.subGroups, 0, path, done)
      {
        assert g.subGroups[i..][1..] == g.subGroups[i + 1..];
        var subDone := IsGroupDone(g.subGroups[i], path + [i], done);
        if !subDone {
          return false;
        }
      }
      return true;
    }
    for j := 0 to |g.steps|
      invariant forall k :: 0 <= k < j ==> StepRef(path, k).ID() in done
    {
      if StepRef(path, j).ID() !in done {
        return false;
      }
    }
    return true;
  }

  method LeafReady(g: Group, path: seq<nat>, done: set<string>) returns (r: Option<Ready>)
    ensures r == (var visits := LeafReadyVisits(g.steps, 0, path, g.parallel, done);
                  if visits == [] then None else Some(Ready(visits, g.parallel)))
  {
    var readyNow: seq<Visit> := [];
    for j := 0 to |g.steps|
      invariant LeafReadyVisits(g.steps, 0, path, g.parallel, done) ==
                readyNow + LeafReadyVisits(g.steps[j..], j, path, g.parallel, done)
      invariant !g.parallel ==> readyNow == []
    {
      assert g.steps[j..][1..] == g.steps[j + 1..];
      var ref := StepRef(path, j);
      if ref.ID() in done {
        continue;
      }
      readyNow := readyNow + [Visit(ref, g.steps[j])];
      if !g.parallel {
        return Some(Ready(readyNow, g.parallel));
      }
    }
    assert LeafReadyVisits(g.steps, 0, path, g.parallel, done) == readyNow;
    if |readyNow| == 0 {
      return None;
    }
    return Some(Ready(readyNow, g.parallel));
  }

  method DecomposeGroups(groups: seq<Group>, path: seq<nat>, done: set<string>) returns (r: Option<Ready>)
    ensures r == DecomposeFrom(groups, 0, path, done)
    decreases groups
  {
    for i := 0 to |groups|
      invariant DecomposeFrom(groups[i..], i, path, done) == DecomposeFrom(groups, 0, path, done)
    {
      assert groups[i..][1..] == groups[i + 1..];
      var finished := IsGroupDone(groups[i], path + [i], done);
      if finished {
        continue;
      }
      if |groups[i].subGroups| > 0 {
        r := DecomposeGroups(groups[i].subGroups, path + [i], done);
        return;
      }
      r := LeafReady(groups[i], path + [i], done);
      return;
    }
    return None;
  }

  method DecomposeRefs(plan: seq<Group>, done: set<string>) returns (r: Ready)
    ensures r == Decompose(plan, done)
  {
    var found := DecomposeGroups(plan, [], done);
    if found.None? {
      return Ready([], false);
    }
    return found.value;
  }
}
