/** Turning a parsed plan into task specs, and resolving a stored task id back to its step.

    Models graphSpecs of internal/orch/plan_import.go and indexPlanSteps of
    internal/orch/dispatch_graph.go: the two must agree on which step a task id means. */
module PlanImport {
  import opened Sequences
  import opened Wrappers
  import opened PlanTree
  import opened DocumentOrder

  datatype GraphTaskSpec = GraphTaskSpec(id: string, dependsOn: seq<string>, groupPath: string)

  datatype ImportError =
    | NoSteps
    | DuplicateTaskID(id: string, previous: nat, index: nat)
    | UnknownDependency(id: string, dep: string)

  /** The dependencies a step states for itself; None leaves them to document order. */
  function StatedDeps(step: Step): Option<seq<string>> {
    if step.metadata.None? then None else step.metadata.value.after
  }

  function SpecOf(n: Node): GraphTaskSpec {
    var stated := StatedDeps(n.visit.step);
    GraphTaskSpec(n.ID(), if stated.Some? then stated.value else n.deps, n.visit.ref.GroupID())
  }

  predicate KnownDeps(step: Step, ids: seq<string>) {
    StatedDeps(step).Some? ==> forall dep :: dep in StatedDeps(step).value ==> dep in ids
  }

  /** The step's metadata declares this id. */
  predicate Declares(v: Visit, id: string) {
    id != "" && v.step.metadata.Some? && v.step.metadata.value.id == id
  }

  predicate DeclaresNone(v: Visit) {
    v.step.metadata.None? || v.step.metadata.value.id == ""
  }

  /** What a task may be called: by the id its step declares, or else by its dotted position. */
  predicate Called(v: Visit, id: string) {
    Declares(v, id) || (DeclaresNone(v) && id == JoinDotted(v.ref.groupPath + [v.ref.index]))
  }

  /** Every step has one name, and the import gives it that one. */
  lemma OneName(v: Visit, id: string)
    ensures Called(v, id) <==> id == StepTaskID(v)
  {}

  /** What a plan must satisfy to be imported. */
  predicate Importable(plan: seq<Group>) {
    var vs := Walk(plan);
    vs != [] && NoRepeats(TaskIDs(vs)) && forall v :: v in vs ==> KnownDeps(v.step, TaskIDs(vs))
  }

  /** Whether an import error tells the truth about the plan. */
  predicate Justified(e: ImportError, plan: seq<Group>) {
    var vs := Walk(plan);
    var ids := TaskIDs(vs);
    match e
    case NoSteps => vs == []
    case DuplicateTaskID(id, previous, index) => previous < index < |ids| && ids[previous] == ids[index] == id
    case UnknownDependency(id, dep) =>
      dep !in ids &&
      exists v :: v in vs && StepTaskID(v) == id && StatedDeps(v.step).Some? && dep in StatedDeps(v.step).value
  }

  method CollectIDs(vs: seq<Visit>) returns (r: Result<seq<string>, ImportError>)
    ensures r.Ok? <==> NoRepeats(TaskIDs(vs))
    ensures r.Ok? ==> r.value == TaskIDs(vs)
    ensures r.Err? ==> r.error.DuplicateTaskID? && r.error.previous < r.error.index < |vs| &&
                       StepTaskID(vs[r.error.previous]) == StepTaskID(vs[r.error.index]) == r.error.id
  {
    var ids: seq<string> := [];
    var byID: map<string, nat> := map[];
    for i := 0 to |vs|
      invariant ids == TaskIDs(vs)[..i]
      invariant forall id :: id in byID ==> byID[id] < i && ids[byID[id]] == id
      invariant forall k :: 0 <= k < i ==> ids[k] in byID
      invariant NoRepeats(ids)
    {
      var id := StepTaskID(vs[i]);
      if id in byID {
        assert TaskIDs(vs)[byID[id]] == ids[byID[id]] == TaskIDs(vs)[i];
        return Err(DuplicateTaskID(id, byID[id], i));
      }
      ids := ids + [id];
      byID := byID[id := i];
    }
    return Ok(ids);
  }

  method FirstUnknown(deps: seq<string>, ids: seq<string>) returns (r: Option<string>)
    ensures r.None? ==> forall dep :: dep in deps ==> dep in ids
    ensures r.Some? ==> r.value in deps && r.value !in ids
  {
    for i := 0 to |deps|
      invariant forall k :: 0 <= k < i ==> deps[k] in ids
    {
      if deps[i] !in ids {
        return Some(deps[i]);
      }
    }
    return None;
  }

  /** The spec of one step, given its document-order dependencies and every task id of the plan. */
  method SpecFor(v: Visit, id: string, docOrder: seq<string>, ids: seq<string>)
    returns (r: Result<GraphTaskSpec, ImportError>)
    ensures r.Ok? <==> KnownDeps(v.step, ids)
    ensures r.Ok? ==> r.value.id == id && r.value.groupPath == v.ref.GroupID()
    ensures r.Ok? ==> r.value.dependsOn == if StatedDeps(v.step).Some? then StatedDeps(v.step).value else docOrder
    ensures r.Err? ==> r.error.UnknownDependency? && r.error.id == id && r.error.dep !in ids &&
                       StatedDeps(v.step).Some? && r.error.dep in StatedDeps(v.step).value
  {
    var deps := docOrder;
    var explicit := StatedDeps(v.step);
    if explicit.Some? {
      deps := explicit.value;
      var unknown := FirstUnknown(deps, ids);
      if unknown.Some? {
        return Err(UnknownDependency(id, unknown.value));
      }
    }
    return Ok(GraphTaskSpec(id, deps, v.ref.GroupID()));
  }

  /** A dependency no task has keeps the whole plan out. */
  lemma UnknownRefuses(plan: seq<Group>, i: nat, e: ImportError)
    requires i < |Walk(plan)| && e.UnknownDependency?
    requires var v, ids := Walk(plan)[i], TaskIDs(Walk(plan));
             && NoRepeats(ids) && e.id == ids[i] && !KnownDeps(v.step, ids)
             && e.dep !in ids && StatedDeps(v.step).Some? && e.dep in StatedDeps(v.step).value
    ensures !Importable(plan) && Justified(e, plan)
  {
    assert Walk(plan)[i] in Walk(plan);
  }

  /** A plan is accepted exactly when it has steps, no two of them are called alike, and every dependency a
      step states is what some step of the plan is called. */
  lemma AcceptedWhen(plan: seq<Group>)
    ensures var vs := Walk(plan);
            Importable(plan) <==>
              && vs != []
              && (forall i, j, id :: 0 <= i < j < |vs| && Called(vs[i], id) ==> !Called(vs[j], id))
              && (forall v, dep :: v in vs && StatesDep(v, dep) ==> exists u :: u in vs && Called(u, dep))
  {
    var vs := Walk(plan);
    DistinctNames(vs);
    forall v: Visit ensures KnownDeps(v.step, TaskIDs(vs)) <==>
                       forall dep :: StatesDep(v, dep) ==> exists u :: u in vs && Called(u, dep)
    {
      DepsAreCalled(v, vs);
    }
  }

  lemma DistinctNames(vs: seq<Visit>)
    ensures NoRepeats(TaskIDs(vs)) <==> forall i, j, id :: 0 <= i < j < |vs| && Called(vs[i], id) ==> !Called(vs[j], id)
  {
    var ids := TaskIDs(vs);
    forall i, j | 0 <= i < j < |vs| ensures ids[i] == ids[j] ==> Called(vs[i], ids[i]) && Called(vs[j], ids[i]) {
      OneName(vs[i], ids[i]);
      OneName(vs[j], ids[i]);
    }
    forall i, j, id | 0 <= i < j < |vs| && Called(vs[i], id) ensures Called(vs[j], id) ==> ids[i] == ids[j] {
      OneName(vs[i], id);
      OneName(vs[j], id);
    }
  }

  lemma DepsAreCalled(v: Visit, vs: seq<Visit>)
    ensures KnownDeps(v.step, TaskIDs(vs)) <==> forall dep :: StatesDep(v, dep) ==> exists u :: u in vs && Called(u, dep)
  {
    var stated := StatedDeps(v.step);
    forall dep | StatesDep(v, dep) ensures dep in TaskIDs(vs) <==> exists u :: u in vs && Called(u, dep) {
      NamesOf(vs, dep);
    }
    forall dep ensures StatesDep(v, dep) <==> stated.Some? && dep in stated.value {}
  }

  /** The step's metadata lists dep under `after`. */
  predicate StatesDep(v: Visit, dep: string) {
    v.step.metadata.Some? && v.step.metadata.value.after.Some? && dep in v.step.metadata.value.after.value
  }

  lemma NamesOf(vs: seq<Visit>, id: string)
    ensures id in TaskIDs(vs) <==> exists u :: u in vs && Called(u, id)
  {
    if id in TaskIDs(vs) {
      var i :| 0 <= i < |vs| && TaskIDs(vs)[i] == id;
      OneName(vs[i], id);
    }
    if u :| u in vs && Called(u, id) {
      OneName(u, id);
      var i :| 0 <= i < |vs| && vs[i] == u;
      assert TaskIDs(vs)[i] == id;
    }
  }

  /** A dependency on an id some step declares, or on the position of a step that declares none, is never
      called unknown. */
  lemma UnknownIsUncalled(plan: seq<Group>, e: ImportError)
    requires Justified(e, plan) && e.UnknownDependency?
    ensures forall v :: v in Walk(plan) ==> !Called(v, e.dep)
    ensures exists v :: v in Walk(plan) && Called(v, e.id) && StatesDep(v, e.dep)
  {
    forall v | v in Walk(plan) ensures !Called(v, e.dep) {
      NamesOf(Walk(plan), e.dep);
    }
    var v :| v in Walk(plan) && StepTaskID(v) == e.id && StatedDeps(v.step).Some? && e.dep in StatedDeps(v.step).value;
    OneName(v, e.id);
  }

  /** One spec for each step of the plan, in order, by its own name and with its own dependencies. */
  predicate SpecsFor(plan: seq<Group>, specs: seq<GraphTaskSpec>) {
    && |specs| == |PlanNodes(plan)| == |Walk(plan)|
    && (forall i :: 0 <= i < |specs| ==> specs[i] == SpecOf(PlanNodes(plan)[i]))
    && (forall i :: 0 <= i < |specs| ==> Called(Walk(plan)[i], specs[i].id))
  }

  /** The error tells the truth, and calls no name unknown that some step has. */
  predicate Truthful(e: ImportError, plan: seq<Group>) {
    && Justified(e, plan)
    && (e.UnknownDependency? ==> forall v :: v in Walk(plan) ==> !Called(v, e.dep))
  }

  lemma JustifiedIsTruthful(e: ImportError, plan: seq<Group>)
    requires Justified(e, plan)
    ensures Truthful(e, plan)
  {
    if e.UnknownDependency? { UnknownIsUncalled(plan, e); }
  }

  method GraphSpecs(plan: seq<Group>) returns (r: Result<seq<GraphTaskSpec>, ImportError>)
    ensures r.Ok? <==> Importable(plan)
    ensures r.Ok? ==> SpecsFor(plan, r.value)
    ensures r.Err? ==> Truthful(r.error, plan)
  {
    var vs := Walk(plan);
    if |vs| == 0 {
      return Err(NoSteps);
    }
    var collected := CollectIDs(vs);
    if collected.Err? {
      JustifiedIsTruthful(collected.error, plan);
      return Err(collected.error);
    }
    var ids := collected.value;
    var docOrder := DocumentOrderEdges(plan, ids);
    ghost var nodes := PlanNodes(plan);
    var specs: seq<GraphTaskSpec> := [];
    for i := 0 to |vs|
      invariant |specs| == i <= |nodes|
      invariant forall k :: 0 <= k < i ==> KnownDeps(vs[k].step, ids)
      invariant forall k :: 0 <= k < i ==> specs[k] == SpecOf(nodes[k])
    {
      SpecAt(plan, i);
      var spec := SpecFor(vs[i], ids[i], docOrder[i], ids);
      if spec.Err? {
        UnknownRefuses(plan, i, spec.error);
        JustifiedIsTruthful(spec.error, plan);
        return Err(spec.error);
      }
      specs := specs + [spec.value];
    }
    OrderFromVisits(plan, 0, [], []);
    SpecsAreCalled(plan, specs);
    return Ok(specs);
  }

  // ---------------------------------------------------------------- dispatch

  /** The last of the first n steps that is called so. */
  predicate IsLastCalled(vs: seq<Visit>, n: nat, id: string, k: nat) {
    k < n <= |vs| && Called(vs[k], id) && forall j :: k < j < n ==> !Called(vs[j], id)
  }

  /** Every name is mapped to the last step called so, and nothing else is a key. */
  ghost predicate IsIndex(vs: seq<Visit>, index: map<string, Visit>) {
    && (forall k, id :: 0 <= k < |vs| && Called(vs[k], id) ==> id in index)
    && (forall id :: id in index ==> exists k: nat :: IsLastCalled(vs, |vs|, id, k) && index[id] == vs[k])
  }

  lemma IndexHits(vs: seq<Visit>, index: map<string, Visit>, i: nat, id: string)
    requires IsIndex(vs, index) && NoRepeats(TaskIDs(vs)) && i < |vs| && Called(vs[i], id)
    ensures id in index && index[id] == vs[i]
  {
    var k: nat :| IsLastCalled(vs, |vs|, id, k) && index[id] == vs[k];
    OneName(vs[i], id);
    OneName(vs[k], id);
    assert TaskIDs(vs)[i] == TaskIDs(vs)[k];
  }

  method IndexPlanSteps(plan: seq<Group>) returns (index: map<string, Visit>)
    ensures IsIndex(Walk(plan), index)
  {
    index := map[];
    var vs := Walk(plan);
    for i := 0 to |vs|
      invariant forall k, id :: 0 <= k < i && Called(vs[k], id) ==> id in index
      invariant forall id :: id in index ==> exists k: nat :: IsLastCalled(vs, i, id, k) && index[id] == vs[k]
    {
      ghost var before := index;
      forall id ensures Called(vs[i], id) <==> id == StepTaskID(vs[i]) { OneName(vs[i], id); }
      index := index[StepTaskID(vs[i]) := vs[i]];
      assert IsLastCalled(vs, i + 1, StepTaskID(vs[i]), i);
      forall id | id in before && id != StepTaskID(vs[i])
        ensures exists k: nat :: IsLastCalled(vs, i + 1, id, k) && index[id] == vs[k]
      {
        var k: nat :| IsLastCalled(vs, i, id, k) && before[id] == vs[k];
        assert IsLastCalled(vs, i + 1, id, k);
      }
    }
  }

  /** Importing a plan and then looking its tasks up, as dispatch does on every pass: each stored task
      resolves to the step it was made from, and stays within the plan's own tasks. */
  method ImportThenResolve(plan: seq<Group>)
    returns (r: Result<seq<GraphTaskSpec>, ImportError>, index: map<string, Visit>)
    ensures r.Ok? ==>
              && |r.value| == |Walk(plan)|
              && (forall i :: 0 <= i < |r.value| ==> r.value[i].id in index && index[r.value[i].id] == Walk(plan)[i])
              && (forall id :: id in index ==> exists i :: 0 <= i < |r.value| && r.value[i].id == id)
              && (forall i, dep :: 0 <= i < |r.value| && dep in r.value[i].dependsOn ==> dep in index)
  {
    r := GraphSpecs(plan);
    index := IndexPlanSteps(plan);
    if r.Ok? {
      var vs := Walk(plan);
      forall i | 0 <= i < |r.value| ensures r.value[i].id in index && index[r.value[i].id] == vs[i] {
        IndexHits(vs, index, i, r.value[i].id);
      }
      forall i, dep | 0 <= i < |r.value| && dep in r.value[i].dependsOn ensures dep in index {
        DepIsTask(plan, i, dep);
      }
      forall id | id in index ensures exists i :: 0 <= i < |r.value| && r.value[i].id == id {
        var k: nat :| IsLastCalled(vs, |vs|, id, k) && index[id] == vs[k];
        OneName(vs[k], id);
        OneName(vs[k], r.value[k].id);
        assert r.value[k].id == id;
      }
    }
  }

  lemma SpecAt(plan: seq<Group>, i: nat)
    requires i < |Walk(plan)|
    ensures |PlanNodes(plan)| == |Walk(plan)|
    ensures var v := Walk(plan)[i];
            var stated := StatedDeps(v.step);
            SpecOf(PlanNodes(plan)[i]) ==
            GraphTaskSpec(StepTaskID(v), if stated.Some? then stated.value else DepsOf(PlanNodes(plan))[i], v.ref.GroupID())
  {
    OrderFromVisits(plan, 0, [], []);
    assert Visits(PlanNodes(plan))[i] == Walk(plan)[i];
  }

  lemma SpecsAreCalled(plan: seq<Group>, specs: seq<GraphTaskSpec>)
    requires |specs| == |PlanNodes(plan)| == |Walk(plan)|
    requires forall i :: 0 <= i < |specs| ==> specs[i] == SpecOf(PlanNodes(plan)[i])
    ensures SpecsFor(plan, specs)
  {
    forall i | 0 <= i < |specs| ensures Called(Walk(plan)[i], specs[i].id) {
      SpecIsVisit(plan, i);
      OneName(Walk(plan)[i], specs[i].id);
    }
  }

  lemma SpecIsVisit(plan: seq<Group>, i: nat)
    requires i < |Walk(plan)|
    ensures |PlanNodes(plan)| == |Walk(plan)|
    ensures SpecOf(PlanNodes(plan)[i]).id == StepTaskID(Walk(plan)[i])
  {
    SpecAt(plan, i);
  }

  /** Every dependency of an importable plan's tasks, stated or derived, names a task of the plan. */
  lemma DepIsTask(plan: seq<Group>, i: nat, dep: string)
    requires Importable(plan) && i < |PlanNodes(plan)|
    requires dep in SpecOf(PlanNodes(plan)[i]).dependsOn
    ensures exists v :: v in Walk(plan) && Called(v, dep)
  {
    var nodes := PlanNodes(plan);
    OrderFromVisits(plan, 0, [], []);
    assert Visits(nodes)[i] in Walk(plan);
    if StatedDeps(nodes[i].visit.step).Some? {
      assert dep in TaskIDs(Walk(plan));
      NamesOf(Walk(plan), dep);
    } else {
      OrderFromPointsBack(plan, 0, [], []);
      assert FromEarlier(nodes, i, [], dep);
      var j :| 0 <= j < i && nodes[j].ID() == dep;
      assert Visits(nodes)[j] in Walk(plan);
      OneName(nodes[j].visit, dep);
    }
  }
}
