/** Running an imported plan from its stored task specs.

    Joins graphSpecs (internal/orch/plan_import.go) to the scheduler comparison: the dependencies are the
    ones the import stores, and the steps may carry ids of their own. */
module ImportedRuns {
  import opened Wrappers
  import opened PlanTree
  import opened PlanDecompose
  import opened DocumentOrder
  import opened SchedulerEquivalence
  import opened PlanImport
  import opened PlanRuns

  /** No step states its own dependencies; ids and the other metadata are free. */
  predicate StatesNoAfter(plan: seq<Group>) {
    forall v :: v in Walk(plan) ==> StatedDeps(v.step).None?
  }

  /** What graphSpecs returns for an accepted plan. */
  predicate AreSpecs(plan: seq<Group>, specs: seq<GraphTaskSpec>) {
    Importable(plan) && |specs| == |PlanNodes(plan)| &&
    forall i :: 0 <= i < |specs| ==> specs[i] == SpecOf(PlanNodes(plan)[i])
  }

  predicate SpecReady(spec: GraphTaskSpec, done: set<string>) {
    spec.id !in done && AllIn(spec.dependsOn, done)
  }

  /** The store's ready tasks, in the order they were imported. */
  function StoreReady(specs: seq<GraphTaskSpec>, done: set<string>): seq<string> {
    if specs == [] then []
    else (if SpecReady(specs[0], done) then [specs[0].id] else []) + StoreReady(specs[1..], done)
  }

  /** The tasks a run of completions finishes. */
  function StoreDone(specs: seq<GraphTaskSpec>, run: seq<nat>): set<string> {
    if run == [] then {}
    else
      var last := run[|run| - 1];
      StoreDone(specs, run[..|run| - 1]) + (if last < |specs| then {specs[last].id} else {})
  }

  /** A run that only completes ready tasks. */
  predicate StoreRun(specs: seq<GraphTaskSpec>, run: seq<nat>) {
    run == [] ||
    (var before, last := run[..|run| - 1], run[|run| - 1];
     StoreRun(specs, before) && last < |specs| && SpecReady(specs[last], StoreDone(specs, before)))
  }

  /** Each spec carries its node's id and dependencies. */
  predicate Mirrors(specs: seq<GraphTaskSpec>, nodes: seq<Node>) {
    |specs| == |nodes| && forall i :: 0 <= i < |specs| ==> specs[i].id == nodes[i].ID() && specs[i].dependsOn == nodes[i].deps
  }

  lemma SpecsMirror(plan: seq<Group>, specs: seq<GraphTaskSpec>)
    requires AreSpecs(plan, specs) && StatesNoAfter(plan)
    ensures Mirrors(specs, PlanNodes(plan)) && DistinctIDs(PlanNodes(plan))
  {
    var nodes := PlanNodes(plan);
    OrderFromVisits(plan, 0, [], []);
    forall i | 0 <= i < |nodes| ensures nodes[i].ID() == TaskIDs(Walk(plan))[i] && StatedDeps(nodes[i].visit.step).None? {
      assert Visits(nodes)[i] == Walk(plan)[i];
    }
  }

  lemma {:induction false} SameStoreRun(specs: seq<GraphTaskSpec>, nodes: seq<Node>, run: seq<nat>)
    requires Mirrors(specs, nodes)
    ensures StoreDone(specs, run) == DoneAfter(nodes, run)
    ensures StoreRun(specs, run) <==> EdgeRun(nodes, run)
  {
    if run != [] { SameStoreRun(specs, nodes, run[..|run| - 1]); }
  }

  lemma {:induction false} SameStoreReady(specs: seq<GraphTaskSpec>, nodes: seq<Node>, done: set<string>)
    requires Mirrors(specs, nodes)
    ensures StoreReady(specs, done) == TaskIDs(ReadyVisits(nodes, done))
  {
    if specs != [] {
      SameStoreReady(specs[1..], nodes[1..], done);
      TaskIDsConcat(IfReady(nodes[0], done), ReadyVisits(nodes[1..], done));
    }
  }

  lemma TaskIDsConcat(a: seq<Visit>, b: seq<Visit>)
    ensures TaskIDs(a + b) == TaskIDs(a) + TaskIDs(b)
  {}

  /** Importing a plan that states no dependencies and completing ready tasks one after another: the
      store's ready tasks are, in order, those of the steps the positional scheduler releases. */
  method ImportForDispatch(plan: seq<Group>, ghost run: seq<nat>) returns (r: Result<seq<GraphTaskSpec>, ImportError>)
    requires StatesNoAfter(plan)
    ensures r.Ok? <==> Importable(plan)
    ensures r.Ok? && StoreRun(r.value, run) ==>
              StoreReady(r.value, StoreDone(r.value, run)) ==
              TaskIDs(Decompose(plan, PositionsAfter(PlanNodes(plan), run)).visits)
  {
    r := GraphSpecs(plan);
    if r.Ok? { StoreFollowsPositions(plan, r.value, run); }
  }

  lemma StoreFollowsPositions(plan: seq<Group>, specs: seq<GraphTaskSpec>, run: seq<nat>)
    requires AreSpecs(plan, specs) && StatesNoAfter(plan)
    ensures StoreRun(specs, run) ==>
              StoreReady(specs, StoreDone(specs, run)) ==
              TaskIDs(Decompose(plan, PositionsAfter(PlanNodes(plan), run)).visits)
  {
    var nodes := PlanNodes(plan);
    SpecsMirror(plan, specs);
    SameStoreRun(specs, nodes, run);
    SameStoreReady(specs, nodes, DoneAfter(nodes, run));
    if EdgeRun(nodes, run) { ReadySetsCoincide(plan, run); }
  }
}
