/** A parsed plan: nested groups whose leaves carry steps, and the positions of those steps.

    Models internal/plan/types.go and the walk and StepRef parts of internal/plan/decompose.go. */
module PlanTree {
  import opened Wrappers
  import opened Decimal
  import opened Sequences

  /** A step's ralph-task block, with the two keys that decide its place in the graph. */
  datatype TaskMetadata = TaskMetadata(id: string, after: Option<seq<string>>)

  datatype Step = Step(text: string, metadata: Option<TaskMetadata>)

  datatype Group = Group(heading: string, parallel: bool, steps: seq<Step>, subGroups: seq<Group>)

  /** The position of a step: group indices from the root, then the index in the leaf. */
  datatype StepRef = StepRef(groupPath: seq<nat>, index: nat) {
    function ID(): string {
      JoinDotted(groupPath + [index])
    }

    function GroupID(): string {
      JoinDotted(groupPath)
    }
  }

  datatype Visit = Visit(ref: StepRef, step: Step)

  function JoinDotted(ns: seq<nat>): string {
    if ns == [] then ""
    else if |ns| == 1 then Itoa(ns[0])
    else Itoa(ns[0]) + "." + JoinDotted(ns[1..])
  }

  // ---------------------------------------------------------------- identifiers

  /** Everything before the first dot. */
  function BeforeDot(s: string): string {
    if s == "" || s[0] == '.' then "" else [s[0]] + BeforeDot(s[1..])
  }

  lemma {:induction false} BeforeDotOfDigits(digits: string, rest: string)
    requires AllDigits(digits)
    requires rest == "" || rest[0] == '.'
    ensures BeforeDot(digits + rest) == digits
  {
    if digits == "" {
      assert digits + rest == rest;
    } else {
      assert (digits + rest)[1..] == digits[1..] + rest;
      assert IsDigit(digits[0]);
      BeforeDotOfDigits(digits[1..], rest);
    }
  }

  lemma HeadOfJoin(ns: seq<nat>)
    requires ns != []
    ensures BeforeDot(JoinDotted(ns)) == Itoa(ns[0])
    ensures |JoinDotted(ns)| == |Itoa(ns[0])| <==> |ns| == 1
  {
    if |ns| == 1 {
      PlusEmpty(Itoa(ns[0]));
      BeforeDotOfDigits(Itoa(ns[0]), "");
    } else {
      var rest := "." + JoinDotted(ns[1..]);
      Assoc(Itoa(ns[0]), ".", JoinDotted(ns[1..]));
      BeforeDotOfDigits(Itoa(ns[0]), rest);
    }
  }

  lemma {:induction false} JoinInjective(a: seq<nat>, b: seq<nat>)
    requires a != [] && b != []
    requires JoinDotted(a) == JoinDotted(b)
    ensures a == b
  {
    HeadOfJoin(a);
    HeadOfJoin(b);
    ItoaInjective(a[0], b[0]);
    var n := |Itoa(a[0])|;
    if |a| > 1 && |b| > 1 {
      assert JoinDotted(a)[n + 1..] == JoinDotted(a[1..]);
      assert JoinDotted(b)[n + 1..] == JoinDotted(b[1..]);
      JoinInjective(a[1..], b[1..]);
      assert a == [a[0]] + a[1..];
      assert b == [b[0]] + b[1..];
    }
  }

  /** Two positions of a plan share an identifier only when they are the same position. */
  lemma StepIDInjective(a: StepRef, b: StepRef)
    requires a.ID() == b.ID()
    ensures a == b
  {
    JoinInjective(a.groupPath + [a.index], b.groupPath + [b.index]);
    var x, y := a.groupPath + [a.index], b.groupPath + [b.index];
    assert x[..|x| - 1] == a.groupPath && y[..|y| - 1] == b.groupPath;
    assert x[|x| - 1] == a.index && y[|y| - 1] == b.index;
  }

  // ---------------------------------------------------------------- the walk

  /** The steps of one leaf, from index onwards. */
  function LeafVisits(steps: seq<Step>, index: nat, path: seq<nat>): (vs: seq<Visit>)
    ensures |vs| == |steps|
  {
    if steps == [] then []
    else [Visit(StepRef(path, index), steps[0])] + LeafVisits(steps[1..], index + 1, path)
  }

  /** Every step under groups in document order; base is the index of groups[0] among its siblings. */
  function WalkFrom(groups: seq<Group>, base: nat, path: seq<nat>): seq<Visit>
    decreases groups, 0
  {
    if groups == [] then []
    else WalkGroup(groups[0], path + [base]) + WalkFrom(groups[1..], base + 1, path)
  }

  function WalkGroup(g: Group, path: seq<nat>): seq<Visit>
    decreases g, 1
  {
    if g.subGroups != [] then WalkFrom(g.subGroups, 0, path) else LeafVisits(g.steps, 0, path)
  }

  function Walk(plan: seq<Group>): seq<Visit> {
    WalkFrom(plan, 0, [])
  }

  predicate IsPrefix(p: seq<nat>, s: seq<nat>) {
    |p| <= |s| && s[..|p|] == p
  }

  lemma LeafVisitAt(steps: seq<Step>, index: nat, path: seq<nat>, k: nat)
    requires k < |steps|
    ensures LeafVisits(steps, index, path)[k] == Visit(StepRef(path, index + k), steps[k])
  {
    if k > 0 { LeafVisitAt(steps[1..], index + 1, path, k - 1); }
  }

  /** Where a visited step sits: under the path, in a sibling group numbered base or later. */
  predicate Under(ref: StepRef, base: nat, path: seq<nat>) {
    IsPrefix(path, ref.groupPath) && |ref.groupPath| > |path| && ref.groupPath[|path|] >= base
  }

  lemma {:induction false} WalkFromUnder(groups: seq<Group>, base: nat, path: seq<nat>, k: nat)
    requires k < |WalkFrom(groups, base, path)|
    ensures Under(WalkFrom(groups, base, path)[k].ref, base, path)
    decreases groups, 0
  {
    var head := WalkGroup(groups[0], path + [base]);
    if k < |head| {
      WalkGroupUnder(groups[0], path + [base], k);
      var p := head[k].ref.groupPath;
      assert p[..|path| + 1] == path + [base];
      assert p[..|path|] == p[..|path| + 1][..|path|] == path;
      assert p[|path|] == p[..|path| + 1][|path|];
    } else {
      WalkFromUnder(groups[1..], base + 1, path, k - |head|);
    }
  }

  lemma {:induction false} WalkGroupUnder(g: Group, path: seq<nat>, k: nat)
    requires k < |WalkGroup(g, path)|
    ensures IsPrefix(path, WalkGroup(g, path)[k].ref.groupPath)
    decreases g, 1
  {
    if g.subGroups != [] {
      WalkFromUnder(g.subGroups, 0, path, k);
    } else {
      LeafVisitAt(g.steps, 0, path, k);
    }
  }

  /** No position is visited twice. */
  lemma {:induction false} WalkFromDistinct(groups: seq<Group>, base: nat, path: seq<nat>, i: nat, j: nat)
    requires i < j < |WalkFrom(groups, base, path)|
    ensures WalkFrom(groups, base, path)[i].ref != WalkFrom(groups, base, path)[j].ref
    decreases groups, 0
  {
    var head := WalkGroup(groups[0], path + [base]);
    if j < |head| {
      WalkGroupDistinct(groups[0], path + [base], i, j);
    } else if i >= |head| {
      WalkFromDistinct(groups[1..], base + 1, path, i - |head|, j - |head|);
    } else {
      WalkGroupUnder(groups[0], path + [base], i);
      assert head[i].ref.groupPath[..|path| + 1][|path|] == base;
      WalkFromUnder(groups[1..], base + 1, path, j - |head|);
    }
  }

  lemma {:induction false} WalkGroupDistinct(g: Group, path: seq<nat>, i: nat, j: nat)
    requires i < j < |WalkGroup(g, path)|
    ensures WalkGroup(g, path)[i].ref != WalkGroup(g, path)[j].ref
    decreases g, 1
  {
    if g.subGroups != [] {
      WalkFromDistinct(g.subGroups, 0, path, i, j);
    } else {
      LeafVisitAt(g.steps, 0, path, i);
      LeafVisitAt(g.steps, 0, path, j);
    }
  }

  /** The positional identifiers of a plan's steps are pairwise distinct. */
  lemma StepIDsDistinct(plan: seq<Group>, i: nat, j: nat)
    requires i < j < |Walk(plan)|
    ensures Walk(plan)[i].ref.ID() != Walk(plan)[j].ref.ID()
  {
    if Walk(plan)[i].ref.ID() == Walk(plan)[j].ref.ID() {
      StepIDInjective(Walk(plan)[i].ref, Walk(plan)[j].ref);
      WalkFromDistinct(plan, 0, [], i, j);
    }
  }

  // ---------------------------------------------------------------- looking a position up

  datatype StepAtError =
    | GroupIndexOutOfRange(index: int, depth: nat)
    | StepIndexOutOfRange(index: int)

  const ZERO_GROUP := Group("", false, [], [])

  /** The group a path of indices leads to, or the index that is out of range and its depth. */
  function GroupAt(groups: seq<Group>, current: Group, path: seq<int>, depth: nat): Result<Group, StepAtError>
    decreases path
  {
    if path == [] then Ok(current)
    else if path[0] < 0 || path[0] >= |groups| then Err(GroupIndexOutOfRange(path[0], depth))
    else GroupAt(groups[path[0]].subGroups, groups[path[0]], path[1..], depth + 1)
  }

  function StepAtResult(plan: seq<Group>, path: seq<int>, index: int): Result<(Step, Group), StepAtError> {
    match GroupAt(plan, ZERO_GROUP, path, 0)
    case Err(e) => Err(e)
    case Ok(g) =>
      if 0 <= index < |g.steps| then Ok((g.steps[index], g)) else Err(StepIndexOutOfRange(index))
  }

  /** Any indices may be asked for, not only those of a step reference the walk produced. */
  method StepAt(plan: seq<Group>, path: seq<int>, index: int) returns (r: Result<(Step, Group), StepAtError>)
    ensures r == StepAtResult(plan, path, index)
  {
    var groups := plan;
    var g := ZERO_GROUP;
    for depth := 0 to |path|
      invariant GroupAt(groups, g, path[depth..], depth) == GroupAt(plan, ZERO_GROUP, path, 0)
    {
      var idx := path[depth];
      assert path[depth..][1..] == path[depth + 1..];
      if idx < 0 || idx >= |groups| {
        return Err(GroupIndexOutOfRange(idx, depth));
      }
      g := groups[idx];
      groups := g.subGroups;
    }
    if index < 0 || index >= |g.steps| {
      return Err(StepIndexOutOfRange(index));
    }
    return Ok((g.steps[index], g));
  }

  /** The parser's promise: a group carries steps or subgroups, never both. */
  predicate WellFormed(groups: seq<Group>) {
    forall i :: 0 <= i < |groups| ==>
      (groups[i].steps == [] || groups[i].subGroups == []) && WellFormed(groups[i].subGroups)
  }

  /** Looking a visited position up gives the visited step, and in a well-formed plan no other
      position resolves: the walk and the lookup enumerate the same steps. */
  lemma StepAtInvertsWalk(plan: seq<Group>, ref: StepRef, step: Step)
    requires WellFormed(plan)
    ensures Visit(ref, step) in Walk(plan) <==>
              StepAtResult(plan, ref.groupPath, ref.index).Ok? &&
              StepAtResult(plan, ref.groupPath, ref.index).value.0 == step
  {
    if ref.groupPath == [] {
      forall k | 0 <= k < |Walk(plan)| ensures Walk(plan)[k].ref != ref {
        WalkFromUnder(plan, 0, [], k);
      }
    } else {
      assert [] + ref.groupPath == ref.groupPath;
      InWalkFrom(plan, 0, [], ref, step, 1);
    }
  }

  /** Whether the group reached by the rest of a path carries step at the reference's index. */
  predicate Holds(r: Result<Group, StepAtError>, index: nat, step: Step) {
    r.Ok? && index < |r.value.steps| && r.value.steps[index] == step
  }

  lemma {:induction false} InWalkFrom(groups: seq<Group>, base: nat, path: seq<nat>, ref: StepRef, step: Step, depth: nat)
    requires WellFormed(groups)
    requires IsPrefix(path, ref.groupPath) && |ref.groupPath| > |path| && ref.groupPath[|path|] >= base
    ensures var at := ref.groupPath[|path|] - base;
            Visit(ref, step) in WalkFrom(groups, base, path) <==>
              at < |groups| &&
              Holds(GroupAt(groups[at].subGroups, groups[at], ref.groupPath[|path| + 1..], depth), ref.index, step)
    decreases groups, 0
  {
    if groups != [] {
      var at := ref.groupPath[|path|] - base;
      var head, tail := WalkGroup(groups[0], path + [base]), WalkFrom(groups[1..], base + 1, path);
      if at == 0 {
        assert ref.groupPath[..|path| + 1] == path + [base];
        InWalkGroup(groups[0], path + [base], ref, step, depth);
        forall k | 0 <= k < |tail| ensures tail[k].ref != ref {
          WalkFromUnder(groups[1..], base + 1, path, k);
        }
      } else {
        forall k | 0 <= k < |head| ensures head[k].ref != ref {
          WalkGroupUnder(groups[0], path + [base], k);
          assert head[k].ref.groupPath[..|path| + 1][|path|] == base;
        }
        InWalkFrom(groups[1..], base + 1, path, ref, step, depth);
      }
    }
  }

  lemma {:induction false} InWalkGroup(g: Group, path: seq<nat>, ref: StepRef, step: Step, depth: nat)
    requires g.steps == [] || g.subGroups == []
    requires WellFormed(g.subGroups)
    requires IsPrefix(path, ref.groupPath)
    ensures Visit(ref, step) in WalkGroup(g, path) <==>
              Holds(GroupAt(g.subGroups, g, ref.groupPath[|path|..], depth), ref.index, step)
    decreases g, 1
  {
    var rest := ref.groupPath[|path|..];
    if g.subGroups == [] {
      InLeaf(g.steps, path, ref, step);
      if rest == [] { assert ref.groupPath == path; }
    } else if rest == [] {
      forall k | 0 <= k < |WalkGroup(g, path)| ensures WalkGroup(g, path)[k].ref != ref {
        WalkFromUnder(g.subGroups, 0, path, k);
      }
    } else {
      InWalkFrom(g.subGroups, 0, path, ref, step, depth + 1);
      assert rest[1..] == ref.groupPath[|path| + 1..];
    }
  }

  lemma InLeaf(steps: seq<Step>, path: seq<nat>, ref: StepRef, step: Step)
    ensures Visit(ref, step) in LeafVisits(steps, 0, path) <==>
              ref.groupPath == path && ref.index < |steps| && steps[ref.index] == step
  {
    forall k | 0 <= k < |steps|
      ensures LeafVisits(steps, 0, path)[k] == Visit(StepRef(path, k), steps[k])
    {
      LeafVisitAt(steps, 0, path, k);
    }
    if ref.groupPath == path && ref.index < |steps| && steps[ref.index] == step {
      assert LeafVisits(steps, 0, path)[ref.index] == Visit(ref, step);
    }
  }
}
