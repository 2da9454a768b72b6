/** One dispatch pass over the ready groups: its worker budget, and what it may leave behind.

    Models DispatchNext's loop and dispatchReadyGroup of internal/orch/orchestrator.go. What the gate,
    the semaphore, the resolver and the launch would answer for each candidate is part of the input. */
module DispatchPass {
  /** What comes of trying one candidate step. */
  datatype StepAnswer = GateFails | Gated | Full | Faults | Refuses | Launches

  /** What comes of trying to hand a whole group to one worker; Inapplicable falls through to the steps.
      A fan-out whose spend was refused, or which claimed nothing, still ran with no tasks. */
  datatype FanAnswer = Inapplicable | FanFaults | FanFull | FanRefuses | FanRan(tasks: nat)

  datatype ReadyGroup = ReadyGroup(parallel: bool, fan: FanAnswer, steps: seq<StepAnswer>)

  /** A launched candidate: its group and its index there. */
  datatype Launch = Launch(group: nat, step: nat)

  predicate TriesFanout(g: ReadyGroup) {
    g.parallel && |g.steps| > 1 && g.fan != Inapplicable
  }

  /** Whether a candidate is where the scan of its group ends; a gated one ends it only in a sequential
      group. */
  predicate Ends(g: ReadyGroup, i: nat)
    requires i < |g.steps|
  {
    g.steps[i] == Full || g.steps[i] == Faults || g.steps[i] == GateFails || (!g.parallel && g.steps[i] == Gated)
  }

  /** The scan of a group's steps comes as far as i. */
  predicate Reached(g: ReadyGroup, i: nat)
    requires i <= |g.steps|
  {
    forall j: nat :: j < i ==> !Ends(g, j)
  }

  /** How many of the first i candidates would launch. */
  function LaunchesBefore(g: ReadyGroup, i: nat): nat
    requires i <= |g.steps|
  {
    if i == 0 then 0 else LaunchesBefore(g, i - 1) + (if g.steps[i - 1] == Launches then 1 else 0)
  }

  predicate Spent(maxParallel: int, workers: nat) {
    maxParallel > 0 && workers >= maxParallel
  }

  /** The steps launched, in order and without repetition. */
  predicate Ascending(launched: seq<nat>) {
    forall i, j :: 0 <= i < j < |launched| ==> launched[i] < launched[j]
  }

  /** Budget is left when the scan comes to i. */
  predicate HasBudget(g: ReadyGroup, i: nat, alreadyAdmitted: nat, maxParallel: int)
    requires i <= |g.steps|
  {
    !Spent(maxParallel, alreadyAdmitted + LaunchesBefore(g, i))
  }

  /** The scan reaches i with budget left. */
  predicate Tried(g: ReadyGroup, i: nat, alreadyAdmitted: nat, maxParallel: int) {
    i < |g.steps| && Reached(g, i) && HasBudget(g, i, alreadyAdmitted, maxParallel)
  }

  /** The scan went through the first i candidates, the budget lasting. */
  predicate Scanned(g: ReadyGroup, i: nat, alreadyAdmitted: nat, maxParallel: int) {
    i <= |g.steps| && Reached(g, i) && forall k: nat :: k < i ==> HasBudget(g, k, alreadyAdmitted, maxParallel)
  }

  /** The outcome of scanning one group: exactly the launchable ones among the candidates tried, with a
      fault exactly when a faulting one was tried. While budget is left, nothing reached is left behind. */
  ghost predicate ScanResult(g: ReadyGroup, alreadyAdmitted: nat, maxParallel: int, fault: bool, launched: seq<nat>) {
    && Ascending(launched)
    && (forall i: nat :: i in launched <==> Tried(g, i, alreadyAdmitted, maxParallel) && g.steps[i] == Launches)
    && (fault <==> exists i: nat :: Tried(g, i, alreadyAdmitted, maxParallel) && (g.steps[i] == Faults || g.steps[i] == GateFails))
    && (!Spent(maxParallel, alreadyAdmitted + |launched|) ==> forall i: nat :: Launchable(g, i) ==> i in launched)
  }

  /** Where the scan stops at i, what it tried is what came before, and i itself if budget was left. */
  lemma StopsAt(g: ReadyGroup, i: nat, alreadyAdmitted: nat, maxParallel: int, k: nat)
    requires Scanned(g, i, alreadyAdmitted, maxParallel)
    requires i == |g.steps| || !HasBudget(g, i, alreadyAdmitted, maxParallel) || Ends(g, i)
    ensures Tried(g, k, alreadyAdmitted, maxParallel) <==>
              k < i || (k == i < |g.steps| && HasBudget(g, i, alreadyAdmitted, maxParallel))
  {
    if i < k <= |g.steps| { LaunchesGrow(g, i, k); }
  }

  /** What a candidate's fate is once the scan has stopped at i. */
  lemma FateAt(g: ReadyGroup, i: nat, alreadyAdmitted: nat, maxParallel: int, k: nat)
    requires Scanned(g, i, alreadyAdmitted, maxParallel)
    requires i == |g.steps| || !HasBudget(g, i, alreadyAdmitted, maxParallel) || Ends(g, i)
    ensures Tried(g, k, alreadyAdmitted, maxParallel) && g.steps[k] == Launches <==> k < i && g.steps[k] == Launches
    ensures Tried(g, k, alreadyAdmitted, maxParallel) && (g.steps[k] == Faults || g.steps[k] == GateFails) <==>
              k == i < |g.steps| && HasBudget(g, i, alreadyAdmitted, maxParallel) &&
              (g.steps[i] == Faults || g.steps[i] == GateFails)
    ensures Launchable(g, k) && HasBudget(g, i, alreadyAdmitted, maxParallel) ==> k < i
  {
    StopsAt(g, i, alreadyAdmitted, maxParallel, k);
    if k < i { assert !Ends(g, k); }
  }

  lemma ScanEnds(g: ReadyGroup, i: nat, alreadyAdmitted: nat, maxParallel: int, fault: bool, launched: seq<nat>)
    requires Scanned(g, i, alreadyAdmitted, maxParallel) && |launched| == LaunchesBefore(g, i) && Ascending(launched)
    requires forall k: nat :: k in launched <==> k < i && g.steps[k] == Launches
    requires i == |g.steps| || !HasBudget(g, i, alreadyAdmitted, maxParallel) || Ends(g, i)
    requires fault <==> i < |g.steps| && HasBudget(g, i, alreadyAdmitted, maxParallel) &&
                        (g.steps[i] == Faults || g.steps[i] == GateFails)
    ensures ScanResult(g, alreadyAdmitted, maxParallel, fault, launched)
  {
    forall k: nat ensures k in launched <==> Tried(g, k, alreadyAdmitted, maxParallel) && g.steps[k] == Launches {
      FateAt(g, i, alreadyAdmitted, maxParallel, k);
    }
    FateAt(g, i, alreadyAdmitted, maxParallel, i);
    forall k: nat | Tried(g, k, alreadyAdmitted, maxParallel) && (g.steps[k] == Faults || g.steps[k] == GateFails)
      ensures fault
    {
      FateAt(g, i, alreadyAdmitted, maxParallel, k);
    }
    forall k: nat | Launchable(g, k) && !Spent(maxParallel, alreadyAdmitted + |launched|) ensures k in launched {
      FateAt(g, i, alreadyAdmitted, maxParallel, k);
    }
  }

  lemma {:induction false} LaunchesGrow(g: ReadyGroup, i: nat, k: nat)
    requires i <= k <= |g.steps|
    ensures LaunchesBefore(g, k) >= LaunchesBefore(g, i)
    decreases k
  {
    if i < k { LaunchesGrow(g, i, k - 1); }
  }

  /** One Ralph-managed worker per step, scanning past candidates that are gated or refused. */
  method DispatchSteps(g: ReadyGroup, alreadyAdmitted: nat, maxParallel: int) returns (fault: bool, launched: seq<nat>)
    requires maxParallel > 0 ==> alreadyAdmitted < maxParallel
    ensures maxParallel > 0 ==> alreadyAdmitted + |launched| <= maxParallel
    ensures ScanResult(g, alreadyAdmitted, maxParallel, fault, launched)
  {
    fault, launched := false, [];
    var i := 0;
    while i < |g.steps|
      invariant Scanned(g, i, alreadyAdmitted, maxParallel)
      invariant |launched| == LaunchesBefore(g, i)
      invariant maxParallel > 0 ==> alreadyAdmitted + |launched| <= maxParallel
      invariant Ascending(launched) && forall n :: 0 <= n < |launched| ==> launched[n] < i
      invariant forall k: nat :: k in launched <==> k < i && g.steps[k] == Launches
    {
      if Spent(maxParallel, alreadyAdmitted + |launched|) {
        break;
      }
      if Ends(g, i) {
        fault := g.steps[i] == GateFails || g.steps[i] == Faults;
        break;
      }
      if g.steps[i] == Launches {
        launched := launched + [i];
      }
      i := i + 1;
    }
    ScanEnds(g, i, alreadyAdmitted, maxParallel, fault, launched);
  }

  /** The candidates before i that would launch. */
  function Launching(g: ReadyGroup, i: nat): set<nat>
    requires i <= |g.steps|
  {
    set j: nat | j < i && g.steps[j] == Launches
  }

  lemma {:induction false} LaunchesAreCounted(g: ReadyGroup, i: nat)
    requires i <= |g.steps|
    ensures LaunchesBefore(g, i) == |Launching(g, i)|
  {
    if i == 0 {
      assert Launching(g, 0) == {};
    } else {
      LaunchesAreCounted(g, i - 1);
      assert Launching(g, i) == Launching(g, i - 1) + (if g.steps[i - 1] == Launches then {i - 1} else {});
    }
  }

  /** Everything before i leaves the scan going: what launched, what was refused, and in a parallel group
      what is gated. */
  predicate LetThrough(g: ReadyGroup, i: nat)
    requires i <= |g.steps|
  {
    forall j: nat :: j < i ==>
      g.steps[j] == Launches || g.steps[j] == Refuses || (g.parallel && g.steps[j] == Gated)
  }

  /** The pass's budget is not used up by the workers before i; without a positive limit it never is. */
  predicate WithinLimit(g: ReadyGroup, i: nat, alreadyAdmitted: nat, maxParallel: int)
    requires i <= |g.steps|
  {
    maxParallel <= 0 || alreadyAdmitted + |Launching(g, i)| < maxParallel
  }

  /** A candidate is launched exactly when it would launch, nothing before it stopped the scan, and a worker
      is left for it. So neither a refusal nor another parallel step's gate hides the launchable steps
      behind it. */
  lemma LaunchedExactlyWhen(g: ReadyGroup, alreadyAdmitted: nat, maxParallel: int, fault: bool, launched: seq<nat>, i: nat)
    requires ScanResult(g, alreadyAdmitted, maxParallel, fault, launched)
    ensures i in launched <==>
              i < |g.steps| && g.steps[i] == Launches && LetThrough(g, i) && WithinLimit(g, i, alreadyAdmitted, maxParallel)
  {
    TriedWhen(g, i, alreadyAdmitted, maxParallel);
  }

  lemma TriedWhen(g: ReadyGroup, i: nat, alreadyAdmitted: nat, maxParallel: int)
    ensures Tried(g, i, alreadyAdmitted, maxParallel) <==>
              i < |g.steps| && LetThrough(g, i) && WithinLimit(g, i, alreadyAdmitted, maxParallel)
  {
    if i < |g.steps| {
      LaunchesAreCounted(g, i);
      ReachedWhen(g, i);
    }
  }

  lemma ReachedWhen(g: ReadyGroup, i: nat)
    requires i <= |g.steps|
    ensures Reached(g, i) <==> LetThrough(g, i)
  {
    forall j: nat | j < i
      ensures !Ends(g, j) <==> g.steps[j] == Launches || g.steps[j] == Refuses || (g.parallel && g.steps[j] == Gated)
    {}
  }

  /** The pass ends in an error exactly when a candidate it came to could not be judged or launched. */
  lemma FaultsExactlyWhen(g: ReadyGroup, alreadyAdmitted: nat, maxParallel: int, fault: bool, launched: seq<nat>)
    requires ScanResult(g, alreadyAdmitted, maxParallel, fault, launched)
    ensures fault <==> exists i: nat ::
              && i < |g.steps| && (g.steps[i] == Faults || g.steps[i] == GateFails)
              && LetThrough(g, i) && WithinLimit(g, i, alreadyAdmitted, maxParallel)
  {
    forall i: nat ensures Tried(g, i, alreadyAdmitted, maxParallel) <==>
      i < |g.steps| && LetThrough(g, i) && WithinLimit(g, i, alreadyAdmitted, maxParallel)
    {
      TriedWhen(g, i, alreadyAdmitted, maxParallel);
    }
  }

  /** A group is either handed to one worker whole, and comes out as that worker does, or scanned. */
  method DispatchReadyGroup(g: ReadyGroup, alreadyAdmitted: nat, maxParallel: int)
    returns (tasks: nat, admitted: nat, fault: bool, launched: seq<nat>)
    requires maxParallel > 0 ==> alreadyAdmitted < maxParallel
    ensures maxParallel > 0 ==> alreadyAdmitted + admitted <= maxParallel
    ensures TriesFanout(g) ==>
              && launched == [] && fault == g.fan.FanFaults?
              && admitted == (if g.fan.FanRan? then 1 else 0)
              && tasks == (if g.fan.FanRan? then g.fan.tasks else 0)
    ensures !TriesFanout(g) ==>
              tasks == admitted == |launched| && ScanResult(g, alreadyAdmitted, maxParallel, fault, launched)
  {
    if g.parallel && |g.steps| > 1 {
      match g.fan {
        case Inapplicable =>
        case FanFaults => return 0, 0, true, [];
        case FanFull => return 0, 0, false, [];
        case FanRefuses => return 0, 0, false, [];
        case FanRan(n) => return n, 1, false, [];
      }
    }
    fault, launched := DispatchSteps(g, alreadyAdmitted, maxParallel);
    tasks, admitted := |launched|, |launched|;
  }

  /** A candidate the scan of its group reaches and that would launch. */
  predicate Launchable(g: ReadyGroup, i: nat) {
    i < |g.steps| && g.steps[i] == Launches && Reached(g, i)
  }

  predicate Valid(groups: seq<ReadyGroup>, k: nat, launches: seq<Launch>)
    requires k <= |groups|
  {
    forall l :: l in launches ==> l.group < k && Launchable(groups[l.group], l.step)
  }

  /** Nothing launchable was left behind in the undelegated ones among the first k groups. */
  predicate Complete(groups: seq<ReadyGroup>, k: nat, launches: seq<Launch>)
    requires k <= |groups|
  {
    forall g: nat, i: nat | g < k && i < |groups[g].steps| ::
      !TriesFanout(groups[g]) && Launchable(groups[g], i) ==> Launch(g, i) in launches
  }

  lemma CompleteNext(groups: seq<ReadyGroup>, k: nat, launches: seq<Launch>, launched: seq<nat>, all: seq<Launch>)
    requires k < |groups| && Complete(groups, k, launches)
    requires !TriesFanout(groups[k]) ==> forall i: nat :: Launchable(groups[k], i) ==> i in launched
    requires |all| == |launches| + |launched| && launches <= all
    requires forall n :: 0 <= n < |launched| ==> all[|launches| + n] == Launch(k, launched[n])
    ensures Complete(groups, k + 1, all)
  {
    forall g: nat, i: nat | g < k + 1 && i < |groups[g].steps| && !TriesFanout(groups[g]) && Launchable(groups[g], i)
      ensures Launch(g, i) in all
    {
      if g < k {
        assert Launch(g, i) in launches;
      } else {
        var n :| 0 <= n < |launched| && launched[n] == i;
        assert all[|launches| + n] == Launch(k, i);
      }
    }
  }

  /** Launched in the order of the groups, and in each in the order of its steps; so none of them twice. */
  predicate InOrder(launches: seq<Launch>) {
    forall a, b :: 0 <= a < b < |launches| ==>
      launches[a].group < launches[b].group || (launches[a].group == launches[b].group && launches[a].step < launches[b].step)
  }

  lemma ValidNext(groups: seq<ReadyGroup>, k: nat, launches: seq<Launch>, launched: seq<nat>, here: seq<Launch>)
    requires k < |groups| && Valid(groups, k, launches) && InOrder(launches)
    requires Ascending(launched) && forall i :: i in launched ==> Launchable(groups[k], i)
    requires |here| == |launched| && forall n :: 0 <= n < |launched| ==> here[n] == Launch(k, launched[n])
    ensures Valid(groups, k + 1, launches + here) && InOrder(launches + here)
  {
    var all := launches + here;
    forall n | 0 <= n < |all| ensures all[n].group < k + 1 && Launchable(groups[all[n].group], all[n].step) {
      if n < |launches| {
        assert launches[n] in launches;
      } else {
        assert launched[n - |launches|] in launched;
      }
    }
    forall a, b | 0 <= a < b < |all|
      ensures all[a].group < all[b].group || (all[a].group == all[b].group && all[a].step < all[b].step)
    {
      if a < |launches| { assert launches[a] in launches; }
    }
  }

  /** The workers, and the tasks, of the delegated ones among the first k groups. */
  function FanWorkers(groups: seq<ReadyGroup>, k: nat): nat
    requires k <= |groups|
  {
    if k == 0 then 0
    else FanWorkers(groups, k - 1) + (if TriesFanout(groups[k - 1]) && groups[k - 1].fan.FanRan? then 1 else 0)
  }

  function FanTasks(groups: seq<ReadyGroup>, k: nat): nat
    requires k <= |groups|
  {
    if k == 0 then 0
    else
      FanTasks(groups, k - 1) +
      (if TriesFanout(groups[k - 1]) && groups[k - 1].fan.FanRan? then groups[k - 1].fan.tasks else 0)
  }

  /** What a pass over the first k groups comes to: its launches in order, each delegated group one worker
      however many tasks it runs, and nothing launchable left behind while a worker is left. */
  predicate PassResult(groups: seq<ReadyGroup>, k: nat, maxParallel: int, dispatched: nat, workers: nat, launches: seq<Launch>) {
    && k <= |groups|
    && Valid(groups, k, launches) && InOrder(launches)
    && workers == |launches| + FanWorkers(groups, k)
    && dispatched == |launches| + FanTasks(groups, k)
    && (maxParallel > 0 ==> workers <= maxParallel)
    && (maxParallel <= 0 || workers < maxParallel ==> Complete(groups, k, launches))
  }

  /** A pass goes through the groups until its workers are used up or one of them faults. */
  method DispatchNext(groups: seq<ReadyGroup>, maxParallel: int)
    returns (dispatched: nat, workers: nat, fault: bool, launches: seq<Launch>)
    ensures !fault ==>
              exists k :: PassResult(groups, k, maxParallel, dispatched, workers, launches)
                          && (k == |groups| || 0 < maxParallel == workers)
    ensures maxParallel > 0 ==> workers <= maxParallel
    ensures fault ==>
              exists k: nat ::
                && k < |groups| && Valid(groups, k + 1, launches) && InOrder(launches)
                && workers == |launches| + FanWorkers(groups, k) && dispatched == |launches| + FanTasks(groups, k)
                && (if TriesFanout(groups[k]) then groups[k].fan.FanFaults?
                    else Faults in groups[k].steps || GateFails in groups[k].steps)
  {
    dispatched, workers, fault, launches := 0, 0, false, [];
    for k := 0 to |groups|
      invariant !fault
      invariant PassResult(groups, k, maxParallel, dispatched, workers, launches)
    {
      if maxParallel > 0 && workers >= maxParallel {
        return;
      }
      var tasks, admitted, failed, launched := DispatchReadyGroup(groups[k], workers, maxParallel);
      dispatched := dispatched + tasks;
      workers := workers + admitted;
      var here := seq(|launched|, n requires 0 <= n < |launched| => Launch(k, launched[n]));
      ValidNext(groups, k, launches, launched, here);
      if !failed && (maxParallel <= 0 || workers < maxParallel) {
        CompleteNext(groups, k, launches, launched, launches + here);
      }
      launches := launches + here;
      if failed {
        fault := true;
        return;
      }
    }
  }
}
