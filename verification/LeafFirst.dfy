/** The order in which the processes of a session are killed: children before their ancestors.

    Models sortDarwinMembersLeafFirst of internal/agent/session_cleanup_darwin.go. The library's sort is
    represented by insertion; every theorem is about any order its comparator allows. */
module LeafFirst {
  import opened Sequences
  import opened Wrappers

  datatype Process = Process(pid: int, parentPID: int)

  type Table = map<int, Process>

  // ---------------------------------------------------------------- the table

  /** Where a pid is listed twice the later entry replaces the earlier. */
  function TableOf(members: seq<Process>): Table {
    if members == [] then map[]
    else
      var last := members[|members| - 1];
      TableOf(members[..|members| - 1])[last.pid := last]
  }

  /** No later member has the pid of this one. */
  predicate IsLast(members: seq<Process>, k: nat)
    requires k < |members|
  {
    forall j :: k < j < |members| ==> members[j].pid != members[k].pid
  }

  predicate Keyed(byPID: Table) {
    forall pid :: pid in byPID ==> byPID[pid].pid == pid
  }

  /** The table holds the last member of each pid, and nothing else. */
  predicate Indexes(byPID: Table, members: seq<Process>) {
    && Keyed(byPID)
    && (forall k: nat :: k < |members| ==>
          members[k].pid in byPID && (IsLast(members, k) ==> byPID[members[k].pid] == members[k]))
    && (forall pid :: pid in byPID ==> byPID[pid] in members)
  }

  lemma {:induction false} TableIndexes(members: seq<Process>)
    ensures Indexes(TableOf(members), members)
  {
    if members != [] {
      var before := members[..|members| - 1];
      TableIndexes(before);
      forall k: nat | k < |before| && IsLast(members, k) ensures IsLast(before, k) {}
    }
  }

  method IndexByPID(members: seq<Process>) returns (byPID: Table)
    ensures byPID == TableOf(members) && Indexes(byPID, members)
  {
    byPID := map[];
    for i := 0 to |members|
      invariant byPID == TableOf(members[..i])
    {
      assert members[..i + 1][..i] == members[..i];
      byPID := byPID[members[i].pid := members[i]];
    }
    assert members[..|members|] == members;
    TableIndexes(members);
  }

  // ---------------------------------------------------------------- the walk up

  /** The k-th process above m, if the chain is that long. */
  function Up(byPID: Table, m: Process, k: nat): Option<Process> {
    if k == 0 then Some(m)
    else
      var below := Up(byPID, m, k - 1);
      if below.None? || below.value.parentPID !in byPID then None else Some(byPID[below.value.parentPID])
  }

  ghost predicate Ancestor(byPID: Table, m: Process, above: Process) {
    exists k: nat :: k > 0 && Up(byPID, m, k) == Some(above)
  }

  /** i and j steps up are two processes, as far as the chain reaches. */
  predicate Differ(byPID: Table, m: Process, i: nat, j: nat) {
    Up(byPID, m, i).Some? && Up(byPID, m, j).Some? ==> Up(byPID, m, i).value.pid != Up(byPID, m, j).value.pid
  }

  /** The chain does not reach the j-th process above m, or has met it before. */
  ghost predicate Stops(byPID: Table, m: Process, j: nat) {
    Up(byPID, m, j).None? || exists i: nat :: i < j && !Differ(byPID, m, i, j)
  }

  /** d steps up the chain every process is a new one, and the next is missing or has been met. */
  ghost predicate IsDepth(byPID: Table, m: Process, d: nat) {
    && Up(byPID, m, d).Some?
    && (forall i: nat, j: nat :: i < j <= d ==> Differ(byPID, m, i, j))
    && Stops(byPID, m, d + 1)
  }

  lemma {:induction false} UpShorter(byPID: Table, m: Process, i: nat, k: nat)
    requires i <= k && Up(byPID, m, k).Some?
    ensures Up(byPID, m, i).Some?
    decreases k
  {
    if i < k { UpShorter(byPID, m, i, k - 1); }
  }

  lemma {:induction false} UpSum(byPID: Table, m: Process, i: nat, k: nat)
    requires Up(byPID, m, i).Some?
    ensures Up(byPID, m, i + k) == Up(byPID, Up(byPID, m, i).value, k)
  {
    if k > 0 { UpSum(byPID, m, i, k - 1); }
  }

  lemma DepthIsUnique(byPID: Table, m: Process, d: nat, e: nat)
    requires IsDepth(byPID, m, d) && IsDepth(byPID, m, e)
    ensures d == e
  {
    var least, most := if d < e then d else e, if d < e then e else d;
    if least < most {
      UpShorter(byPID, m, least + 1, most);
    }
  }

  /** The pids met in the first k steps up. */
  function Met(byPID: Table, m: Process, k: nat): set<int> {
    var here := Up(byPID, m, k);
    (if here.Some? then {here.value.pid} else {}) + (if k == 0 then {} else Met(byPID, m, k - 1))
  }

  /** Each of the first k steps up meets a new pid. */
  predicate AllNew(byPID: Table, m: Process, k: nat) {
    Up(byPID, m, k).Some? &&
    (k == 0 || (AllNew(byPID, m, k - 1) && Up(byPID, m, k).value.pid !in Met(byPID, m, k - 1)))
  }

  lemma {:induction false} MetOnTheWay(byPID: Table, m: Process, k: nat, i: nat)
    requires i <= k && Up(byPID, m, i).Some?
    ensures Up(byPID, m, i).value.pid in Met(byPID, m, k)
    decreases k
  {
    if i < k { MetOnTheWay(byPID, m, k - 1, i); }
  }

  lemma {:induction false} MetAt(byPID: Table, m: Process, k: nat, pid: int) returns (i: nat)
    requires pid in Met(byPID, m, k)
    ensures i <= k && Up(byPID, m, i).Some? && Up(byPID, m, i).value.pid == pid
  {
    if Up(byPID, m, k).Some? && Up(byPID, m, k).value.pid == pid {
      i := k;
    } else {
      i := MetAt(byPID, m, k - 1, pid);
    }
  }

  lemma {:induction false} NewDiffer(byPID: Table, m: Process, k: nat, i: nat, j: nat)
    requires AllNew(byPID, m, k) && i < j <= k
    ensures Differ(byPID, m, i, j)
    decreases k
  {
    if j < k {
      NewDiffer(byPID, m, k - 1, i, j);
    } else if Up(byPID, m, i).Some? {
      MetOnTheWay(byPID, m, k - 1, i);
    }
  }

  lemma DepthReached(byPID: Table, m: Process, d: nat)
    requires AllNew(byPID, m, d)
    requires Up(byPID, m, d + 1).Some? ==> Up(byPID, m, d + 1).value.pid in Met(byPID, m, d)
    ensures IsDepth(byPID, m, d)
  {
    forall i: nat, j: nat | i < j <= d ensures Differ(byPID, m, i, j) {
      NewDiffer(byPID, m, d, i, j);
    }
    if Up(byPID, m, d + 1).Some? {
      var i := MetAt(byPID, m, d, Up(byPID, m, d + 1).value.pid);
      assert !Differ(byPID, m, i, d + 1);
    }
  }

  /** The depth walk ends for every table, even one whose parents form a cycle: it never counts a
      process twice. */
  method Depth(byPID: Table, member: Process) returns (value: nat)
    requires Keyed(byPID) && member.pid in byPID
    ensures IsDepth(byPID, member, value)
    ensures value < |byPID|
  {
    var seen := {member.pid};
    var current := member;
    value := 0;
    while current.parentPID in byPID && byPID[current.parentPID].pid !in seen
      invariant Up(byPID, member, value) == Some(current)
      invariant AllNew(byPID, member, value) && seen == Met(byPID, member, value)
      invariant seen <= byPID.Keys && |seen| == value + 1
      decreases byPID.Keys - seen
    {
      var parent := byPID[current.parentPID];
      seen := seen + {parent.pid};
      value := value + 1;
      current := parent;
    }
    SubsetIsSmaller(seen, byPID.Keys);
    DepthReached(byPID, member, value);
  }

  /** Every process has a depth. */
  lemma {:induction false} DepthExists(byPID: Table, m: Process, k: nat) returns (d: nat)
    requires Keyed(byPID) && AllNew(byPID, m, k)
    ensures IsDepth(byPID, m, d)
    decreases byPID.Keys - Met(byPID, m, k)
  {
    var next := Up(byPID, m, k + 1);
    if next.None? || next.value.pid in Met(byPID, m, k) {
      DepthReached(byPID, m, k);
      d := k;
    } else {
      assert next.value.pid in byPID.Keys - Met(byPID, m, k);
      d := DepthExists(byPID, m, k + 1);
    }
  }

  // ---------------------------------------------------------------- the comparator

  /** The comparator's verdict: a goes before b when it is deeper, or as deep with a higher pid. */
  ghost predicate Before(byPID: Table, a: Process, b: Process) {
    exists d: nat, e: nat :: DeeperAt(byPID, a, d, b, e)
  }

  ghost predicate DeeperAt(byPID: Table, a: Process, d: nat, b: Process, e: nat) {
    IsDepth(byPID, a, d) && IsDepth(byPID, b, e) && (d > e || (d == e && a.pid >= b.pid))
  }

  /** Negative, zero or positive as a goes before b, may go either way, or goes after it. */
  method Compare(byPID: Table, a: Process, b: Process) returns (order: int)
    requires Keyed(byPID) && a.pid in byPID && b.pid in byPID
    ensures order <= 0 <==> Before(byPID, a, b)
    ensures order >= 0 <==> Before(byPID, b, a)
  {
    var aDepth := Depth(byPID, a);
    var bDepth := Depth(byPID, b);
    order := if aDepth != bDepth then bDepth - aDepth else b.pid - a.pid;
    Verdict(byPID, a, aDepth, b, bDepth);
    Verdict(byPID, b, bDepth, a, aDepth);
  }

  lemma Verdict(byPID: Table, a: Process, d: nat, b: Process, e: nat)
    requires IsDepth(byPID, a, d) && IsDepth(byPID, b, e)
    ensures Before(byPID, a, b) <==> DeeperAt(byPID, a, d, b, e)
  {
    if d': nat, e': nat :| DeeperAt(byPID, a, d', b, e') {
      DepthIsUnique(byPID, a, d, d');
      DepthIsUnique(byPID, b, e, e');
    }
  }

  lemma ComparatorIsTotal(byPID: Table, a: Process, b: Process)
    requires Keyed(byPID)
    ensures Before(byPID, a, b) || Before(byPID, b, a)
  {
    var d := DepthExists(byPID, a, 0);
    var e := DepthExists(byPID, b, 0);
    Verdict(byPID, a, d, b, e);
    Verdict(byPID, b, e, a, d);
  }

  /** The comparator is transitive, and antisymmetric on distinct pids, whose sorted order is therefore the
      only one. */
  lemma ComparatorIsOrder(byPID: Table, a: Process, b: Process, c: Process)
    requires Before(byPID, a, b)
    ensures Before(byPID, b, a) ==> a.pid == b.pid
    ensures Before(byPID, b, c) ==> Before(byPID, a, c)
  {
    var d: nat, e: nat :| DeeperAt(byPID, a, d, b, e);
    Verdict(byPID, b, e, a, d);
    if Before(byPID, b, c) {
      var e': nat, f: nat :| DeeperAt(byPID, b, e', c, f);
      DepthIsUnique(byPID, b, e, e');
      assert DeeperAt(byPID, a, d, c, f);
    }
  }

  ghost predicate Sorted(byPID: Table, order: seq<Process>) {
    forall i, j :: 0 <= i < j < |order| ==> Before(byPID, order[i], order[j])
  }

  // ---------------------------------------------------------------- children first

  predicate DistinctPIDs(members: seq<Process>) {
    forall i, j :: 0 <= i < j < |members| ==> members[i].pid != members[j].pid
  }

  ghost predicate Acyclic(byPID: Table) {
    forall pid :: pid in byPID ==> !Ancestor(byPID, byPID[pid], byPID[pid])
  }

  /** Some process above m has the pid of m. */
  ghost predicate MeetsItself(byPID: Table, m: Process) {
    exists k: nat :: k > 0 && !Differ(byPID, m, 0, k)
  }

  ghost predicate NoneMeetsItself(byPID: Table, members: seq<Process>) {
    forall m :: m in members ==> !MeetsItself(byPID, m)
  }

  /** Every process precedes all its ancestors. */
  ghost predicate ChildrenFirst(byPID: Table, order: seq<Process>) {
    forall i, j :: 0 <= i < |order| && 0 <= j < |order| && Ancestor(byPID, order[i], order[j]) ==> i < j
  }

  /** All that is above a process is in the table, and so a member. */
  lemma AboveIsListed(byPID: Table, members: seq<Process>, m: Process, k: nat)
    requires Indexes(byPID, members) && k > 0 && Up(byPID, m, k).Some?
    ensures var above := Up(byPID, m, k).value;
            above in members && above.pid in byPID && byPID[above.pid] == above
  {}

  lemma NotItself(byPID: Table, members: seq<Process>, m: Process, k: nat)
    requires NoneMeetsItself(byPID, members) && m in members && k > 0
    ensures Differ(byPID, m, 0, k)
  {}

  lemma DifferFrom(byPID: Table, m: Process, i: nat, k: nat)
    requires Up(byPID, m, i).Some? && Differ(byPID, Up(byPID, m, i).value, 0, k)
    ensures Differ(byPID, m, i, i + k)
  {
    UpSum(byPID, m, i, k);
  }

  /** The walk of such a member meets nobody twice. */
  lemma WalkDiffers(byPID: Table, members: seq<Process>, m: Process, i: nat, j: nat)
    requires Indexes(byPID, members) && NoneMeetsItself(byPID, members) && m in members && i < j
    ensures Differ(byPID, m, i, j)
  {
    if i == 0 {
      NotItself(byPID, members, m, j);
    } else if Up(byPID, m, i).Some? {
      AboveIsListed(byPID, members, m, i);
      NotItself(byPID, members, Up(byPID, m, i).value, j - i);
      DifferFrom(byPID, m, i, j - i);
    }
  }

  /** So it stops only where the chain does. */
  lemma WalkEnds(byPID: Table, members: seq<Process>, m: Process, d: nat)
    requires Indexes(byPID, members) && NoneMeetsItself(byPID, members) && m in members
    requires Stops(byPID, m, d)
    ensures Up(byPID, m, d).None?
  {
    if i: nat :| i < d && !Differ(byPID, m, i, d) {
      WalkDiffers(byPID, members, m, i, d);
    }
  }

  lemma LongerThanDepth(byPID: Table, m: Process, above: Process, k: nat, d: nat, e: nat)
    requires k > 0 && Up(byPID, m, k) == Some(above) && Up(byPID, above, e).Some? && Up(byPID, m, d + 1).None?
    ensures d > e
  {
    UpSum(byPID, m, k, e);
    if k + e > d { UpShorter(byPID, m, d + 1, k + e); }
  }

  /** Every ancestor is strictly less deep. */
  lemma AncestorsAreShallower(byPID: Table, members: seq<Process>, m: Process, above: Process, d: nat, e: nat)
    requires Indexes(byPID, members) && NoneMeetsItself(byPID, members)
    requires m in members && Ancestor(byPID, m, above)
    requires IsDepth(byPID, m, d) && IsDepth(byPID, above, e)
    ensures d > e
  {
    var k: nat :| k > 0 && Up(byPID, m, k) == Some(above);
    WalkEnds(byPID, members, m, d + 1);
    LongerThanDepth(byPID, m, above, k, d, e);
  }

  /** Any order the comparator allows has every process before all its ancestors. */
  lemma LeavesComeFirst(byPID: Table, members: seq<Process>, order: seq<Process>)
    requires Indexes(byPID, members) && NoneMeetsItself(byPID, members)
    requires multiset(order) == multiset(members) && Sorted(byPID, order)
    ensures ChildrenFirst(byPID, order)
  {
    forall i, j | 0 <= i < |order| && 0 <= j < |order| && Ancestor(byPID, order[i], order[j]) ensures i < j {
      assert order[i] in multiset(members) && order[j] in multiset(members);
      if i == j {
        ListedMeetsItself(byPID, order[i]);
      } else if j < i {
        var d: nat, e: nat :| DeeperAt(byPID, order[j], d, order[i], e);
        AncestorsAreShallower(byPID, members, order[i], order[j], e, d);
      }
    }
  }

  lemma ListedMeetsItself(byPID: Table, m: Process)
    requires Ancestor(byPID, m, m)
    ensures MeetsItself(byPID, m)
  {
    var k: nat :| k > 0 && Up(byPID, m, k) == Some(m);
    assert !Differ(byPID, m, 0, k);
  }

  /** No order whatsoever has the children first when parents form a cycle. */
  lemma CyclesCannotBeOrdered(byPID: Table, members: seq<Process>, order: seq<Process>)
    requires Indexes(byPID, members) && !Acyclic(byPID)
    requires multiset(order) == multiset(members)
    ensures !ChildrenFirst(byPID, order)
  {
    var pid :| pid in byPID && Ancestor(byPID, byPID[pid], byPID[pid]);
    assert byPID[pid] in multiset(order);
    var i :| 0 <= i < |order| && order[i] == byPID[pid];
    assert Ancestor(byPID, order[i], order[i]);
  }

  lemma DistinctAreEntries(byPID: Table, members: seq<Process>, i: nat)
    requires Indexes(byPID, members) && DistinctPIDs(members) && i < |members|
    ensures members[i].pid in byPID && byPID[members[i].pid] == members[i]
  {
    assert IsLast(members, i);
  }

  lemma EntryMeetsItself(byPID: Table, members: seq<Process>, m: Process)
    requires Indexes(byPID, members) && m.pid in byPID && byPID[m.pid] == m && MeetsItself(byPID, m)
    ensures Ancestor(byPID, m, m)
  {
    var k: nat :| k > 0 && !Differ(byPID, m, 0, k);
    AboveIsListed(byPID, members, m, k);
    assert Up(byPID, m, k) == Some(m);
  }

  lemma DistinctAcyclic(byPID: Table, members: seq<Process>)
    requires Indexes(byPID, members) && DistinctPIDs(members) && Acyclic(byPID)
    ensures NoneMeetsItself(byPID, members)
  {
    forall i: nat | i < |members| ensures !MeetsItself(byPID, members[i]) {
      DistinctAreEntries(byPID, members, i);
      if MeetsItself(byPID, members[i]) { EntryMeetsItself(byPID, members, members[i]); }
    }
  }

  /** The order is children first exactly when no process is its own ancestor. */
  lemma ChildrenFirstWhen(byPID: Table, members: seq<Process>, order: seq<Process>)
    requires Indexes(byPID, members) && DistinctPIDs(members)
    requires multiset(order) == multiset(members) && Sorted(byPID, order)
    ensures ChildrenFirst(byPID, order) <==> Acyclic(byPID)
  {
    if Acyclic(byPID) {
      DistinctAcyclic(byPID, members);
      LeavesComeFirst(byPID, members, order);
    } else {
      CyclesCannotBeOrdered(byPID, members, order);
    }
  }

  // ---------------------------------------------------------------- any list of members

  /** An order the comparator allows. */
  ghost predicate Allowed(byPID: Table, members: seq<Process>, order: seq<Process>) {
    multiset(order) == multiset(members) && Sorted(byPID, order)
  }

  /** No member may go after the member its parentPID names. */
  ghost predicate ParentsGoLater(byPID: Table, members: seq<Process>) {
    forall m :: m in members ==> ParentGoesLater(byPID, m)
  }

  ghost predicate ParentGoesLater(byPID: Table, m: Process) {
    Up(byPID, m, 1).Some? ==> !Before(byPID, Up(byPID, m, 1).value, m)
  }

  /** Then nor may it go after anything above that. */
  lemma {:induction false} AncestorsGoLater(byPID: Table, members: seq<Process>, m: Process, k: nat)
    requires Indexes(byPID, members) && ParentsGoLater(byPID, members) && m in members
    requires k > 0 && Up(byPID, m, k).Some?
    ensures !Before(byPID, Up(byPID, m, k).value, m)
  {
    if k == 1 {
      assert ParentGoesLater(byPID, m);
    } else {
      AncestorsGoLater(byPID, members, m, k - 1);
      AboveIsListed(byPID, members, m, k - 1);
      var x, above := Up(byPID, m, k - 1).value, Up(byPID, m, k).value;
      assert ParentGoesLater(byPID, x);
      UpSum(byPID, m, k - 1, 1);
      ComparatorIsTotal(byPID, m, x);
      if Before(byPID, above, m) { ComparatorIsOrder(byPID, above, m, x); }
    }
  }

  lemma ParentsSuffice(byPID: Table, members: seq<Process>, order: seq<Process>)
    requires Indexes(byPID, members) && ParentsGoLater(byPID, members) && Allowed(byPID, members, order)
    ensures ChildrenFirst(byPID, order)
  {
    forall i, j | 0 <= i < |order| && 0 <= j < |order| && Ancestor(byPID, order[i], order[j]) ensures i < j {
      assert order[i] in multiset(members);
      var k: nat :| k > 0 && Up(byPID, order[i], k) == Some(order[j]);
      AncestorsGoLater(byPID, members, order[i], k);
      if i == j { ComparatorIsTotal(byPID, order[i], order[j]); }
    }
  }

  /** Two elements that may go either way can change places. */
  lemma TieSwaps(byPID: Table, order: seq<Process>, i: nat, j: nat)
    requires i < j < |order| && Sorted(byPID, order) && Before(byPID, order[j], order[i])
    ensures Sorted(byPID, order[i := order[j]][j := order[i]])
    ensures multiset(order[i := order[j]][j := order[i]]) == multiset(order)
  {
    var m, p, swapped := order[i], order[j], order[i := order[j]][j := order[i]];
    forall a, b | 0 <= a < b < |order| ensures Before(byPID, swapped[a], swapped[b]) {
      if a == i && b == j {
      } else if a == i {
        ComparatorIsOrder(byPID, p, m, order[b]);
      } else if b == j {
        ComparatorIsOrder(byPID, order[a], p, m);
      } else if b == i {
        ComparatorIsOrder(byPID, order[a], m, p);
      } else if a == j {
        ComparatorIsOrder(byPID, m, p, order[b]);
      }
    }
  }

  /** A member that may go after its parent does so in some order the comparator allows. */
  lemma BadParent(byPID: Table, members: seq<Process>, order: seq<Process>, m: Process) returns (bad: seq<Process>)
    requires Indexes(byPID, members) && Allowed(byPID, members, order)
    requires m in members && !ParentGoesLater(byPID, m)
    ensures Allowed(byPID, members, bad) && !ChildrenFirst(byPID, bad)
  {
    var p := Up(byPID, m, 1).value;
    AboveIsListed(byPID, members, m, 1);
    assert m in multiset(order) && p in multiset(order);
    var i :| 0 <= i < |order| && order[i] == m;
    var j :| 0 <= j < |order| && order[j] == p;
    assert Ancestor(byPID, m, p);
    bad := order;
    if i < j {
      TieSwaps(byPID, order, i, j);
      bad := order[i := p][j := m];
      assert bad[i] == p && bad[j] == m;
    }
  }

  /** For any list of members, also one that repeats a pid: every order the comparator allows has every
      process before its ancestors exactly when none may go after its parent. */
  lemma EveryOrderWhen(byPID: Table, members: seq<Process>, order: seq<Process>)
    requires Indexes(byPID, members) && Allowed(byPID, members, order)
    ensures (forall o :: Allowed(byPID, members, o) ==> ChildrenFirst(byPID, o)) <==> ParentsGoLater(byPID, members)
  {
    if ParentsGoLater(byPID, members) {
      forall o | Allowed(byPID, members, o) ensures ChildrenFirst(byPID, o) {
        ParentsSuffice(byPID, members, o);
      }
    } else {
      var m :| m in members && !ParentGoesLater(byPID, m);
      var bad := BadParent(byPID, members, order, m);
    }
  }

  // ---------------------------------------------------------------- sorting

  ghost predicate Comparable(byPID: Table, order: seq<Process>) {
    Keyed(byPID) && forall i :: 0 <= i < |order| ==> order[i].pid in byPID
  }

  lemma InsertSorts(byPID: Table, order: seq<Process>, p: nat, m: Process)
    requires Sorted(byPID, order) && p <= |order|
    requires forall i :: 0 <= i < p ==> Before(byPID, order[i], m)
    requires p < |order| ==> Before(byPID, m, order[p])
    ensures Sorted(byPID, order[..p] + [m] + order[p..])
  {
    var next := order[..p] + [m] + order[p..];
    forall j | p < j < |order| ensures Before(byPID, m, order[j]) {
      ComparatorIsOrder(byPID, m, order[p], order[j]);
    }
    forall i, j | 0 <= i < j < |next| ensures Before(byPID, next[i], next[j]) {
      if j < p || p < i {
        var before := if j < p then i else i - 1;
        assert next[i] == order[before];
      }
    }
  }

  /** Where m belongs in the order. */
  method Place(byPID: Table, order: seq<Process>, m: Process) returns (p: nat)
    requires Comparable(byPID, order) && m.pid in byPID
    ensures p <= |order|
    ensures forall i :: 0 <= i < p ==> Before(byPID, order[i], m)
    ensures p < |order| ==> Before(byPID, m, order[p])
  {
    p := 0;
    while p < |order|
      invariant p <= |order|
      invariant forall i :: 0 <= i < p ==> Before(byPID, order[i], m)
    {
      var verdict := Compare(byPID, order[p], m);
      if verdict > 0 { return; }
      p := p + 1;
    }
  }

  lemma Inserted(order: seq<Process>, p: nat, m: Process)
    requires p <= |order|
    ensures multiset(order[..p] + [m] + order[p..]) == multiset(order) + multiset{m}
  {
    assert order[..p] + order[p..] == order;
  }

  method Insert(byPID: Table, order: seq<Process>, m: Process) returns (next: seq<Process>)
    requires Comparable(byPID, order) && m.pid in byPID && Sorted(byPID, order)
    ensures Comparable(byPID, next) && Sorted(byPID, next)
    ensures multiset(next) == multiset(order) + multiset{m}
  {
    var p := Place(byPID, order, m);
    InsertSorts(byPID, order, p, m);
    Inserted(order, p, m);
    next := order[..p] + [m] + order[p..];
  }

  /** Sorts any list of members, also one that repeats a pid. */
  method SortLeafFirst(members: seq<Process>) returns (order: seq<Process>)
    ensures multiset(order) == multiset(members)
    ensures Sorted(TableOf(members), order)
    ensures ParentsGoLater(TableOf(members), members) ==> ChildrenFirst(TableOf(members), order)
    ensures DistinctPIDs(members) ==> (ChildrenFirst(TableOf(members), order) <==> Acyclic(TableOf(members)))
  {
    var byPID := IndexByPID(members);
    order := [];
    for i := 0 to |members|
      invariant Comparable(byPID, order) && Sorted(byPID, order)
      invariant multiset(order) == multiset(members[..i])
    {
      assert members[..i + 1] == members[..i] + [members[i]];
      order := Insert(byPID, order, members[i]);
    }
    assert members[..|members|] == members;
    if ParentsGoLater(byPID, members) { ParentsSuffice(byPID, members, order); }
    if DistinctPIDs(members) { ChildrenFirstWhen(byPID, members, order); }
  }
}
