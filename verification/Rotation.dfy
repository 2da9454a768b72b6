/** Round-robin resolution of a provider, and the search for a member that meets a task's restrictions.

    Models the cursor of storeBindingResolver (cmd/radioactive_ralph/binding_resolver.go) and the
    rotation loops of internal/orch/orchestrator.go, over a pool that does not change meanwhile. The
    cursor is a 64-bit counter, so it starts over at 2^64. */
module Rotation {
  import opened Arithmetic
  import opened Wrappers

  const CURSOR_RANGE: nat := 0x1_0000_0000_0000_0000
  const MAX_ROTATIONS: nat := 16
  const EXAMINED: nat := MAX_ROTATIONS + 1

  type Cursor = c: nat | c < CURSOR_RANGE

  /** A pool member: its alias, its provider type, and its calibrated domain, empty when unknown. */
  datatype Binding = Binding(name: string, providerType: string, domain: string)

  predicate DistinctNames(pool: seq<Binding>) {
    forall i, j :: 0 <= i < j < |pool| ==> pool[i].name != pool[j].name
  }

  /** The member handed out when the cursor stands at c. */
  function MemberAt(pool: seq<Binding>, c: nat): Binding
    requires pool != []
  {
    pool[c % |pool|]
  }

  /** The cursor k dispatch resolutions later. */
  function Later(c: Cursor, k: nat): Cursor {
    (c + k) % CURSOR_RANGE
  }

  /** What m consecutive dispatch resolutions hand out. */
  function Picks(pool: seq<Binding>, start: Cursor, m: nat): (picks: seq<Binding>)
    requires pool != []
    ensures |picks| == m
  {
    seq(m, k requires 0 <= k < m => MemberAt(pool, Later(start, k)))
  }

  // ---------------------------------------------------------------- the resolver

  class BindingResolver {
    var nextByProject: map<string, Cursor>

    constructor ()
      ensures nextByProject == map[]
    {
      nextByProject := map[];
    }

    function At(project: string): Cursor
      reads this`nextByProject
    {
      if project in nextByProject then nextByProject[project] else 0
    }

    /** Every other project's cursor. */
    function Others(project: string): map<string, Cursor>
      reads this`nextByProject
    {
      nextByProject - {project}
    }

    /** A probe looks without moving; a dispatch moves its own project's cursor and no other. */
    method Resolve(project: string, pool: seq<Binding>, dispatch: bool) returns (b: Binding)
      requires pool != []
      modifies this`nextByProject
      ensures b == MemberAt(pool, old(At(project)))
      ensures At(project) == if dispatch then Later(old(At(project)), 1) else old(At(project))
      ensures Others(project) == old(Others(project))
      ensures !dispatch ==> nextByProject == old(nextByProject)
    {
      var cursor := At(project);
      b := pool[cursor % |pool|];
      if dispatch {
        nextByProject := nextByProject[project := (cursor + 1) % CURSOR_RANGE];
      }
    }

    /** Consecutive dispatches, with any number of probes before each. */
    method ResolveMany(project: string, pool: seq<Binding>, probes: seq<nat>) returns (picks: seq<Binding>)
      requires pool != []
      modifies this`nextByProject
      ensures picks == Picks(pool, old(At(project)), |probes|)
      ensures At(project) == Later(old(At(project)), |probes|)
      ensures Others(project) == old(Others(project))
    {
      picks := [];
      ghost var start := At(project);
      for m := 0 to |probes|
        invariant picks == Picks(pool, start, m) && At(project) == Later(start, m)
        invariant Others(project) == old(Others(project))
      {
        for p := 0 to probes[m]
          invariant At(project) == Later(start, m) && Others(project) == old(Others(project))
        {
          var _ := Resolve(project, pool, false);
        }
        var b := Resolve(project, pool, true);
        LaterTwice(start, m, 1);
        picks := picks + [b];
      }
    }

    /** The three rotation loops, which differ only in what they accept. start is the cursor at which
        first was handed out. The result is the first acceptable member of those searched; a refusal
        means none of them is acceptable. stop is where the loop ended. */
    method Rotate(project: string, pool: seq<Binding>, accepts: Binding -> bool, first: Binding, ghost start: Cursor)
      returns (r: Option<Binding>, ghost stop: Cursor)
      requires pool != [] && DistinctNames(pool)
      requires first == MemberAt(pool, start) && At(project) == Later(start, 1)
      modifies this`nextByProject
      ensures r.Some? <==> Search(pool, accepts, start).Some?
      ensures r.Some? ==> stop == Search(pool, accepts, start).value && r.value == MemberAt(pool, stop)
      ensures r.None? ==> stop == Later(start, |Searched(pool, start)|)
      ensures At(project) == Later(stop, 1)
      ensures Others(project) == old(Others(project))
    {
      var seen: set<string> := {};
      var candidate := first;
      var i := 0;
      ghost var round := Picks(pool, start, EXAMINED);
      LaterNothing(start);
      while i <= MAX_ROTATIONS
        invariant i <= EXAMINED && At(project) == Later(start, i + 1)
        invariant candidate == MemberAt(pool, Later(start, i))
        invariant NoneOf(round, i, accepts) && Seen(round, i, seen) && DistinctNames(round[..i])
        invariant Others(project) == old(Others(project))
      {
        stop := Later(start, i);
        LaterTwice(start, i, 1);
        if accepts(candidate) {
          SearchFinds(pool, accepts, start, i);
          return Some(candidate), stop;
        }
        if candidate.name in seen {
          SearchRepeats(pool, accepts, start, i);
          return None, stop;
        }
        StillDistinct(round, i, seen);
        seen := seen + {candidate.name};
        candidate := Resolve(project, pool, true);
        i := i + 1;
        LaterTwice(start, i, 1);
      }
      stop := Later(start, EXAMINED);
      LaterTwice(start, EXAMINED, 1);
      SearchRunsOut(pool, accepts, start);
      return None, stop;
    }
  }

  // ---------------------------------------------------------------- what one search looks at

  /** How many leading members have names of their own. */
  function Fresh(s: seq<Binding>): (d: nat)
    ensures d <= |s| && DistinctNames(s[..d])
    ensures d < |s| ==> exists k :: 0 <= k < d && s[k].name == s[d].name
  {
    if s == [] then 0
    else
      var n := |s| - 1;
      var d := Fresh(s[..n]);
      assert s[..n][..d] == s[..d];
      if d < n || exists k :: 0 <= k < n && s[k].name == s[n].name then d
      else
        assert s[..n + 1] == s;
        n + 1
  }

  /** The members looked at: until a name comes up again, and at most seventeen. */
  function Searched(pool: seq<Binding>, start: Cursor): seq<Binding>
    requires pool != []
  {
    var round := Picks(pool, start, EXAMINED);
    round[..Fresh(round)]
  }

  /** Where the first acceptable one is; the length when there is none. */
  function FirstIndex(s: seq<Binding>, accepts: Binding -> bool): (k: nat)
    ensures k <= |s| && (k < |s| ==> accepts(s[k]))
    ensures forall j :: 0 <= j < k ==> !accepts(s[j])
  {
    if s == [] then 0
    else if accepts(s[0]) then 0
    else
      var k := FirstIndex(s[1..], accepts);
      assert forall j :: 0 < j < |s| ==> s[j] == s[1..][j - 1];
      k + 1
  }

  /** The cursor a search ends at, if it finds an acceptable member. */
  function Search(pool: seq<Binding>, accepts: Binding -> bool, start: Cursor): Option<Cursor>
    requires pool != []
  {
    var s := Searched(pool, start);
    var k := FirstIndex(s, accepts);
    if k < |s| then Some(Later(start, k)) else None
  }

  // ---------------------------------------------------------------- the loop finds what the search says

  lemma LaterTwice(c: Cursor, a: nat, b: nat)
    ensures Later(Later(c, a), b) == Later(c, a + b)
  {}

  lemma LaterNothing(c: Cursor)
    ensures Later(c, 0) == c
  {}

  /** None of the first i is acceptable. */
  predicate NoneOf(s: seq<Binding>, i: nat, accepts: Binding -> bool)
    requires i <= |s|
  {
    forall k :: 0 <= k < i ==> !accepts(s[k])
  }

  /** The names of the first i. */
  ghost predicate Seen(s: seq<Binding>, i: nat, seen: set<string>)
    requires i <= |s|
  {
    forall name :: name in seen <==> exists k :: 0 <= k < i && s[k].name == name
  }

  lemma StillDistinct(s: seq<Binding>, i: nat, seen: set<string>)
    requires i < |s| && DistinctNames(s[..i]) && Seen(s, i, seen) && s[i].name !in seen
    ensures DistinctNames(s[..i + 1]) && Seen(s, i + 1, seen + {s[i].name})
  {}

  /** Members of a pool with distinct names are told apart by them. */
  lemma NameTells(pool: seq<Binding>, c: nat, d: nat)
    requires pool != [] && DistinctNames(pool) && MemberAt(pool, c).name == MemberAt(pool, d).name
    ensures MemberAt(pool, c) == MemberAt(pool, d)
  {}

  lemma PrefixDiffers(s: seq<Binding>, d: nat, k: nat, j: nat)
    requires k < j < d <= |s| && DistinctNames(s[..d])
    ensures s[k].name != s[j].name
  {
    assert s[..d][k] == s[k] && s[..d][j] == s[j];
  }

  lemma FreshAtLeast(s: seq<Binding>, i: nat)
    requires i <= |s| && DistinctNames(s[..i])
    ensures Fresh(s) >= i
  {
    var d := Fresh(s);
    if d < i {
      var k :| 0 <= k < d && s[k].name == s[d].name;
      PrefixDiffers(s, i, k, d);
    }
  }

  lemma FreshIs(s: seq<Binding>, i: nat, k: nat)
    requires k < i < |s| && DistinctNames(s[..i]) && s[k].name == s[i].name
    ensures Fresh(s) == i
  {
    FreshAtLeast(s, i);
    if Fresh(s) > i { PrefixDiffers(s, Fresh(s), k, i); }
  }

  lemma FirstIndexIs(s: seq<Binding>, accepts: Binding -> bool, i: nat)
    requires i <= |s| && NoneOf(s, i, accepts) && (i < |s| ==> accepts(s[i]))
    ensures FirstIndex(s, accepts) == i
  {}

  lemma SearchFinds(pool: seq<Binding>, accepts: Binding -> bool, start: Cursor, i: nat)
    requires pool != [] && DistinctNames(pool) && i < EXAMINED
    requires var round := Picks(pool, start, EXAMINED); NoneOf(round, i, accepts) && DistinctNames(round[..i])
    requires accepts(MemberAt(pool, Later(start, i)))
    ensures Search(pool, accepts, start) == Some(Later(start, i))
  {
    var round := Picks(pool, start, EXAMINED);
    forall k | 0 <= k < i ensures round[k].name != round[i].name {
      if round[k].name == round[i].name { NameTells(pool, Later(start, k), Later(start, i)); }
    }
    FreshAtLeast(round, i + 1);
    FirstIndexIs(Searched(pool, start), accepts, i);
  }

  lemma SearchRepeats(pool: seq<Binding>, accepts: Binding -> bool, start: Cursor, i: nat)
    requires pool != [] && i < EXAMINED
    requires var round := Picks(pool, start, EXAMINED);
             NoneOf(round, i, accepts) && DistinctNames(round[..i]) && exists k :: 0 <= k < i && round[k].name == round[i].name
    ensures Search(pool, accepts, start) == None && |Searched(pool, start)| == i
  {
    var round := Picks(pool, start, EXAMINED);
    var k :| 0 <= k < i && round[k].name == round[i].name;
    FreshIs(round, i, k);
    FirstIndexIs(Searched(pool, start), accepts, i);
  }

  lemma SearchRunsOut(pool: seq<Binding>, accepts: Binding -> bool, start: Cursor)
    requires pool != []
    requires var round := Picks(pool, start, EXAMINED);
             NoneOf(round, EXAMINED, accepts) && DistinctNames(round[..EXAMINED])
    ensures Search(pool, accepts, start) == None && |Searched(pool, start)| == EXAMINED
  {
    var round := Picks(pool, start, EXAMINED);
    FreshAtLeast(round, EXAMINED);
    FirstIndexIs(Searched(pool, start), accepts, EXAMINED);
  }

  // ---------------------------------------------------------------- rounds, and the wrap

  /** The pool, turned so that the member under the cursor comes first. */
  function Turn(pool: seq<Binding>, start: nat): (turn: seq<Binding>)
    requires pool != []
    ensures |turn| == |pool|
  {
    pool[start % |pool|..] + pool[..start % |pool|]
  }

  /** The cursor does not start over within the next m resolutions, or starting over keeps the rotation. */
  predicate Steady(pool: seq<Binding>, start: Cursor, m: nat)
    requires pool != []
  {
    start + m <= CURSOR_RANGE || CURSOR_RANGE % |pool| == 0
  }

  lemma TurnAt(pool: seq<Binding>, start: nat, k: nat)
    requires pool != [] && k <= |pool|
    ensures MemberAt(pool, start + k) == Turn(pool, start)[if k < |pool| then k else 0]
  {
    Advance(start, k, |pool|);
  }

  lemma WholeRange(c: nat, n: nat)
    requires n > 0 && CURSOR_RANGE % n == 0 && CURSOR_RANGE <= c < 2 * CURSOR_RANGE
    ensures (c - CURSOR_RANGE) % n == c % n
  {
    var q, e := CURSOR_RANGE / n, c - CURSOR_RANGE;
    assert CURSOR_RANGE == q * n;
    assert e == (e / n) * n + e % n;
    assert (q + e / n) * n == q * n + (e / n) * n;
    Quotient(c, n, q + e / n, e % n);
  }

  lemma SteadyPick(pool: seq<Binding>, start: Cursor, m: nat, k: nat)
    requires pool != [] && Steady(pool, start, m) && k < m <= CURSOR_RANGE
    ensures MemberAt(pool, Later(start, k)) == MemberAt(pool, start + k)
  {
    if start + k >= CURSOR_RANGE { WholeRange(start + k, |pool|); }
  }

  /** A steady round is a turn of the pool. */
  lemma RoundIsTurn(pool: seq<Binding>, start: Cursor)
    requires pool != [] && |pool| <= CURSOR_RANGE && Steady(pool, start, |pool|)
    ensures Picks(pool, start, |pool|) == Turn(pool, start)
  {
    forall k | 0 <= k < |pool| ensures Picks(pool, start, |pool|)[k] == Turn(pool, start)[k] {
      SteadyPick(pool, start, |pool|, k);
      TurnAt(pool, start, k);
    }
  }

  lemma TurnIsDistinct(pool: seq<Binding>, start: nat)
    requires pool != [] && DistinctNames(pool)
    ensures DistinctNames(Turn(pool, start))
  {
    var r, turn := start % |pool|, Turn(pool, start);
    forall i, j | 0 <= i < j < |turn| ensures turn[i].name != turn[j].name {
      var i', j' := if r + i < |pool| then r + i else r + i - |pool|, if r + j < |pool| then r + j else r + j - |pool|;
      assert turn[i] == pool[i'] && turn[j] == pool[j'] && i' != j';
      if i' < j' {
        assert pool[i'].name != pool[j'].name;
      } else {
        assert pool[j'].name != pool[i'].name;
      }
    }
  }

  lemma TurnMembers(pool: seq<Binding>, start: nat)
    requires pool != []
    ensures multiset(Turn(pool, start)) == multiset(pool)
  {
    var r := start % |pool|;
    assert pool == pool[..r] + pool[r..];
  }

  /** A round that is not steady hands one member out twice: the last cursor's successor is cursor 0. */
  lemma UnsteadyRepeats(pool: seq<Binding>, start: Cursor) returns (a: nat, b: nat)
    requires pool != [] && |pool| <= CURSOR_RANGE && !Steady(pool, start, |pool|)
    ensures a < b < |pool| && MemberAt(pool, Later(start, a)) == MemberAt(pool, Later(start, b))
  {
    var n, rho, left := |pool|, CURSOR_RANGE % |pool|, CURSOR_RANGE - start;
    if rho >= left {
      // the cursors start and start + rho - 2^64 have the same remainder
      a, b := 0, rho;
      StepBack(CURSOR_RANGE, n, left);
      SmallRemainder(rho - left, n);
      assert Later(start, b) == rho - left;
    } else {
      // the cursors 2^64 - rho and 0 have the same remainder
      a, b := left - rho, left;
      StepBack(CURSOR_RANGE, n, rho);
      SmallRemainder(0, n);
      assert Later(start, b) == 0 && Later(start, a) == CURSOR_RANGE - rho;
    }
  }

  // ---------------------------------------------------------------- completeness

  /** A steady search of at most seventeen members looks at all of them. */
  lemma SteadySearchSeesAll(pool: seq<Binding>, start: Cursor)
    requires DistinctNames(pool) && 0 < |pool| <= EXAMINED && Steady(pool, start, |pool|)
    ensures Searched(pool, start) == Turn(pool, start)
  {
    var n := |pool|;
    var round := Picks(pool, start, EXAMINED);
    RoundIsTurn(pool, start);
    TurnIsDistinct(pool, start);
    assert round[..n] == Picks(pool, start, n);
    if n < EXAMINED {
      var k := SomewhereInTurn(pool, start, Later(start, n));
      assert round[k].name == round[n].name;
      FreshIs(round, n, k);
    } else {
      FreshAtLeast(round, n);
    }
  }

  /** Whatever member comes next, a steady round has handed it out. */
  lemma SomewhereInTurn(pool: seq<Binding>, start: Cursor, c: nat) returns (k: nat)
    requires pool != [] && |pool| <= CURSOR_RANGE && Steady(pool, start, |pool|)
    ensures k < |pool| && MemberAt(pool, Later(start, k)) == MemberAt(pool, c)
  {
    var n, r, i := |pool|, start % |pool|, c % |pool|;
    k := if r <= i then i - r else i + n - r;
    Advance(start, k, n);
    SteadyPick(pool, start, n, k);
  }

  /** Exactly when a search looks at every member: the pool has at most seventeen, and the cursor does
      not start over within the round in a way that breaks the rotation. */
  lemma SearchSeesAllWhen(pool: seq<Binding>, start: Cursor)
    requires DistinctNames(pool) && 0 < |pool| <= CURSOR_RANGE
    ensures (forall b :: b in pool ==> b in Searched(pool, start)) <==> |pool| <= 17 && Steady(pool, start, |pool|)
  {
    if |pool| <= EXAMINED && Steady(pool, start, |pool|) {
      SteadySearchSeesAll(pool, start);
      TurnMembers(pool, start);
      assert forall b :: b in pool <==> b in multiset(pool);
    } else if forall b :: b in pool ==> b in Searched(pool, start) {
      AllSeenIsLong(pool, Searched(pool, start));
      assert |pool| <= EXAMINED;
      var a, b := UnsteadyRepeats(pool, start);
      RepeatsEndSearch(pool, start, a, b);
    }
  }

  lemma RepeatsEndSearch(pool: seq<Binding>, start: Cursor, a: nat, b: nat)
    requires pool != [] && a < b < EXAMINED && MemberAt(pool, Later(start, a)) == MemberAt(pool, Later(start, b))
    ensures |Searched(pool, start)| <= b
  {
    var round := Picks(pool, start, EXAMINED);
    assert round[a] == round[b];
  }

  /** Members with distinct names need as many places. */
  lemma AllSeenIsLong(pool: seq<Binding>, s: seq<Binding>)
    requires DistinctNames(pool) && forall b :: b in pool ==> b in s
    ensures |pool| <= |s|
  {
    var members := set b | b in pool;
    DistinctCount(pool);
    CountAtMost(s);
    assert members <= (set b | b in s);
    var others := (set b | b in s) - members;
    assert (set b | b in s) == members + others;
  }

  lemma {:induction false} DistinctCount(pool: seq<Binding>)
    requires DistinctNames(pool)
    ensures |set b | b in pool| == |pool|
  {
    if pool != [] {
      var front, last := pool[..|pool| - 1], pool[|pool| - 1];
      DistinctCount(front);
      assert (set b | b in pool) == (set b | b in front) + {last};
    }
  }

  lemma {:induction false} CountAtMost(s: seq<Binding>)
    ensures |set b | b in s| <= |s|
  {
    if s != [] {
      var front, last := s[..|s| - 1], s[|s| - 1];
      CountAtMost(front);
      assert (set b | b in s) == (set b | b in front) + {last};
    }
  }

  /** What a search finds is an acceptable member, always. */
  lemma SearchIsSound(pool: seq<Binding>, accepts: Binding -> bool, start: Cursor)
    requires pool != []
    ensures var r := Search(pool, accepts, start);
            r.Some? ==> accepts(MemberAt(pool, r.value)) && MemberAt(pool, r.value) in pool
  {}

  /** Where a search looks at every member, it refuses exactly when none is acceptable. */
  lemma SearchIsComplete(pool: seq<Binding>, accepts: Binding -> bool, start: Cursor)
    requires DistinctNames(pool) && 0 < |pool| <= EXAMINED && Steady(pool, start, |pool|)
    ensures Search(pool, accepts, start).None? <==> forall b :: b in pool ==> !accepts(b)
  {
    SearchSeesAllWhen(pool, start);
    var s := Searched(pool, start);
    SearchIsSound(pool, accepts, start);
    if Search(pool, accepts, start).None? {
      forall b | b in pool ensures !accepts(b) {
        var k :| 0 <= k < |s| && s[k] == b;
      }
    }
  }

  /** Where it does not, there is a member it refuses although it is acceptable. */
  lemma OtherwiseIncomplete(pool: seq<Binding>, start: Cursor) returns (b: Binding)
    requires DistinctNames(pool) && 0 < |pool| <= CURSOR_RANGE
    requires !(|pool| <= EXAMINED && Steady(pool, start, |pool|))
    ensures b in pool && Search(pool, x => x == b, start).None?
  {
    SearchSeesAllWhen(pool, start);
    b :| b in pool && b !in Searched(pool, start);
  }

  // ---------------------------------------------------------------- fairness

  /** The length of k turns of a pool of n. */
  function Turns(n: nat, k: nat): nat {
    if k == 0 then 0 else Turns(n, k - 1) + n
  }

  /** It is the product. */
  lemma {:induction false} TurnsProduct(n: nat, k: nat)
    ensures Turns(n, k) == k * n
  {
    if k > 0 { TurnsProduct(n, k - 1); }
  }

  lemma {:induction false} TurnsSum(n: nat, a: nat, b: nat)
    ensures Turns(n, a + b) == Turns(n, a) + Turns(n, b)
  {
    if b > 0 { TurnsSum(n, a, b - 1); }
  }

  /** How many of m dispatches the i-th member gets. */
  function Share(pool: seq<Binding>, start: Cursor, m: nat, i: nat): nat
    requires i < |pool|
  {
    multiset(Picks(pool, start, m))[pool[i]]
  }

  /** Of m dispatches every member gets exactly k. */
  predicate Even(pool: seq<Binding>, start: Cursor, m: nat, k: nat) {
    forall i: nat :: i < |pool| ==> Share(pool, start, m, i) == k
  }

  lemma SplitPicks(pool: seq<Binding>, start: Cursor, a: nat, m: nat)
    requires pool != []
    ensures Picks(pool, start, a + m) == Picks(pool, start, a) + Picks(pool, Later(start, a), m)
  {
    forall k | 0 <= k < m ensures Later(Later(start, a), k) == Later(start, a + k) {
      LaterTwice(start, a, k);
    }
  }

  lemma ShareSplit(pool: seq<Binding>, start: Cursor, a: nat, m: nat, i: nat)
    requires i < |pool|
    ensures Share(pool, start, a + m, i) == Share(pool, start, a, i) + Share(pool, Later(start, a), m, i)
  {
    SplitPicks(pool, start, a, m);
  }

  /** Where one of two stretches is even, the whole is exactly when the other is. */
  lemma EvenParts(pool: seq<Binding>, start: Cursor, early: nat, first: nat, late: nat, second: nat, m: nat, k: nat)
    requires m == early + late && k == first + second
    requires Even(pool, start, early, first) || Even(pool, Later(start, early), late, second)
    ensures Even(pool, start, m, k) <==> Even(pool, start, early, first) && Even(pool, Later(start, early), late, second)
  {
    forall i: nat | i < |pool|
      ensures Share(pool, start, m, i) == Share(pool, start, early, i) + Share(pool, Later(start, early), late, i)
    {
      ShareSplit(pool, start, early, late, i);
    }
  }

  lemma EachOnce(pool: seq<Binding>, i: nat)
    requires DistinctNames(pool) && i < |pool|
    ensures multiset(pool)[pool[i]] == 1
  {
    var rest := pool[..i] + pool[i + 1..];
    assert pool == pool[..i] + [pool[i]] + pool[i + 1..];
    assert pool[i] !in rest;
    assert pool[i] !in multiset(rest);
  }

  /** One turn is fair exactly when it is steady. */
  lemma TurnIsFairWhen(pool: seq<Binding>, start: Cursor)
    requires DistinctNames(pool) && 0 < |pool| <= CURSOR_RANGE
    ensures Even(pool, start, |pool|, 1) <==> Steady(pool, start, |pool|)
  {
    var n := |pool|;
    if Steady(pool, start, n) {
      RoundIsTurn(pool, start);
      TurnMembers(pool, start);
      forall i: nat | i < n ensures Share(pool, start, n, i) == 1 {
        EachOnce(pool, i);
      }
    } else {
      var a, b := UnsteadyRepeats(pool, start);
      var picks := Picks(pool, start, n);
      assert picks == picks[..a] + [picks[a]] + picks[a + 1..b] + [picks[b]] + picks[b + 1..];
      assert Share(pool, start, n, Later(start, a) % n) >= 2;
    }
  }

  /** A steady stretch is steady up to any point, and from there on. */
  lemma SteadyParts(pool: seq<Binding>, start: Cursor, a: nat, m: nat)
    requires pool != [] && 0 < m && Steady(pool, start, a + m)
    ensures Steady(pool, start, a) && Steady(pool, Later(start, a), m)
  {}

  /** k steady turns give every member exactly k dispatches, wherever they start. */
  lemma {:induction false} SteadyIsFair(pool: seq<Binding>, start: Cursor, k: nat)
    requires pool != [] && DistinctNames(pool)
    requires Turns(|pool|, k) <= CURSOR_RANGE && Steady(pool, start, Turns(|pool|, k))
    ensures Even(pool, start, Turns(|pool|, k), k)
    decreases k
  {
    if k > 0 {
      var early := Turns(|pool|, k - 1);
      SteadyParts(pool, start, early, |pool|);
      SteadyIsFair(pool, start, k - 1);
      TurnIsFairWhen(pool, Later(start, early));
      EvenParts(pool, start, early, k - 1, |pool|, 1, early + |pool|, k);
    }
  }

  /** A turn within which the cursor starts over spoils the turns after it, though they are even. */
  lemma WrapSpoils(pool: seq<Binding>, start: Cursor, m: nat, k: nat)
    requires DistinctNames(pool) && 0 < |pool| <= CURSOR_RANGE && !Steady(pool, start, |pool|)
    requires Even(pool, Later(start, |pool|), m, k)
    ensures !Even(pool, start, m + |pool|, k + 1)
  {
    TurnIsFairWhen(pool, start);
    EvenParts(pool, start, |pool|, 1, m, k, m + |pool|, k + 1);
  }

  /** A stretch of turns that begins where l resolutions are left before the cursor starts over. */
  lemma FairAtWrap(pool: seq<Binding>, l: nat, at: Cursor, k: nat, m: nat)
    requires DistinctNames(pool) && l < |pool| <= CURSOR_RANGE && CURSOR_RANGE % |pool| != 0
    requires 0 < k && m == Turns(|pool|, k) <= CURSOR_RANGE
    requires at == if l == 0 then 0 else CURSOR_RANGE - l
    ensures Even(pool, at, m, k) <==> l == 0
  {
    if l == 0 {
      SteadyIsFair(pool, 0, k);
    } else {
      var rest := Turns(|pool|, k - 1);
      assert m == rest + |pool|;
      assert Later(at, |pool|) == |pool| - l;
      SteadyIsFair(pool, |pool| - l, k - 1);
      WrapSpoils(pool, at, rest, k - 1);
    }
  }

  lemma {:induction false} TurnsMonotone(n: nat, a: nat, b: nat)
    requires a <= b
    ensures Turns(n, a) <= Turns(n, b)
  {
    if a < b { TurnsMonotone(n, a, b - 1); }
  }

  /** q whole turns and l resolutions before the cursor starts over. */
  lemma FairAcrossWrap(pool: seq<Binding>, start: Cursor, k: nat, m: nat, q: nat, l: nat, early: nat, late: nat)
    requires DistinctNames(pool) && l < |pool| <= CURSOR_RANGE && CURSOR_RANGE % |pool| != 0
    requires q < k && early == Turns(|pool|, q) && late == Turns(|pool|, k - q) && m == early + late <= CURSOR_RANGE
    requires start + early + l == CURSOR_RANGE
    ensures Even(pool, start, m, k) <==> l == 0
  {
    SteadyIsFair(pool, start, q);
    FairAtWrap(pool, l, Later(start, early), k - q, late);
    EvenParts(pool, start, early, q, late, k - q, m, k);
  }

  lemma FairWhen(pool: seq<Binding>, start: Cursor, k: nat, m: nat, q: nat, l: nat)
    requires DistinctNames(pool) && pool != [] && 1 <= k && m == Turns(|pool|, k) <= CURSOR_RANGE
    requires l < |pool| && start + Turns(|pool|, q) + l == CURSOR_RANGE
    ensures Even(pool, start, m, k) <==> Steady(pool, start, m) || l == 0
  {
    if Steady(pool, start, m) {
      SteadyIsFair(pool, start, k);
    } else {
      if k <= q { TurnsMonotone(|pool|, k, q); }
      TurnsSum(|pool|, q, k - q);
      TurnsMonotone(|pool|, 1, k);
      FairAcrossWrap(pool, start, k, m, q, l, Turns(|pool|, q), Turns(|pool|, k - q));
    }
  }

  lemma LeftBeforeWrap(start: Cursor, n: nat) returns (q: nat)
    requires n > 0
    ensures start + Turns(n, q) + (CURSOR_RANGE - start) % n == CURSOR_RANGE
  {
    var left := CURSOR_RANGE - start;
    q := left / n;
    TurnsProduct(n, q);
    assert left == q * n + left % n;
  }

  /** Exactly when any number of whole turns is fair: the cursor does not start over among them, or the
      pool's size divides 2^64, or the cursor starts over just between two turns. */
  lemma RotationIsFairWhen(pool: seq<Binding>, start: Cursor, k: nat)
    requires DistinctNames(pool) && pool != [] && 1 <= k && Turns(|pool|, k) <= CURSOR_RANGE
    ensures Even(pool, start, Turns(|pool|, k), k) <==>
              Steady(pool, start, Turns(|pool|, k)) || (CURSOR_RANGE - start) % |pool| == 0
  {
    var q := LeftBeforeWrap(start, |pool|);
    FairWhen(pool, start, k, Turns(|pool|, k), q, (CURSOR_RANGE - start) % |pool|);
  }
}
