/** The provider a step is dispatched on, under its restrictions.

    Models the resolution half of dispatchReadyStep and resolveAllowedBinding, resolvePinnedBinding and
    resolveIndependentBinding (internal/orch/orchestrator.go), CheckAllowedProviders
    (internal/provider/capabilities.go) and stringSliceValue (cmd/radioactive_ralph/binding_resolver.go). */
module ProviderChoice {
  import opened Arithmetic
  import opened Rotation
  import opened Wrappers

  // ---------------------------------------------------------------- names

  predicate IsSpace(c: char) {
    var x := c as int;
    9 <= x <= 13 || x == 0x20 || x == 0x85 || x == 0xA0 || x == 0x1680 || 0x2000 <= x <= 0x200A ||
    x == 0x2028 || x == 0x2029 || x == 0x202F || x == 0x205F || x == 0x3000
  }

  function TrimLeft(s: string): string {
    if s != [] && IsSpace(s[0]) then TrimLeft(s[1..]) else s
  }

  function TrimRight(s: string): string {
    if s != [] && IsSpace(s[|s| - 1]) then TrimRight(s[..|s| - 1]) else s
  }

  function Trim(s: string): string {
    TrimRight(TrimLeft(s))
  }

  /** The characters trimmed are Unicode's White_Space. */
  lemma SpacesAre(c: char)
    ensures IsSpace(c) <==>
              c as int in {9, 10, 11, 12, 13, 0x20, 0x85, 0xA0, 0x1680, 0x2000, 0x2001, 0x2002, 0x2003, 0x2004, 0x2005, 0x2006,
                           0x2007, 0x2008, 0x2009, 0x200A, 0x2028, 0x2029, 0x202F, 0x205F, 0x3000}
  {}

  /** t is what is left of s between its first and last characters that are not space. */
  predicate IsTrimmed(s: string, t: string) {
    exists i, j :: 0 <= i <= j <= |s| && t == s[i..j] && SpaceAround(s, i, j)
  }

  predicate SpaceAround(s: string, i: nat, j: nat)
    requires i <= j <= |s|
  {
    && (forall k :: 0 <= k < i ==> IsSpace(s[k]))
    && (forall k :: j <= k < |s| ==> IsSpace(s[k]))
    && (i < j ==> !IsSpace(s[i]) && !IsSpace(s[j - 1]))
  }

  lemma {:induction false} TrimmedLeft(s: string) returns (i: nat)
    ensures i <= |s| && TrimLeft(s) == s[i..]
    ensures forall k :: 0 <= k < i ==> IsSpace(s[k])
    ensures i < |s| ==> !IsSpace(s[i])
  {
    i := 0;
    if s != [] && IsSpace(s[0]) {
      var n := TrimmedLeft(s[1..]);
      i := n + 1;
      assert forall k :: 1 <= k < i ==> s[k] == s[1..][k - 1];
    }
  }

  lemma {:induction false} TrimmedRight(s: string) returns (j: nat)
    ensures j <= |s| && TrimRight(s) == s[..j]
    ensures forall k :: j <= k < |s| ==> IsSpace(s[k])
    ensures j > 0 ==> !IsSpace(s[j - 1])
  {
    j := |s|;
    if s != [] && IsSpace(s[|s| - 1]) {
      j := TrimmedRight(s[..|s| - 1]);
    }
  }

  /** Trimming takes all the space around a name and nothing else. */
  lemma TrimIs(s: string, t: string)
    ensures t == Trim(s) <==> IsTrimmed(s, t)
  {
    var i := TrimmedLeft(s);
    var n := TrimmedRight(s[i..]);
    var j := i + n;
    assert Trim(s) == s[i..j];
    forall k | j <= k < |s| ensures IsSpace(s[k]) {
      assert s[k] == s[i..][k - i];
    }
    if i < j { assert s[j - 1] == s[i..][n - 1] && i < |s|; }
    assert SpaceAround(s, i, j);
    if IsTrimmed(s, t) {
      var i', j' :| 0 <= i' <= j' <= |s| && t == s[i'..j'] && SpaceAround(s, i', j');
      OneTrimming(s, i, j, i', j');
    }
  }

  lemma OneTrimming(s: string, i: nat, j: nat, i': nat, j': nat)
    requires i <= j <= |s| && i' <= j' <= |s| && SpaceAround(s, i, j) && SpaceAround(s, i', j')
    ensures s[i..j] == s[i'..j']
  {}

  predicate Names(entry: string, b: Binding) {
    Trim(entry) != "" && (Trim(entry) == b.name || Trim(entry) == b.providerType)
  }

  /** A restriction names the binding, or names nothing at all: blank entries restrict nothing. */
  predicate Permits(allowed: seq<string>, b: Binding) {
    (exists i :: 0 <= i < |allowed| && Names(allowed[i], b)) || forall i :: 0 <= i < |allowed| ==> Trim(allowed[i]) == ""
  }

  method CheckAllowedProviders(b: Binding, providers: seq<string>) returns (ok: bool)
    ensures ok <==> Permits(providers, b)
  {
    var named := false;
    for i := 0 to |providers|
      invariant forall k :: 0 <= k < i ==> !Names(providers[k], b)
      invariant named <==> exists k :: 0 <= k < i && Trim(providers[k]) != ""
    {
      var name := Trim(providers[i]);
      if name == "" {
        continue;
      }
      if name == b.name || name == b.providerType {
        assert Names(providers[i], b);
        return true;
      }
      named := true;
    }
    return !named;
  }

  datatype NamesError = NoNames | BlankName(index: nat) | Duplicated(name: string)

  /** A configured pool is accepted exactly when it is not empty and its trimmed names are distinct and
      not blank; the rotation's distinctness is this check. */
  method StringSliceValue(raw: seq<string>) returns (r: Result<seq<string>, NamesError>)
    ensures r.Ok? <==>
              && raw != []
              && (forall i :: 0 <= i < |raw| ==> Trim(raw[i]) != "")
              && (forall i, j :: 0 <= i < j < |raw| ==> Trim(raw[i]) != Trim(raw[j]))
    ensures r.Ok? ==> |r.value| == |raw| && forall i :: 0 <= i < |raw| ==> r.value[i] == Trim(raw[i])
    ensures r == Err(NoNames) <==> raw == []
    ensures r.Err? && r.error.BlankName? ==> r.error.index < |raw| && Trim(raw[r.error.index]) == ""
    ensures r.Err? && r.error.Duplicated? ==>
              exists i, j :: 0 <= i < j < |raw| && Trim(raw[i]) == Trim(raw[j]) == r.error.name
  {
    if |raw| == 0 {
      return Err(NoNames);
    }
    var names: seq<string> := [];
    var seen: set<string> := {};
    for i := 0 to |raw|
      invariant |names| == i
      invariant forall k :: 0 <= k < i ==> names[k] == Trim(raw[k]) != ""
      invariant forall j, k :: 0 <= j < k < i ==> names[j] != names[k]
      invariant forall name :: name in seen <==> name in names
    {
      var name := Trim(raw[i]);
      if name == "" {
        return Err(BlankName(i));
      }
      if name in seen {
        var k :| 0 <= k < i && names[k] == name;
        assert Trim(raw[k]) == Trim(raw[i]) == name;
        return Err(Duplicated(name));
      }
      seen := seen + {name};
      names := names + [name];
    }
    return Ok(names);
  }

  // ---------------------------------------------------------------- restrictions

  /** What a step's metadata asks of its provider; a peer's recorded domain is None before it has run
      and empty when it ran uncalibrated. */
  datatype Restrictions = Restrictions(allowed: seq<string>, pin: string, peers: seq<Option<string>>)

  predicate PeersKnown(peers: seq<Option<string>>) {
    forall i :: 0 <= i < |peers| ==> peers[i].Some? && peers[i].value != ""
  }

  /** A known domain that no peer ran on, and a binding the restriction permits. */
  predicate Independent(r: Restrictions, b: Binding) {
    b.domain != "" && Permits(r.allowed, b) && Some(b.domain) !in r.peers
  }

  predicate Pinned(r: Restrictions, b: Binding) {
    b.providerType == r.pin
  }

  /** What the chosen binding is promised to meet. The last rotation rechecks the allow-list but not the
      pin, and the pin's rotation rechecks neither. */
  predicate Meets(r: Restrictions, b: Binding) {
    if r.peers != [] then Independent(r, b)
    else if r.pin != "" then Pinned(r, b)
    else Permits(r.allowed, b)
  }

  predicate NonePermitted(r: Restrictions, pool: seq<Binding>) {
    forall b :: b in pool ==> !Permits(r.allowed, b)
  }

  predicate NonePinned(r: Restrictions, pool: seq<Binding>) {
    r.pin != "" && forall b :: b in pool ==> !Pinned(r, b)
  }

  predicate NoneIndependent(r: Restrictions, pool: seq<Binding>) {
    r.peers != [] && (!PeersKnown(r.peers) || forall b :: b in pool ==> !Independent(r, b))
  }

  /** Some one of the restrictions cannot be met by any member of the pool. */
  predicate Unsatisfiable(r: Restrictions, pool: seq<Binding>) {
    NonePermitted(r, pool) || NonePinned(r, pool) || NoneIndependent(r, pool)
  }

  // ---------------------------------------------------------------- the resolution

  function Permitting(r: Restrictions): Binding -> bool { b => Permits(r.allowed, b) }

  function Pinning(r: Restrictions): Binding -> bool { b => Pinned(r, b) }

  function Separating(r: Restrictions): Binding -> bool { b => Independent(r, b) }

  /** Each restriction in turn, searched for from the cursor at which the one before it stopped. */
  function PermittedFrom(pool: seq<Binding>, r: Restrictions, start: Cursor): Option<Cursor>
    requires pool != []
  {
    if r.allowed != [] then Search(pool, Permitting(r), start) else Some(start)
  }

  function PinnedFrom(pool: seq<Binding>, r: Restrictions, start: Cursor): Option<Cursor>
    requires pool != []
  {
    if r.pin != "" then Search(pool, Pinning(r), start) else Some(start)
  }

  function IndependentFrom(pool: seq<Binding>, r: Restrictions, start: Cursor): Option<Cursor>
    requires pool != []
  {
    if r.peers == [] then Some(start)
    else if PeersKnown(r.peers) then Search(pool, Separating(r), start)
    else None
  }

  /** The cursor at which the chosen binding was handed out. */
  function Choose(pool: seq<Binding>, r: Restrictions, start: Cursor): Option<Cursor>
    requires pool != []
  {
    var a := PermittedFrom(pool, r, start);
    if a.None? then None
    else
      var b := PinnedFrom(pool, r, a.value);
      if b.None? then None else IndependentFrom(pool, r, b.value)
  }

  /** What is promised of the choice, wherever the cursor stands: it meets the restriction enforced last,
      and no step whose restrictions cannot be met is dispatched. Away from the wrap no other is refused. */
  ghost predicate Chosen(pool: seq<Binding>, r: Restrictions, start: Cursor, choice: Option<Binding>)
    requires pool != []
  {
    && (choice.Some? ==> choice.value in pool && Meets(r, choice.value))
    && (Unsatisfiable(r, pool) ==> choice.None?)
    && (Calm(pool, start) && |pool| <= EXAMINED ==> (choice.None? <==> Unsatisfiable(r, pool)))
  }

  /** The member handed out at a cursor, if there is one. */
  function Handed(pool: seq<Binding>, c: Option<Cursor>): Option<Binding>
    requires pool != []
  {
    if c.Some? then Some(MemberAt(pool, c.value)) else None
  }

  lemma ChoiceIsChosen(pool: seq<Binding>, r: Restrictions, start: Cursor)
    requires pool != [] && DistinctNames(pool)
    ensures Chosen(pool, r, start, Handed(pool, Choose(pool, r, start)))
  {
    ChoiceMeets(pool, r, start);
    UnsatisfiableIsRefused(pool, r, start);
    if Calm(pool, start) && |pool| <= EXAMINED { CalmRefusal(pool, r, start); }
  }

  method ResolveForStep(resolver: BindingResolver, project: string, pool: seq<Binding>, r: Restrictions)
    returns (choice: Option<Binding>)
    requires pool != [] && DistinctNames(pool)
    modifies resolver`nextByProject
    ensures choice == Handed(pool, Choose(pool, r, old(resolver.At(project))))
    ensures Chosen(pool, r, old(resolver.At(project)), choice)
    ensures resolver.Others(project) == old(resolver.Others(project))
  {
    ghost var start := resolver.At(project);
    ghost var at := start;
    LaterNothing(start);
    ChoiceIsChosen(pool, r, start);
    var binding := resolver.Resolve(project, pool, true);
    if |r.allowed| > 0 {
      choice, at := resolver.Rotate(project, pool, Permitting(r), binding, at);
      if choice.None? {
        return;
      }
      binding := choice.value;
    }
    if r.pin != "" {
      choice, at := resolver.Rotate(project, pool, Pinning(r), binding, at);
      if choice.None? {
        return;
      }
      binding := choice.value;
    }
    if |r.peers| > 0 {
      if !PeersKnown(r.peers) {
        return None;
      }
      choice, at := resolver.Rotate(project, pool, Separating(r), binding, at);
      if choice.None? {
        return;
      }
      binding := choice.value;
    }
    return Some(binding);
  }

  /** A step that demands independence never runs on a domain one of its peers ran on, nor before every
      peer's is known. */
  lemma IndependenceHolds(pool: seq<Binding>, r: Restrictions, start: Cursor)
    requires pool != [] && r.peers != []
    ensures var choice := Handed(pool, Choose(pool, r, start));
            choice.Some? ==>
              && choice.value in pool && choice.value.domain != ""
              && forall peer :: peer in r.peers ==> peer.Some? && peer.value != "" && peer.value != choice.value.domain
  {
    var choice := Handed(pool, Choose(pool, r, start));
    if choice.Some? {
      ChoiceMeets(pool, r, start);
      assert PeersKnown(r.peers);
    }
  }

  /** Away from the wrap, a pool of at most seventeen refuses such a step exactly when nobody in it is
      permitted, nobody is of the pinned type, some peer's domain is not known, or nobody permitted has a
      known domain apart from every peer's. */
  lemma IndependenceRefusedWhen(pool: seq<Binding>, r: Restrictions, start: Cursor)
    requires DistinctNames(pool) && 0 < |pool| <= EXAMINED && Calm(pool, start) && r.peers != []
    ensures Choose(pool, r, start).None? <==>
              || (forall b :: b in pool ==> !Permits(r.allowed, b))
              || (r.pin != "" && forall b :: b in pool ==> b.providerType != r.pin)
              || (exists i :: 0 <= i < |r.peers| && (r.peers[i].None? || r.peers[i].value == ""))
              || (forall b :: b in pool ==> b.domain == "" || !Permits(r.allowed, b) || Some(b.domain) in r.peers)
  {
    CalmRefusal(pool, r, start);
    UnsatisfiableIndependence(pool, r);
  }

  lemma UnsatisfiableIndependence(pool: seq<Binding>, r: Restrictions)
    requires r.peers != []
    ensures Unsatisfiable(r, pool) <==>
              || (forall b :: b in pool ==> !Permits(r.allowed, b))
              || (r.pin != "" && forall b :: b in pool ==> b.providerType != r.pin)
              || (exists i :: 0 <= i < |r.peers| && (r.peers[i].None? || r.peers[i].value == ""))
              || (forall b :: b in pool ==> b.domain == "" || !Permits(r.allowed, b) || Some(b.domain) in r.peers)
  {}

  /** Whatever the cursor and the pool, the choice meets the restriction enforced last. */
  lemma ChoiceMeets(pool: seq<Binding>, r: Restrictions, start: Cursor)
    requires pool != []
    ensures var c := Choose(pool, r, start);
            c.Some? ==> MemberAt(pool, c.value) in pool && Meets(r, MemberAt(pool, c.value))
  {}

  // ---------------------------------------------------------------- away from the wrap

  /** The cursor does not start over during the three searches, or starting over keeps the rotation. */
  predicate Calm(pool: seq<Binding>, start: Cursor)
    requires pool != []
  {
    Steady(pool, start, 3 * EXAMINED)
  }

  lemma SteadyAfter(pool: seq<Binding>, start: Cursor, k: nat, m: nat)
    requires pool != [] && k < EXAMINED && Steady(pool, start, m + EXAMINED)
    ensures Steady(pool, Later(start, k), m)
  {}

  /** A calm search scans one turn of the pool and leaves the cursor where it found its member. */
  lemma TurnSearch(pool: seq<Binding>, accepts: Binding -> bool, start: Cursor, m: nat)
    requires DistinctNames(pool) && 0 < |pool| <= EXAMINED && Steady(pool, start, m + EXAMINED)
    ensures var turn := Turn(pool, start);
            var k := FirstIndex(turn, accepts);
            var found := Search(pool, accepts, start);
            && found == (if k < |pool| then Some(Later(start, k)) else None)
            && (found.Some? ==> MemberAt(pool, found.value) == turn[k] && Steady(pool, found.value, m))
            && (found.None? <==> forall b :: b in pool ==> !accepts(b))
  {
    SteadySearchSeesAll(pool, start);
    SearchIsComplete(pool, accepts, start);
    var k := FirstIndex(Turn(pool, start), accepts);
    if k < |pool| {
      assert Turn(pool, start)[k] == Picks(pool, start, EXAMINED)[k];
      SteadyAfter(pool, start, k, m);
    }
  }

  lemma PermittedStage(pool: seq<Binding>, r: Restrictions, start: Cursor)
    requires DistinctNames(pool) && 0 < |pool| <= EXAMINED && Calm(pool, start)
    ensures var a := PermittedFrom(pool, r, start);
            && (a.None? <==> NonePermitted(r, pool))
            && (a.Some? ==> Steady(pool, a.value, 2 * EXAMINED) && Permits(r.allowed, MemberAt(pool, a.value)))
            && (Permits(r.allowed, MemberAt(pool, start)) ==> a == Some(start))
  {
    TurnSearch(pool, Permitting(r), start, 2 * EXAMINED);
    TurnAt(pool, start, 0);
    LaterNothing(start);
    if r.allowed == [] { assert Permits(r.allowed, pool[0]); }
  }

  lemma PinnedStage(pool: seq<Binding>, r: Restrictions, start: Cursor)
    requires DistinctNames(pool) && 0 < |pool| <= EXAMINED && Steady(pool, start, 2 * EXAMINED)
    ensures var b := PinnedFrom(pool, r, start);
            (b.None? <==> NonePinned(r, pool)) && (b.Some? ==> Steady(pool, b.value, EXAMINED))
  {
    TurnSearch(pool, Pinning(r), start, EXAMINED);
  }

  lemma IndependentStage(pool: seq<Binding>, r: Restrictions, start: Cursor)
    requires DistinctNames(pool) && 0 < |pool| <= EXAMINED && Steady(pool, start, EXAMINED)
    ensures IndependentFrom(pool, r, start).None? <==> NoneIndependent(r, pool)
  {
    TurnSearch(pool, Separating(r), start, 0);
  }

  /** Away from the wrap, for a pool of at most seventeen, a step is refused exactly when one of its
      restrictions cannot be met by any member at all. */
  lemma CalmRefusal(pool: seq<Binding>, r: Restrictions, start: Cursor)
    requires DistinctNames(pool) && 0 < |pool| <= EXAMINED && Calm(pool, start)
    ensures Choose(pool, r, start).None? <==> Unsatisfiable(r, pool)
  {
    PermittedStage(pool, r, start);
    var a := PermittedFrom(pool, r, start);
    if a.Some? {
      PinnedStage(pool, r, a.value);
      var b := PinnedFrom(pool, r, a.value);
      if b.Some? { IndependentStage(pool, r, b.value); }
    }
  }

  /** Whatever the pool's size and the cursor, a restriction that cannot be met refuses the step. */
  lemma UnsatisfiableIsRefused(pool: seq<Binding>, r: Restrictions, start: Cursor)
    requires pool != []
    ensures Unsatisfiable(r, pool) ==> Choose(pool, r, start).None?
  {
    if r.allowed == [] { assert Permits(r.allowed, pool[0]); }
    NoneToFind(pool, Permitting(r), start);
    var a := PermittedFrom(pool, r, start);
    if a.Some? {
      NoneToFind(pool, Pinning(r), a.value);
      var b := PinnedFrom(pool, r, a.value);
      if b.Some? { NoneToFind(pool, Separating(r), b.value); }
    }
  }

  lemma NoneToFind(pool: seq<Binding>, accepts: Binding -> bool, start: Cursor)
    requires pool != []
    ensures (forall b :: b in pool ==> !accepts(b)) ==> Search(pool, accepts, start).None?
  {
    SearchIsSound(pool, accepts, start);
  }

  /** The last m - 1 cursors: of m resolutions from there one comes after the wrap. */
  predicate NearWrap(c: Cursor, m: nat) {
    CURSOR_RANGE - m < c
  }

  /** For a pool of at most seventeen, over every cursor there is: only steps with a restriction that cannot
      be met are refused, exactly when there is such a restriction or the last cursors find a member too. */
  lemma RefusedWhenUnsatisfiable(pool: seq<Binding>, r: Restrictions)
    requires DistinctNames(pool) && 0 < |pool| <= EXAMINED
    ensures (forall c: Cursor :: Choose(pool, r, c).None? <==> Unsatisfiable(r, pool)) <==>
              Unsatisfiable(r, pool) || forall c: Cursor :: NearWrap(c, 3 * EXAMINED) ==> Choose(pool, r, c).Some?
  {
    forall c: Cursor ensures Unsatisfiable(r, pool) ==> Choose(pool, r, c).None? {
      UnsatisfiableIsRefused(pool, r, c);
    }
    forall c: Cursor | !NearWrap(c, 3 * EXAMINED) ensures Choose(pool, r, c).None? <==> Unsatisfiable(r, pool) {
      CalmRefusal(pool, r, c);
    }
  }

  // ---------------------------------------------------------------- restrictions together

  /** The first member meeting a restriction, from index i on around the pool. */
  function FirstFrom(pool: seq<Binding>, accepts: Binding -> bool, i: nat): (j: Option<nat>)
    requires i < |pool|
    ensures j.Some? ==> j.value < |pool|
  {
    var k := FirstIndex(Turn(pool, i), accepts);
    if k < |pool| then Some((i + k) % |pool|) else None
  }

  /** A search, by index. */
  lemma SearchByIndex(pool: seq<Binding>, accepts: Binding -> bool, start: Cursor, m: nat)
    requires DistinctNames(pool) && 0 < |pool| <= EXAMINED && Steady(pool, start, m + EXAMINED)
    ensures var found, first := Search(pool, accepts, start), FirstFrom(pool, accepts, start % |pool|);
            && (found.Some? <==> first.Some?)
            && (found.Some? ==> found.value % |pool| == first.value && Steady(pool, found.value, m))
  {
    TurnSearch(pool, accepts, start, m);
    var n, i := |pool|, start % |pool|;
    SmallRemainder(i, n);
    assert Turn(pool, i) == Turn(pool, start);
    var k := FirstIndex(Turn(pool, start), accepts);
    if k < n {
      Advance(start, k, n);
      Advance(i, k, n);
      SteadyRemainder(pool, start, EXAMINED, k);
    }
  }

  /** On a steady stretch the member's index is that of an unbounded counter. */
  lemma SteadyRemainder(pool: seq<Binding>, start: Cursor, m: nat, k: nat)
    requires pool != [] && Steady(pool, start, m) && k < m <= CURSOR_RANGE
    ensures Later(start, k) % |pool| == (start + k) % |pool|
  {
    if start + k >= CURSOR_RANGE { WholeRange(start + k, |pool|); }
  }

  /** The first member of the pinned type, from index i on. */
  function NextPinned(pool: seq<Binding>, r: Restrictions, i: nat): (j: Option<nat>)
    requires i < |pool|
    ensures j.Some? ==> j.value < |pool|
  {
    FirstFrom(pool, Pinning(r), i)
  }

  /** The first independent member, from index i on. */
  function NextIndependent(pool: seq<Binding>, r: Restrictions, i: nat): (j: Option<nat>)
    requires i < |pool|
    ensures j.Some? ==> j.value < |pool|
  {
    FirstFrom(pool, Separating(r), i)
  }

  /** Whether the choice made with the cursor at start is permitted, if one is made. */
  predicate ChoicePermitted(pool: seq<Binding>, r: Restrictions, start: Cursor)
    requires pool != []
  {
    var c := Choose(pool, r, start);
    c.Some? ==> Permits(r.allowed, MemberAt(pool, c.value))
  }

  predicate ChoicePinned(pool: seq<Binding>, r: Restrictions, start: Cursor)
    requires pool != []
  {
    var c := Choose(pool, r, start);
    c.Some? ==> Pinned(r, MemberAt(pool, c.value))
  }

  /** Going on from a permitted member to the first pinned one does not leave the allow-list: by index, and
      for a cursor. */
  predicate PinKeepsPermit(pool: seq<Binding>, r: Restrictions, i: nat)
    requires i < |pool|
  {
    var j := NextPinned(pool, r, i);
    Permits(r.allowed, pool[i]) && j.Some? ==> Permits(r.allowed, pool[j.value])
  }

  predicate PinKeepsPermitAt(pool: seq<Binding>, r: Restrictions, c: Cursor)
    requires pool != []
  {
    var b := PinnedFrom(pool, r, c);
    Permits(r.allowed, MemberAt(pool, c)) && b.Some? ==> Permits(r.allowed, MemberAt(pool, b.value))
  }

  /** Going on from a permitted member to the first pinned and then to the first independent one does not
      leave the pin. */
  predicate SeparationKeepsPin(pool: seq<Binding>, r: Restrictions, i: nat)
    requires i < |pool|
  {
    var j := NextPinned(pool, r, i);
    Permits(r.allowed, pool[i]) && j.Some? ==>
      var k := NextIndependent(pool, r, j.value); k.Some? ==> Pinned(r, pool[k.value])
  }

  predicate SeparationKeepsPinAt(pool: seq<Binding>, r: Restrictions, c: Cursor)
    requires pool != []
  {
    var b := PinnedFrom(pool, r, c);
    Permits(r.allowed, MemberAt(pool, c)) && b.Some? ==>
      var d := IndependentFrom(pool, r, b.value); d.Some? ==> Pinned(r, MemberAt(pool, d.value))
  }

  /** The first search stops at a permitted member, and at once where it starts at one. */
  lemma PermittedFromIs(pool: seq<Binding>, r: Restrictions, c: Cursor)
    requires pool != [] && DistinctNames(pool)
    ensures var a := PermittedFrom(pool, r, c);
            && (a.Some? ==> Permits(r.allowed, MemberAt(pool, a.value)))
            && (Permits(r.allowed, MemberAt(pool, c)) ==> a == Some(c))
  {
    SearchIsSound(pool, Permitting(r), c);
    LaterNothing(c);
    if Permits(r.allowed, MemberAt(pool, c)) { SearchFinds(pool, Permitting(r), c, 0); }
  }

  lemma PinAtCursor(pool: seq<Binding>, r: Restrictions, c: Cursor)
    requires DistinctNames(pool) && 0 < |pool| <= EXAMINED && r.pin != "" && !NearWrap(c, 2 * EXAMINED)
    ensures PinKeepsPermitAt(pool, r, c) <==> PinKeepsPermit(pool, r, c % |pool|)
  {
    SearchByIndex(pool, Pinning(r), c, EXAMINED);
  }

  lemma SeparationAtCursor(pool: seq<Binding>, r: Restrictions, c: Cursor)
    requires DistinctNames(pool) && 0 < |pool| <= EXAMINED && !NearWrap(c, 2 * EXAMINED)
    requires r.pin != "" && r.peers != [] && PeersKnown(r.peers)
    ensures SeparationKeepsPinAt(pool, r, c) <==> SeparationKeepsPin(pool, r, c % |pool|)
  {
    SearchByIndex(pool, Pinning(r), c, EXAMINED);
    var b := PinnedFrom(pool, r, c);
    if b.Some? { SearchByIndex(pool, Separating(r), b.value, 0); }
  }

  lemma PermittedAtCursor(pool: seq<Binding>, r: Restrictions, c: Cursor)
    requires pool != [] && DistinctNames(pool) && r.peers == []
    ensures ChoicePermitted(pool, r, c) ==> PinKeepsPermitAt(pool, r, c)
    ensures var a := PermittedFrom(pool, r, c);
            a.None? || PinKeepsPermitAt(pool, r, a.value) ==> ChoicePermitted(pool, r, c)
  {
    PermittedFromIs(pool, r, c);
    PinOfPermitted(pool, r, c);
  }

  lemma PinOfPermitted(pool: seq<Binding>, r: Restrictions, c: Cursor)
    requires pool != [] && r.peers == []
    ensures var a := PermittedFrom(pool, r, c);
            Choose(pool, r, c) == if a.Some? then PinnedFrom(pool, r, a.value) else None
  {}

  /** Every choice is permitted exactly when the pin keeps the permit at every cursor. */
  lemma PermittedAtCursors(pool: seq<Binding>, r: Restrictions)
    requires pool != [] && DistinctNames(pool) && r.peers == []
    ensures (forall c: Cursor :: ChoicePermitted(pool, r, c)) <==> forall c: Cursor :: PinKeepsPermitAt(pool, r, c)
  {
    forall c: Cursor ensures ChoicePermitted(pool, r, c) ==> PinKeepsPermitAt(pool, r, c) {
      PermittedAtCursor(pool, r, c);
    }
    if forall c: Cursor :: PinKeepsPermitAt(pool, r, c) {
      forall c: Cursor ensures ChoicePermitted(pool, r, c) {
        PermittedAtCursor(pool, r, c);
      }
    }
  }

  lemma PinnedAtCursors(pool: seq<Binding>, r: Restrictions)
    requires pool != [] && DistinctNames(pool)
    ensures (forall c: Cursor :: ChoicePinned(pool, r, c)) <==> forall c: Cursor :: SeparationKeepsPinAt(pool, r, c)
  {
    forall c: Cursor ensures ChoicePinned(pool, r, c) ==> SeparationKeepsPinAt(pool, r, c) {
      PermittedFromIs(pool, r, c);
    }
    if forall c: Cursor :: SeparationKeepsPinAt(pool, r, c) {
      forall c: Cursor ensures ChoicePinned(pool, r, c) {
        PermittedFromIs(pool, r, c);
        var a := PermittedFrom(pool, r, c);
        if a.Some? { assert SeparationKeepsPinAt(pool, r, a.value); }
      }
    }
  }

  /** The allow-list and the pin are enforced together, from every cursor there is, exactly when the
      configuration makes it so: the pin's rotation does not look at the allow-list, so it must not be able
      to lead away from it, neither around the pool nor across the wrap. */
  lemma AllowListHoldsWhen(pool: seq<Binding>, r: Restrictions)
    requires DistinctNames(pool) && 0 < |pool| <= EXAMINED
    requires r.pin != "" && r.peers == []
    ensures (forall c: Cursor :: ChoicePermitted(pool, r, c)) <==>
              && (forall i: nat :: i < |pool| ==> PinKeepsPermit(pool, r, i))
              && (forall c: Cursor :: NearWrap(c, 2 * EXAMINED) ==> PinKeepsPermitAt(pool, r, c))
  {
    PermittedAtCursors(pool, r);
    forall c: Cursor | !NearWrap(c, 2 * EXAMINED)
      ensures PinKeepsPermitAt(pool, r, c) <==> PinKeepsPermit(pool, r, c % |pool|)
    {
      PinAtCursor(pool, r, c);
    }
    forall i: nat | i < |pool| && (forall c: Cursor :: PinKeepsPermitAt(pool, r, c)) ensures PinKeepsPermit(pool, r, i) {
      SmallRemainder(i, |pool|);
      assert PinKeepsPermitAt(pool, r, i);
    }
  }

  /** Likewise for the pin under a demand for independence, whose rotation rechecks the allow-list only. */
  lemma PinHoldsWhen(pool: seq<Binding>, r: Restrictions)
    requires DistinctNames(pool) && 0 < |pool| <= EXAMINED
    requires r.pin != "" && r.peers != [] && PeersKnown(r.peers)
    ensures (forall c: Cursor :: ChoicePinned(pool, r, c)) <==>
              && (forall i: nat :: i < |pool| ==> SeparationKeepsPin(pool, r, i))
              && (forall c: Cursor :: NearWrap(c, 2 * EXAMINED) ==> SeparationKeepsPinAt(pool, r, c))
  {
    PinnedAtCursors(pool, r);
    forall c: Cursor | !NearWrap(c, 2 * EXAMINED)
      ensures SeparationKeepsPinAt(pool, r, c) <==> SeparationKeepsPin(pool, r, c % |pool|)
    {
      SeparationAtCursor(pool, r, c);
    }
    forall i: nat | i < |pool| && (forall c: Cursor :: SeparationKeepsPinAt(pool, r, c))
      ensures SeparationKeepsPin(pool, r, i)
    {
      SmallRemainder(i, |pool|);
      assert SeparationKeepsPinAt(pool, r, i);
    }
  }

  /** A pool in which the allow-list is lost: its permitted member is not of the pinned type. */
  lemma PinLeavesAllowListBehind()
    ensures var a, b := Binding("a", "claude", ""), Binding("b", "codex", "");
            var pool, r := [a, b], Restrictions(["a"], "codex", []);
            Choose(pool, r, 0).Some? && MemberAt(pool, Choose(pool, r, 0).value) == b && !Permits(r.allowed, b)
  {
    var a, b := Binding("a", "claude", ""), Binding("b", "codex", "");
    var pool, r := [a, b], Restrictions(["a"], "codex", []);
    assert Trim("a") == "a" && Names(r.allowed[0], a) && !Names("a", b);
    assert Turn(pool, 0) == pool;
    FirstIndexIs(pool, Pinning(r), 1);
    SmallRemainder(0, 2);
    PermittedFromIs(pool, r, 0);
    SearchByIndex(pool, Pinning(r), 0, EXAMINED);
  }
}
