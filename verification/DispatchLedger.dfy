/** Dispatch slots and spend reservations across every concurrent dispatch attempt.

    Models the admission half of internal/orch/orchestrator.go (dispatchReadyStep, the fan-out branch
    of dispatchReadyGroup, dispatchFanoutGroup and the goroutines they start) and internal/orch/spend.go.
    Attempts interleave freely; what the store, the binding resolver and the provider answer is the
    environment's choice. The release closures are modelled with their flags: a release that ran twice,
    or never, would show as a semaphore that disagrees with the attempts. */
module DispatchLedger {
  import opened Arithmetic
  import opened Sequences
  import opened Wrappers

  /** Costs are integers of the smallest unit; a cap of zero or less is no cap. */
  datatype Config = Config(maxParallel: int, caps: map<string, int>)

  predicate Capped(cfg: Config, provider: string) {
    provider in cfg.caps && cfg.caps[provider] > 0
  }

  function SpendKey(project: string, provider: string): string {
    project + ['\0'] + provider
  }

  datatype Account = Account(project: string, provider: string)

  /** The semaphore's occupancy, the reservation counts, and the recorded spend. */
  datatype World = World(sem: nat, inFlight: map<string, nat>, spend: map<Account, int>)

  function InFlight(w: World, key: string): nat {
    if key in w.inFlight then w.inFlight[key] else 0
  }

  function Spent(spend: map<Account, int>, a: Account): int {
    if a in spend then spend[a] else 0
  }

  datatype Kind = PerStep | Fanout

  /** One operation an exit path runs: the two guarded halves of the release closures, and the two
      unguarded deferred calls of a per-step goroutine. */
  datatype Duty = SlotIfOwed | TurnIfNamed | SlotAlways | TurnAlways

  datatype Stage = Fresh | HasSlot | Admitted | Turn | Unwinding | Over

  /** owed is the closure's slot flag, spender its provider variable, name the resolved binding. */
  datatype Attempt = Attempt(kind: Kind, project: string, name: string, stage: Stage,
                             owed: bool, spender: string, duties: seq<Duty>)

  datatype Choice = Proceed | Resolved(name: string) | Refused | Failed | Settled(cost: nat)

  datatype Action = Begin(kind: Kind, project: string) | Act(attempt: nat, choice: Choice)

  datatype State = State(w: World, attempts: seq<Attempt>)

  datatype Move = Move(a: Attempt, w: World)

  // ---------------------------------------------------------------- the semaphore and the ledger

  /** acquireDispatchSlot; without a positive maxParallel there is no semaphore. */
  function Acquire(cfg: Config, w: World): Option<World> {
    if cfg.maxParallel <= 0 then Some(w)
    else if w.sem < cfg.maxParallel then Some(w.(sem := w.sem + 1))
    else None
  }

  /** releaseDispatchSlot receives from the semaphore; None is a receive that would block. */
  function Release(cfg: Config, w: World): Option<World> {
    if cfg.maxParallel <= 0 then Some(w)
    else if w.sem > 0 then Some(w.(sem := w.sem - 1))
    else None
  }

  /** checkSpendCap, when the store could be read; None is a refusal. */
  function Reserve(cfg: Config, w: World, project: string, provider: string): Option<World> {
    var key := SpendKey(project, provider);
    if !Capped(cfg, provider) then Some(w)
    else if InFlight(w, key) > 0 || Spent(w.spend, Account(project, provider)) >= cfg.caps[provider] then None
    else Some(w.(inFlight := w.inFlight[key := InFlight(w, key) + 1]))
  }

  /** releaseSpendReservation. */
  function ReleaseTurn(cfg: Config, w: World, project: string, provider: string): World {
    var key := SpendKey(project, provider);
    if Capped(cfg, provider) && InFlight(w, key) > 0 then w.(inFlight := w.inFlight[key := InFlight(w, key) - 1]) else w
  }

  function Record(w: World, a: Account, cost: nat): World {
    w.(spend := w.spend[a := Spent(w.spend, a) + cost])
  }

  datatype SpendRefusal = TurnInFlight | CapExceeded(spent: int, limit: int) | StoreFailed

  /** The orchestrator's shared admission state. Its methods are what the attempts below call. */
  class Admission {
    const cfg: Config
    var w: World
    var saturated: set<string>
    ghost var events: seq<SaturationEvent>

    /** The plans marked are those that reported a full pipeline since a slot was last returned. */
    ghost predicate Valid()
      reads `saturated, `events
    {
      saturated == Reported(events)
    }

    constructor (cfg: Config, history: map<Account, int>)
      ensures Valid() && events == []
      ensures this.cfg == cfg && w == World(0, map[], history)
    {
      this.cfg := cfg;
      w := World(0, map[], history);
      saturated := {};
      events := [];
    }

    method AcquireDispatchSlot() returns (ok: bool)
      modifies this`w
      ensures ok <==> Acquire(cfg, old(w)).Some?
      ensures w == if ok then Acquire(cfg, old(w)).value else old(w)
    {
      if cfg.maxParallel <= 0 {
        return true;
      }
      if w.sem >= cfg.maxParallel {
        return false;
      }
      w := w.(sem := w.sem + 1);
      return true;
    }

    /** Callers release only what they acquired, so the receive never blocks. Capacity exists again, so
        every plan's next saturation is reported anew. */
    method ReleaseDispatchSlot()
      requires Valid() && Release(cfg, w).Some?
      modifies this
      ensures Valid() && Release(cfg, old(w)) == Some(w)
      ensures events == if cfg.maxParallel > 0 then old(events) + [SlotReturned] else old(events)
    {
      if cfg.maxParallel <= 0 {
        return;
      }
      w := w.(sem := w.sem - 1);
      saturated := {};
      events := events + [SlotReturned];
    }

    /** Reports a full pipeline unless the plan has reported it since a slot was last returned. */
    method ReportSaturation(plan: string) returns (emitted: bool)
      requires Valid()
      modifies this`saturated, this`events
      ensures Valid() && events == old(events) + [FoundFull(plan)]
      ensures emitted <==> Emits(events, |old(events)|)
    {
      emitted := plan !in saturated;
      saturated := saturated + {plan};
      events := events + [FoundFull(plan)];
      assert events[..|old(events)|] == old(events);
    }

    method CheckSpendCap(project: string, provider: string, storeReadable: bool) returns (refusal: Option<SpendRefusal>)
      modifies this`w
      ensures refusal.None? ==> Reserve(cfg, old(w), project, provider) == Some(w)
      ensures refusal.Some? ==> w == old(w) && Capped(cfg, provider)
      ensures refusal.Some? && storeReadable ==> Reserve(cfg, old(w), project, provider).None?
      ensures refusal.Some? && refusal.value.CapExceeded? ==> refusal.value.spent >= refusal.value.limit
      ensures refusal == Some(TurnInFlight) <==> Capped(cfg, provider) && InFlight(old(w), SpendKey(project, provider)) > 0
    {
      if !Capped(cfg, provider) {
        return None;
      }
      var key := SpendKey(project, provider);
      if InFlight(w, key) > 0 {
        return Some(TurnInFlight);
      }
      if !storeReadable {
        return Some(StoreFailed);
      }
      var spent := Spent(w.spend, Account(project, provider));
      if spent >= cfg.caps[provider] {
        return Some(CapExceeded(spent, cfg.caps[provider]));
      }
      w := w.(inFlight := w.inFlight[key := InFlight(w, key) + 1]);
      return None;
    }

    method ReleaseSpendReservation(project: string, provider: string)
      modifies this`w
      ensures w == ReleaseTurn(cfg, old(w), project, provider)
    {
      if !Capped(cfg, provider) {
        return;
      }
      var key := SpendKey(project, provider);
      if InFlight(w, key) > 0 {
        w := w.(inFlight := w.inFlight[key := InFlight(w, key) - 1]);
      }
    }
  }

  // ---------------------------------------------------------------- one attempt

  function Unwind(a: Attempt, duties: seq<Duty>): Attempt {
    a.(stage := Unwinding, duties := duties)
  }

  /** Launching the goroutine. A per-step launch moves both duties into deferred calls and disarms the
      closure; a fan-out launch defers the closure itself. */
  function Launched(a: Attempt): Attempt {
    match a.kind
    case PerStep => a.(stage := Turn, owed := false, spender := "", duties := [TurnAlways, SlotAlways])
    case Fanout => a.(stage := Turn, duties := [SlotIfOwed, TurnIfNamed])
  }

  /** The duties of a pre-launch exit. A fan-out that fails is released by its own closure and then once
      more, for the slot alone, by the caller that sees the error. */
  function ExitDuties(a: Attempt, choice: Choice): seq<Duty> {
    if a.kind == Fanout && a.stage == HasSlot then [SlotIfOwed]
    else if a.kind == Fanout && choice == Failed then [SlotIfOwed, TurnIfNamed, SlotIfOwed]
    else [SlotIfOwed, TurnIfNamed]
  }

  function AdmitStep(cfg: Config, w: World, a: Attempt, choice: Choice): Option<Move> {
    match choice
    case Resolved(name) =>
      var reserved := Reserve(cfg, w, a.project, name);
      Some(if reserved.Some? then Move(a.(name := name, spender := name, stage := Admitted), reserved.value)
           else Move(Unwind(a, ExitDuties(a, choice)), w))
    case Refused => Some(Move(Unwind(a, ExitDuties(a, choice)), w))
    case Failed => Some(Move(Unwind(a, ExitDuties(a, choice)), w))
    case _ => None
  }

  function LaunchStep(w: World, a: Attempt, choice: Choice): Option<Move> {
    match choice
    case Proceed => Some(Move(Launched(a), w))
    case Refused => Some(Move(Unwind(a, ExitDuties(a, choice)), w))
    case Failed => Some(Move(Unwind(a, ExitDuties(a, choice)), w))
    case _ => None
  }

  /** The turn records its usage, or ends in an error or a panic before it could. */
  function TurnStep(w: World, a: Attempt, choice: Choice): Option<Move> {
    match choice
    case Settled(cost) => Some(Move(a.(stage := Unwinding), Record(w, Account(a.project, a.name), cost)))
    case Failed => Some(Move(a.(stage := Unwinding), w))
    case _ => None
  }

  function DutyStep(cfg: Config, w: World, a: Attempt): Option<Move> {
    if a.duties == [] then Some(Move(a.(stage := Over), w))
    else
      var rest := a.(duties := a.duties[1..]);
      match a.duties[0]
      case SlotIfOwed =>
        if !a.owed then Some(Move(rest, w))
        else
          var released := Release(cfg, w);
          if released.Some? then Some(Move(rest.(owed := false), released.value)) else None
      case SlotAlways =>
        var released := Release(cfg, w);
        if released.Some? then Some(Move(rest, released.value)) else None
      case TurnIfNamed =>
        Some(if a.spender == "" then Move(rest, w)
             else Move(rest.(spender := ""), ReleaseTurn(cfg, w, a.project, a.spender)))
      case TurnAlways => Some(Move(rest, ReleaseTurn(cfg, w, a.project, a.name)))
  }

  function AttemptStep(cfg: Config, w: World, a: Attempt, choice: Choice): Option<Move> {
    match a.stage
    case Fresh =>
      var acquired := Acquire(cfg, w);
      Some(if acquired.Some? then Move(a.(stage := HasSlot, owed := true), acquired.value)
           else Move(a.(stage := Over), w))
    case HasSlot => AdmitStep(cfg, w, a, choice)
    case Admitted => LaunchStep(w, a, choice)
    case Turn => TurnStep(w, a, choice)
    case Unwinding => DutyStep(cfg, w, a)
    case Over => None
  }

  function Next(cfg: Config, s: State, action: Action): Option<State> {
    match action
    case Begin(kind, project) =>
      Some(s.(attempts := s.attempts + [Attempt(kind, project, "", Fresh, false, "", [])]))
    case Act(i, choice) =>
      if i >= |s.attempts| then None
      else
        var m := AttemptStep(cfg, s.w, s.attempts[i], choice);
        if m.Some? then Some(State(m.value.w, s.attempts[i := m.value.a])) else None
  }

  /** The state after a run from an idle orchestrator with an arbitrary spend history. */
  function After(cfg: Config, history: map<Account, int>, run: seq<Action>): Option<State> {
    if run == [] then Some(State(World(0, map[], history), []))
    else
      var before := After(cfg, history, run[..|run| - 1]);
      if before.Some? then Next(cfg, before.value, run[|run| - 1]) else None
  }

  // ---------------------------------------------------------------- who holds what

  /** How many times these duties will release a slot, given the flag. */
  function SlotReleases(duties: seq<Duty>, owed: bool): nat {
    if duties == [] then 0
    else
      match duties[0]
      case SlotIfOwed => (if owed then 1 else 0) + SlotReleases(duties[1..], false)
      case SlotAlways => 1 + SlotReleases(duties[1..], owed)
      case _ => SlotReleases(duties[1..], owed)
  }

  /** How many times these duties will release the reservation. */
  function TurnReleases(duties: seq<Duty>, named: bool): nat {
    if duties == [] then 0
    else
      match duties[0]
      case TurnIfNamed => (if named then 1 else 0) + TurnReleases(duties[1..], false)
      case TurnAlways => 1 + TurnReleases(duties[1..], named)
      case _ => TurnReleases(duties[1..], named)
  }

  datatype Resource = Slot | Reservation(key: string)

  predicate HasSlots(a: Attempt) {
    match a.stage
    case Fresh => false
    case HasSlot => true
    case Admitted => true
    case Turn => SlotReleases(a.duties, a.owed) > 0
    case Unwinding => SlotReleases(a.duties, a.owed) > 0
    case Over => false
  }

  predicate HasTurn(a: Attempt) {
    match a.stage
    case Admitted => true
    case Turn => true
    case Unwinding => TurnReleases(a.duties, a.spender != "") > 0
    case _ => false
  }

  predicate Holds(cfg: Config, a: Attempt, r: Resource) {
    match r
    case Slot => HasSlots(a)
    case Reservation(key) => Capped(cfg, a.name) && SpendKey(a.project, a.name) == key && HasTurn(a)
  }

  function Holders(cfg: Config, attempts: seq<Attempt>, r: Resource): nat {
    if attempts == [] then 0 else One(Holds(cfg, attempts[0], r)) + Holders(cfg, attempts[1..], r)
  }

  // ---------------------------------------------------------------- one step of one attempt

  /** An attempt's flags and duties agree with its stage: each thing it holds is released exactly once. */
  predicate Sound(a: Attempt) {
    match a.stage
    case Fresh => a.spender == ""
    case HasSlot => a.owed && a.spender == ""
    case Admitted => a.owed && a.spender == a.name
    case Turn =>
      SlotReleases(a.duties, a.owed) == 1 && TurnsFit(a) && (a.name != "" ==> TurnReleases(a.duties, a.spender != "") == 1)
    case Unwinding => SlotReleases(a.duties, a.owed) <= 1 && TurnsFit(a)
    case Over => true
  }

  predicate TurnsFit(a: Attempt) {
    TurnReleases(a.duties, a.spender != "") <= 1 && (a.spender != "" ==> a.spender == a.name)
  }

  /** The semaphore moves with the attempt's slot. */
  predicate SlotMoves(cfg: Config, w: World, a: Attempt, m: Move) {
    if cfg.maxParallel <= 0 then m.w.sem == w.sem
    else m.w.sem + One(HasSlots(a)) == w.sem + One(HasSlots(m.a)) && (w.sem <= cfg.maxParallel ==> m.w.sem <= cfg.maxParallel)
  }

  /** The ledger moves with the attempt's reservation; a reservation under an empty provider name may
      stay behind. */
  predicate TurnMoves(cfg: Config, w: World, a: Attempt, m: Move, key: string) {
    var before, after := One(Holds(cfg, a, Reservation(key))), One(Holds(cfg, m.a, Reservation(key)));
    && InFlight(m.w, key) + before >= InFlight(w, key) + after
    && (!Capped(cfg, "") ==> InFlight(m.w, key) + before == InFlight(w, key) + after)
    && (InFlight(w, key) <= 1 ==> InFlight(m.w, key) <= 1)
  }

  /** What the world owes an attempt: what it holds is there. */
  predicate Backed(cfg: Config, w: World, a: Attempt) {
    && (cfg.maxParallel > 0 && HasSlots(a) ==> w.sem > 0)
    && (Capped(cfg, a.name) && HasTurn(a) ==> InFlight(w, SpendKey(a.project, a.name)) > 0)
  }

  ghost predicate Moves(cfg: Config, w: World, a: Attempt, m: Move) {
    && Sound(m.a)
    && SlotMoves(cfg, w, a, m)
    && (forall key :: TurnMoves(cfg, w, a, m, key))
  }

  lemma DutyLists(owed: bool, named: bool)
    ensures SlotReleases([SlotIfOwed], owed) == One(owed) && TurnReleases([SlotIfOwed], named) == 0
    ensures SlotReleases([SlotIfOwed, TurnIfNamed], owed) == One(owed)
    ensures TurnReleases([SlotIfOwed, TurnIfNamed], named) == One(named)
    ensures SlotReleases([SlotIfOwed, TurnIfNamed, SlotIfOwed], owed) == One(owed)
    ensures TurnReleases([SlotIfOwed, TurnIfNamed, SlotIfOwed], named) == One(named)
    ensures SlotReleases([TurnAlways, SlotAlways], false) == 1 && TurnReleases([TurnAlways, SlotAlways], named) == 1
  {
    assert [SlotIfOwed][1..] == [];
    assert [TurnIfNamed][1..] == [];
    assert [SlotAlways][1..] == [];
    assert [SlotIfOwed, TurnIfNamed][1..] == [TurnIfNamed];
    assert [TurnIfNamed, SlotIfOwed][1..] == [SlotIfOwed];
    assert [SlotIfOwed, TurnIfNamed, SlotIfOwed][1..] == [TurnIfNamed, SlotIfOwed];
    assert [TurnAlways, SlotAlways][1..] == [SlotAlways];
  }

  lemma ExitMoves(cfg: Config, w: World, a: Attempt, choice: Choice)
    requires a.stage == HasSlot || a.stage == Admitted
    requires Sound(a) && Backed(cfg, w, a)
    ensures Moves(cfg, w, a, Move(Unwind(a, ExitDuties(a, choice)), w))
  {
    DutyLists(a.owed, a.spender != "");
  }

  lemma AdmitMoves(cfg: Config, w: World, a: Attempt, choice: Choice)
    requires a.stage == HasSlot && Sound(a) && Backed(cfg, w, a) && AdmitStep(cfg, w, a, choice).Some?
    ensures Moves(cfg, w, a, AdmitStep(cfg, w, a, choice).value)
  {
    ExitMoves(cfg, w, a, choice);
  }

  lemma LaunchMoves(cfg: Config, w: World, a: Attempt, choice: Choice)
    requires a.stage == Admitted && Sound(a) && Backed(cfg, w, a) && LaunchStep(w, a, choice).Some?
    ensures Moves(cfg, w, a, LaunchStep(w, a, choice).value)
  {
    ExitMoves(cfg, w, a, choice);
    DutyLists(a.owed, a.spender != "");
  }

  lemma SlotDutyMoves(cfg: Config, w: World, a: Attempt)
    requires a.stage == Unwinding && Sound(a) && Backed(cfg, w, a)
    requires a.duties != [] && (a.duties[0] == SlotIfOwed || a.duties[0] == SlotAlways)
    ensures DutyStep(cfg, w, a).Some? && Moves(cfg, w, a, DutyStep(cfg, w, a).value)
  {
    var m := DutyStep(cfg, w, a).value;
    assert SlotReleases(a.duties, a.owed) == SlotReleases(m.a.duties, m.a.owed) +
                                             One(a.duties[0] == SlotAlways || a.owed);
    assert HasTurn(m.a) == HasTurn(a);
  }

  lemma TurnDutyMoves(cfg: Config, w: World, a: Attempt)
    requires a.stage == Unwinding && Sound(a) && Backed(cfg, w, a)
    requires a.duties != [] && (a.duties[0] == TurnIfNamed || a.duties[0] == TurnAlways)
    ensures DutyStep(cfg, w, a).Some? && Moves(cfg, w, a, DutyStep(cfg, w, a).value)
  {
    var m := DutyStep(cfg, w, a).value;
    assert TurnReleases(a.duties, a.spender != "") == TurnReleases(m.a.duties, m.a.spender != "") +
                                                      One(a.duties[0] == TurnAlways || a.spender != "");
    assert HasSlots(m.a) == HasSlots(a);
  }

  lemma DutyMoves(cfg: Config, w: World, a: Attempt)
    requires a.stage == Unwinding && Sound(a) && Backed(cfg, w, a)
    ensures DutyStep(cfg, w, a).Some? && Moves(cfg, w, a, DutyStep(cfg, w, a).value)
  {
    if a.duties != [] {
      if a.duties[0] == SlotIfOwed || a.duties[0] == SlotAlways {
        SlotDutyMoves(cfg, w, a);
      } else {
        TurnDutyMoves(cfg, w, a);
      }
    }
  }

  lemma AttemptMoves(cfg: Config, w: World, a: Attempt, choice: Choice)
    requires Sound(a) && Backed(cfg, w, a) && AttemptStep(cfg, w, a, choice).Some?
    ensures Moves(cfg, w, a, AttemptStep(cfg, w, a, choice).value)
  {
    match a.stage
    case HasSlot => AdmitMoves(cfg, w, a, choice);
    case Admitted => LaunchMoves(cfg, w, a, choice);
    case Unwinding => DutyMoves(cfg, w, a);
    case _ =>
  }

  // ---------------------------------------------------------------- counting holders

  lemma {:induction false} HoldersUpdate(cfg: Config, attempts: seq<Attempt>, i: nat, a: Attempt, r: Resource)
    requires i < |attempts|
    ensures Holders(cfg, attempts[i := a], r) + One(Holds(cfg, attempts[i], r)) ==
            Holders(cfg, attempts, r) + One(Holds(cfg, a, r))
  {
    if i == 0 {
      assert attempts[0 := a][1..] == attempts[1..];
    } else {
      assert attempts[i := a][1..] == attempts[1..][i - 1 := a];
      HoldersUpdate(cfg, attempts[1..], i - 1, a, r);
    }
  }

  lemma {:induction false} HoldersAppend(cfg: Config, attempts: seq<Attempt>, a: Attempt, r: Resource)
    ensures Holders(cfg, attempts + [a], r) == Holders(cfg, attempts, r) + One(Holds(cfg, a, r))
  {
    if attempts == [] {
      assert [] + [a] == [a] && [a][1..] == [];
    } else {
      TailOfConcat(attempts, [a]);
      HoldersAppend(cfg, attempts[1..], a, r);
    }
  }

  lemma {:induction false} HoldersAtLeast(cfg: Config, attempts: seq<Attempt>, i: nat, r: Resource)
    requires i < |attempts| && Holds(cfg, attempts[i], r)
    ensures Holders(cfg, attempts, r) >= 1
  {
    if i > 0 { HoldersAtLeast(cfg, attempts[1..], i - 1, r); }
  }

  lemma {:induction false} TwoHolders(cfg: Config, attempts: seq<Attempt>, i: nat, j: nat, r: Resource)
    requires i < j < |attempts| && Holds(cfg, attempts[i], r) && Holds(cfg, attempts[j], r)
    ensures Holders(cfg, attempts, r) >= 2
  {
    if i > 0 {
      TwoHolders(cfg, attempts[1..], i - 1, j - 1, r);
    } else {
      HoldersAtLeast(cfg, attempts[1..], j - 1, r);
    }
  }

  // ---------------------------------------------------------------- conservation over whole runs

  predicate SlotsConserved(cfg: Config, s: State) {
    if cfg.maxParallel <= 0 then s.w.sem == 0
    else s.w.sem == Holders(cfg, s.attempts, Slot) && s.w.sem <= cfg.maxParallel
  }

  predicate TurnsConserved(cfg: Config, s: State, key: string) {
    var held := Holders(cfg, s.attempts, Reservation(key));
    && held <= InFlight(s.w, key) <= 1
    && (!Capped(cfg, "") ==> InFlight(s.w, key) == held)
  }

  ghost predicate Inv(cfg: Config, s: State) {
    && (forall i :: 0 <= i < |s.attempts| ==> Sound(s.attempts[i]))
    && SlotsConserved(cfg, s)
    && (forall key :: TurnsConserved(cfg, s, key))
  }

  lemma AttemptIsBacked(cfg: Config, s: State, i: nat)
    requires Inv(cfg, s) && i < |s.attempts|
    ensures Backed(cfg, s.w, s.attempts[i])
  {
    var a := s.attempts[i];
    var key := SpendKey(a.project, a.name);
    if HasSlots(a) { HoldersAtLeast(cfg, s.attempts, i, Slot); }
    if Holds(cfg, a, Reservation(key)) {
      HoldersAtLeast(cfg, s.attempts, i, Reservation(key));
      assert TurnsConserved(cfg, s, key);
    }
  }

  lemma ActKeeps(cfg: Config, s: State, i: nat, choice: Choice)
    requires Inv(cfg, s) && Next(cfg, s, Act(i, choice)).Some?
    ensures Inv(cfg, Next(cfg, s, Act(i, choice)).value)
  {
    var s' := Next(cfg, s, Act(i, choice)).value;
    var m := Move(s'.attempts[i], s'.w);
    AttemptIsBacked(cfg, s, i);
    AttemptMoves(cfg, s.w, s.attempts[i], choice);
    HoldersUpdate(cfg, s.attempts, i, m.a, Slot);
    forall key ensures TurnsConserved(cfg, s', key) {
      HoldersUpdate(cfg, s.attempts, i, m.a, Reservation(key));
      assert TurnsConserved(cfg, s, key) && TurnMoves(cfg, s.w, s.attempts[i], m, key);
    }
  }

  lemma BeginKeeps(cfg: Config, s: State, kind: Kind, project: string)
    requires Inv(cfg, s)
    ensures Inv(cfg, Next(cfg, s, Begin(kind, project)).value)
  {
    var s' := Next(cfg, s, Begin(kind, project)).value;
    var a := s'.attempts[|s.attempts|];
    HoldersAppend(cfg, s.attempts, a, Slot);
    forall key ensures TurnsConserved(cfg, s', key) {
      HoldersAppend(cfg, s.attempts, a, Reservation(key));
      assert TurnsConserved(cfg, s, key);
    }
  }

  lemma {:induction false} ReachableInv(cfg: Config, history: map<Account, int>, run: seq<Action>)
    requires After(cfg, history, run).Some?
    ensures Inv(cfg, After(cfg, history, run).value)
  {
    if run != [] {
      var before, action := run[..|run| - 1], run[|run| - 1];
      ReachableInv(cfg, history, before);
      var s := After(cfg, history, before).value;
      match action
      case Begin(kind, project) => BeginKeeps(cfg, s, kind, project);
      case Act(i, choice) => ActKeeps(cfg, s, i, choice);
    }
  }

  // ---------------------------------------------------------------- the theorems

  /** The semaphore's occupancy is the number of attempts that will still release a slot, never more
      than maxParallel; nothing is left once every attempt is over; and no release can block. */
  lemma SlotsAreConserved(cfg: Config, history: map<Account, int>, run: seq<Action>)
    requires After(cfg, history, run).Some?
    ensures var s := After(cfg, history, run).value;
            && (cfg.maxParallel > 0 ==> s.w.sem == Holders(cfg, s.attempts, Slot) <= cfg.maxParallel)
            && ((forall i :: 0 <= i < |s.attempts| ==> s.attempts[i].stage == Over) ==> s.w.sem == 0)
            && (forall i: nat :: i < |s.attempts| && s.attempts[i].stage == Unwinding ==>
                  forall choice :: Next(cfg, s, Act(i, choice)).Some?)
  {
    ReachableInv(cfg, history, run);
    var s := After(cfg, history, run).value;
    if forall i :: 0 <= i < |s.attempts| ==> s.attempts[i].stage == Over {
      NobodyHolds(cfg, s.attempts, Slot);
    }
    forall i: nat, choice | i < |s.attempts| && s.attempts[i].stage == Unwinding
      ensures Next(cfg, s, Act(i, choice)).Some?
    {
      AttemptIsBacked(cfg, s, i);
      DutyMoves(cfg, s.w, s.attempts[i]);
    }
  }

  lemma {:induction false} NobodyHolds(cfg: Config, attempts: seq<Attempt>, r: Resource)
    requires forall i :: 0 <= i < |attempts| ==> !Holds(cfg, attempts[i], r)
    ensures Holders(cfg, attempts, r) == 0
  {
    if attempts != [] { NobodyHolds(cfg, attempts[1..], r); }
  }

  /** At most one attempt holds the turn of a capped provider in a project. Unless the empty provider
      name is capped, the ledger counts exactly those that do, so it is clear once all are over. */
  lemma ReservationsAreConserved(cfg: Config, history: map<Account, int>, run: seq<Action>, key: string)
    requires After(cfg, history, run).Some?
    ensures var s := After(cfg, history, run).value;
            && Holders(cfg, s.attempts, Reservation(key)) <= InFlight(s.w, key) <= 1
            && (!Capped(cfg, "") ==> InFlight(s.w, key) == Holders(cfg, s.attempts, Reservation(key)))
            && (!Capped(cfg, "") && (forall i :: 0 <= i < |s.attempts| ==> s.attempts[i].stage == Over) ==>
                  InFlight(s.w, key) == 0)
  {
    ReachableInv(cfg, history, run);
    var s := After(cfg, history, run).value;
    assert TurnsConserved(cfg, s, key);
    if forall i :: 0 <= i < |s.attempts| ==> s.attempts[i].stage == Over {
      NobodyHolds(cfg, s.attempts, Reservation(key));
    }
  }

  // ---------------------------------------------------------------- every attempt can end

  /** The run from here is attempt i's own. */
  predicate OwnActs(run: seq<Action>, i: nat) {
    forall k :: 0 <= k < |run| ==> run[k].Act? && run[k].attempt == i
  }

  lemma ActTakes(cfg: Config, history: map<Account, int>, run: seq<Action>, i: nat, choice: Choice)
    requires After(cfg, history, run).Some? && i < |After(cfg, history, run).value.attempts|
    requires var s := After(cfg, history, run).value; AttemptStep(cfg, s.w, s.attempts[i], choice).Some?
    ensures var s := After(cfg, history, run).value;
            var m := AttemptStep(cfg, s.w, s.attempts[i], choice).value;
            After(cfg, history, run + [Act(i, choice)]) == Some(State(m.w, s.attempts[i := m.a]))
  {
    assert (run + [Act(i, choice)])[..|run|] == run;
  }

  /** Attempt i has ended by acts of its own, and nothing was done to any other. */
  predicate EndsAlone(cfg: Config, history: map<Account, int>, run: seq<Action>, i: nat, more: seq<Action>)
    requires After(cfg, history, run).Some? && i < |After(cfg, history, run).value.attempts|
  {
    && OwnActs(more, i) && After(cfg, history, run + more).Some?
    && var s, s' := After(cfg, history, run).value, After(cfg, history, run + more).value;
       |s'.attempts| == |s.attempts| && s'.attempts[i].stage == Over && s'.attempts == s.attempts[i := s'.attempts[i]]
  }

  lemma Later(cfg: Config, history: map<Account, int>, run: seq<Action>, i: nat, choice: Choice, rest: seq<Action>)
    requires After(cfg, history, run).Some? && i < |After(cfg, history, run).value.attempts|
    requires var s := After(cfg, history, run).value; AttemptStep(cfg, s.w, s.attempts[i], choice).Some?
    requires After(cfg, history, run + [Act(i, choice)]).Some?
             && i < |After(cfg, history, run + [Act(i, choice)]).value.attempts|
             && EndsAlone(cfg, history, run + [Act(i, choice)], i, rest)
    ensures EndsAlone(cfg, history, run, i, [Act(i, choice)] + rest)
  {
    ActTakes(cfg, history, run, i, choice);
    Assoc(run, [Act(i, choice)], rest);
  }

  /** An attempt that unwinds discharges its duties one by one and is over. */
  lemma {:induction false} UnwindingEnds(cfg: Config, history: map<Account, int>, run: seq<Action>, i: nat)
    returns (more: seq<Action>)
    requires After(cfg, history, run).Some? && i < |After(cfg, history, run).value.attempts|
    requires After(cfg, history, run).value.attempts[i].stage == Unwinding
    ensures EndsAlone(cfg, history, run, i, more) && |more| == |After(cfg, history, run).value.attempts[i].duties| + 1
    decreases |After(cfg, history, run).value.attempts[i].duties|
  {
    var s := After(cfg, history, run).value;
    SlotsAreConserved(cfg, history, run);
    assert Next(cfg, s, Act(i, Proceed)).Some?;
    ActTakes(cfg, history, run, i, Proceed);
    var next := run + [Act(i, Proceed)];
    var rest := [];
    if s.attempts[i].duties != [] {
      rest := UnwindingEnds(cfg, history, next, i);
    } else {
      PlusEmpty(next);
    }
    Later(cfg, history, run, i, Proceed, rest);
    more := [Act(i, Proceed)] + rest;
  }

  /** An attempt that is refused, or fails, with a slot or admitted, is over after its own exit. */
  lemma ExitEnds(cfg: Config, history: map<Account, int>, run: seq<Action>, i: nat, choice: Choice)
    returns (more: seq<Action>)
    requires After(cfg, history, run).Some? && i < |After(cfg, history, run).value.attempts|
    requires After(cfg, history, run).value.attempts[i].stage in {HasSlot, Admitted} && choice in {Refused, Failed}
    ensures EndsAlone(cfg, history, run, i, [Act(i, choice)] + more) && |more| <= 4
  {
    ActTakes(cfg, history, run, i, choice);
    more := UnwindingEnds(cfg, history, run + [Act(i, choice)], i);
    Later(cfg, history, run, i, choice, more);
  }

  /** An admitted attempt that is launched keeps all it holds until its turn has ended, whether settled or
      not, and is then over by its own exit. */
  lemma LaunchEnds(cfg: Config, history: map<Account, int>, run: seq<Action>, i: nat, end: Choice)
    returns (more: seq<Action>)
    requires After(cfg, history, run).Some? && i < |After(cfg, history, run).value.attempts|
    requires After(cfg, history, run).value.attempts[i].stage == Admitted && (end.Settled? || end == Failed)
    ensures After(cfg, history, run + [Act(i, Proceed)]).Some?
    ensures var s, s' := After(cfg, history, run).value, After(cfg, history, run + [Act(i, Proceed)]).value;
            s'.w == s.w && i < |s'.attempts| && s'.attempts[i].stage == Turn && s'.attempts[i].name == s.attempts[i].name
    ensures EndsAlone(cfg, history, run, i, [Act(i, Proceed)] + ([Act(i, end)] + more)) && |more| <= 4
  {
    ActTakes(cfg, history, run, i, Proceed);
    var launched := run + [Act(i, Proceed)];
    ActTakes(cfg, history, launched, i, end);
    more := UnwindingEnds(cfg, history, launched + [Act(i, end)], i);
    Later(cfg, history, launched, i, end, more);
    Later(cfg, history, run, i, Proceed, [Act(i, end)] + more);
  }

  /** A new attempt gets a slot exactly while fewer than maxParallel hold one, and is over at once
      otherwise. */
  lemma SlotDecides(cfg: Config, history: map<Account, int>, run: seq<Action>, i: nat, choice: Choice)
    requires After(cfg, history, run).Some? && i < |After(cfg, history, run).value.attempts|
    requires After(cfg, history, run).value.attempts[i].stage == Fresh
    ensures var s, next := After(cfg, history, run).value, Next(cfg, After(cfg, history, run).value, Act(i, choice));
            && next.Some?
            && next.value.attempts[i].stage == (if cfg.maxParallel <= 0 || Holders(cfg, s.attempts, Slot) < cfg.maxParallel
                                                then HasSlot else Over)
            && (next.value.attempts[i].stage == Over ==> next.value.w == s.w)
  {
    SlotsAreConserved(cfg, history, run);
  }

  // ---------------------------------------------------------------- bounded overspend

  /** Admitted, and its cost not recorded yet. */
  predicate Unrecorded(a: Attempt) {
    a.stage == Admitted || a.stage == Turn
  }

  function AccountOf(a: Attempt): Account {
    Account(a.project, a.name)
  }

  predicate CostsWithin(run: seq<Action>, most: nat) {
    forall i :: 0 <= i < |run| && run[i].Act? && run[i].choice.Settled? ==> run[i].choice.cost <= most
  }

  /** An account over its cap from the start is never charged; any other stays below cap plus a turn. */
  predicate WithinCap(cfg: Config, history: map<Account, int>, spend: map<Account, int>, most: nat, account: Account) {
    Capped(cfg, account.provider) ==>
      var limit := cfg.caps[account.provider];
      if Spent(history, account) >= limit then Spent(spend, account) == Spent(history, account)
      else Spent(spend, account) < limit + most
  }

  /** A turn that has yet to be recorded was admitted below the cap, and is still below it. */
  predicate BelowCap(cfg: Config, w: World, a: Attempt) {
    Unrecorded(a) && Capped(cfg, a.name) ==> Spent(w.spend, AccountOf(a)) < cfg.caps[a.name]
  }

  ghost predicate SpendInv(cfg: Config, history: map<Account, int>, s: State, most: nat) {
    && (forall account :: WithinCap(cfg, history, s.w.spend, most, account))
    && (forall i :: 0 <= i < |s.attempts| ==> BelowCap(cfg, s.w, s.attempts[i]))
  }

  /** A step changes no spend but its own account's, and that only when its turn settles. */
  lemma OwnSpendOnly(cfg: Config, w: World, a: Attempt, choice: Choice, account: Account)
    requires AttemptStep(cfg, w, a, choice).Some?
    ensures var m := AttemptStep(cfg, w, a, choice).value;
            && (Spent(m.w.spend, account) == Spent(w.spend, account)
                || (a.stage == Turn && choice.Settled? && account == AccountOf(a) &&
                    Spent(m.w.spend, account) == Spent(w.spend, account) + choice.cost))
            && (BelowCap(cfg, w, a) ==> BelowCap(cfg, m.w, m.a))
  {}

  /** Two unrecorded turns never share a capped account. */
  lemma UnrecordedIsUnique(cfg: Config, s: State, i: nat, j: nat)
    requires Inv(cfg, s) && i < j < |s.attempts|
    requires Unrecorded(s.attempts[i]) && Unrecorded(s.attempts[j]) && Capped(cfg, s.attempts[i].name)
    ensures AccountOf(s.attempts[i]) != AccountOf(s.attempts[j])
  {
    var key := SpendKey(s.attempts[i].project, s.attempts[i].name);
    assert TurnsConserved(cfg, s, key);
    if AccountOf(s.attempts[i]) == AccountOf(s.attempts[j]) {
      TwoHolders(cfg, s.attempts, i, j, Reservation(key));
    }
  }

  lemma ActStaysBelow(cfg: Config, s: State, i: nat, choice: Choice, j: nat)
    requires Inv(cfg, s) && Next(cfg, s, Act(i, choice)).Some? && j < |s.attempts|
    requires BelowCap(cfg, s.w, s.attempts[i]) && BelowCap(cfg, s.w, s.attempts[j])
    ensures var s' := Next(cfg, s, Act(i, choice)).value; BelowCap(cfg, s'.w, s'.attempts[j])
  {
    var a, b := s.attempts[i], s.attempts[j];
    OwnSpendOnly(cfg, s.w, a, choice, AccountOf(b));
    if j != i && a.stage == Turn && Unrecorded(b) && AccountOf(a) == AccountOf(b) && Capped(cfg, a.name) {
      UnrecordedIsUnique(cfg, s, if i < j then i else j, if i < j then j else i);
    }
  }

  lemma {:induction false} ReachableSpend(cfg: Config, history: map<Account, int>, run: seq<Action>, most: nat)
    requires After(cfg, history, run).Some? && CostsWithin(run, most)
    ensures SpendInv(cfg, history, After(cfg, history, run).value, most)
  {
    if run != [] {
      var before, action := run[..|run| - 1], run[|run| - 1];
      assert CostsWithin(before, most) by {
        assert forall i :: 0 <= i < |before| ==> before[i] == run[i];
      }
      ReachableSpend(cfg, history, before, most);
      ReachableInv(cfg, history, before);
      var s, s' := After(cfg, history, before).value, After(cfg, history, run).value;
      if action.Act? {
        var i, choice := action.attempt, action.choice;
        forall account ensures WithinCap(cfg, history, s'.w.spend, most, account) {
          assert WithinCap(cfg, history, s.w.spend, most, account);
          OwnSpendOnly(cfg, s.w, s.attempts[i], choice, account);
        }
        forall j | 0 <= j < |s'.attempts| ensures BelowCap(cfg, s'.w, s'.attempts[j]) {
          ActStaysBelow(cfg, s, i, choice, j);
        }
      }
    }
  }

  /** Whatever is dispatched, in whatever order it settles, fails or panics, and on both launch paths:
      recorded spend stays strictly below the cap plus the largest cost of one turn. */
  lemma OverspendIsBounded(cfg: Config, history: map<Account, int>, run: seq<Action>, most: nat, account: Account)
    requires After(cfg, history, run).Some? && CostsWithin(run, most)
    requires Capped(cfg, account.provider) && Spent(history, account) < cfg.caps[account.provider]
    ensures Spent(After(cfg, history, run).value.w.spend, account) < cfg.caps[account.provider] + most
  {
    ReachableSpend(cfg, history, run, most);
    assert WithinCap(cfg, history, After(cfg, history, run).value.w.spend, most, account);
  }

  // ---------------------------------------------------------------- recorded spend

  /** What the last action of a run charges an account: the cost a running turn of its settles with. */
  function ChargeOf(s: State, action: Action, account: Account): nat {
    match action
    case Begin(_, _) => 0
    case Act(i, choice) =>
      if i < |s.attempts| && s.attempts[i].stage == Turn && choice.Settled? &&
         s.attempts[i].project == account.project && s.attempts[i].name == account.provider
      then choice.cost
      else 0
  }

  /** The costs a run settled on an account, one turn after the other. */
  function SettledCost(cfg: Config, history: map<Account, int>, run: seq<Action>, account: Account): nat {
    if run == [] then 0
    else
      var before := run[..|run| - 1];
      SettledCost(cfg, history, before, account) +
      (if After(cfg, history, before).Some? then ChargeOf(After(cfg, history, before).value, run[|run| - 1], account) else 0)
  }

  lemma ChargeIsRecorded(cfg: Config, s: State, action: Action, account: Account)
    requires Next(cfg, s, action).Some?
    ensures Spent(Next(cfg, s, action).value.w.spend, account) == Spent(s.w.spend, account) + ChargeOf(s, action, account)
  {
    if action.Act? { OwnSpendExactly(cfg, s.w, s.attempts[action.attempt], action.choice, account); }
  }

  lemma OwnSpendExactly(cfg: Config, w: World, a: Attempt, choice: Choice, account: Account)
    requires AttemptStep(cfg, w, a, choice).Some?
    ensures Spent(AttemptStep(cfg, w, a, choice).value.w.spend, account) ==
            Spent(w.spend, account) + (if a.stage == Turn && choice.Settled? && account == AccountOf(a) then choice.cost else 0)
  {}

  /** Nothing settled is lost or counted twice, on either launch path: each account's recorded spend is its
      history and the costs its turns settled with. */
  lemma {:induction false} SpendIsRecorded(cfg: Config, history: map<Account, int>, run: seq<Action>, account: Account)
    requires After(cfg, history, run).Some?
    ensures Spent(After(cfg, history, run).value.w.spend, account) ==
            Spent(history, account) + SettledCost(cfg, history, run, account)
  {
    if run != [] {
      var before := run[..|run| - 1];
      SpendIsRecorded(cfg, history, before, account);
      ChargeIsRecorded(cfg, After(cfg, history, before).value, run[|run| - 1], account);
    }
  }

  /** Exactly which resolved attempts are admitted: those of providers without a cap, and those whose account
      has no turn in flight and has, by its history and all it settled, not reached its cap. A refusal
      reserves nothing. */
  lemma CapDecides(cfg: Config, history: map<Account, int>, run: seq<Action>, i: nat, name: string)
    requires After(cfg, history, run).Some? && i < |After(cfg, history, run).value.attempts|
    requires After(cfg, history, run).value.attempts[i].stage == HasSlot
    ensures var s, next := After(cfg, history, run).value, Next(cfg, After(cfg, history, run).value, Act(i, Resolved(name)));
            var account := Account(s.attempts[i].project, name);
            && next.Some?
            && (next.value.attempts[i].stage == Admitted <==>
                  || name !in cfg.caps || cfg.caps[name] <= 0
                  || (InFlight(s.w, SpendKey(account.project, name)) == 0 &&
                      Spent(history, account) + SettledCost(cfg, history, run, account) < cfg.caps[name]))
            && (next.value.attempts[i].stage != Admitted ==> next.value.w == s.w && next.value.attempts[i].stage == Unwinding)
            && (next.value.attempts[i].stage == Admitted && name in cfg.caps && cfg.caps[name] > 0 ==>
                  InFlight(next.value.w, SpendKey(account.project, name)) == 1)
  {
    SpendIsRecorded(cfg, history, run, Account(After(cfg, history, run).value.attempts[i].project, name));
  }

  // ---------------------------------------------------------------- the key, and the empty name

  /** Project ids without a NUL never share a ledger key, so one project's turn never holds up another's. */
  lemma SpendKeysDiffer(a: Account, b: Account)
    requires '\0' !in a.project && '\0' !in b.project
    requires SpendKey(a.project, a.provider) == SpendKey(b.project, b.provider)
    ensures a == b
  {
    var ka, kb := SpendKey(a.project, a.provider), SpendKey(b.project, b.provider);
    assert ka[|a.project|] == '\0' && kb[|b.project|] == '\0';
    assert forall i :: 0 <= i < |a.project| ==> ka[i] == a.project[i];
    assert forall i :: 0 <= i < |b.project| ==> kb[i] == b.project[i];
    assert a.project == ka[..|a.project|] == b.project;
    assert a.provider == ka[|a.project| + 1..] == b.provider;
  }

  /** Exactly which accounts share their key with some other one: those with a NUL in either part, since
      the key can then be split at another place. */
  lemma SpendKeysCollide(a: Account)
    ensures (exists b: Account :: b != a && SpendKey(b.project, b.provider) == SpendKey(a.project, a.provider)) <==>
              '\0' in a.project || '\0' in a.provider
  {
    if '\0' in a.project {
      var i :| 0 <= i < |a.project| && a.project[i] == '\0';
      var b := Account(a.project[..i], a.project[i + 1..] + ['\0'] + a.provider);
      assert SpendKey(b.project, b.provider) == SpendKey(a.project, a.provider);
    } else if '\0' in a.provider {
      var i :| 0 <= i < |a.provider| && a.provider[i] == '\0';
      var b := Account(a.project + ['\0'] + a.provider[..i], a.provider[i + 1..]);
      assert SpendKey(b.project, b.provider) == SpendKey(a.project, a.provider);
    } else {
      forall b: Account | SpendKey(b.project, b.provider) == SpendKey(a.project, a.provider) ensures b == a {
        OneNul(a, b);
      }
    }
  }

  /** A key with a single NUL can be split in one way only. */
  lemma OneNul(a: Account, b: Account)
    requires '\0' !in a.project && '\0' !in a.provider
    requires SpendKey(b.project, b.provider) == SpendKey(a.project, a.provider)
    ensures b == a
  {
    var key := SpendKey(a.project, a.provider);
    assert forall i :: 0 <= i < |a.project| ==> key[i] == a.project[i];
    assert forall i :: 0 <= i < |a.provider| ==> key[|a.project| + 1 + i] == a.provider[i];
    assert SpendKey(b.project, b.provider)[|b.project|] == '\0';
    assert |b.project| == |a.project|;
    assert a.project == key[..|a.project|] == b.project;
    assert a.provider == key[|a.project| + 1..] == b.provider;
  }

  /** One step of the only attempt there is. */
  lemma Continue(cfg: Config, history: map<Account, int>, run: seq<Action>, w: World, a: Attempt, choice: Choice, m: Move)
    returns (next: seq<Action>)
    requires After(cfg, history, run) == Some(State(w, [a])) && AttemptStep(cfg, w, a, choice) == Some(m)
    ensures After(cfg, history, next) == Some(State(m.w, [m.a]))
  {
    next := run + [Act(0, choice)];
    assert next[..|run|] == run;
    assert [a][0 := m.a] == [m.a];
  }

  /** The exception in ReservationsAreConserved is real: the closures take an empty provider name for no
      reservation, so a cap on that name outlives an attempt that fails before launch. */
  lemma EmptyNameLeaks(cfg: Config) returns (run: seq<Action>)
    requires Capped(cfg, "")
    ensures After(cfg, map[], run).Some?
    ensures var s := After(cfg, map[], run).value;
            |s.attempts| == 1 && s.attempts[0].stage == Over && InFlight(s.w, SpendKey("", "")) == 1
  {
    var a := Attempt(PerStep, "", "", Fresh, false, "", []);
    var w := World(0, map[], map[]);
    run := [Begin(PerStep, "")];
    EmptyPlus([a]);
    assert run[..0] == [];
    var m := Move(a.(stage := HasSlot, owed := true), Acquire(cfg, w).value);
    run := Continue(cfg, map[], run, w, a, Proceed, m);
    var n := AdmitStep(cfg, m.w, m.a, Resolved("")).value;
    run := Continue(cfg, map[], run, m.w, m.a, Resolved(""), n);
    m := Move(Unwind(n.a, [SlotIfOwed, TurnIfNamed]), n.w);
    run := Continue(cfg, map[], run, n.w, n.a, Failed, m);
    n := DutyStep(cfg, m.w, m.a).value;
    run := Continue(cfg, map[], run, m.w, m.a, Proceed, n);
    m := DutyStep(cfg, n.w, n.a).value;
    run := Continue(cfg, map[], run, n.w, n.a, Proceed, m);
    n := DutyStep(cfg, m.w, m.a).value;
    run := Continue(cfg, map[], run, m.w, m.a, Proceed, n);
  }

  predicate AllOver(s: State) {
    forall i :: 0 <= i < |s.attempts| ==> s.attempts[i].stage == Over
  }

  /** No run leaves a reservation behind once all its attempts are over. */
  ghost predicate ClearsLedger(cfg: Config) {
    forall history, run, key ::
      After(cfg, history, run).Some? && AllOver(After(cfg, history, run).value) ==>
        InFlight(After(cfg, history, run).value.w, key) == 0
  }

  /** Exactly which configurations keep the ledger clear: those that do not cap the empty provider name. */
  lemma LedgerClearsWhen(cfg: Config)
    ensures ClearsLedger(cfg) <==> !Capped(cfg, "")
  {
    if Capped(cfg, "") {
      var run := EmptyNameLeaks(cfg);
      assert AllOver(After(cfg, map[], run).value);
    } else {
      forall history, run, key | After(cfg, history, run).Some? && AllOver(After(cfg, history, run).value)
        ensures InFlight(After(cfg, history, run).value.w, key) == 0
      {
        ReservationsAreConserved(cfg, history, run, key);
      }
    }
  }

  // ---------------------------------------------------------------- reporting saturation

  datatype SaturationEvent = FoundFull(plan: string) | SlotReturned

  /** The plans already reported since the last slot was returned. */
  function Reported(events: seq<SaturationEvent>): set<string> {
    if events == [] then {}
    else
      match events[|events| - 1]
      case SlotReturned => {}
      case FoundFull(plan) => Reported(events[..|events| - 1]) + {plan}
  }

  /** Whether the k-th event emits a report. */
  predicate Emits(events: seq<SaturationEvent>, k: nat) {
    k < |events| && events[k].FoundFull? && events[k].plan !in Reported(events[..k])
  }

  lemma {:induction false} ReportedSince(events: seq<SaturationEvent>, plan: string)
    ensures plan in Reported(events) <==>
              exists j: nat :: j < |events| && events[j] == FoundFull(plan) &&
                               forall i :: j < i < |events| ==> events[i].FoundFull?
  {
    if events != [] {
      var n := |events| - 1;
      var before := events[..n];
      ReportedSince(before, plan);
      if j: nat :| j < n && before[j] == FoundFull(plan) && forall i :: j < i < n ==> before[i].FoundFull? {
        assert events[j] == FoundFull(plan);
      }
      if j: nat :| j < |events| && events[j] == FoundFull(plan) && forall i :: j < i < |events| ==> events[i].FoundFull? {
        if j < n { assert before[j] == FoundFull(plan); }
      }
    }
  }

  /** Between two returns of a slot a full pipeline is reported at most once for each plan: two reports
      of the same plan have a return between them. */
  lemma SaturationIsReportedOnce(events: seq<SaturationEvent>, j: nat, k: nat)
    requires j < k && Emits(events, j) && Emits(events, k) && events[j] == events[k]
    ensures exists i :: j < i < k && events[i] == SlotReturned
  {
    ReportedSince(events[..k], events[k].plan);
    assert events[..k][j] == FoundFull(events[k].plan);
  }

  /** And it is not left unreported: the first time a plan finds it full after a return, it is. */
  lemma SaturationIsReported(events: seq<SaturationEvent>, k: nat)
    requires k < |events| && events[k].FoundFull?
    ensures exists j: nat :: j <= k && events[j] == events[k] && Emits(events, j) &&
                             forall i :: j <= i <= k ==> events[i].FoundFull?
    decreases k
  {
    if !Emits(events, k) {
      ReportedSince(events[..k], events[k].plan);
      var j: nat :| j < k && events[..k][j] == FoundFull(events[k].plan) &&
                    forall i :: j < i < k ==> events[..k][i].FoundFull?;
      assert forall i :: j < i < k ==> events[i] == events[..k][i];
      SaturationIsReported(events, j);
    }
  }
}
