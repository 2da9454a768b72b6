/** Every interleaving of the threads around one child process.

    The goroutines Agent starts (internal/agent/agent.go: observeProcessExit, readLoop,
    cancelOnContext) and any number of callers of Kill, TerminateAndWait and Wait, each with a program
    counter, sharing the lifecycle lock of internal/agent/lifecycle.go. A raw operation (probe, signal,
    cleanup) is a state of its own in which its thread holds the lock; its answer is a later step. */
module LifecycleProtocol {
  import opened Sequences
  import opened Wrappers
  import opened Lifecycle

  const OBSERVER: nat := 0
  const READER: nat := 1
  const CANCELLER: nat := 2
  const OWN_THREADS: nat := 3

  datatype PC =
    // raw operations, holding the lock
    | ObserveProbe | FirstProbe | Signalling(attempt: nat) | Reprobing(attempt: nat) | Cleaning
    // about to take the lock
    | Observing | EnterTerminate | EnterNatural
    // owning the way to a closed terminal
    | MustWait | InWait | MustFinish | MustPublish | MustPublishFailure
    // waiting
    | AwaitTerminal | ReaderAwaits | AwaitDone | AwaitJoin
    // elsewhere
    | Reading | Watching | Outside | Ended

  /** exited is the child's own state; waits counts the calls of cmd.Wait. */
  datatype World = World(phase: Phase, forced: bool, exited: bool, lock: Option<nat>, waits: nat, terminal: bool, done: bool)

  datatype State = State(pcs: seq<PC>, w: World)

  /** What the environment chooses where a step has more than one outcome. */
  datatype Choice = Plainly | SeesExit | Fails

  datatype Action = ChildExits | Act(thread: nat, choice: Choice)

  /** Where one step takes its thread, and the world. */
  datatype Move = Move(pc: PC, w: World)

  function Initial(callers: nat): State {
    State([Observing, Reading, Watching] + seq(callers, _ => Outside), World(Running, false, false, None, 0, false, false))
  }

  /** Where a thread is once terminateProcess or reapNatural has returned to it. */
  function Returned(t: nat, choice: Choice): PC {
    if t == OBSERVER || t == CANCELLER then Ended
    else if t == READER then ReaderAwaits
    else if choice == Plainly then Outside
    else AwaitDone
  }

  /** Raw answers: the thread holds the lock. A probe or signal can only report an exit that happened. */
  function AnswerStep(w: World, pc: PC, choice: Choice): Option<Move> {
    var released := w.(lock := None);
    if choice == SeesExit then
      if w.exited && (pc.ObserveProbe? || pc.FirstProbe? || pc.Signalling? || pc.Reprobing?) then
        Some(Move(EnterNatural, released))
      else None
    else
      match pc
      case ObserveProbe => Some(Move(if choice == Fails then EnterTerminate else Observing, released))
      case FirstProbe => Some(Move(Signalling(0), w))
      case Signalling(attempt) =>
        Some(if choice == Fails then Move(Reprobing(attempt), w)
             else Move(MustWait, released.(phase := Reaping, forced := true)))
      case Reprobing(attempt) =>
        Some(if attempt + 1 < MAX_TERMINATION_ATTEMPTS then Move(Signalling(attempt + 1), w)
             else Move(MustPublishFailure, released.(phase := Failed)))
      case Cleaning => Some(Move(MustWait, released.(phase := Reaping)))
      case _ => None
  }

  /** Taking the lock, when it is free. */
  function LockStep(w: World, t: nat, pc: PC): Option<Move> {
    var taken := w.(lock := Some(t));
    if w.lock.Some? then None
    else
      match pc
      case Observing => Some(if w.phase == Running then Move(ObserveProbe, taken) else Move(Ended, w))
      case EnterTerminate => Some(if w.phase == Running then Move(FirstProbe, taken) else Move(AwaitTerminal, w))
      case EnterNatural => Some(if w.phase == Running then Move(Cleaning, taken) else Move(AwaitTerminal, w))
      case MustFinish => Some(Move(MustPublish, w.(phase := Finished)))
      case _ => None
  }

  /** cmd.Wait, and closing the terminal channel. cmd.Wait returns once the child has exited. */
  function OwnerStep(w: World, t: nat, pc: PC, choice: Choice): Option<Move> {
    match pc
    case MustWait => Some(Move(InWait, w.(waits := w.waits + 1)))
    case InWait => if w.exited then Some(Move(MustFinish, w)) else None
    case MustPublish => Some(Move(Returned(t, choice), w.(terminal := true)))
    case MustPublishFailure => Some(Move(Returned(t, choice), w.(terminal := true)))
    case _ => None
  }

  /** Receives from terminal and done, and the join of the three goroutines. */
  function WaitStep(w: World, t: nat, pc: PC, joined: bool, choice: Choice): Option<Move> {
    match pc
    case AwaitTerminal => if w.terminal then Some(Move(Returned(t, choice), w)) else None
    case ReaderAwaits => if w.terminal then Some(Move(Ended, w.(done := true))) else None
    case AwaitDone => if w.done then Some(Move(AwaitJoin, w)) else None
    case AwaitJoin => if joined then Some(Move(Outside, w)) else None
    case _ => None
  }

  /** The reader finding its end or a contract failure, the context ending, callers arriving, and the
      observer noticing between two probes that terminal is closed. */
  function FreeStep(w: World, pc: PC, choice: Choice): Option<Move> {
    match pc
    case Reading => Some(Move(if choice == Fails then EnterTerminate else ReaderAwaits, w))
    case Watching =>
      if choice == Fails then Some(Move(EnterTerminate, w))
      else if w.terminal then Some(Move(Ended, w)) else None
    case Outside => Some(Move(if choice == Fails then EnterTerminate else AwaitDone, w))
    case Observing => if w.terminal && choice == Fails then Some(Move(Ended, w)) else None
    case _ => None
  }

  function OrElse(a: Option<Move>, b: Option<Move>): Option<Move> {
    if a.Some? then a else b
  }

  function ThreadStep(w: World, t: nat, pc: PC, joined: bool, choice: Choice): Option<Move> {
    OrElse(AnswerStep(w, pc, choice),
           OrElse(FreeStep(w, pc, choice),
                  OrElse(LockStep(w, t, pc), OrElse(OwnerStep(w, t, pc, choice), WaitStep(w, t, pc, joined, choice)))))
  }

  predicate OwnThreadsEnded(s: State) {
    |s.pcs| >= OWN_THREADS && s.pcs[OBSERVER] == s.pcs[READER] == s.pcs[CANCELLER] == Ended
  }

  function Next(s: State, a: Action): Option<State> {
    match a
    case ChildExits => Some(s.(w := s.w.(exited := true)))
    case Act(t, choice) =>
      if t >= |s.pcs| then None
      else
        var m := ThreadStep(s.w, t, s.pcs[t], OwnThreadsEnded(s), choice);
        if m.Some? then Some(State(s.pcs[t := m.value.pc], m.value.w)) else None
  }

  /** The state after a run, if every action in it was possible. */
  function After(callers: nat, run: seq<Action>): Option<State> {
    if run == [] then Some(Initial(callers))
    else
      var before := After(callers, run[..|run| - 1]);
      if before.Some? then Next(before.value, run[|run| - 1]) else None
  }

  // ---------------------------------------------------------------- the invariant

  predicate HoldsLock(pc: PC) {
    pc.ObserveProbe? || pc.FirstProbe? || pc.Signalling? || pc.Reprobing? || pc.Cleaning?
  }

  /** Threads that will close terminal. */
  predicate Owns(pc: PC) {
    pc.MustWait? || pc.InWait? || pc.MustFinish? || pc.MustPublish? || pc.MustPublishFailure?
  }

  /** Which program counters belong to which thread. */
  predicate Belongs(t: nat, pc: PC) {
    && (pc.Observing? || pc.ObserveProbe? ==> t == OBSERVER)
    && (pc.Reading? || pc.ReaderAwaits? ==> t == READER)
    && (pc.Watching? ==> t == CANCELLER)
    && (pc.Outside? || pc.AwaitDone? || pc.AwaitJoin? ==> t >= OWN_THREADS)
    && (pc.Ended? ==> t < OWN_THREADS)
  }

  /** What a thread's program counter says about the world; owner is the thread on its way to closing
      terminal. */
  predicate Fits(w: World, owner: Option<nat>, t: nat, pc: PC) {
    && (HoldsLock(pc) <==> w.lock == Some(t))
    && (Owns(pc) <==> owner == Some(t))
    && (pc.MustWait? ==> w.waits == 0)
    && (pc.InWait? || pc.MustFinish? ==> w.waits == 1)
    && (pc.MustFinish? ==> w.exited)
    && (pc.MustWait? || pc.InWait? || pc.MustFinish? ==> w.phase == Reaping)
    && (pc.MustPublish? ==> w.phase == Finished)
    && (pc.MustPublishFailure? ==> w.phase == Failed)
    && (pc.AwaitTerminal? ==> w.phase != Running)
    && (pc.AwaitJoin? ==> w.done)
    && (pc.EnterNatural? || pc.Cleaning? ==> w.exited)
    && (pc.Ended? && t == OBSERVER ==> w.phase != Running)
    && (pc.Ended? && t == READER ==> w.done)
    && Belongs(t, pc)
  }

  predicate Consistent(w: World, owner: Option<nat>) {
    && (w.lock.Some? ==> w.phase == Running)
    && (owner.Some? <==> w.phase != Running && !w.terminal)
    && (w.phase == Running || w.phase == Failed ==> w.waits == 0)
    && w.waits <= 1
    && (w.phase == Finished ==> w.waits == 1 && w.exited)
    && (w.terminal ==> w.phase == Finished || w.phase == Failed)
    && (w.done ==> w.terminal)
    && (w.phase == Reaping && !w.forced ==> w.exited)
  }

  predicate Inv(s: State, owner: Option<nat>) {
    && |s.pcs| >= OWN_THREADS
    && Consistent(s.w, owner)
    && (s.w.lock.Some? ==> s.w.lock.value < |s.pcs|)
    && (owner.Some? ==> owner.value < |s.pcs|)
    && (forall t: nat :: t < |s.pcs| ==> Fits(s.w, owner, t, s.pcs[t]))
  }

  predicate Mine(t: nat, who: Option<nat>) {
    who == None || who == Some(t)
  }

  /** What thread t's step may change without disturbing the others. */
  predicate Undisturbed(w: World, owner: Option<nat>, t: nat, w': World, owner': Option<nat>) {
    && (w'.lock == w.lock || (Mine(t, w.lock) && Mine(t, w'.lock)))
    && (owner' == owner || (Mine(t, owner) && Mine(t, owner')))
    && (w.phase != Running ==> w'.phase != Running)
    && (w'.phase == w.phase || Mine(t, owner))
    && (w'.waits == w.waits || Mine(t, owner))
    && (w.done ==> w'.done)
    && (w.exited ==> w'.exited)
  }

  function OwnerAfter(owner: Option<nat>, t: nat, pc: PC): Option<nat> {
    if Owns(pc) then Some(t) else if owner == Some(t) then None else owner
  }

  /** What every step of thread t must do, given only what is known of t itself. */
  predicate Keeps(w: World, owner: Option<nat>, t: nat, m: Move) {
    var owner' := OwnerAfter(owner, t, m.pc);
    Undisturbed(w, owner, t, m.w, owner') && Fits(m.w, owner', t, m.pc) && Consistent(m.w, owner')
  }

  lemma AnswerKeeps(w: World, owner: Option<nat>, t: nat, pc: PC, choice: Choice)
    requires Consistent(w, owner) && Fits(w, owner, t, pc) && AnswerStep(w, pc, choice).Some?
    ensures Keeps(w, owner, t, AnswerStep(w, pc, choice).value)
  {
    if choice == SeesExit {
      SeenExitKeeps(w, owner, t, pc);
    } else {
      match pc
      case Signalling(_) => SignalKeeps(w, owner, t, pc, choice);
      case Reprobing(_) => ReprobeKeeps(w, owner, t, pc, choice);
      case _ =>
    }
  }

  lemma SeenExitKeeps(w: World, owner: Option<nat>, t: nat, pc: PC)
    requires Consistent(w, owner) && Fits(w, owner, t, pc) && HoldsLock(pc) && w.exited
    ensures Keeps(w, owner, t, Move(EnterNatural, w.(lock := None)))
  {}

  lemma SignalKeeps(w: World, owner: Option<nat>, t: nat, pc: PC, choice: Choice)
    requires Consistent(w, owner) && Fits(w, owner, t, pc) && pc.Signalling? && choice != SeesExit
    ensures Keeps(w, owner, t, AnswerStep(w, pc, choice).value)
  {}

  lemma ReprobeKeeps(w: World, owner: Option<nat>, t: nat, pc: PC, choice: Choice)
    requires Consistent(w, owner) && Fits(w, owner, t, pc) && pc.Reprobing? && choice != SeesExit
    ensures Keeps(w, owner, t, AnswerStep(w, pc, choice).value)
  {}

  lemma LockKeeps(w: World, owner: Option<nat>, t: nat, pc: PC)
    requires Consistent(w, owner) && Fits(w, owner, t, pc) && LockStep(w, t, pc).Some?
    ensures Keeps(w, owner, t, LockStep(w, t, pc).value)
  {}

  lemma OwnerKeeps(w: World, owner: Option<nat>, t: nat, pc: PC, choice: Choice)
    requires Consistent(w, owner) && Fits(w, owner, t, pc) && OwnerStep(w, t, pc, choice).Some?
    ensures Keeps(w, owner, t, OwnerStep(w, t, pc, choice).value)
  {}

  lemma WaitKeeps(w: World, owner: Option<nat>, t: nat, pc: PC, joined: bool, choice: Choice)
    requires Consistent(w, owner) && Fits(w, owner, t, pc) && WaitStep(w, t, pc, joined, choice).Some?
    ensures Keeps(w, owner, t, WaitStep(w, t, pc, joined, choice).value)
  {}

  lemma FreeKeeps(w: World, owner: Option<nat>, t: nat, pc: PC, choice: Choice)
    requires Consistent(w, owner) && Fits(w, owner, t, pc) && FreeStep(w, pc, choice).Some?
    ensures Keeps(w, owner, t, FreeStep(w, pc, choice).value)
  {}

  lemma ThreadKeeps(w: World, owner: Option<nat>, t: nat, pc: PC, joined: bool, choice: Choice)
    requires Consistent(w, owner) && Fits(w, owner, t, pc) && ThreadStep(w, t, pc, joined, choice).Some?
    ensures Keeps(w, owner, t, ThreadStep(w, t, pc, joined, choice).value)
  {
    if AnswerStep(w, pc, choice).Some? {
      AnswerKeeps(w, owner, t, pc, choice);
    } else if FreeStep(w, pc, choice).Some? {
      FreeKeeps(w, owner, t, pc, choice);
    } else if LockStep(w, t, pc).Some? {
      LockKeeps(w, owner, t, pc);
    } else if OwnerStep(w, t, pc, choice).Some? {
      OwnerKeeps(w, owner, t, pc, choice);
    } else {
      WaitKeeps(w, owner, t, pc, joined, choice);
    }
  }

  lemma OthersKeep(w: World, owner: Option<nat>, t: nat, w': World, owner': Option<nat>, u: nat, pc: PC)
    requires u != t && Fits(w, owner, u, pc) && Undisturbed(w, owner, t, w', owner')
    ensures Fits(w', owner', u, pc)
  {}

  lemma ExitKeeps(w: World, owner: Option<nat>, u: nat, pc: PC)
    requires Fits(w, owner, u, pc)
    ensures Fits(w.(exited := true), owner, u, pc)
  {}

  lemma NextKeeps(s: State, owner: Option<nat>, a: Action) returns (owner': Option<nat>)
    requires Inv(s, owner) && Next(s, a).Some?
    ensures Inv(Next(s, a).value, owner')
  {
    var s' := Next(s, a).value;
    match a
    case ChildExits =>
      owner' := owner;
      forall u: nat | u < |s.pcs| ensures Fits(s'.w, owner, u, s.pcs[u]) {
        ExitKeeps(s.w, owner, u, s.pcs[u]);
      }
    case Act(t, choice) =>
      owner' := OwnerAfter(owner, t, s'.pcs[t]);
      ThreadKeeps(s.w, owner, t, s.pcs[t], OwnThreadsEnded(s), choice);
      forall u: nat | u < |s.pcs| ensures Fits(s'.w, owner', u, s'.pcs[u]) {
        if u != t { OthersKeep(s.w, owner, t, s'.w, owner', u, s.pcs[u]); }
      }
  }

  lemma {:induction false} ReachableInv(callers: nat, run: seq<Action>) returns (owner: Option<nat>)
    requires After(callers, run).Some?
    ensures Inv(After(callers, run).value, owner)
  {
    if run == [] {
      owner := None;
    } else {
      var before := ReachableInv(callers, run[..|run| - 1]);
      owner := NextKeeps(After(callers, run[..|run| - 1]).value, before, run[|run| - 1]);
    }
  }

  // ---------------------------------------------------------------- safety

  /** A raw operation is only ever under way while the lifecycle is running, before any cmd.Wait, and
      one at a time. */
  lemma RawOperationsPrecedeReaping(callers: nat, run: seq<Action>, t: nat)
    requires After(callers, run).Some?
    requires t < |After(callers, run).value.pcs| && HoldsLock(After(callers, run).value.pcs[t])
    ensures var s := After(callers, run).value;
            && s.w.phase == Running && s.w.waits == 0 && !s.w.terminal
            && (forall u: nat :: u < |s.pcs| && HoldsLock(s.pcs[u]) ==> u == t)
            && (forall u: nat :: u < |s.pcs| ==> !Owns(s.pcs[u]))
  {
    var s := After(callers, run).value;
    var owner := ReachableInv(callers, run);
    forall u: nat | u < |s.pcs| ensures (HoldsLock(s.pcs[u]) ==> u == t) && !Owns(s.pcs[u]) {
      assert Fits(s.w, owner, t, s.pcs[t]) && Fits(s.w, owner, u, s.pcs[u]);
    }
  }

  /** cmd.Wait is called at most once, by the one thread that owns reaping; a natural owner finds the
      child already exited; and the phases say which of these has happened. */
  lemma SingleReaper(callers: nat, run: seq<Action>)
    requires After(callers, run).Some?
    ensures var s := After(callers, run).value;
            && s.w.waits <= 1
            && (forall t: nat, u: nat :: t < |s.pcs| && u < |s.pcs| && Owns(s.pcs[t]) && Owns(s.pcs[u]) ==> t == u)
            && (s.w.phase == Finished ==> s.w.waits == 1 && s.w.exited)
            && (s.w.phase == Failed ==> s.w.waits == 0)
            && (s.w.phase == Reaping && !s.w.forced ==> s.w.exited)
            && (s.w.terminal ==> s.w.phase == Finished || s.w.phase == Failed)
            && (s.w.done ==> s.w.terminal)
  {
    var s := After(callers, run).value;
    var owner := ReachableInv(callers, run);
    forall t: nat, u: nat | t < |s.pcs| && u < |s.pcs| && Owns(s.pcs[t]) && Owns(s.pcs[u]) ensures t == u {
      assert Fits(s.w, owner, t, s.pcs[t]) && Fits(s.w, owner, u, s.pcs[u]);
    }
  }

  // ---------------------------------------------------------------- nobody is stranded

  /** Whether some step of this thread is possible, whatever the environment chooses. */
  predicate CanStep(s: State, t: nat) {
    t < |s.pcs| && exists choice :: ThreadStep(s.w, t, s.pcs[t], OwnThreadsEnded(s), choice).Some?
  }

  /** The child's exit is what everything waits for: a signal was delivered, and cmd.Wait has not
      returned yet. */
  predicate AwaitsKernel(s: State, t: nat) {
    t < |s.pcs| && s.pcs[t].InWait? && s.w.forced && !s.w.exited
  }

  /** The observer has neither stopped nor lost its claim. */
  predicate ObserverActive(s: State) {
    |s.pcs| > 0 &&
    (s.pcs[OBSERVER].Observing? || s.pcs[OBSERVER].EnterTerminate? || s.pcs[OBSERVER].EnterNatural? || HoldsLock(s.pcs[OBSERVER]))
  }

  /** While terminal is open, either one thread owns the steps that will close it and can take the next
      of them, or the lifecycle is running, the observer is still at work, and it or the thread that
      holds the lock against it can move. So nobody who waits for terminal is stranded. */
  lemma NobodyStranded(callers: nat, run: seq<Action>) returns (t: nat)
    requires After(callers, run).Some? && !After(callers, run).value.w.terminal
    ensures var s := After(callers, run).value;
            && (CanStep(s, t) || AwaitsKernel(s, t))
            && (if s.w.phase == Running then ObserverActive(s) && (t == OBSERVER || s.w.lock == Some(t))
                else t < |s.pcs| && Owns(s.pcs[t]))
  {
    var s := After(callers, run).value;
    var owner := ReachableInv(callers, run);
    t := if s.w.phase != Running then owner.value else if s.w.lock.Some? then s.w.lock.value else OBSERVER;
    assert Fits(s.w, owner, t, s.pcs[t]) && Fits(s.w, owner, OBSERVER, s.pcs[OBSERVER]);
    if !AwaitsKernel(s, t) {
      assert ThreadStep(s.w, t, s.pcs[t], OwnThreadsEnded(s), Plainly).Some?;
    }
  }

  lemma Continue(callers: nat, run: seq<Action>, a: Action)
    requires After(callers, run).Some? && Next(After(callers, run).value, a).Some?
    ensures After(callers, run + [a]) == Next(After(callers, run).value, a)
  {
    assert (run + [a])[..|run|] == run;
  }

  function StepsToTerminal(pc: PC): nat {
    match pc
    case MustWait => 4
    case InWait => 3
    case MustFinish => 2
    case MustPublish => 1
    case MustPublishFailure => 1
    case _ => 0
  }

  lemma OwnerMoves(w: World, t: nat, pc: PC, joined: bool)
    requires Fits(w, Some(t), t, pc) && Owns(pc) && Consistent(w, Some(t)) && (w.exited || w.phase == Failed)
    ensures ThreadStep(w, t, pc, joined, Plainly).Some?
    ensures var m := ThreadStep(w, t, pc, joined, Plainly).value;
            if StepsToTerminal(pc) == 1 then m.w.terminal
            else Owns(m.pc) && m.w.exited && StepsToTerminal(m.pc) == StepsToTerminal(pc) - 1
  {}

  /** The owner alone closes terminal, in at most four steps of its own, once the child has exited. */
  lemma {:induction false} OwnerCloses(callers: nat, run: seq<Action>, t: nat) returns (rest: seq<Action>)
    requires After(callers, run).Some?
    requires var s := After(callers, run).value;
             t < |s.pcs| && Owns(s.pcs[t]) && (s.w.exited || s.w.phase == Failed)
    ensures |rest| == StepsToTerminal(After(callers, run).value.pcs[t]) <= 4
    ensures forall i :: 0 <= i < |rest| ==> rest[i] == Act(t, Plainly)
    ensures After(callers, run + rest).Some? && After(callers, run + rest).value.w.terminal
    decreases StepsToTerminal(After(callers, run).value.pcs[t])
  {
    var s := After(callers, run).value;
    var a := Act(t, Plainly);
    var owner := ReachableInv(callers, run);
    assert Fits(s.w, owner, t, s.pcs[t]);
    OwnerMoves(s.w, t, s.pcs[t], OwnThreadsEnded(s));
    Continue(callers, run, a);
    if StepsToTerminal(s.pcs[t]) == 1 {
      rest := [a];
    } else {
      rest := OwnerCloses(callers, run + [a], t);
      Assoc(run, [a], rest);
      rest := [a] + rest;
    }
  }

  /** How far a thread that can take the lock, or has it, is from owning the way to a closed terminal. */
  function StepsToClaim(pc: PC): nat {
    match pc
    case Observing => 4
    case EnterTerminate => 4
    case ObserveProbe => 3
    case FirstProbe => 3
    case Signalling(_) => 3
    case Reprobing(_) => 3
    case EnterNatural => 2
    case Cleaning => 1
    case _ => 0
  }

  /** Every probe and signal reports the exit, which has happened. */
  function ClaimChoice(pc: PC): Choice {
    if HoldsLock(pc) && !pc.Cleaning? then SeesExit else Plainly
  }

  /** The thread can go on whatever the others do: nobody else holds the lock. */
  predicate CanClaim(w: World, t: nat, pc: PC) {
    w.phase == Running && w.exited && Mine(t, w.lock) && StepsToClaim(pc) > 0
  }

  lemma ClaimMoves(w: World, t: nat, pc: PC, joined: bool)
    requires CanClaim(w, t, pc) && Fits(w, None, t, pc) && Consistent(w, None)
    ensures ThreadStep(w, t, pc, joined, ClaimChoice(pc)).Some?
    ensures var m := ThreadStep(w, t, pc, joined, ClaimChoice(pc)).value;
            && m.w.exited
            && (Owns(m.pc) || (CanClaim(m.w, t, m.pc) && StepsToClaim(m.pc) < StepsToClaim(pc)))
  {}

  predicate OnlyActs(run: seq<Action>, t: nat) {
    forall k :: 0 <= k < |run| ==> run[k].Act? && run[k].thread == t
  }

  /** Once the child has exited, one thread alone takes the lifecycle from running to a closed terminal. */
  lemma {:induction false} ClaimCloses(callers: nat, run: seq<Action>, t: nat) returns (more: seq<Action>)
    requires After(callers, run).Some?
    requires var s := After(callers, run).value; t < |s.pcs| && CanClaim(s.w, t, s.pcs[t])
    ensures OnlyActs(more, t) && |more| <= StepsToClaim(After(callers, run).value.pcs[t]) + 4
    ensures After(callers, run + more).Some? && After(callers, run + more).value.w.terminal
    decreases StepsToClaim(After(callers, run).value.pcs[t])
  {
    var s := After(callers, run).value;
    var a := Act(t, ClaimChoice(s.pcs[t]));
    var owner := ReachableInv(callers, run);
    assert Fits(s.w, owner, t, s.pcs[t]);
    ClaimMoves(s.w, t, s.pcs[t], OwnThreadsEnded(s));
    Continue(callers, run, a);
    var rest;
    if Owns(After(callers, run + [a]).value.pcs[t]) {
      rest := OwnerCloses(callers, run + [a], t);
    } else {
      rest := ClaimCloses(callers, run + [a], t);
    }
    Assoc(run, [a], rest);
    more := [a] + rest;
  }

  /** From any point of any run after the child's exit, some one thread closes terminal in at most eight
      steps of its own: its owner, or the holder of the lock, or the observer. */
  lemma ExitCloses(callers: nat, run: seq<Action>) returns (t: nat, more: seq<Action>)
    requires After(callers, run).Some? && After(callers, run).value.w.exited
    ensures OnlyActs(more, t) && |more| <= 8
    ensures After(callers, run + more).Some? && After(callers, run + more).value.w.terminal
  {
    var s := After(callers, run).value;
    if s.w.terminal {
      t, more := OBSERVER, [];
      PlusEmpty(run);
    } else {
      var owner := ReachableInv(callers, run);
      t := if s.w.phase != Running then owner.value else if s.w.lock.Some? then s.w.lock.value else OBSERVER;
      assert Fits(s.w, owner, t, s.pcs[t]);
      if s.w.phase == Running {
        more := ClaimCloses(callers, run, t);
      } else {
        more := OwnerCloses(callers, run, t);
      }
    }
  }

  /** How many steps one of the agent's own threads has left once terminal is closed. */
  function StepsLeft(pc: PC): nat {
    match pc
    case Reading => 4
    case EnterTerminate => 3
    case EnterNatural => 3
    case AwaitTerminal => 2
    case Observing => 1
    case Watching => 4
    case ReaderAwaits => 1
    case _ => 0
  }

  lemma Drains(w: World, owner: Option<nat>, t: nat, pc: PC, joined: bool, choice: Choice)
    requires Consistent(w, owner) && Fits(w, owner, t, pc) && w.terminal && t < OWN_THREADS
    ensures pc == Ended <==> StepsLeft(pc) == 0
    ensures pc != Ended ==> ThreadStep(w, t, pc, joined, Plainly).Some?
    ensures ThreadStep(w, t, pc, joined, choice).Some? ==>
              StepsLeft(ThreadStep(w, t, pc, joined, choice).value.pc) < StepsLeft(pc)
  {}

  /** Once terminal is closed each of the agent's own threads can always step until it has ended, and
      each of its steps brings its end nearer: done is closed, Wait returns, nothing is leaked. */
  lemma TerminalDrains(callers: nat, run: seq<Action>, t: nat, choice: Choice)
    requires After(callers, run).Some? && After(callers, run).value.w.terminal && t < OWN_THREADS
    ensures var s := After(callers, run).value;
            && t < |s.pcs|
            && (s.pcs[t] == Ended || CanStep(s, t))
            && (s.pcs[t] == Ended <==> StepsLeft(s.pcs[t]) == 0)
            && (Next(s, Act(t, choice)).Some? ==>
                  StepsLeft(Next(s, Act(t, choice)).value.pcs[t]) < StepsLeft(s.pcs[t]))
            && (OwnThreadsEnded(s) ==> s.w.done)
  {
    var s := After(callers, run).value;
    var owner := ReachableInv(callers, run);
    assert Fits(s.w, owner, READER, s.pcs[READER]);
    Drains(s.w, owner, t, s.pcs[t], OwnThreadsEnded(s), choice);
  }

  /** Only thread t has moved. */
  predicate OnlyMoved(s: State, t: nat, s': State) {
    |s'.pcs| == |s.pcs| && forall u: nat :: u < |s.pcs| && u != t ==> s'.pcs[u] == s.pcs[u]
  }

  /** After terminal is closed each of the agent's own threads ends by its own steps. */
  lemma {:induction false} OwnThreadEnds(callers: nat, run: seq<Action>, t: nat) returns (more: seq<Action>)
    requires After(callers, run).Some? && After(callers, run).value.w.terminal
    requires t < OWN_THREADS <= |After(callers, run).value.pcs|
    ensures OnlyActs(more, t) && After(callers, run + more).Some?
    ensures var s, s' := After(callers, run).value, After(callers, run + more).value;
            OnlyMoved(s, t, s') && s'.w.terminal && t < |s'.pcs| && s'.pcs[t] == Ended
    decreases StepsLeft(After(callers, run).value.pcs[t])
  {
    var s := After(callers, run).value;
    var owner := ReachableInv(callers, run);
    if s.pcs[t] == Ended {
      more := [];
      PlusEmpty(run);
    } else {
      var a := Act(t, Plainly);
      assert Fits(s.w, owner, t, s.pcs[t]);
      Drains(s.w, owner, t, s.pcs[t], OwnThreadsEnded(s), Plainly);
      StaysTerminal(s, a);
      Continue(callers, run, a);
      var rest := OwnThreadEnds(callers, run + [a], t);
      Assoc(run, [a], rest);
      more := [a] + rest;
    }
  }

  lemma StaysTerminal(s: State, a: Action)
    requires s.w.terminal && Next(s, a).Some?
    ensures Next(s, a).value.w.terminal && (s.w.done ==> Next(s, a).value.w.done)
  {}

  /** How many steps a caller still inside has left once done is closed. */
  function StepsToReturn(pc: PC): nat {
    match pc
    case EnterTerminate => 3
    case EnterNatural => 3
    case AwaitTerminal => 2
    case AwaitDone => 2
    case AwaitJoin => 1
    case _ => 0
  }

  lemma CallerMoves(w: World, owner: Option<nat>, t: nat, pc: PC)
    requires Consistent(w, owner) && Fits(w, owner, t, pc) && w.done && t >= OWN_THREADS
    ensures pc == Outside <==> StepsToReturn(pc) == 0
    ensures pc != Outside ==> ThreadStep(w, t, pc, true, Plainly).Some?
    ensures pc != Outside ==>
              var m := ThreadStep(w, t, pc, true, Plainly).value;
              StepsToReturn(m.pc) < StepsToReturn(pc) && m.w == w
  {}

  /** Nobody of the agent's own is left. */
  predicate Drained(s: State) {
    OwnThreadsEnded(s) && s.w.done && s.w.terminal
  }

  lemma {:induction false} CallerReturns(callers: nat, run: seq<Action>, t: nat) returns (more: seq<Action>)
    requires After(callers, run).Some? && Drained(After(callers, run).value)
    requires OWN_THREADS <= t < |After(callers, run).value.pcs|
    ensures OnlyActs(more, t) && After(callers, run + more).Some? && Drained(After(callers, run + more).value)
    ensures var s, s' := After(callers, run).value, After(callers, run + more).value;
            OnlyMoved(s, t, s') && s'.pcs[t] == Outside
    decreases StepsToReturn(After(callers, run).value.pcs[t])
  {
    var s := After(callers, run).value;
    var owner := ReachableInv(callers, run);
    assert Fits(s.w, owner, t, s.pcs[t]);
    CallerMoves(s.w, owner, t, s.pcs[t]);
    if s.pcs[t] == Outside {
      more := [];
      PlusEmpty(run);
    } else {
      var a := Act(t, Plainly);
      Continue(callers, run, a);
      var rest := CallerReturns(callers, run + [a], t);
      Assoc(run, [a], rest);
      more := [a] + rest;
    }
  }

  /** Only threads of the agent and its callers act. */
  predicate AllActs(run: seq<Action>) {
    forall k :: 0 <= k < |run| ==> run[k].Act?
  }

  lemma Then(callers: nat, run: seq<Action>, first: seq<Action>, second: seq<Action>) returns (more: seq<Action>)
    requires AllActs(first) && AllActs(second)
    ensures AllActs(more) && run + more == (run + first) + second
  {
    more := first + second;
    Assoc(run, first, second);
  }

  /** The observer, the reader and the canceller end, one after the other. */
  lemma OwnThreadsEnd(callers: nat, run: seq<Action>) returns (more: seq<Action>)
    requires After(callers, run).Some? && After(callers, run).value.w.terminal
    ensures AllActs(more) && After(callers, run + more).Some? && Drained(After(callers, run + more).value)
  {
    var owner := ReachableInv(callers, run);
    more := OwnThreadEnds(callers, run, OBSERVER);
    var rest := OwnThreadEnds(callers, run + more, READER);
    more := Then(callers, run, more, rest);
    rest := OwnThreadEnds(callers, run + more, CANCELLER);
    more := Then(callers, run, more, rest);
    owner := ReachableInv(callers, run + more);
    var s := After(callers, run + more).value;
    assert Fits(s.w, owner, READER, s.pcs[READER]);
  }

  lemma {:induction false} CallersReturn(callers: nat, run: seq<Action>, n: nat) returns (more: seq<Action>)
    requires After(callers, run).Some? && Drained(After(callers, run).value)
    requires OWN_THREADS <= n <= |After(callers, run).value.pcs|
    ensures AllActs(more) && After(callers, run + more).Some? && Drained(After(callers, run + more).value)
    ensures var s' := After(callers, run + more).value;
            && |s'.pcs| == |After(callers, run).value.pcs|
            && forall t: nat :: OWN_THREADS <= t < n ==> s'.pcs[t] == Outside
    decreases n
  {
    if n == OWN_THREADS {
      more := [];
      PlusEmpty(run);
    } else {
      var first := CallersReturn(callers, run, n - 1);
      var last := CallerReturns(callers, run + first, n - 1);
      more := Then(callers, run, first, last);
    }
  }

  /** From any point of any run after the child's exit: terminal can be closed, done closed after it, every
      goroutine of the agent end and every caller of Kill, TerminateAndWait and Wait return. */
  lemma EverybodyReturns(callers: nat, run: seq<Action>) returns (more: seq<Action>)
    requires After(callers, run).Some? && After(callers, run).value.w.exited
    ensures AllActs(more) && After(callers, run + more).Some?
    ensures var s' := After(callers, run + more).value;
            Drained(s') && forall t: nat :: OWN_THREADS <= t < |s'.pcs| ==> s'.pcs[t] == Outside
  {
    var t;
    t, more := ExitCloses(callers, run);
    var rest := OwnThreadsEnd(callers, run + more);
    more := Then(callers, run, more, rest);
    rest := CallersReturn(callers, run + more, |After(callers, run + more).value.pcs|);
    more := Then(callers, run, more, rest);
  }

  // ---------------------------------------------------------------- asking for termination

  /** Thread t acting alone, with these outcomes one after the other. */
  function Alone(w: World, t: nat, pc: PC, choices: seq<Choice>): Option<Move>
    decreases |choices|
  {
    if choices == [] then Some(Move(pc, w))
    else
      var m := ThreadStep(w, t, pc, false, choices[0]);
      if m.None? then None else Alone(m.value.w, t, m.value.pc, choices[1..])
  }

  function Acts(t: nat, choices: seq<Choice>): seq<Action> {
    if choices == [] then [] else [Act(t, choices[0])] + Acts(t, choices[1..])
  }

  lemma JoiningOnlyHelps(w: World, t: nat, pc: PC, joined: bool, choice: Choice)
    requires ThreadStep(w, t, pc, false, choice).Some?
    ensures ThreadStep(w, t, pc, joined, choice) == ThreadStep(w, t, pc, false, choice)
  {}

  /** Acting so, thread t alone comes to pc and the world to w. */
  predicate Arrives(callers: nat, run: seq<Action>, t: nat, choices: seq<Choice>, pc: PC, w: World)
    requires After(callers, run).Some? && t < |After(callers, run).value.pcs|
  {
    && OnlyActs(Acts(t, choices), t)
    && After(callers, run + Acts(t, choices)) == Some(State(After(callers, run).value.pcs[t := pc], w))
  }

  lemma StepAlone(callers: nat, run: seq<Action>, t: nat, choice: Choice, m: Move)
    requires After(callers, run).Some? && t < |After(callers, run).value.pcs|
    requires var s := After(callers, run).value; ThreadStep(s.w, t, s.pcs[t], false, choice) == Some(m)
    ensures After(callers, run + [Act(t, choice)]) == Some(State(After(callers, run).value.pcs[t := m.pc], m.w))
  {
    var s := After(callers, run).value;
    JoiningOnlyHelps(s.w, t, s.pcs[t], OwnThreadsEnded(s), choice);
    Continue(callers, run, Act(t, choice));
  }

  /** What a thread does alone it does in the protocol, from any reachable state. */
  lemma {:induction false} ActsAlone(callers: nat, run: seq<Action>, t: nat, choices: seq<Choice>, m: Move)
    requires After(callers, run).Some? && t < |After(callers, run).value.pcs|
    requires var s := After(callers, run).value; Alone(s.w, t, s.pcs[t], choices) == Some(m)
    ensures Arrives(callers, run, t, choices, m.pc, m.w)
    decreases |choices|
  {
    var s := After(callers, run).value;
    if choices == [] {
      PlusEmpty(run);
      assert s.pcs[t := s.pcs[t]] == s.pcs;
    } else {
      var a := Act(t, choices[0]);
      var first := ThreadStep(s.w, t, s.pcs[t], false, choices[0]).value;
      StepAlone(callers, run, t, choices[0], first);
      ActsAlone(callers, run + [a], t, choices[1..], m);
      assert s.pcs[t := first.pc][t := m.pc] == s.pcs[t := m.pc];
      Assoc(run, [a], Acts(t, choices[1..]));
    }
  }

  /** Threads that can ask for the child's end: a caller of Kill or TerminateAndWait, the canceller when
      the context ends, the reader at a contract failure, the observer when its probe fails. */
  predicate CanAsk(t: nat, pc: PC) {
    || (t >= OWN_THREADS && pc == Outside)
    || (t == CANCELLER && pc == Watching)
    || (t == READER && pc == Reading)
    || (t == OBSERVER && pc == Observing)
  }

  /** Asking, taking the lock, and a probe that finds the child running; the observer comes to ask by a
      probe of its own that fails. */
  function Asking(t: nat): seq<Choice> {
    if t == OBSERVER then [Plainly, Fails, Plainly, Plainly] else [Fails, Plainly, Plainly]
  }

  /** n signals refused, each followed by a probe that finds the child still running, and then the rest. */
  function Refused(n: nat, rest: seq<Choice>): seq<Choice> {
    if n == 0 then rest else [Fails, Plainly] + Refused(n - 1, rest)
  }

  predicate Asks(s: State, t: nat) {
    s.w.phase == Running && s.w.lock.None? && t < |s.pcs| && CanAsk(t, s.pcs[t])
  }

  lemma OneAlone(w: World, t: nat, pc: PC, choice: Choice, rest: seq<Choice>)
    requires ThreadStep(w, t, pc, false, choice).Some?
    ensures var m := ThreadStep(w, t, pc, false, choice).value;
            Alone(w, t, pc, [choice] + rest) == Alone(m.w, t, m.pc, rest)
  {
    assert ([choice] + rest)[1..] == rest;
  }

  lemma {:induction false} AskingAlone(w: World, t: nat, pc: PC, rest: seq<Choice>)
    requires w.phase == Running && w.lock.None? && CanAsk(t, pc)
    ensures Alone(w, t, pc, Asking(t) + rest) == Alone(w.(lock := Some(t)), t, Signalling(0), rest)
  {
    var after := [Plainly] + ([Plainly] + rest);
    var asked := [Fails] + after;
    var taken := w.(lock := Some(t));
    if t == OBSERVER {
      assert Asking(t) + rest == [Plainly] + asked;
      OneAlone(w, t, Observing, Plainly, asked);
      OneAlone(taken, t, ObserveProbe, Fails, after);
    } else {
      assert Asking(t) + rest == asked;
      OneAlone(w, t, pc, Fails, after);
    }
    OneAlone(w, t, EnterTerminate, Plainly, [Plainly] + rest);
    OneAlone(taken, t, FirstProbe, Plainly, rest);
  }

  lemma {:induction false} RefusedAlone(w: World, t: nat, k: nat, n: nat, rest: seq<Choice>)
    requires k + n < MAX_TERMINATION_ATTEMPTS
    ensures Alone(w, t, Signalling(k), Refused(n, rest)) == Alone(w, t, Signalling(k + n), rest)
    decreases n
  {
    if n > 0 {
      var left := Refused(n - 1, rest);
      assert Refused(n, rest) == [Fails] + ([Plainly] + left);
      OneAlone(w, t, Signalling(k), Fails, [Plainly] + left);
      OneAlone(w, t, Reprobing(k), Plainly, left);
      RefusedAlone(w, t, k + 1, n - 1, rest);
    }
  }

  /** Whoever asks while nobody holds the lock of a running child comes to a signal by acts of its own,
      whether or not the child has exited, and to as many further ones as the claim allows while they are
      refused. */
  lemma AskingSignals(callers: nat, run: seq<Action>, t: nat, n: nat)
    requires After(callers, run).Some? && Asks(After(callers, run).value, t) && n < MAX_TERMINATION_ATTEMPTS
    ensures Arrives(callers, run, t, Asking(t) + Refused(n, []), Signalling(n), After(callers, run).value.w.(lock := Some(t)))
  {
    var s := After(callers, run).value;
    SignallingAlone(s.w, t, s.pcs[t], n, []);
    ActsAlone(callers, run, t, Asking(t) + Refused(n, []), Move(Signalling(n), s.w.(lock := Some(t))));
  }

  lemma SignallingAlone(w: World, t: nat, pc: PC, n: nat, rest: seq<Choice>)
    requires w.phase == Running && w.lock.None? && CanAsk(t, pc) && n < MAX_TERMINATION_ATTEMPTS
    ensures Alone(w, t, pc, Asking(t) + Refused(n, rest)) == Alone(w.(lock := Some(t)), t, Signalling(n), rest)
  {
    AskingAlone(w, t, pc, Refused(n, rest));
    RefusedAlone(w.(lock := Some(t)), t, 0, n, rest);
  }

  /** A signal that is delivered, after any number of refusals the claim allows, leaves the reaping to its
      sender and marks the child's end as forced. */
  lemma DeliveredSignalForces(callers: nat, run: seq<Action>, t: nat, n: nat)
    requires After(callers, run).Some? && Asks(After(callers, run).value, t) && n < MAX_TERMINATION_ATTEMPTS
    ensures Arrives(callers, run, t, Asking(t) + Refused(n, [Plainly]), MustWait,
                    After(callers, run).value.w.(phase := Reaping, forced := true))
  {
    var s := After(callers, run).value;
    SignallingAlone(s.w, t, s.pcs[t], n, [Plainly]);
    DeliveredAlone(s.w, t, n);
    ActsAlone(callers, run, t, Asking(t) + Refused(n, [Plainly]), Move(MustWait, s.w.(phase := Reaping, forced := true)));
  }

  lemma DeliveredAlone(w: World, t: nat, n: nat)
    requires w.lock.None?
    ensures Alone(w.(lock := Some(t)), t, Signalling(n), [Plainly]) ==
            Some(Move(MustWait, w.(phase := Reaping, forced := true)))
  {
    OneAlone(w.(lock := Some(t)), t, Signalling(n), Plainly, []);
  }

  /** The last attempt refused: give up, publish, return. */
  function LastRefused(last: Choice): seq<Choice> {
    [Fails] + ([Plainly] + ([last] + []))
  }

  /** Every attempt of the claim refused. */
  function AllRefused(last: Choice): seq<Choice> {
    Refused(MAX_TERMINATION_ATTEMPTS - 1, LastRefused(last))
  }

  /** Where a thread goes on that found its termination claim to have failed: Kill returns, TerminateAndWait
      goes on to wait, and the agent's own threads go their way. */
  predicate GoesOn(t: nat, last: Choice, pc: PC) {
    if t == READER then pc == ReaderAwaits
    else if t < OWN_THREADS then pc == Ended
    else pc == if last == Plainly then Outside else AwaitDone
  }

  lemma FailureAlone(w: World, t: nat, last: Choice) returns (pc: PC)
    requires w.lock.None? && last != SeesExit
    ensures GoesOn(t, last, pc)
    ensures Alone(w.(lock := Some(t)), t, Signalling(MAX_TERMINATION_ATTEMPTS - 1), LastRefused(last)) ==
            Some(Move(pc, w.(phase := Failed, terminal := true)))
  {
    pc := Returned(t, last);
    var taken := w.(lock := Some(t));
    var k := MAX_TERMINATION_ATTEMPTS - 1;
    OneAlone(taken, t, Signalling(k), Fails, [Plainly] + ([last] + []));
    OneAlone(taken, t, Reprobing(k), Plainly, [last] + []);
    OneAlone(w.(phase := Failed), t, MustPublishFailure, last, []);
  }

  /** Where every attempt is refused the same thread closes terminal with nothing reaped and the child's end
      not forced. */
  lemma RefusedTerminationFails(callers: nat, run: seq<Action>, t: nat, last: Choice) returns (pc: PC)
    requires After(callers, run).Some? && Asks(After(callers, run).value, t) && last != SeesExit
    ensures GoesOn(t, last, pc)
    ensures Arrives(callers, run, t, Asking(t) + AllRefused(last), pc,
                    After(callers, run).value.w.(phase := Failed, terminal := true))
  {
    var s := After(callers, run).value;
    SignallingAlone(s.w, t, s.pcs[t], MAX_TERMINATION_ATTEMPTS - 1, LastRefused(last));
    pc := FailureAlone(s.w, t, last);
    ActsAlone(callers, run, t, Asking(t) + AllRefused(last), Move(pc, s.w.(phase := Failed, terminal := true)));
  }

  lemma FirstAlone(w: World, t: nat, pc: PC, choices: seq<Choice>)
    requires choices != [] && ThreadStep(w, t, pc, false, choices[0]).Some?
    ensures var m := ThreadStep(w, t, pc, false, choices[0]).value;
            Alone(w, t, pc, choices) == Alone(m.w, t, m.pc, choices[1..])
  {}

  /** Taking the lock, a probe that reports the exit, and the six steps after it. */
  function SeeingExit(rest: seq<Choice>): seq<Choice> {
    [Plainly] + ([SeesExit] + rest)
  }

  /** The cleanup before the reaping may fail as well as succeed. */
  lemma CleanedAlone(w: World, t: nat, rest: seq<Choice>)
    requires w.phase == Running && w.lock.None? && |rest| >= 2 && SeesExit !in rest
    ensures Alone(w, t, EnterNatural, rest) == Alone(w.(phase := Reaping), t, MustWait, rest[2..])
  {
    FirstAlone(w, t, EnterNatural, rest);
    FirstAlone(w.(lock := Some(t)), t, Cleaning, rest[1..]);
    assert rest[1..][1..] == rest[2..];
  }

  lemma ReapedAlone(w: World, t: nat, rest: seq<Choice>)
    requires w.lock.None? && w.exited && |rest| == 4 && SeesExit !in rest
    ensures Alone(w.(phase := Reaping), t, MustWait, rest) ==
            Some(Move(Returned(t, rest[3]), w.(phase := Finished, waits := w.waits + 1, terminal := true)))
  {
    var waited := w.(phase := Reaping, waits := w.waits + 1);
    FirstAlone(w.(phase := Reaping), t, MustWait, rest);
    FirstAlone(waited, t, InWait, rest[1..]);
    FirstAlone(waited, t, MustFinish, rest[1..][1..]);
    FirstAlone(waited.(phase := Finished), t, MustPublish, rest[1..][1..][1..]);
  }

  lemma SeenAlone(w: World, rest: seq<Choice>)
    requires w.phase == Running && w.lock.None? && w.exited && |rest| == 6 && SeesExit !in rest
    ensures Alone(w, OBSERVER, Observing, SeeingExit(rest)) ==
            Some(Move(Ended, w.(phase := Finished, waits := w.waits + 1, terminal := true)))
  {
    OneAlone(w, OBSERVER, Observing, Plainly, [SeesExit] + rest);
    OneAlone(w.(lock := Some(OBSERVER)), OBSERVER, ObserveProbe, SeesExit, rest);
    CleanedAlone(w, OBSERVER, rest);
    ReapedAlone(w, OBSERVER, rest[2..]);
  }

  /** An exit the observer sees is cleaned up, reaped and published by the observer alone, and is not taken
      for a forced end. */
  lemma SeenExitIsReaped(callers: nat, run: seq<Action>, rest: seq<Choice>)
    requires After(callers, run).Some? && After(callers, run).value.w.exited
    requires Asks(After(callers, run).value, OBSERVER) && |rest| == 6 && SeesExit !in rest
    ensures var w := After(callers, run).value.w;
            Arrives(callers, run, OBSERVER, SeeingExit(rest), Ended, w.(phase := Finished, waits := w.waits + 1, terminal := true))
  {
    var w := After(callers, run).value.w;
    SeenAlone(w, rest);
    ActsAlone(callers, run, OBSERVER, SeeingExit(rest),
              Move(Ended, w.(phase := Finished, waits := w.waits + 1, terminal := true)));
  }

  /** Wait returns only when the lifecycle is settled, done is closed and no thread of the agent is left. */
  lemma WaitReturnsAfterReclaim(callers: nat, run: seq<Action>, t: nat, choice: Choice)
    requires After(callers, run).Some?
    requires var s := After(callers, run).value;
             && t < |s.pcs| && (s.pcs[t].AwaitDone? || s.pcs[t].AwaitJoin?)
             && Next(s, Act(t, choice)).Some? && (s.pcs[t].AwaitJoin? || Next(s, Act(t, choice)).value.pcs[t] == Outside)
    ensures var s := After(callers, run).value;
            s.w.terminal && s.w.done && OwnThreadsEnded(s) && (s.w.phase == Finished || s.w.phase == Failed)
  {
    var s := After(callers, run).value;
    var owner := ReachableInv(callers, run);
    assert Fits(s.w, owner, t, s.pcs[t]);
  }

  /** A caller comes out of its request for termination only with terminal closed, whoever closed it. */
  lemma TerminationReturnsAfterTerminal(callers: nat, run: seq<Action>, t: nat, choice: Choice)
    requires After(callers, run).Some?
    requires var s := After(callers, run).value;
             && OWN_THREADS <= t < |s.pcs| && !s.pcs[t].Outside? && !s.pcs[t].AwaitDone? && !s.pcs[t].AwaitJoin?
             && Next(s, Act(t, choice)).Some?
             && Next(s, Act(t, choice)).value.pcs[t] in {Outside, AwaitDone, AwaitJoin}
    ensures Next(After(callers, run).value, Act(t, choice)).value.w.terminal
  {
    var s := After(callers, run).value;
    var owner := ReachableInv(callers, run);
    assert Fits(s.w, owner, t, s.pcs[t]);
    ReturnsWithTerminal(s.w, owner, t, s.pcs[t], OwnThreadsEnded(s), choice);
  }

  lemma ReturnsWithTerminal(w: World, owner: Option<nat>, t: nat, pc: PC, joined: bool, choice: Choice)
    requires Fits(w, owner, t, pc) && t >= OWN_THREADS && !pc.Outside? && !pc.AwaitDone? && !pc.AwaitJoin?
    requires ThreadStep(w, t, pc, joined, choice).Some?
    requires ThreadStep(w, t, pc, joined, choice).value.pc in {Outside, AwaitDone, AwaitJoin}
    ensures ThreadStep(w, t, pc, joined, choice).value.w.terminal
  {}

  /** The canceller watches the context until terminal is closed, so no cancellation is missed before. */
  lemma {:induction false} CancellerStays(callers: nat, run: seq<Action>)
    requires After(callers, run).Some?
    ensures var s := After(callers, run).value;
            |s.pcs| > CANCELLER && (s.pcs[CANCELLER] == Ended ==> s.w.terminal)
  {
    if run != [] {
      var before, a := run[..|run| - 1], run[|run| - 1];
      CancellerStays(callers, before);
      var owner := ReachableInv(callers, before);
      var s := After(callers, before).value;
      if a.Act? {
        assert Fits(s.w, owner, a.thread, s.pcs[a.thread]);
        CancellerStep(s.w, owner, a.thread, s.pcs[a.thread], OwnThreadsEnded(s), a.choice);
      }
    }
  }

  lemma CancellerStep(w: World, owner: Option<nat>, t: nat, pc: PC, joined: bool, choice: Choice)
    requires Fits(w, owner, t, pc) && ThreadStep(w, t, pc, joined, choice).Some?
    ensures var m := ThreadStep(w, t, pc, joined, choice).value;
            (w.terminal ==> m.w.terminal) && (t == CANCELLER && m.pc == Ended ==> m.w.terminal)
  {}

  /** A signal that is delivered. */
  predicate Delivers(s: State, a: Action) {
    a.Act? && a.choice == Plainly && a.thread < |s.pcs| && s.pcs[a.thread].Signalling?
  }

  function Delivered(callers: nat, run: seq<Action>): bool {
    if run == [] then false
    else
      var before, a := After(callers, run[..|run| - 1]), run[|run| - 1];
      (before.Some? && Delivers(before.value, a)) || Delivered(callers, run[..|run| - 1])
  }

  lemma ForcedStep(w: World, t: nat, pc: PC, joined: bool, choice: Choice)
    requires ThreadStep(w, t, pc, joined, choice).Some?
    ensures var m := ThreadStep(w, t, pc, joined, choice).value;
            (m.w.forced <==> w.forced || (pc.Signalling? && choice == Plainly)) && m.w.exited == w.exited
  {
    match pc
    case Signalling(_) =>
    case Reprobing(_) =>
    case _ =>
  }

  /** The child's end counts as forced exactly when a signal was delivered, and as an exit exactly when it
      exited. */
  lemma {:induction false} ForcedWhenSignalled(callers: nat, run: seq<Action>)
    requires After(callers, run).Some?
    ensures After(callers, run).value.w.forced <==> Delivered(callers, run)
    ensures After(callers, run).value.w.exited <==> ChildExits in run
  {
    if run != [] {
      var before, a := run[..|run| - 1], run[|run| - 1];
      ForcedWhenSignalled(callers, before);
      var s := After(callers, before).value;
      assert run == before + [a];
      match a
      case ChildExits =>
      case Act(t, choice) => ForcedStep(s.w, t, s.pcs[t], OwnThreadsEnded(s), choice);
    }
  }

  // ---------------------------------------------------------------- the claim, step by step

  function ProbeChoice(p: Probe): Choice {
    if Exited(p) then SeesExit else if p.err.Some? then Fails else Plainly
  }

  function AttemptChoice(a: Attempt): Choice {
    if a.alreadyExited then SeesExit else if a.terminationErr.None? then Plainly else Fails
  }

  function AttemptsLeft(k: nat): nat {
    if k < MAX_TERMINATION_ATTEMPTS then MAX_TERMINATION_ATTEMPTS - k else 1
  }

  function AnswersLeft(pc: PC): nat {
    match pc
    case FirstProbe => 2 * MAX_TERMINATION_ATTEMPTS + 2
    case Signalling(k) => 2 * AttemptsLeft(k) + 1
    case Reprobing(k) => 2 * AttemptsLeft(k)
    case _ => 0
  }

  /** The answer the operating system gives to the raw operation a termination claim is at. */
  function AnswerAt(pc: PC, probes: nat -> Probe, attempts: nat -> Attempt): Choice
    requires AnswersLeft(pc) > 0
  {
    match pc
    case FirstProbe => ProbeChoice(probes(0))
    case Signalling(k) => AttemptChoice(attempts(k))
    case Reprobing(k) => ProbeChoice(probes(k + 1))
  }

  /** The protocol's steps of one termination claim under the same answers, until it lets go. */
  function Play(w: World, pc: PC, probes: nat -> Probe, attempts: nat -> Attempt): Move
    decreases AnswersLeft(pc)
  {
    if AnswersLeft(pc) == 0 then Move(pc, w)
    else
      var m := AnswerStep(w, pc, AnswerAt(pc, probes, attempts));
      if m.None? then Move(pc, w) else Play(m.value.w, m.value.pc, probes, attempts)
  }

  function PCAfter(c: Claim): PC {
    if c.natural then EnterNatural else if c.claimed then MustWait else MustPublishFailure
  }

  /** Where the class's method leaves the lock, the phase and its caller. */
  function MoveAfter(w: World, c: Claim): Move {
    Move(PCAfter(c), w.(lock := None, phase := PhaseAfter(c), forced := w.forced || c.claimed))
  }

  /** ClaimTermination and the protocol's small steps agree: whatever the answers, playing them out one
      raw operation at a time under the lock ends where the method ends. */
  lemma ClaimIsPlayed(w: World, probes: nat -> Probe, attempts: nat -> Attempt, c: Claim, probed: nat, signalled: nat)
    requires w.phase == Running && Settles(probes, attempts, c, probed, signalled) && (c.natural ==> w.exited)
    ensures Play(w, FirstProbe, probes, attempts) == MoveAfter(w, c)
  {
    if !Exited(probes(0)) {
      RoundsArePlayed(w, probes, attempts, c, probed, signalled, 0);
    }
  }

  lemma {:induction false} RoundsArePlayed(w: World, probes: nat -> Probe, attempts: nat -> Attempt,
                                           c: Claim, probed: nat, signalled: nat, k: nat)
    requires w.phase == Running && Settles(probes, attempts, c, probed, signalled) && (c.natural ==> w.exited)
    requires k < MAX_TERMINATION_ATTEMPTS && Unsettled(probes, attempts, k) && !Exited(probes(k))
    ensures Play(w, Signalling(k), probes, attempts) == MoveAfter(w, c)
    decreases MAX_TERMINATION_ATTEMPTS - k
  {
    if !attempts(k).alreadyExited && attempts(k).terminationErr.Some? {
      assert Unsettled(probes, attempts, k + 1);
      assert Play(w, Signalling(k), probes, attempts) == Play(w, Reprobing(k), probes, attempts);
      if !Exited(probes(k + 1)) && k + 1 < MAX_TERMINATION_ATTEMPTS {
        RoundsArePlayed(w, probes, attempts, c, probed, signalled, k + 1);
      }
    }
  }
}
