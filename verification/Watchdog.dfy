/** The renewable stall lease: one writer of read times, one watcher, a one-slot channel and a timer.

    Models noteOutputActivity of internal/agent/output.go against Watch of internal/agent/watchdog.go,
    each select and each channel operation a step of its own. Instants are integers. */
module Watchdog {
  import opened Arithmetic
  import opened Sequences
  import opened Wrappers

  /** What the watcher consumes: a line (matching a prompt pattern or not), a discarded record's prefix,
      the close of Output, or the expiry of the lease. */
  datatype Input = Line(id: nat, prompt: bool) | Prefix(id: nat) | Closed | Expired(lease: Lease)

  /** What a stall was judged by: the newest read time the watcher had, when it looked, and at its last
      look at the channel the newest read noted so far and whether the writer still had it in hand. */
  datatype Lease = Lease(lastActivity: int, judgedAt: int, newest: int, inHand: bool)

  datatype Signal = Progress(id: nat, discarded: bool) | Prompt(id: nat) | Stall(lease: Lease) | Exited

  function SignalFor(i: Input): Signal {
    match i
    case Line(id, prompt) => if prompt then Prompt(id) else Progress(id, false)
    case Prefix(id) => Progress(id, true)
    case Closed => Exited
    case Expired(lease) => Stall(lease)
  }

  function SignalsFor(inputs: seq<Input>): seq<Signal> {
    if inputs == [] then [] else SignalsFor(inputs[..|inputs| - 1]) + [SignalFor(inputs[|inputs| - 1])]
  }

  predicate Terminal(s: Signal) {
    s.Stall? || s.Exited?
  }

  /** noteOutputActivity: the first offer, making room, the second offer. */
  datatype Writer = Idle | Offering(at: int) | MakingRoom(at: int) | OfferingAgain(at: int)

  datatype Watcher =
    | Resetting
    | Selecting
    | Draining
    | Judging(newest: int, inHand: bool)
    | LastLook(lease: Lease)
    | Emitting(signal: Signal)
    | Done

  datatype State = State(now: int, ctxDone: bool, writer: Writer, newest: int, slot: Option<int>,
                         watcher: Watcher, lastActivity: int, deadline: int, discardedOpen: bool,
                         consumed: seq<Input>, emitted: seq<Signal>)

  /** Which ready case a select takes, and what the environment had ready. */
  datatype Choice = TakeContext | TakeActivity | TakeInput(input: Input) | TakeDiscardedClosed | TakeTimer | TakeDefault

  datatype Action = Tick(elapsed: nat) | Cancel | Read | WriterStep | WatcherStep(choice: Choice)

  /** Watch starts with a fresh lease; the channel may hold an earlier read. */
  function Initial(start: int, slot: Option<int>): State {
    State(start, false, Idle, start, slot, Resetting, start, start, true, [], [])
  }

  function InHand(w: Writer): Option<int> {
    if w.Idle? then None else Some(w.at)
  }

  /** A send that finds the slot full falls through to the next select. */
  function WriterNext(s: State): Option<State> {
    match s.writer
    case Idle => None
    case Offering(at) =>
      Some(if s.slot.None? then s.(slot := Some(at), writer := Idle) else s.(writer := MakingRoom(at)))
    case MakingRoom(at) => Some(s.(slot := None, writer := OfferingAgain(at)))
    case OfferingAgain(at) => Some(if s.slot.None? then s.(slot := Some(at), writer := Idle) else s.(writer := Idle))
  }

  /** Receiving the pending read time: the lease only ever moves forward. */
  function Observe(s: State): State
    requires s.slot.Some?
  {
    s.(lastActivity := Max(s.lastActivity, s.slot.value), slot := None)
  }

  predicate Ready(s: State, i: Input) {
    match i
    case Line(_, _) => true
    case Prefix(_) => s.discardedOpen
    case Closed => true
    case Expired(_) => false
  }

  function Consume(s: State, i: Input): State {
    s.(consumed := s.consumed + [i], watcher := Emitting(SignalFor(i)))
  }

  function ResetTimer(s: State, timeout: int): State {
    s.(deadline := Max(s.now, s.lastActivity + timeout), watcher := Selecting)
  }

  /** The timer channel: nil, and so never ready, without a positive timeout. */
  predicate TimerFired(s: State, timeout: int) {
    timeout > 0 && s.now >= s.deadline
  }

  function SelectNext(s: State, choice: Choice, timeout: int): Option<State> {
    match choice
    case TakeContext => if s.ctxDone then Some(s.(watcher := Done)) else None
    case TakeActivity => if s.slot.Some? then Some(Observe(s).(watcher := Resetting)) else None
    case TakeInput(i) => if Ready(s, i) then Some(Consume(s, i)) else None
    case TakeDiscardedClosed => if s.discardedOpen then Some(s.(discardedOpen := false, watcher := Resetting)) else None
    case TakeTimer => if TimerFired(s, timeout) then Some(s.(watcher := Draining)) else None
    case TakeDefault => None
  }

  function LastLookNext(s: State, lease: Lease, choice: Choice): Option<State> {
    match choice
    case TakeContext => if s.ctxDone then Some(s.(watcher := Done)) else None
    case TakeInput(i) => if Ready(s, i) then Some(Consume(s, i)) else None
    case TakeDiscardedClosed => if s.discardedOpen then Some(s.(discardedOpen := false, watcher := Resetting)) else None
    case TakeDefault => Some(Consume(s, Expired(lease)))
    case _ => None
  }

  /** The signal is taken, or dropped because the context has ended. */
  function EmitNext(s: State, signal: Signal, choice: Choice): Option<State> {
    var after := if Terminal(signal) then Done else Resetting;
    if choice == TakeContext then
      if s.ctxDone then Some(s.(watcher := after)) else None
    else Some(s.(emitted := s.emitted + [signal], watcher := after))
  }

  function WatcherNext(s: State, choice: Choice, timeout: int): Option<State> {
    match s.watcher
    case Resetting => Some(ResetTimer(s, timeout))
    case Selecting => SelectNext(s, choice, timeout)
    case Draining =>
      Some(if s.slot.Some? then Observe(s) else s.(watcher := Judging(s.newest, InHand(s.writer).Some?)))
    case Judging(newest, inHand) =>
      Some(if s.now < s.lastActivity + timeout then s.(watcher := Resetting)
           else s.(watcher := LastLook(Lease(s.lastActivity, s.now, newest, inHand))))
    case LastLook(lease) => LastLookNext(s, lease, choice)
    case Emitting(signal) => EmitNext(s, signal, choice)
    case Done => None
  }

  function Next(s: State, a: Action, timeout: int): Option<State> {
    match a
    case Tick(elapsed) => Some(s.(now := s.now + elapsed))
    case Cancel => Some(s.(ctxDone := true))
    case Read => if s.writer.Idle? then Some(s.(writer := Offering(s.now), newest := s.now)) else None
    case WriterStep => WriterNext(s)
    case WatcherStep(choice) => WatcherNext(s, choice, timeout)
  }

  /** The state after a run, if every action in it was possible. */
  function After(start: int, slot: Option<int>, timeout: int, run: seq<Action>): Option<State> {
    if run == [] then Some(Initial(start, slot))
    else
      var before := After(start, slot, timeout, run[..|run| - 1]);
      if before.Some? then Next(before.value, run[|run| - 1], timeout) else None
  }

  // ---------------------------------------------------------------- the invariant

  /** The newest read is with the watcher, in the slot, or in the writer's hand. */
  predicate NotLost(s: State) {
    s.newest <= s.lastActivity || s.slot == Some(s.newest) || InHand(s.writer) == Some(s.newest)
  }

  predicate ReadTimes(s: State) {
    && s.lastActivity <= s.newest <= s.now
    && (s.slot.Some? ==> s.slot.value <= s.newest)
    && (InHand(s.writer).Some? ==> InHand(s.writer) == Some(s.newest))
    && (s.writer.OfferingAgain? ==> s.slot.None?)
    && NotLost(s)
  }

  /** A stall is true: the lease had run out when judged, and no read was missed, except one the writer
      was just then handing over. */
  predicate Sound(lease: Lease, timeout: int) {
    && timeout > 0
    && lease.lastActivity + timeout <= lease.judgedAt
    && (lease.newest <= lease.lastActivity || lease.inHand)
  }

  predicate SoundSignal(signal: Signal, timeout: int) {
    signal.Stall? ==> Sound(signal.lease, timeout)
  }

  predicate Judged(s: State, timeout: int) {
    match s.watcher
    case Selecting => timeout > 0 ==> s.lastActivity + timeout <= s.deadline <= Max(s.lastActivity + timeout, s.now)
    case Draining => timeout > 0
    case Judging(newest, inHand) => timeout > 0 && (newest <= s.lastActivity || inHand)
    case LastLook(lease) => Sound(lease, timeout)
    case Emitting(signal) => SoundSignal(signal, timeout)
    case _ => true
  }

  function Pending(w: Watcher): seq<Signal> {
    if w.Emitting? then [w.signal] else []
  }

  /** Every input has had its one signal, in order; only the end of the context can drop any. */
  predicate InStep(s: State) {
    s.ctxDone || s.emitted + Pending(s.watcher) == SignalsFor(s.consumed)
  }

  predicate EndsWithTerminal(s: State) {
    forall i :: 0 <= i < |s.emitted| && Terminal(s.emitted[i]) ==> i == |s.emitted| - 1 && s.watcher.Done?
  }

  predicate Inv(s: State, timeout: int) {
    && ReadTimes(s)
    && Judged(s, timeout)
    && InStep(s)
    && EndsWithTerminal(s)
    && (forall i :: 0 <= i < |s.emitted| ==> SoundSignal(s.emitted[i], timeout))
  }

  lemma SignalsForNext(inputs: seq<Input>, i: Input)
    ensures SignalsFor(inputs + [i]) == SignalsFor(inputs) + [SignalFor(i)]
  {
    assert (inputs + [i])[..|inputs|] == inputs;
  }

  lemma WriterKeeps(s: State, timeout: int)
    requires Inv(s, timeout) && WriterNext(s).Some?
    ensures Inv(WriterNext(s).value, timeout)
  {
    WriterKeepsTimes(s);
  }

  lemma WriterKeepsTimes(s: State)
    requires ReadTimes(s) && WriterNext(s).Some?
    ensures ReadTimes(WriterNext(s).value)
  {}

  lemma ConsumeKeeps(s: State, i: Input, timeout: int)
    requires Inv(s, timeout) && (s.watcher.Selecting? || s.watcher.LastLook?)
    requires i.Expired? ==> Sound(i.lease, timeout)
    ensures Inv(Consume(s, i), timeout)
  {
    SignalsForNext(s.consumed, i);
    PlusEmpty(s.emitted);
  }

  lemma SelectKeeps(s: State, choice: Choice, timeout: int)
    requires Inv(s, timeout) && s.watcher.Selecting? && SelectNext(s, choice, timeout).Some?
    ensures Inv(SelectNext(s, choice, timeout).value, timeout)
  {
    if choice.TakeInput? { ConsumeKeeps(s, choice.input, timeout); }
  }

  lemma LastLookKeeps(s: State, choice: Choice, timeout: int)
    requires Inv(s, timeout) && s.watcher.LastLook? && LastLookNext(s, s.watcher.lease, choice).Some?
    ensures Inv(LastLookNext(s, s.watcher.lease, choice).value, timeout)
  {
    if choice.TakeInput? { ConsumeKeeps(s, choice.input, timeout); }
    if choice.TakeDefault? { ConsumeKeeps(s, Expired(s.watcher.lease), timeout); }
  }

  lemma EmitKeeps(s: State, choice: Choice, timeout: int)
    requires Inv(s, timeout) && s.watcher.Emitting? && EmitNext(s, s.watcher.signal, choice).Some?
    ensures Inv(EmitNext(s, s.watcher.signal, choice).value, timeout)
  {
    PlusEmpty(s.emitted + [s.watcher.signal]);
  }

  lemma WatcherKeeps(s: State, choice: Choice, timeout: int)
    requires Inv(s, timeout) && WatcherNext(s, choice, timeout).Some?
    ensures Inv(WatcherNext(s, choice, timeout).value, timeout)
  {
    match s.watcher
    case Selecting => SelectKeeps(s, choice, timeout);
    case LastLook(lease) => LastLookKeeps(s, choice, timeout);
    case Emitting(signal) => EmitKeeps(s, choice, timeout);
    case _ =>
  }

  lemma {:induction false} ReachableInv(start: int, slot: Option<int>, timeout: int, run: seq<Action>)
    requires slot.Some? ==> slot.value <= start
    requires After(start, slot, timeout, run).Some?
    ensures Inv(After(start, slot, timeout, run).value, timeout)
  {
    if run != [] {
      var before, a := run[..|run| - 1], run[|run| - 1];
      ReachableInv(start, slot, timeout, before);
      var s := After(start, slot, timeout, before).value;
      match a
      case WriterStep => WriterKeeps(s, timeout);
      case WatcherStep(choice) => WatcherKeeps(s, choice, timeout);
      case _ =>
    }
  }

  // ---------------------------------------------------------------- the theorems

  /** A read time, once noted, is never lost to coalescing: the newest is always on its way to the
      watcher, whose lease is never later than a read. */
  lemma NewestReadIsNeverLost(start: int, slot: Option<int>, timeout: int, run: seq<Action>)
    requires slot.Some? ==> slot.value <= start
    requires After(start, slot, timeout, run).Some?
    ensures var s := After(start, slot, timeout, run).value;
            && NotLost(s)
            && s.lastActivity <= s.newest
            && (s.writer.Idle? && s.slot.None? ==> s.lastActivity == s.newest)
  {
    ReachableInv(start, slot, timeout, run);
  }

  /** Every stall ever reported is sound, nothing follows a stall or an exit, and until the context
      ends each line, prefix and close has had exactly its own signal, in order. */
  lemma SignalsAreSound(start: int, slot: Option<int>, timeout: int, run: seq<Action>)
    requires slot.Some? ==> slot.value <= start
    requires After(start, slot, timeout, run).Some?
    ensures var s := After(start, slot, timeout, run).value;
            && (forall i :: 0 <= i < |s.emitted| && s.emitted[i].Stall? ==> Sound(s.emitted[i].lease, timeout))
            && (forall i :: 0 <= i < |s.emitted| && Terminal(s.emitted[i]) ==>
                  i == |s.emitted| - 1 && forall choice :: WatcherNext(s, choice, timeout).None?)
            && (!s.ctxDone ==> s.emitted + Pending(s.watcher) == SignalsFor(s.consumed))
  {
    ReachableInv(start, slot, timeout, run);
  }

  /** The inputs the watcher was given in a run. */
  function Received(start: int, slot: Option<int>, timeout: int, run: seq<Action>): seq<Input> {
    if run == [] then []
    else
      var before, a := After(start, slot, timeout, run[..|run| - 1]), run[|run| - 1];
      Received(start, slot, timeout, run[..|run| - 1]) +
      (if before.Some? && Gives(before.value, a) then [a.choice.input] else [])
  }

  predicate Gives(s: State, a: Action) {
    a.WatcherStep? && a.choice.TakeInput? && (s.watcher.Selecting? || s.watcher.LastLook?)
  }

  /** What each input means to whoever reads the signals. */
  predicate Reports(i: Input, s: Signal) {
    match i
    case Line(id, true) => s == Prompt(id)
    case Line(id, false) => s == Progress(id, false)
    case Prefix(id) => s == Progress(id, true)
    case Closed => s == Exited
    case Expired(_) => s.Stall?
  }

  /** The inputs consumed are those given, with an expiry after them once the agent is called stalled. */
  predicate Tally(s: State, given: seq<Input>) {
    || s.consumed == given
    || (s.consumed != [] && s.consumed[..|s.consumed| - 1] == given && s.consumed[|s.consumed| - 1].Expired?
        && (s.watcher.Done? || s.watcher == Emitting(Stall(s.consumed[|s.consumed| - 1].lease))))
  }

  lemma WatcherTallies(s: State, choice: Choice, timeout: int, given: seq<Input>)
    requires Tally(s, given) && WatcherNext(s, choice, timeout).Some?
    ensures Tally(WatcherNext(s, choice, timeout).value,
                  given + (if Gives(s, WatcherStep(choice)) then [choice.input] else []))
  {
    PlusEmpty(given);
  }

  lemma {:induction false} ConsumedIsReceived(start: int, slot: Option<int>, timeout: int, run: seq<Action>)
    requires After(start, slot, timeout, run).Some?
    ensures Tally(After(start, slot, timeout, run).value, Received(start, slot, timeout, run))
  {
    if run != [] {
      var before, a := run[..|run| - 1], run[|run| - 1];
      ConsumedIsReceived(start, slot, timeout, before);
      var s, given := After(start, slot, timeout, before).value, Received(start, slot, timeout, before);
      PlusEmpty(given);
      match a
      case WatcherStep(choice) => WatcherTallies(s, choice, timeout, given);
      case _ =>
    }
  }

  lemma {:induction false} SignalsReport(inputs: seq<Input>)
    ensures |SignalsFor(inputs)| == |inputs|
    ensures forall i :: 0 <= i < |inputs| ==> Reports(inputs[i], SignalsFor(inputs)[i])
  {
    if inputs != [] { SignalsReport(inputs[..|inputs| - 1]); }
  }

  /** Until the context ends, the watcher has reported, or has in hand, one signal for each input it was
      given, in their order and each saying what its input was, and after them at most a stall. */
  lemma InputsAreReported(start: int, slot: Option<int>, timeout: int, run: seq<Action>)
    requires slot.Some? ==> slot.value <= start
    requires After(start, slot, timeout, run).Some? && !After(start, slot, timeout, run).value.ctxDone
    ensures var s := After(start, slot, timeout, run).value;
            var signals, given := s.emitted + Pending(s.watcher), Received(start, slot, timeout, run);
            && |given| <= |signals| <= |given| + 1
            && (forall i :: 0 <= i < |given| ==> Reports(given[i], signals[i]))
            && (|signals| > |given| ==> signals[|given|].Stall?)
  {
    ReachableInv(start, slot, timeout, run);
    ConsumedIsReceived(start, slot, timeout, run);
    SignalsReport(After(start, slot, timeout, run).value.consumed);
  }

  lemma ExpiredSteps(s: State, timeout: int) returns (s1: State, s2: State, s3: State, s4: State, s5: State)
    requires s.watcher.Selecting? && s.slot.None? && s.writer.Idle? && s.lastActivity == s.newest
    requires TimerFired(s, timeout) && s.lastActivity + timeout <= s.now
    ensures WatcherNext(s, TakeTimer, timeout) == Some(s1) && WatcherNext(s1, TakeDefault, timeout) == Some(s2)
    ensures WatcherNext(s2, TakeDefault, timeout) == Some(s3) && WatcherNext(s3, TakeDefault, timeout) == Some(s4)
    ensures WatcherNext(s4, TakeDefault, timeout) == Some(s5)
    ensures s5.watcher.Done? && s5.emitted == s.emitted + [Stall(Lease(s.newest, s.now, s.newest, false))]
  {
    var lease := Lease(s.newest, s.now, s.newest, false);
    s1 := s.(watcher := Draining);
    s2 := s1.(watcher := Judging(s.newest, false));
    s3 := s2.(watcher := LastLook(lease));
    s4 := s3.(consumed := s3.consumed + [Expired(lease)], watcher := Emitting(Stall(lease)));
    s5 := s4.(watcher := Done, emitted := s.emitted + [Stall(lease)]);
  }

  /** A lease that has run out with no read pending stalls the agent by five steps of the watcher's own. */
  lemma ExpiredLeaseStalls(start: int, slot: Option<int>, timeout: int, run: seq<Action>) returns (more: seq<Action>)
    requires slot.Some? ==> slot.value <= start
    requires After(start, slot, timeout, run).Some?
    requires var s := After(start, slot, timeout, run).value;
             && s.watcher.Selecting? && s.slot.None? && s.writer.Idle?
             && timeout > 0 && s.lastActivity + timeout <= s.now
    ensures |more| == 5 && (forall k :: 0 <= k < |more| ==> more[k].WatcherStep?)
    ensures After(start, slot, timeout, run + more).Some?
    ensures var s, s' := After(start, slot, timeout, run).value, After(start, slot, timeout, run + more).value;
            s'.watcher.Done? && s'.emitted == s.emitted + [Stall(Lease(s.newest, s.now, s.newest, false))]
  {
    TimerIsTheLease(start, slot, timeout, run);
    NewestReadIsNeverLost(start, slot, timeout, run);
    var look := WatcherStep(TakeDefault);
    var s0 := After(start, slot, timeout, run).value;
    var s1, s2, s3, s4, s5 := ExpiredSteps(s0, timeout);
    var next := Continue(start, slot, timeout, run, s0, WatcherStep(TakeTimer), s1);
    next := Continue(start, slot, timeout, next, s1, look, s2);
    next := Continue(start, slot, timeout, next, s2, look, s3);
    next := Continue(start, slot, timeout, next, s3, look, s4);
    next := Continue(start, slot, timeout, next, s4, look, s5);
    more := [WatcherStep(TakeTimer), look, look, look, look];
    assert run + more == next;
  }

  /** Whenever the watcher waits, its timer is ready exactly when the lease has run out. */
  lemma TimerIsTheLease(start: int, slot: Option<int>, timeout: int, run: seq<Action>)
    requires slot.Some? ==> slot.value <= start
    requires After(start, slot, timeout, run).Some? && After(start, slot, timeout, run).value.watcher.Selecting?
    ensures var s := After(start, slot, timeout, run).value;
            TimerFired(s, timeout) <==> timeout > 0 && s.lastActivity + timeout <= s.now
  {
    ReachableInv(start, slot, timeout, run);
  }

  // ---------------------------------------------------------------- what a stall was judged by

  /** The time after a run. */
  function Clock(start: int, run: seq<Action>): int {
    if run == [] then start
    else Clock(start, run[..|run| - 1]) + (if run[|run| - 1].Tick? then run[|run| - 1].elapsed else 0)
  }

  /** When the last read of a run was noted; Watch starts as if one had just been. */
  function LastRead(start: int, run: seq<Action>): int {
    if run == [] then start
    else if run[|run| - 1].Read? then Clock(start, run[..|run| - 1])
    else LastRead(start, run[..|run| - 1])
  }

  lemma WatcherKeepsTimes(s: State, choice: Choice, timeout: int)
    requires WatcherNext(s, choice, timeout).Some?
    ensures var s' := WatcherNext(s, choice, timeout).value;
            s'.now == s.now && s'.newest == s.newest && s'.ctxDone == s.ctxDone
  {}

  lemma NextTimes(s: State, a: Action, timeout: int)
    requires Next(s, a, timeout).Some?
    ensures var s' := Next(s, a, timeout).value;
            && s'.now == s.now + (if a.Tick? then a.elapsed else 0)
            && s'.newest == (if a.Read? then s.now else s.newest)
            && (s'.ctxDone <==> s.ctxDone || a == Cancel)
  {
    match a
    case WatcherStep(choice) => WatcherKeepsTimes(s, choice, timeout);
    case _ =>
  }

  predicate Cancelled(run: seq<Action>) {
    run != [] && (run[|run| - 1] == Cancel || Cancelled(run[..|run| - 1]))
  }

  /** The state's times are those of the run, and its context has ended exactly when the run says so. */
  lemma {:induction false} TimesAreOfRun(start: int, slot: Option<int>, timeout: int, run: seq<Action>)
    requires After(start, slot, timeout, run).Some?
    ensures After(start, slot, timeout, run).value.now == Clock(start, run)
    ensures After(start, slot, timeout, run).value.newest == LastRead(start, run)
    ensures After(start, slot, timeout, run).value.ctxDone <==> Cancelled(run)
  {
    if run != [] {
      var before, a := run[..|run| - 1], run[|run| - 1];
      TimesAreOfRun(start, slot, timeout, before);
      NextTimes(After(start, slot, timeout, before).value, a, timeout);
    }
  }

  /** Where the watcher was after the first m actions. */
  function WatcherAt(start: int, slot: Option<int>, timeout: int, run: seq<Action>, m: nat): Watcher
    requires m <= |run|
  {
    var s := After(start, slot, timeout, run[..m]);
    if s.Some? then s.value.watcher else Done
  }

  /** With the k-th of its actions the watcher found no read pending, with the j-th it found the lease run
      out, and since then it has been at its last look. */
  predicate Episode(start: int, slot: Option<int>, timeout: int, run: seq<Action>, k: nat, j: nat) {
    && k < j <= |run|
    && WatcherAt(start, slot, timeout, run, k).Draining?
    && (forall m :: k < m <= j ==> WatcherAt(start, slot, timeout, run, m).Judging?)
    && (forall m :: j < m <= |run| ==> WatcherAt(start, slot, timeout, run, m).LastLook?)
  }

  lemma EpisodeLater(start: int, slot: Option<int>, timeout: int, run: seq<Action>, k: nat, j: nat, a: Action, j': nat)
    requires Episode(start, slot, timeout, run, k, j) && After(start, slot, timeout, run + [a]).Some?
    requires var w := After(start, slot, timeout, run + [a]).value.watcher;
             if w.Judging? then j == |run| && j' == |run| + 1 else w.LastLook? && j' == j
    ensures Episode(start, slot, timeout, run + [a], k, j')
  {
    forall m: nat | m <= |run|
      ensures WatcherAt(start, slot, timeout, run + [a], m) == WatcherAt(start, slot, timeout, run, m)
    {
      assert (run + [a])[..m] == run[..m];
    }
    assert (run + [a])[..|run| + 1] == run + [a];
  }

  /** The lease as it stood at k, and the time at j. */
  predicate JudgedBy(start: int, slot: Option<int>, timeout: int, run: seq<Action>, k: nat, j: nat)
    requires k < j <= |run| && After(start, slot, timeout, run).Some?
  {
    var s0, s := After(start, slot, timeout, run[..k]), After(start, slot, timeout, run).value;
    && s0.Some? && s0.value.slot.None? && s.lastActivity == s0.value.lastActivity
    && (s.watcher.LastLook? ==> s0.value.lastActivity + timeout <= Clock(start, run[..j]))
  }

  predicate Judges(w: Watcher) {
    w.Judging? || w.LastLook?
  }

  lemma JudgingStep(s: State, a: Action, timeout: int)
    requires Next(s, a, timeout).Some? && Judges(Next(s, a, timeout).value.watcher)
    ensures var s' := Next(s, a, timeout).value;
            && s'.lastActivity == s.lastActivity
            && (s.watcher.Draining? ==> s'.watcher.Judging? && s.slot.None?)
            && (!s.watcher.Draining? ==> Judges(s.watcher) && (s'.watcher.Judging? ==> s.watcher.Judging?))
            && (s.watcher.Judging? && s'.watcher.LastLook? ==> s.lastActivity + timeout <= s.now)
  {}

  lemma EpisodeStarts(start: int, slot: Option<int>, timeout: int, run: seq<Action>, a: Action)
    requires After(start, slot, timeout, run + [a]).Some? && After(start, slot, timeout, run).Some?
    requires After(start, slot, timeout, run).value.watcher.Draining?
    requires Judges(After(start, slot, timeout, run + [a]).value.watcher)
    ensures Episode(start, slot, timeout, run + [a], |run|, |run| + 1)
    ensures JudgedBy(start, slot, timeout, run + [a], |run|, |run| + 1)
    ensures After(start, slot, timeout, run + [a]).value.watcher.Judging?
  {
    assert (run + [a])[..|run|] == run && (run + [a])[..|run| + 1] == run + [a];
    JudgingStep(After(start, slot, timeout, run).value, a, timeout);
  }

  lemma JudgedLater(start: int, slot: Option<int>, timeout: int, run: seq<Action>, k: nat, j: nat, a: Action, j': nat)
    requires k < j <= |run| && After(start, slot, timeout, run).Some? && JudgedBy(start, slot, timeout, run, k, j)
    requires After(start, slot, timeout, run + [a]).Some? && Judges(After(start, slot, timeout, run + [a]).value.watcher)
    requires Judges(After(start, slot, timeout, run).value.watcher)
    requires After(start, slot, timeout, run).value.watcher.Judging? ==> j == |run|
    requires j' == if After(start, slot, timeout, run + [a]).value.watcher.Judging? then |run| + 1 else j
    ensures JudgedBy(start, slot, timeout, run + [a], k, j')
  {
    assert (run + [a])[..|run|] == run && (run + [a])[..k] == run[..k] && (run + [a])[..j] == run[..j];
    assert run[..|run|] == run;
    TimesAreOfRun(start, slot, timeout, run);
    JudgingStep(After(start, slot, timeout, run).value, a, timeout);
  }

  lemma {:induction false} EpisodeOf(start: int, slot: Option<int>, timeout: int, run: seq<Action>) returns (k: nat, j: nat)
    requires After(start, slot, timeout, run).Some? && Judges(After(start, slot, timeout, run).value.watcher)
    ensures Episode(start, slot, timeout, run, k, j) && JudgedBy(start, slot, timeout, run, k, j)
    ensures After(start, slot, timeout, run).value.watcher.Judging? <==> j == |run|
  {
    var before, a := run[..|run| - 1], run[|run| - 1];
    assert run == before + [a];
    JudgingStep(After(start, slot, timeout, before).value, a, timeout);
    if After(start, slot, timeout, before).value.watcher.Draining? {
      EpisodeStarts(start, slot, timeout, before, a);
      k, j := |before|, |run|;
    } else {
      k, j := EpisodeOf(start, slot, timeout, before);
      var j' := if After(start, slot, timeout, run).value.watcher.Judging? then |run| else j;
      EpisodeLater(start, slot, timeout, before, k, j, a, j');
      JudgedLater(start, slot, timeout, before, k, j, a, j');
      j := j';
    }
  }

  /** A last look is only taken when no read was noted for a whole timeout: none up to when the watcher found
      no read pending, unless the writer was just then handing one over. */
  lemma LastLookMeansSilence(start: int, slot: Option<int>, timeout: int, run: seq<Action>) returns (k: nat, j: nat)
    requires slot.Some? ==> slot.value <= start
    requires After(start, slot, timeout, run).Some? && After(start, slot, timeout, run).value.watcher.LastLook?
    ensures Episode(start, slot, timeout, run, k, j) && timeout > 0
    ensures After(start, slot, timeout, run[..k]).Some?
    ensures After(start, slot, timeout, run[..k]).value.writer.Idle? ==>
              LastRead(start, run[..k]) + timeout <= Clock(start, run[..j])
  {
    k, j := EpisodeOf(start, slot, timeout, run);
    ReachableInv(start, slot, timeout, run);
    NewestReadIsNeverLost(start, slot, timeout, run[..k]);
    TimesAreOfRun(start, slot, timeout, run[..k]);
  }

  /** And a stall only comes of a last look. */
  lemma StallsComeOfLastLooks(start: int, slot: Option<int>, timeout: int, run: seq<Action>, a: Action)
    requires After(start, slot, timeout, run).Some? && !After(start, slot, timeout, run).value.watcher.Emitting?
    requires Next(After(start, slot, timeout, run).value, a, timeout).Some?
    requires var w := Next(After(start, slot, timeout, run).value, a, timeout).value.watcher; w.Emitting? && w.signal.Stall?
    ensures After(start, slot, timeout, run).value.watcher.LastLook?
  {}

  // ---------------------------------------------------------------- what each side can do alone

  /** The watcher has learned that no more prefixes come. */
  predicate LearnsClosed(s: State, a: Action) {
    a == WatcherStep(TakeDiscardedClosed) && (s.watcher.Selecting? || s.watcher.LastLook?)
  }

  function PrefixesEnded(start: int, slot: Option<int>, timeout: int, run: seq<Action>): bool {
    if run == [] then false
    else
      var before, a := After(start, slot, timeout, run[..|run| - 1]), run[|run| - 1];
      (before.Some? && LearnsClosed(before.value, a)) || PrefixesEnded(start, slot, timeout, run[..|run| - 1])
  }

  /** A watch is over only with its context, or after a stall or an exit; prefixes come until their channel's
      close was received. */
  predicate OverFor(s: State, closed: bool) {
    && (s.watcher.Done? && !s.ctxDone ==> s.emitted != [] && Terminal(s.emitted[|s.emitted| - 1]))
    && (s.discardedOpen <==> !closed)
  }

  lemma WatcherOver(s: State, choice: Choice, timeout: int, closed: bool)
    requires OverFor(s, closed) && WatcherNext(s, choice, timeout).Some?
    ensures OverFor(WatcherNext(s, choice, timeout).value, closed || LearnsClosed(s, WatcherStep(choice)))
    ensures LearnsClosed(s, WatcherStep(choice)) ==> !closed
  {}

  lemma NextOver(s: State, a: Action, timeout: int, closed: bool)
    requires OverFor(s, closed) && Next(s, a, timeout).Some?
    ensures OverFor(Next(s, a, timeout).value, closed || LearnsClosed(s, a))
  {
    match a
    case WatcherStep(choice) => WatcherOver(s, choice, timeout, closed);
    case _ =>
  }

  lemma {:induction false} ReachableOver(start: int, slot: Option<int>, timeout: int, run: seq<Action>)
    requires After(start, slot, timeout, run).Some?
    ensures OverFor(After(start, slot, timeout, run).value, PrefixesEnded(start, slot, timeout, run))
  {
    if run != [] {
      var before, a := run[..|run| - 1], run[|run| - 1];
      ReachableOver(start, slot, timeout, before);
      NextOver(After(start, slot, timeout, before).value, a, timeout, PrefixesEnded(start, slot, timeout, before));
    }
  }

  /** A watch whose context has not ended is only over once it has reported a stall or an exit; and the close
      of the channel of prefixes is received once at most, takes the watcher back to its lease, and has no
      prefix after it. */
  lemma WatchEndsWhen(start: int, slot: Option<int>, timeout: int, run: seq<Action>, a: Action)
    requires After(start, slot, timeout, run).Some?
    ensures var s := After(start, slot, timeout, run).value;
            && (s.watcher.Done? && !s.ctxDone ==> s.emitted != [] && Terminal(s.emitted[|s.emitted| - 1]))
            && (PrefixesEnded(start, slot, timeout, run) && (LearnsClosed(s, a) || (Gives(s, a) && a.choice.input.Prefix?)) ==>
                  Next(s, a, timeout).None?)
            && (LearnsClosed(s, a) && Next(s, a, timeout).Some? ==>
                  Next(s, a, timeout).value == s.(discardedOpen := false, watcher := Resetting))
  {
    ReachableOver(start, slot, timeout, run);
    if LearnsClosed(After(start, slot, timeout, run).value, a) {
      ClosedOnce(After(start, slot, timeout, run).value, a, timeout);
    }
  }

  lemma ClosedOnce(s: State, a: Action, timeout: int)
    requires LearnsClosed(s, a)
    ensures Next(s, a, timeout).Some? <==> s.discardedOpen
  {}

  /** Whatever waits for the watcher when it looks is taken, at its last look as at any other, and reported
      by its next step but for a prefix once their channel is known to be closed. */
  lemma InputIsReported(start: int, slot: Option<int>, timeout: int, run: seq<Action>, i: Input)
    returns (more: seq<Action>)
    requires After(start, slot, timeout, run).Some?
    requires var s := After(start, slot, timeout, run).value; s.watcher.Selecting? || s.watcher.LastLook?
    requires !i.Expired? && (i.Prefix? ==> !PrefixesEnded(start, slot, timeout, run))
    ensures |more| == 2 && more[0] == WatcherStep(TakeInput(i)) && more[1].WatcherStep?
    ensures After(start, slot, timeout, run + more).Some?
    ensures var s, s' := After(start, slot, timeout, run).value, After(start, slot, timeout, run + more).value;
            && |s'.emitted| == |s.emitted| + 1 && s.emitted <= s'.emitted && Reports(i, s'.emitted[|s.emitted|])
            && (i == Closed ==> s'.watcher.Done?)
  {
    ReachableOver(start, slot, timeout, run);
    var s0 := After(start, slot, timeout, run).value;
    var s1, s2 := InputSteps(s0, i, timeout);
    var next := Continue(start, slot, timeout, run, s0, WatcherStep(TakeInput(i)), s1);
    next := Continue(start, slot, timeout, next, s1, WatcherStep(TakeDefault), s2);
    more := [WatcherStep(TakeInput(i)), WatcherStep(TakeDefault)];
    assert run + more == next;
  }

  lemma InputSteps(s: State, i: Input, timeout: int) returns (s1: State, s2: State)
    requires s.watcher.Selecting? || s.watcher.LastLook?
    requires !i.Expired? && (i.Prefix? ==> s.discardedOpen)
    ensures WatcherNext(s, TakeInput(i), timeout) == Some(s1) && WatcherNext(s1, TakeDefault, timeout) == Some(s2)
    ensures |s2.emitted| == |s.emitted| + 1 && s.emitted <= s2.emitted && Reports(i, s2.emitted[|s.emitted|])
    ensures i == Closed ==> s2.watcher.Done?
  {
    s1 := WatcherNext(s, TakeInput(i), timeout).value;
    s2 := WatcherNext(s1, TakeDefault, timeout).value;
  }

  /** A read time in the slot renews the lease as soon as the watcher looks: two steps of its own. */
  lemma ReadRenewsLease(start: int, slot: Option<int>, timeout: int, run: seq<Action>) returns (more: seq<Action>)
    requires slot.Some? ==> slot.value <= start
    requires After(start, slot, timeout, run).Some?
    requires var s := After(start, slot, timeout, run).value; s.watcher.Selecting? && s.slot.Some?
    ensures |more| == 2 && more[0].WatcherStep? && more[1].WatcherStep?
    ensures After(start, slot, timeout, run + more).Some?
    ensures var s, s' := After(start, slot, timeout, run).value, After(start, slot, timeout, run + more).value;
            && s'.watcher.Selecting? && s'.lastActivity == Max(s.lastActivity, s.slot.value) && s'.emitted == s.emitted
            && (TimerFired(s', timeout) <==> timeout > 0 && s'.lastActivity + timeout <= s'.now)
  {
    var s0 := After(start, slot, timeout, run).value;
    var s1 := WatcherNext(s0, TakeActivity, timeout).value;
    var s2 := WatcherNext(s1, TakeDefault, timeout).value;
    var next := Continue(start, slot, timeout, run, s0, WatcherStep(TakeActivity), s1);
    next := Continue(start, slot, timeout, next, s1, WatcherStep(TakeDefault), s2);
    more := [WatcherStep(TakeActivity), WatcherStep(TakeDefault)];
    assert run + more == next;
    TimerIsTheLease(start, slot, timeout, next);
  }

  function WriterSteps(n: nat): seq<Action> {
    if n == 0 then [] else [WriterStep] + WriterSteps(n - 1)
  }

  /** A noted read reaches the slot by the writer's steps alone, one if the slot is free and three if it has
      to make room, and leaves everything else as it was. */
  lemma ReadReachesSlot(start: int, slot: Option<int>, timeout: int, run: seq<Action>)
    requires After(start, slot, timeout, run).Some? && After(start, slot, timeout, run).value.writer.Offering?
    ensures var s := After(start, slot, timeout, run).value;
            After(start, slot, timeout, run + WriterSteps(if s.slot.None? then 1 else 3)) ==
            Some(s.(writer := Idle, slot := Some(s.writer.at)))
  {
    var s := After(start, slot, timeout, run).value;
    var at := s.writer.at;
    if s.slot.None? {
      var next := Continue(start, slot, timeout, run, s, WriterStep, s.(writer := Idle, slot := Some(at)));
      assert run + WriterSteps(1) == next;
    } else {
      var s1 := s.(writer := MakingRoom(at));
      var s2 := s1.(slot := None, writer := OfferingAgain(at));
      var next := Continue(start, slot, timeout, run, s, WriterStep, s1);
      next := Continue(start, slot, timeout, next, s1, WriterStep, s2);
      next := Continue(start, slot, timeout, next, s2, WriterStep, s.(writer := Idle, slot := Some(at)));
      assert run + WriterSteps(3) == next;
    }
  }

  function StepsToEnd(s: State): nat {
    match s.watcher
    case Draining => if s.slot.Some? then 6 else 5
    case Judging(_, _) => 4
    case Emitting(_) => 3
    case Resetting => 2
    case Selecting => 1
    case LastLook(_) => 1
    case Done => 0
  }

  lemma CancelledStep(s: State, timeout: int)
    requires s.ctxDone && !s.watcher.Done?
    ensures WatcherNext(s, TakeContext, timeout).Some?
    ensures var s' := WatcherNext(s, TakeContext, timeout).value;
            StepsToEnd(s') < StepsToEnd(s) && s'.ctxDone && s'.emitted == s.emitted
  {}

  predicate AllTakeContext(run: seq<Action>) {
    forall k :: 0 <= k < |run| ==> run[k] == WatcherStep(TakeContext)
  }

  /** Once the context has ended the watcher needs nobody: from any point of any run at most six steps of
      its own, reporting nothing more, and it is done. */
  lemma {:induction false} CancelledWatchEnds(start: int, slot: Option<int>, timeout: int, run: seq<Action>)
    returns (more: seq<Action>)
    requires After(start, slot, timeout, run).Some? && After(start, slot, timeout, run).value.ctxDone
    ensures AllTakeContext(more) && |more| <= StepsToEnd(After(start, slot, timeout, run).value) <= 6
    ensures After(start, slot, timeout, run + more).Some?
    ensures var s, s' := After(start, slot, timeout, run).value, After(start, slot, timeout, run + more).value;
            s'.watcher.Done? && s'.emitted == s.emitted
    decreases StepsToEnd(After(start, slot, timeout, run).value)
  {
    var s := After(start, slot, timeout, run).value;
    if s.watcher.Done? {
      more := [];
      assert run + more == run;
    } else {
      CancelledStep(s, timeout);
      var a := WatcherStep(TakeContext);
      var next := Continue(start, slot, timeout, run, s, a, WatcherNext(s, TakeContext, timeout).value);
      var rest := CancelledWatchEnds(start, slot, timeout, next);
      more := [a] + rest;
      assert run + more == next + rest;
    }
  }

  lemma Continue(start: int, slot: Option<int>, timeout: int, run: seq<Action>, s: State, a: Action, s': State)
    returns (next: seq<Action>)
    requires After(start, slot, timeout, run) == Some(s) && Next(s, a, timeout) == Some(s')
    ensures next == run + [a] && After(start, slot, timeout, next) == Some(s')
  {
    next := run + [a];
    assert next[..|run|] == run;
  }

  lemma StallingSteps(timeout: nat) returns (ready: State, judged: State, looked: State, owed: State, stalled: State)
    requires timeout > 0
    ensures ready == State(timeout, false, Offering(timeout), timeout, None, Draining, 0, timeout, true, [], [])
    ensures WatcherNext(ready, TakeDefault, timeout) == Some(judged)
    ensures WatcherNext(judged, TakeDefault, timeout) == Some(looked)
    ensures WatcherNext(looked, TakeDefault, timeout) == Some(owed)
    ensures WatcherNext(owed, TakeDefault, timeout) == Some(stalled)
    ensures stalled.newest == stalled.now && stalled.emitted == [Stall(Lease(0, stalled.now, stalled.newest, true))]
  {
    var lease := Lease(0, timeout, timeout, true);
    ready := State(timeout, false, Offering(timeout), timeout, None, Draining, 0, timeout, true, [], []);
    judged := ready.(watcher := Judging(timeout, true));
    looked := judged.(watcher := LastLook(lease));
    owed := Consume(looked, Expired(lease));
    stalled := owed.(watcher := Done, emitted := owed.emitted + [Stall(lease)]);
  }

  /** The exception in Sound is real: a read noted just before the watcher's last look, and still in the
      writer's hand, does not save the agent from being called stalled. */
  lemma ReadInHandCanStall(timeout: nat) returns (run: seq<Action>)
    requires timeout > 0
    ensures After(0, None, timeout, run).Some?
    ensures var s := After(0, None, timeout, run).value;
            s.newest == s.now && s.emitted == [Stall(Lease(0, s.now, s.newest, true))]
  {
    var look := WatcherStep(TakeDefault);
    var ready, judged, looked, owed, stalled := StallingSteps(timeout);
    var s0 := Initial(0, None);
    var s1 := s0.(deadline := timeout, watcher := Selecting);
    run := Continue(0, None, timeout, [], s0, look, s1);
    var s2 := s1.(now := timeout);
    run := Continue(0, None, timeout, run, s1, Tick(timeout), s2);
    var s3 := s2.(watcher := Draining);
    run := Continue(0, None, timeout, run, s2, WatcherStep(TakeTimer), s3);
    run := Continue(0, None, timeout, run, s3, Read, ready);
    run := Continue(0, None, timeout, run, ready, look, judged);
    run := Continue(0, None, timeout, run, judged, look, looked);
    run := Continue(0, None, timeout, run, looked, look, owed);
    run := Continue(0, None, timeout, run, owed, look, stalled);
  }
}
