/** Stopping the IPC server: the accept loop, the heartbeat, every connection handler and every caller of
    Stop, in any interleaving.

    Models internal/ipc/server.go. Connections are numbered as they are accepted. What a client sends,
    how long a handler takes and which error Accept returns are the environment's choice. */
module IpcShutdown {
  import opened Arithmetic
  import opened Sequences
  import opened Wrappers

  datatype AcceptPC = Parked | GotConn(conn: nat) | GotError | BackingOff | Retiring | Retired | AcceptEnded

  datatype BeatPC = Beating | BeatEnding | BeatEnded

  /** Before registration, serving, serving a stop request, and the deferred calls in their order. */
  datatype HandlerPC = Starting | Serving | ServingStop | Untracking | Closing | Finishing | HandlerEnded

  datatype Handler = Handler(conn: nat, pc: HandlerPC)

  /** The two halves of closing stopCh, retiring the accept loop, closing the listener, closing the
      connections, waiting. */
  datatype StopPC = Checking | Signalling | AwaitRetire | ClosingListener | Sweeping | Draining | Returned

  /** closing is a listener close handed to a goroutine of its own; swept and exempt record that closeConns
      has run, and whom it spared. */
  datatype World = World(stopClosed: bool, acceptDone: bool, listenerClosed: bool, closing: bool, wg: nat,
                         accepted: nat, conns: set<nat>, closed: set<nat>, stopConn: Option<nat>,
                         swept: bool, exempt: Option<nat>, panicked: bool)

  datatype State = State(w: World, accept: AcceptPC, beat: BeatPC, handlers: seq<Handler>, stops: seq<StopPC>)

  datatype HandlerMove = HandlerMove(h: Handler, w: World)

  datatype AcceptMove = AcceptMove(pc: AcceptPC, w: World)

  datatype StopMove = StopMove(pc: StopPC, w: World)

  datatype Choice = Succeeds | Fails | ListenerGone | StopRequest

  datatype Action =
    | AcceptStep(choice: Choice) | BeatStep | HandlerStep(handler: nat, choice: Choice)
    | CallStop | StopStep(stop: nat, choice: Choice) | DetachedClose

  function Started(): State {
    State(World(false, false, false, false, 2, 0, {}, {}, None, false, None, false), Parked, Beating, [], [])
  }

  // ---------------------------------------------------------------- each goroutine's steps

  /** The accept loop's steps but for starting a handler. A closed listener ends a parked Accept. */
  function AcceptAlone(w: World, pc: AcceptPC, choice: Choice): Option<AcceptMove> {
    match pc
    case Parked =>
      if choice == Succeeds then Some(AcceptMove(GotConn(w.accepted), w.(accepted := w.accepted + 1)))
      else if choice == Fails then Some(AcceptMove(GotError, w))
      else if w.listenerClosed then Some(AcceptMove(Retiring, w))
      else None
    case GotError => Some(AcceptMove(if w.stopClosed then Retiring else BackingOff, w))
    case BackingOff => Some(AcceptMove(if w.stopClosed && choice == Fails then Retiring else Parked, w))
    case GotConn(conn) => if w.stopClosed then Some(AcceptMove(Retiring, w.(closed := w.closed + {conn}))) else None
    case Retiring => Some(AcceptMove(Retired, w.(acceptDone := true)))
    case Retired => if w.wg > 0 then Some(AcceptMove(AcceptEnded, w.(wg := w.wg - 1))) else None
    case AcceptEnded => None
  }

  function Spawn(s: State): State
    requires s.accept.GotConn?
  {
    s.(accept := Parked, w := s.w.(wg := s.w.wg + 1), handlers := s.handlers + [Handler(s.accept.conn, Starting)])
  }

  function AcceptNext(s: State, choice: Choice): Option<State> {
    if s.accept.GotConn? && !s.w.stopClosed then Some(Spawn(s))
    else
      var m := AcceptAlone(s.w, s.accept, choice);
      if m.Some? then Some(s.(accept := m.value.pc, w := m.value.w)) else None
  }

  function BeatNext(s: State): Option<State> {
    match s.beat
    case Beating => Some(s.(beat := if s.w.stopClosed then BeatEnding else Beating))
    case BeatEnding => if s.w.wg > 0 then Some(s.(beat := BeatEnded, w := s.w.(wg := s.w.wg - 1))) else None
    case BeatEnded => None
  }

  /** trackConn, and the request. Reading it, and writing the reply, waits for the client; only a closed
      connection makes it fail. */
  function ServeStep(w: World, h: Handler, choice: Choice): Option<HandlerMove> {
    match h.pc
    case Starting =>
      Some(if w.stopClosed then HandlerMove(h.(pc := Closing), w)
           else HandlerMove(h.(pc := Serving), w.(conns := w.conns + {h.conn})))
    case Serving =>
      if choice == StopRequest then Some(HandlerMove(h.(pc := ServingStop), w.(stopConn := Some(h.conn))))
      else if choice == Succeeds || h.conn in w.closed then Some(HandlerMove(h.(pc := Untracking), w))
      else None
    case ServingStop =>
      if choice == Succeeds || h.conn in w.closed then Some(HandlerMove(h.(pc := Untracking), w)) else None
    case _ => None
  }

  /** The deferred untrackConn, Close and Done. */
  function DeferredStep(w: World, h: Handler): Option<HandlerMove> {
    match h.pc
    case Untracking => Some(HandlerMove(h.(pc := Closing), w.(conns := w.conns - {h.conn})))
    case Closing => Some(HandlerMove(h.(pc := Finishing), w.(closed := w.closed + {h.conn})))
    case Finishing => if w.wg > 0 then Some(HandlerMove(h.(pc := HandlerEnded), w.(wg := w.wg - 1))) else None
    case _ => None
  }

  function HandlerNext(w: World, h: Handler, choice: Choice): Option<HandlerMove> {
    if ServeStep(w, h, choice).Some? then ServeStep(w, h, choice) else DeferredStep(w, h)
  }

  function Exempted(stopConn: Option<nat>): set<nat> {
    if stopConn.Some? then {stopConn.value} else {}
  }

  function StopNext(w: World, pc: StopPC, choice: Choice): Option<StopMove> {
    match pc
    case Checking => Some(StopMove(if w.stopClosed then AwaitRetire else Signalling, w))
    case Signalling => Some(StopMove(AwaitRetire, if w.stopClosed then w.(panicked := true) else w.(stopClosed := true)))
    case AwaitRetire =>
      // a timeout closes the listener on a detached goroutine instead
      if choice == Fails then Some(StopMove(Sweeping, w.(closing := true)))
      else if w.acceptDone then Some(StopMove(ClosingListener, w)) else None
    case ClosingListener => Some(StopMove(Sweeping, w.(listenerClosed := true)))
    case Sweeping =>
      Some(StopMove(Draining, w.(closed := w.closed + (w.conns - Exempted(w.stopConn)), swept := true, exempt := w.stopConn)))
    case Draining => if w.wg == 0 then Some(StopMove(Returned, w)) else None
    case Returned => None
  }

  function Next(s: State, a: Action): Option<State> {
    match a
    case AcceptStep(choice) => AcceptNext(s, choice)
    case BeatStep => BeatNext(s)
    case HandlerStep(i, choice) =>
      if i >= |s.handlers| then None
      else
        var m := HandlerNext(s.w, s.handlers[i], choice);
        if m.Some? then Some(s.(w := m.value.w, handlers := s.handlers[i := m.value.h])) else None
    case CallStop => Some(s.(stops := s.stops + [Checking]))
    case StopStep(j, choice) =>
      if j >= |s.stops| then None
      else
        var m := StopNext(s.w, s.stops[j], choice);
        if m.Some? then Some(s.(w := m.value.w, stops := s.stops[j := m.value.pc])) else None
    case DetachedClose => if s.w.closing then Some(s.(w := s.w.(listenerClosed := true))) else None
  }

  /** The state after a run of a started server, if every action in it was possible. */
  function After(run: seq<Action>): Option<State> {
    if run == [] then Some(Started())
    else
      var before := After(run[..|run| - 1]);
      if before.Some? then Next(before.value, run[|run| - 1]) else None
  }

  // ---------------------------------------------------------------- the invariant

  function Live(handlers: seq<Handler>): nat {
    if handlers == [] then 0 else One(handlers[0].pc != HandlerEnded) + Live(handlers[1..])
  }

  predicate Registered(h: Handler) {
    h.pc == Serving || h.pc == ServingStop || h.pc == Untracking
  }

  /** Who still has to close a connection. */
  predicate MustClose(h: Handler) {
    h.pc != Finishing && h.pc != HandlerEnded
  }

  predicate HandlerFits(w: World, accept: AcceptPC, h: Handler) {
    && h.conn < w.accepted
    && accept != GotConn(h.conn)
    && (Registered(h) <==> h.conn in w.conns)
    && (!MustClose(h) ==> h.conn in w.closed)
  }

  predicate Unique(handlers: seq<Handler>) {
    forall i, j :: 0 <= i < j < |handlers| ==> handlers[i].conn != handlers[j].conn
  }

  predicate Owned(s: State, conn: nat) {
    s.accept == GotConn(conn) || exists i: nat :: i < |s.handlers| && s.handlers[i].conn == conn
  }

  predicate StopFits(w: World, pc: StopPC) {
    && (pc != Checking && pc != Signalling ==> w.stopClosed)
    && (pc == ClosingListener ==> w.acceptDone)
    && (pc == Sweeping || pc == Draining || pc == Returned ==> w.listenerClosed || w.closing)
    && (pc == Draining || pc == Returned ==> w.swept)
    && (pc == Returned ==> w.wg == 0)
  }

  predicate Gone(accept: AcceptPC) {
    accept == Retired || accept == AcceptEnded
  }

  predicate Counted(s: State) {
    s.w.wg == One(s.accept != AcceptEnded) + One(s.beat != BeatEnded) + Live(s.handlers)
  }

  /** Only the spared connection can be registered and still open. */
  predicate Spared(w: World) {
    forall conn :: conn in w.conns ==> conn in w.closed || w.exempt == Some(conn)
  }

  predicate WorldFits(w: World, accept: AcceptPC) {
    && (w.acceptDone <==> Gone(accept))
    && (accept.GotConn? ==> accept.conn < w.accepted && accept.conn !in w.conns)
    && (w.swept ==> w.stopClosed && Spared(w) && (w.listenerClosed || w.closing))
  }

  predicate HandlersFit(s: State) {
    Unique(s.handlers) && forall i :: 0 <= i < |s.handlers| ==> HandlerFits(s.w, s.accept, s.handlers[i])
  }

  predicate StopsFit(s: State) {
    forall j :: 0 <= j < |s.stops| ==> StopFits(s.w, s.stops[j])
  }

  /** Every connection not yet closed, and every registered one, is somebody's. */
  ghost predicate Accounted(s: State) {
    forall conn: nat :: (conn < s.w.accepted && conn !in s.w.closed) || conn in s.w.conns ==> Owned(s, conn)
  }

  ghost predicate Inv(s: State) {
    Counted(s) && WorldFits(s.w, s.accept) && HandlersFit(s) && StopsFit(s) && Accounted(s)
  }

  lemma {:induction false} LiveUpdate(handlers: seq<Handler>, i: nat, h: Handler)
    requires i < |handlers|
    ensures Live(handlers[i := h]) + One(handlers[i].pc != HandlerEnded) == Live(handlers) + One(h.pc != HandlerEnded)
  {
    if i == 0 {
      assert handlers[0 := h][1..] == handlers[1..];
    } else {
      assert handlers[i := h][1..] == handlers[1..][i - 1 := h];
      LiveUpdate(handlers[1..], i - 1, h);
    }
  }

  lemma {:induction false} LiveAppend(handlers: seq<Handler>, h: Handler)
    ensures Live(handlers + [h]) == Live(handlers) + One(h.pc != HandlerEnded)
  {
    if handlers == [] {
      assert [] + [h] == [h] && [h][1..] == [];
    } else {
      TailOfConcat(handlers, [h]);
      LiveAppend(handlers[1..], h);
    }
  }

  lemma {:induction false} NoneLive(handlers: seq<Handler>)
    ensures Live(handlers) == 0 <==> forall i :: 0 <= i < |handlers| ==> handlers[i].pc == HandlerEnded
  {
    if handlers != [] {
      NoneLive(handlers[1..]);
      assert forall i :: 0 < i < |handlers| ==> handlers[i] == handlers[1..][i - 1];
    }
  }

  // ---------------------------------------------------------------- one handler's step

  /** What a step that concerns one connection leaves alone. */
  ghost predicate OnlyConn(w: World, conn: nat, w': World) {
    && w'.accepted == w.accepted && w'.acceptDone == w.acceptDone && w'.stopClosed == w.stopClosed
    && w'.swept == w.swept && w'.exempt == w.exempt
    && w'.listenerClosed == w.listenerClosed && w'.closing == w.closing
    && w.closed <= w'.closed
    && (forall c: nat :: c != conn ==> (c in w'.conns <==> c in w.conns))
  }

  /** What every step of a handler does. */
  ghost predicate Moves(w: World, accept: AcceptPC, h: Handler, m: HandlerMove) {
    Leaves(w, h, m) && Fits(w, accept, h, m) && WorldFits(m.w, accept)
  }

  ghost predicate Leaves(w: World, h: Handler, m: HandlerMove) {
    m.h.conn == h.conn && OnlyConn(w, h.conn, m.w)
  }

  predicate Fits(w: World, accept: AcceptPC, h: Handler, m: HandlerMove) {
    && HandlerFits(m.w, accept, m.h)
    && m.w.wg + One(h.pc != HandlerEnded) == w.wg + One(m.h.pc != HandlerEnded)
  }

  lemma ServeLeaves(w: World, h: Handler, choice: Choice)
    requires ServeStep(w, h, choice).Some?
    ensures Leaves(w, h, ServeStep(w, h, choice).value)
  {
    match h.pc
    case Starting =>
    case Serving =>
    case ServingStop =>
    case _ =>
  }

  lemma ServeFits(w: World, accept: AcceptPC, h: Handler, choice: Choice)
    requires HandlerFits(w, accept, h) && ServeStep(w, h, choice).Some?
    ensures Fits(w, accept, h, ServeStep(w, h, choice).value)
  {
    match h.pc
    case Starting =>
    case Serving =>
    case ServingStop =>
    case _ =>
  }

  lemma ServeMoves(w: World, accept: AcceptPC, h: Handler, choice: Choice)
    requires WorldFits(w, accept) && HandlerFits(w, accept, h) && ServeStep(w, h, choice).Some?
    ensures Moves(w, accept, h, ServeStep(w, h, choice).value)
  {
    ServeLeaves(w, h, choice);
    ServeFits(w, accept, h, choice);
  }

  lemma DeferredLeaves(w: World, h: Handler)
    requires DeferredStep(w, h).Some?
    ensures Leaves(w, h, DeferredStep(w, h).value)
  {
    match h.pc
    case Untracking =>
    case Closing =>
    case Finishing =>
    case _ =>
  }

  lemma DeferredFits(w: World, accept: AcceptPC, h: Handler)
    requires HandlerFits(w, accept, h) && DeferredStep(w, h).Some?
    ensures Fits(w, accept, h, DeferredStep(w, h).value)
  {
    match h.pc
    case Untracking => UntrackFits(w, accept, h);
    case Closing => CloseFits(w, accept, h);
    case Finishing => FinishFits(w, accept, h);
    case _ =>
  }

  lemma UntrackFits(w: World, accept: AcceptPC, h: Handler)
    requires HandlerFits(w, accept, h) && h.pc == Untracking
    ensures Fits(w, accept, h, HandlerMove(h.(pc := Closing), w.(conns := w.conns - {h.conn})))
  {}

  lemma CloseFits(w: World, accept: AcceptPC, h: Handler)
    requires HandlerFits(w, accept, h) && h.pc == Closing
    ensures Fits(w, accept, h, HandlerMove(h.(pc := Finishing), w.(closed := w.closed + {h.conn})))
  {}

  lemma FinishFits(w: World, accept: AcceptPC, h: Handler)
    requires HandlerFits(w, accept, h) && h.pc == Finishing && w.wg > 0
    ensures Fits(w, accept, h, HandlerMove(h.(pc := HandlerEnded), w.(wg := w.wg - 1)))
  {}

  lemma DeferredMoves(w: World, accept: AcceptPC, h: Handler)
    requires WorldFits(w, accept) && HandlerFits(w, accept, h) && DeferredStep(w, h).Some?
    ensures Moves(w, accept, h, DeferredStep(w, h).value)
  {
    DeferredLeaves(w, h);
    DeferredFits(w, accept, h);
  }

  lemma OthersFit(w: World, accept: AcceptPC, conn: nat, w': World, h: Handler)
    requires HandlerFits(w, accept, h) && h.conn != conn && OnlyConn(w, conn, w')
    ensures HandlerFits(w', accept, h)
  {}

  lemma HandlerMoves(w: World, accept: AcceptPC, h: Handler, choice: Choice)
    requires WorldFits(w, accept) && HandlerFits(w, accept, h) && HandlerNext(w, h, choice).Some?
    ensures Moves(w, accept, h, HandlerNext(w, h, choice).value)
  {
    if ServeStep(w, h, choice).Some? {
      ServeMoves(w, accept, h, choice);
    } else {
      DeferredMoves(w, accept, h);
    }
  }

  lemma MovedHandlersFit(s: State, i: nat, m: HandlerMove)
    requires HandlersFit(s) && i < |s.handlers| && Moves(s.w, s.accept, s.handlers[i], m)
    ensures HandlersFit(s.(w := m.w, handlers := s.handlers[i := m.h]))
  {
    forall k | 0 <= k < |s.handlers| && k != i ensures HandlerFits(m.w, s.accept, s.handlers[k]) {
      assert s.handlers[k].conn != m.h.conn;
      OthersFit(s.w, s.accept, m.h.conn, m.w, s.handlers[k]);
    }
  }

  /** A move by one handler, whatever it is. */
  lemma MoveKeeps(s: State, i: nat, m: HandlerMove)
    requires Inv(s) && i < |s.handlers| && Moves(s.w, s.accept, s.handlers[i], m) && m.w.wg <= s.w.wg
    ensures Inv(s.(w := m.w, handlers := s.handlers[i := m.h]))
  {
    var s' := s.(w := m.w, handlers := s.handlers[i := m.h]);
    MovedHandlersFit(s, i, m);
    LiveUpdate(s.handlers, i, m.h);
    OwnersStay(s, s');
    assert Owned(s', m.h.conn) by { assert s'.handlers[i].conn == m.h.conn; }
    forall j | 0 <= j < |s.stops| ensures StopFits(m.w, s.stops[j]) {
      assert StopFits(s.w, s.stops[j]);
    }
  }

  lemma HandlerKeeps(s: State, i: nat, choice: Choice)
    requires Inv(s) && i < |s.handlers| && HandlerNext(s.w, s.handlers[i], choice).Some?
    ensures Inv(Next(s, HandlerStep(i, choice)).value)
  {
    HandlerMoves(s.w, s.accept, s.handlers[i], choice);
    MoveKeeps(s, i, HandlerNext(s.w, s.handlers[i], choice).value);
  }

  /** Handlers never change hands: what was owned stays owned while the accept loop keeps its place. */
  lemma OwnersStay(s: State, s': State)
    requires s'.accept == s.accept && |s.handlers| <= |s'.handlers|
    requires forall i :: 0 <= i < |s.handlers| ==> s'.handlers[i].conn == s.handlers[i].conn
    ensures forall conn: nat :: Owned(s, conn) ==> Owned(s', conn)
  {
    forall conn: nat | Owned(s, conn) ensures Owned(s', conn) {
      if i: nat :| i < |s.handlers| && s.handlers[i].conn == conn {
        assert s'.handlers[i].conn == conn;
      }
    }
  }

  // ---------------------------------------------------------------- the other goroutines

  lemma SpawnKeeps(s: State)
    requires Inv(s) && s.accept.GotConn? && !s.w.stopClosed
    ensures Inv(Spawn(s))
  {
    var s' := Spawn(s);
    var spawned := Handler(s.accept.conn, Starting);
    LiveAppend(s.handlers, spawned);
    forall i | 0 <= i < |s.handlers| ensures s.handlers[i].conn != spawned.conn {
      assert HandlerFits(s.w, s.accept, s.handlers[i]);
    }
    forall conn: nat | Owned(s, conn) ensures Owned(s', conn) {
      if conn == spawned.conn {
        assert s'.handlers[|s.handlers|].conn == conn;
      } else {
        var i: nat :| i < |s.handlers| && s.handlers[i].conn == conn;
        assert s'.handlers[i].conn == conn;
      }
    }
  }

  lemma HandlersUnmoved(s: State, s': State)
    requires HandlersFit(s) && s'.handlers == s.handlers
    requires s.w.accepted <= s'.w.accepted && s'.w.conns == s.w.conns && s.w.closed <= s'.w.closed
    requires forall i :: 0 <= i < |s.handlers| ==> s'.accept != GotConn(s.handlers[i].conn)
    ensures HandlersFit(s')
  {
    forall i | 0 <= i < |s.handlers| ensures HandlerFits(s'.w, s'.accept, s.handlers[i]) {
      assert HandlerFits(s.w, s.accept, s.handlers[i]);
    }
  }

  lemma StillAccounted(s: State, s': State)
    requires Accounted(s) && s'.handlers == s.handlers && s'.w.conns == s.w.conns && s.w.closed <= s'.w.closed
    requires forall conn: nat :: s.w.accepted <= conn < s'.w.accepted ==> s'.accept == GotConn(conn)
    requires s.accept.GotConn? ==> s'.accept == s.accept || (s.accept.conn in s'.w.closed && s.accept.conn !in s.w.conns)
    ensures Accounted(s')
  {
    forall conn: nat | (conn < s'.w.accepted && conn !in s'.w.closed) || conn in s'.w.conns ensures Owned(s', conn) {
      if s'.accept != GotConn(conn) {
        assert Owned(s, conn);
        var i: nat :| i < |s.handlers| && s.handlers[i].conn == conn;
        assert s'.handlers[i].conn == conn;
      }
    }
  }

  /** What the accept loop's own steps leave alone. */
  predicate AcceptLeaves(w: World, m: AcceptMove) {
    && m.w == w.(wg := m.w.wg, accepted := m.w.accepted, closed := m.w.closed, acceptDone := m.w.acceptDone)
    && w.closed <= m.w.closed && (w.acceptDone ==> m.w.acceptDone)
  }

  /** A new connection gets the next number; one in hand is closed. */
  predicate AcceptTakes(w: World, pc: AcceptPC, m: AcceptMove) {
    && (m.pc.GotConn? ==> m.pc.conn == w.accepted && m.w.accepted == w.accepted + 1)
    && (!m.pc.GotConn? ==> m.w.accepted == w.accepted)
    && (pc.GotConn? ==> pc.conn in m.w.closed)
  }

  lemma AcceptMoves(w: World, pc: AcceptPC, choice: Choice)
    requires AcceptAlone(w, pc, choice).Some?
    ensures AcceptLeaves(w, AcceptAlone(w, pc, choice).value)
  {}

  lemma AcceptTaken(w: World, pc: AcceptPC, choice: Choice)
    requires AcceptAlone(w, pc, choice).Some? && (pc.GotConn? ==> w.stopClosed)
    ensures AcceptTakes(w, pc, AcceptAlone(w, pc, choice).value)
  {}

  predicate AcceptCounts(w: World, pc: AcceptPC, m: AcceptMove) {
    m.w.wg <= w.wg && m.w.wg + One(pc != AcceptEnded) == w.wg + One(m.pc != AcceptEnded)
  }

  lemma AcceptDone(w: World, pc: AcceptPC, choice: Choice)
    requires AcceptAlone(w, pc, choice).Some?
    ensures AcceptCounts(w, pc, AcceptAlone(w, pc, choice).value)
  {}

  lemma AcceptWorld(w: World, pc: AcceptPC, choice: Choice)
    requires WorldFits(w, pc) && w.accepted !in w.conns && AcceptAlone(w, pc, choice).Some?
    ensures var m := AcceptAlone(w, pc, choice).value; WorldFits(m.w, m.pc)
  {}

  lemma AcceptMoveKeeps(s: State, m: AcceptMove)
    requires Inv(s) && AcceptLeaves(s.w, m) && AcceptTakes(s.w, s.accept, m)
    requires AcceptCounts(s.w, s.accept, m) && WorldFits(m.w, m.pc)
    ensures Inv(s.(accept := m.pc, w := m.w))
  {
    var s' := s.(accept := m.pc, w := m.w);
    forall i | 0 <= i < |s.handlers| ensures s'.accept != GotConn(s.handlers[i].conn) {
      assert HandlerFits(s.w, s.accept, s.handlers[i]);
    }
    HandlersUnmoved(s, s');
    StillAccounted(s, s');
    forall j | 0 <= j < |s.stops| ensures StopFits(m.w, s.stops[j]) {
      assert StopFits(s.w, s.stops[j]);
    }
  }

  lemma NextConnIsNew(s: State)
    requires Inv(s)
    ensures s.w.accepted !in s.w.conns
  {
    if s.w.accepted in s.w.conns {
      assert Owned(s, s.w.accepted);
      forall i | 0 <= i < |s.handlers| ensures s.handlers[i].conn != s.w.accepted {
        assert HandlerFits(s.w, s.accept, s.handlers[i]);
      }
    }
  }

  lemma AcceptKeeps(s: State, choice: Choice)
    requires Inv(s) && AcceptNext(s, choice).Some?
    ensures Inv(AcceptNext(s, choice).value)
  {
    if s.accept.GotConn? && !s.w.stopClosed {
      SpawnKeeps(s);
    } else {
      NextConnIsNew(s);
      AcceptMoves(s.w, s.accept, choice);
      AcceptTaken(s.w, s.accept, choice);
      AcceptDone(s.w, s.accept, choice);
      AcceptWorld(s.w, s.accept, choice);
      AcceptMoveKeeps(s, AcceptAlone(s.w, s.accept, choice).value);
    }
  }

  lemma BeatKeeps(s: State)
    requires Inv(s) && BeatNext(s).Some?
    ensures Inv(BeatNext(s).value)
  {
    var s' := BeatNext(s).value;
    HandlersUnmoved(s, s');
    StillAccounted(s, s');
  }

  /** What a step of Stop leaves alone, and what it never undoes. */
  predicate StopLeaves(w: World, w': World) {
    && w'.conns == w.conns && w'.accepted == w.accepted && w'.wg == w.wg && w'.acceptDone == w.acceptDone
    && w.closed <= w'.closed && (w.stopClosed ==> w'.stopClosed) && (w.swept ==> w'.swept)
    && (w.listenerClosed ==> w'.listenerClosed) && (w.closing ==> w'.closing)
  }

  lemma StopMoves(w: World, pc: StopPC, choice: Choice)
    requires StopFits(w, pc) && StopNext(w, pc, choice).Some?
    ensures var m := StopNext(w, pc, choice).value; StopLeaves(w, m.w) && StopFits(m.w, m.pc)
  {}

  lemma StopWorld(w: World, accept: AcceptPC, pc: StopPC, choice: Choice)
    requires WorldFits(w, accept) && StopFits(w, pc) && StopNext(w, pc, choice).Some?
    ensures WorldFits(StopNext(w, pc, choice).value.w, accept)
  {}

  lemma StopMoveKeeps(s: State, j: nat, m: StopMove)
    requires Inv(s) && j < |s.stops| && StopLeaves(s.w, m.w) && StopFits(m.w, m.pc) && WorldFits(m.w, s.accept)
    ensures Inv(s.(w := m.w, stops := s.stops[j := m.pc]))
  {
    var s' := s.(w := m.w, stops := s.stops[j := m.pc]);
    forall i | 0 <= i < |s.handlers| ensures s.accept != GotConn(s.handlers[i].conn) {
      assert HandlerFits(s.w, s.accept, s.handlers[i]);
    }
    HandlersUnmoved(s, s');
    StillAccounted(s, s');
    forall k | 0 <= k < |s'.stops| ensures StopFits(m.w, s'.stops[k]) {
      if k != j { assert StopFits(s.w, s.stops[k]); }
    }
  }

  lemma StopKeeps(s: State, j: nat, choice: Choice)
    requires Inv(s) && j < |s.stops| && StopNext(s.w, s.stops[j], choice).Some?
    ensures Inv(Next(s, StopStep(j, choice)).value)
  {
    assert StopFits(s.w, s.stops[j]);
    StopMoves(s.w, s.stops[j], choice);
    StopWorld(s.w, s.accept, s.stops[j], choice);
    StopMoveKeeps(s, j, StopNext(s.w, s.stops[j], choice).value);
  }

  lemma {:induction false} ReachableInv(run: seq<Action>)
    requires After(run).Some?
    ensures Inv(After(run).value)
  {
    if run != [] {
      var before, a := run[..|run| - 1], run[|run| - 1];
      ReachableInv(before);
      var s := After(before).value;
      match a
      case AcceptStep(choice) => AcceptKeeps(s, choice);
      case BeatStep => BeatKeeps(s);
      case HandlerStep(i, choice) => HandlerKeeps(s, i, choice);
      case CallStop => CallKeeps(s);
      case StopStep(j, choice) => StopKeeps(s, j, choice);
      case DetachedClose => CloseKeeps(s);
    }
  }

  lemma CloseKeeps(s: State)
    requires Inv(s)
    ensures Inv(s.(w := s.w.(listenerClosed := true)))
  {
    var s' := s.(w := s.w.(listenerClosed := true));
    HandlersUnmoved(s, s');
    StillAccounted(s, s');
  }

  lemma CallKeeps(s: State)
    requires Inv(s)
    ensures Inv(Next(s, CallStop).value)
  {
    var s' := Next(s, CallStop).value;
    HandlersUnmoved(s, s');
    StillAccounted(s, s');
  }

  // ---------------------------------------------------------------- the theorems

  /** Once closeConns has run, every connection being served is closed, except the one it spared for its
      stop reply, and no handler can register another. So no handler is left parked on its client. */
  lemma SweptConnectionsAreClosed(run: seq<Action>, i: nat)
    requires After(run).Some? && After(run).value.w.swept && i < |After(run).value.handlers|
    ensures var s := After(run).value;
            var h := s.handlers[i];
            && (h.pc == Serving || h.pc == ServingStop ==> h.conn in s.w.closed || s.w.exempt == Some(h.conn))
            && Spared(s.w)
            && (forall choice :: Next(s, HandlerStep(i, choice)).Some? ==>
                  Next(s, HandlerStep(i, choice)).value.w.conns <= s.w.conns)
  {
    ReachableInv(run);
    var s := After(run).value;
    assert HandlerFits(s.w, s.accept, s.handlers[i]);
  }

  /** Where Stop closes the listener itself, the accept loop has left Accept for good. */
  lemma ListenerClosesIdle(run: seq<Action>, j: nat)
    requires After(run).Some? && j < |After(run).value.stops| && After(run).value.stops[j] == ClosingListener
    ensures Gone(After(run).value.accept)
  {
    ReachableInv(run);
    assert StopFits(After(run).value.w, After(run).value.stops[j]);
  }

  /** When Stop returns, the accept loop, the heartbeat and every handler have ended, and every
      connection ever accepted has been closed. */
  lemma StopDrains(run: seq<Action>, j: nat)
    requires After(run).Some? && j < |After(run).value.stops| && After(run).value.stops[j] == Returned
    ensures var s := After(run).value;
            && s.accept == AcceptEnded && s.beat == BeatEnded
            && (forall i :: 0 <= i < |s.handlers| ==> s.handlers[i].pc == HandlerEnded)
            && (forall conn: nat :: conn < s.w.accepted ==> conn in s.w.closed)
            && s.w.conns == {}
  {
    ReachableInv(run);
    var s := After(run).value;
    assert StopFits(s.w, s.stops[j]);
    NoneLive(s.handlers);
    forall conn: nat ensures (conn < s.w.accepted ==> conn in s.w.closed) && conn !in s.w.conns {
      if Owned(s, conn) {
        var i: nat :| i < |s.handlers| && s.handlers[i].conn == conn;
        assert HandlerFits(s.w, s.accept, s.handlers[i]);
      }
    }
  }

  /** No wg.Done ever goes below zero: whoever still has to call it is still counted. */
  lemma DoneIsCounted(run: seq<Action>)
    requires After(run).Some?
    ensures var s := After(run).value;
            && (s.accept == Retired ==> Next(s, AcceptStep(Succeeds)).Some?)
            && (s.beat == BeatEnding ==> Next(s, BeatStep).Some?)
            && (forall i: nat :: i < |s.handlers| && s.handlers[i].pc == Finishing ==> Next(s, HandlerStep(i, Succeeds)).Some?)
  {
    ReachableInv(run);
    NoneLive(After(run).value.handlers);
  }

  // ---------------------------------------------------------------- the stop reply

  /** Handler i takes a stop request off its connection. */
  predicate TakesStop(s: State, a: Action) {
    a.HandlerStep? && a.choice == StopRequest && a.handler < |s.handlers| && s.handlers[a.handler].pc == Serving
  }

  /** The connection of the last stop request in a run. */
  function LatestStop(run: seq<Action>): Option<nat> {
    if run == [] then None
    else
      var before, a := After(run[..|run| - 1]), run[|run| - 1];
      if before.Some? && TakesStop(before.value, a) then Some(before.value.handlers[a.handler].conn)
      else LatestStop(run[..|run| - 1])
  }

  lemma HandlerMarks(w: World, h: Handler, choice: Choice)
    requires HandlerNext(w, h, choice).Some?
    ensures var m := HandlerNext(w, h, choice).value;
            && m.h.conn == h.conn
            && m.w.stopConn == (if h.pc == Serving && choice == StopRequest then Some(h.conn) else w.stopConn)
            && m.w.closed == w.closed + (if h.pc == Closing then {h.conn} else {})
            && (h.pc == Closing ==> !MustClose(m.h))
            && (!MustClose(h) ==> !MustClose(m.h))
  {}

  predicate AcceptCloses(w: World, pc: AcceptPC, w': World) {
    && w'.stopConn == w.stopConn && w'.swept == w.swept
    && w'.closed == w.closed + (if pc.GotConn? then {pc.conn} else {})
  }

  lemma AcceptMarks(w: World, pc: AcceptPC, choice: Choice)
    requires AcceptAlone(w, pc, choice).Some?
    ensures AcceptCloses(w, pc, AcceptAlone(w, pc, choice).value.w)
  {
    match pc
    case GotConn(_) =>
    case _ =>
  }

  predicate SameConnections(w: World, w': World) {
    w'.stopConn == w.stopConn && w'.accepted == w.accepted && w'.closed == w.closed && w'.swept == w.swept
  }

  lemma StopMarks(w: World, pc: StopPC, choice: Choice)
    requires StopNext(w, pc, choice).Some?
    ensures pc != Sweeping ==> SameConnections(w, StopNext(w, pc, choice).value.w)
    ensures StopNext(w, pc, choice).value.w.stopConn == w.stopConn
  {}

  lemma SweepMarks(w: World, choice: Choice)
    ensures StopNext(w, Sweeping, choice).Some?
    ensures var m := StopNext(w, Sweeping, choice).value;
            && m.pc == Draining && m.w.swept && m.w.accepted == w.accepted
            && forall conn :: conn in m.w.closed <==> conn in w.closed || (conn in w.conns && w.stopConn != Some(conn))
  {}

  lemma {:induction false} StopConnIsLatest(run: seq<Action>)
    requires After(run).Some?
    ensures After(run).value.w.stopConn == LatestStop(run)
  {
    if run != [] {
      var s, a := After(run[..|run| - 1]).value, run[|run| - 1];
      StopConnIsLatest(run[..|run| - 1]);
      match a
      case AcceptStep(choice) => if AcceptAlone(s.w, s.accept, choice).Some? { AcceptMarks(s.w, s.accept, choice); }
      case HandlerStep(i, choice) => HandlerMarks(s.w, s.handlers[i], choice);
      case StopStep(j, choice) => StopMarks(s.w, s.stops[j], choice);
      case _ =>
    }
  }

  predicate Serves(s: State, conn: nat) {
    exists i: nat :: i < |s.handlers| && s.handlers[i].conn == conn && Registered(s.handlers[i])
  }

  /** The sweep closes exactly the connections being served, other than that of the last stop request. */
  lemma SweepSparesRequester(run: seq<Action>, j: nat, choice: Choice)
    requires After(run).Some? && j < |After(run).value.stops| && After(run).value.stops[j] == Sweeping
    ensures var s := After(run).value;
            && Next(s, StopStep(j, choice)).Some?
            && var s' := Next(s, StopStep(j, choice)).value;
               && s'.w.swept && s'.stops[j] == Draining
               && forall conn: nat :: conn in s'.w.closed <==>
                    conn in s.w.closed || (Serves(s, conn) && LatestStop(run) != Some(conn))
  {
    ReachableInv(run);
    StopConnIsLatest(run);
    var s := After(run).value;
    SweepMarks(s.w, choice);
    forall conn: nat ensures conn in s.w.conns <==> Serves(s, conn) {
      ServedIsTracked(s, conn);
    }
  }

  lemma ServedIsTracked(s: State, conn: nat)
    requires Inv(s)
    ensures conn in s.w.conns <==> Serves(s, conn)
  {
    if i: nat :| i < |s.handlers| && s.handlers[i].conn == conn {
      assert HandlerFits(s.w, s.accept, s.handlers[i]);
      assert Registered(s.handlers[i]) ==> Serves(s, conn);
      if Serves(s, conn) {
        var k: nat :| k < |s.handlers| && s.handlers[k].conn == conn && Registered(s.handlers[k]);
        assert HandlerFits(s.w, s.accept, s.handlers[k]);
      }
    }
  }

  /** Handler i has not lost its connection before closing it itself. */
  predicate StillOpen(s: State, i: nat) {
    i < |s.handlers| && (MustClose(s.handlers[i]) ==> s.handlers[i].conn !in s.w.closed)
  }

  /** The one step that closes a connection under its handler's hands. */
  predicate SweepsAway(s: State, a: Action, conn: nat) {
    && a.StopStep? && a.stop < |s.stops| && s.stops[a.stop] == Sweeping
    && conn in s.w.conns && s.w.stopConn != Some(conn)
  }

  lemma StepLeavesOpen(s: State, a: Action, i: nat)
    requires Inv(s) && Next(s, a).Some? && StillOpen(s, i) && !SweepsAway(s, a, s.handlers[i].conn)
    ensures StillOpen(Next(s, a).value, i)
    ensures Next(s, a).value.handlers[i].conn == s.handlers[i].conn
  {
    assert HandlerFits(s.w, s.accept, s.handlers[i]);
    match a
    case AcceptStep(choice) => if AcceptAlone(s.w, s.accept, choice).Some? { AcceptMarks(s.w, s.accept, choice); }
    case HandlerStep(k, choice) => HandlerMarks(s.w, s.handlers[k], choice);
    case StopStep(j, choice) =>
      StopMarks(s.w, s.stops[j], choice);
      SweepMarks(s.w, choice);
    case _ =>
  }

  predicate HandIsOpen(w: World, accept: AcceptPC) {
    && (accept.GotConn? ==> accept.conn !in w.closed)
    && forall conn :: conn in w.closed ==> conn < w.accepted
  }

  lemma HandStaysOpen(s: State, a: Action)
    requires Inv(s) && Next(s, a).Some? && HandIsOpen(s.w, s.accept)
    ensures HandIsOpen(Next(s, a).value.w, Next(s, a).value.accept)
  {
    match a
    case AcceptStep(choice) => if AcceptAlone(s.w, s.accept, choice).Some? { AcceptMarks(s.w, s.accept, choice); }
    case HandlerStep(k, choice) =>
      assert HandlerFits(s.w, s.accept, s.handlers[k]);
      HandlerMoves(s.w, s.accept, s.handlers[k], choice);
      HandlerMarks(s.w, s.handlers[k], choice);
    case StopStep(j, choice) =>
      StopMarks(s.w, s.stops[j], choice);
      SweepMarks(s.w, choice);
      forall conn | conn in s.w.conns ensures conn < s.w.accepted && s.accept != GotConn(conn) {
        ServedIsTracked(s, conn);
        var k: nat :| k < |s.handlers| && s.handlers[k].conn == conn && Registered(s.handlers[k]);
        assert HandlerFits(s.w, s.accept, s.handlers[k]);
      }
    case _ =>
  }

  /** Before any sweep no handler has lost its connection. */
  lemma {:induction false} OpenUntilSwept(run: seq<Action>)
    requires After(run).Some?
    ensures var s := After(run).value;
            && HandIsOpen(s.w, s.accept)
            && (!s.w.swept ==> forall i: nat :: i < |s.handlers| ==> StillOpen(s, i))
  {
    if run != [] {
      var before, a := run[..|run| - 1], run[|run| - 1];
      ReachableInv(before);
      OpenUntilSwept(before);
      var s, s' := After(before).value, After(run).value;
      HandStaysOpen(s, a);
      if !s'.w.swept {
        NoSweepYet(s, a);
        forall i: nat | i < |s'.handlers| ensures StillOpen(s', i) {
          if i < |s.handlers| { StepLeavesOpen(s, a, i); }
        }
      }
    }
  }

  lemma NoSweepYet(s: State, a: Action)
    requires Inv(s) && Next(s, a).Some? && !Next(s, a).value.w.swept
    ensures !s.w.swept && forall conn :: !SweepsAway(s, a, conn)
  {
    match a
    case AcceptStep(choice) => if AcceptAlone(s.w, s.accept, choice).Some? { AcceptMarks(s.w, s.accept, choice); }
    case HandlerStep(k, choice) =>
      assert HandlerFits(s.w, s.accept, s.handlers[k]);
      HandlerMoves(s.w, s.accept, s.handlers[k], choice);
    case StopStep(j, choice) => StopMarks(s.w, s.stops[j], choice);
    case _ =>
  }

  predicate NoRequests(run: seq<Action>) {
    forall k :: 0 <= k < |run| ==> !(run[k].HandlerStep? && run[k].choice == StopRequest)
  }

  lemma RequestStaysLatest(run: seq<Action>, more: seq<Action>, a: Action)
    requires !(a.HandlerStep? && a.choice == StopRequest)
    ensures LatestStop(run + (more + [a])) == LatestStop(run + more)
  {
    assert (run + (more + [a]))[..|run| + |more|] == run + more;
    assert (run + (more + [a]))[|run| + |more|] == a;
  }

  /** Handler i serves conn and has not lost it. */
  predicate Keeps(s: State, i: nat, conn: nat) {
    StillOpen(s, i) && s.handlers[i].conn == conn
  }

  lemma {:induction false} RequesterKeeps(run: seq<Action>, more: seq<Action>, i: nat, conn: nat)
    requires After(run).Some? && Keeps(After(run).value, i, conn) && LatestStop(run) == Some(conn)
    requires NoRequests(more) && After(run + more).Some?
    ensures LatestStop(run + more) == Some(conn) && Keeps(After(run + more).value, i, conn)
    decreases |more|
  {
    if more == [] {
      PlusEmpty(run);
    } else {
      var before, a := more[..|more| - 1], more[|more| - 1];
      assert more == before + [a];
      AfterPrefix(run, before, a);
      RequesterKeeps(run, before, i, conn);
      RequestStaysLatest(run, before, a);
      ReachableInv(run + before);
      StopConnIsLatest(run + before);
      AfterSum(run, before, a);
      StepLeavesOpen(After(run + before).value, a, i);
    }
  }

  lemma AfterPrefix(run: seq<Action>, more: seq<Action>, a: Action)
    requires After(run + (more + [a])).Some?
    ensures After(run + more).Some?
  {
    assert (run + (more + [a]))[..|run| + |more|] == run + more;
  }

  /** The last client to ask for the stop keeps its connection through every sweep, until its handler closes
      it: while the reply is being written, writing it does not fail. */
  lemma RequesterKeepsItsConnection(run: seq<Action>, more: seq<Action>, i: nat)
    requires After(run).Some? && !After(run).value.w.swept && i < |After(run).value.handlers|
    requires LatestStop(run) == Some(After(run).value.handlers[i].conn)
    requires NoRequests(more) && After(run + more).Some?
    ensures var s := After(run + more).value;
            && i < |s.handlers| && s.handlers[i].conn == After(run).value.handlers[i].conn
            && (MustClose(s.handlers[i]) ==> s.handlers[i].conn !in s.w.closed)
            && (s.handlers[i].pc == ServingStop ==> Next(s, HandlerStep(i, Fails)).None?)
  {
    OpenUntilSwept(run);
    assert StillOpen(After(run).value, i);
    RequesterKeeps(run, more, i, After(run).value.handlers[i].conn);
  }

  // ---------------------------------------------------------------- before the stop

  /** The accept loop is at work. */
  predicate Accepting(accept: AcceptPC) {
    accept == Parked || accept == GotError || accept == BackingOff || accept.GotConn?
  }

  predicate Untouched(w: World, accept: AcceptPC) {
    !w.stopClosed ==> !w.listenerClosed && !w.closing && Accepting(accept)
  }

  lemma AcceptUntouched(w: World, accept: AcceptPC, choice: Choice)
    requires Untouched(w, accept) && AcceptAlone(w, accept, choice).Some? && (accept.GotConn? ==> w.stopClosed)
    ensures var m := AcceptAlone(w, accept, choice).value; Untouched(m.w, m.pc)
  {}

  lemma StopUntouched(w: World, accept: AcceptPC, pc: StopPC, choice: Choice)
    requires Untouched(w, accept) && StopFits(w, pc) && StopNext(w, pc, choice).Some?
    ensures Untouched(StopNext(w, pc, choice).value.w, accept)
  {}

  lemma NextUntouched(s: State, a: Action)
    requires Inv(s) && Untouched(s.w, s.accept) && Next(s, a).Some?
    ensures Untouched(Next(s, a).value.w, Next(s, a).value.accept)
  {
    match a
    case AcceptStep(choice) =>
      if !s.accept.GotConn? || s.w.stopClosed { AcceptUntouched(s.w, s.accept, choice); }
    case HandlerStep(i, choice) =>
      assert HandlerFits(s.w, s.accept, s.handlers[i]);
      HandlerMoves(s.w, s.accept, s.handlers[i], choice);
    case StopStep(j, choice) =>
      assert StopFits(s.w, s.stops[j]);
      StopUntouched(s.w, s.accept, s.stops[j], choice);
    case _ =>
  }

  /** Until somebody stops the server its listener is open and its accept loop at work, whatever errors
      Accept has returned. */
  lemma AcceptLoopStays(run: seq<Action>)
    requires After(run).Some? && !After(run).value.w.stopClosed
    ensures !After(run).value.w.listenerClosed && Accepting(After(run).value.accept)
  {
    ReachableUntouched(run);
  }

  lemma {:induction false} ReachableUntouched(run: seq<Action>)
    requires After(run).Some?
    ensures Untouched(After(run).value.w, After(run).value.accept)
  {
    if run != [] {
      var before := run[..|run| - 1];
      ReachableUntouched(before);
      ReachableInv(before);
      NextUntouched(After(before).value, run[|run| - 1]);
    }
  }

  /** Until then a client that connects gets a handler, which serves it: from any point of any run, by steps
      of the accept loop and of that handler. */
  lemma ClientIsServed(run: seq<Action>) returns (more: seq<Action>)
    requires After(run).Some? && !After(run).value.w.stopClosed
    ensures |more| <= 5 && After(run + more).Some?
    ensures var s, s' := After(run).value, After(run + more).value;
            && s'.accept == Parked && !s'.w.stopClosed && |s'.handlers| > 0
            && s'.handlers[|s'.handlers| - 1] == Handler(s.w.accepted, Serving) && s.w.accepted in s'.w.conns
  {
    more := LoopComesBack(run);
    var s := After(run + more).value;
    AfterSum(run, more, AcceptStep(Succeeds));
    more := more + [AcceptStep(Succeeds)];
    AfterSum(run, more, AcceptStep(Succeeds));
    more := more + [AcceptStep(Succeeds)];
    AfterSum(run, more, HandlerStep(|s.handlers|, Succeeds));
    more := more + [HandlerStep(|s.handlers|, Succeeds)];
  }

  lemma LoopComesBack(run: seq<Action>) returns (more: seq<Action>)
    requires After(run).Some? && !After(run).value.w.stopClosed
    ensures |more| <= 2 && After(run + more).Some?
    ensures var s, s' := After(run).value, After(run + more).value;
            s'.accept == Parked && !s'.w.stopClosed && s'.w.accepted == s.w.accepted
  {
    AcceptLoopStays(run);
    more := [];
    PlusEmpty(run);
    if After(run).value.accept == GotError {
      AfterSum(run, more, AcceptStep(Succeeds));
      more := more + [AcceptStep(Succeeds)];
    }
    if After(run).value.accept != Parked {
      AfterSum(run, more, AcceptStep(Succeeds));
      more := more + [AcceptStep(Succeeds)];
    }
  }

  /** Once the server is stopped the loop retires within two steps of its own, and within three from Accept
      where the wake-up connection finds it; what it has in hand is closed and not served. */
  lemma StoppedLoopRetires(run: seq<Action>) returns (more: seq<Action>)
    requires After(run).Some? && After(run).value.w.stopClosed
    ensures |more| <= 3 && (After(run).value.accept != Parked ==> |more| <= 2)
    ensures (forall k :: 0 <= k < |more| ==> more[k].AcceptStep?) && After(run + more).Some?
    ensures After(run + more).value.w.acceptDone && After(run + more).value.handlers == After(run).value.handlers
    ensures After(run).value.accept.GotConn? ==> After(run).value.accept.conn in After(run + more).value.w.closed
  {
    more := [];
    PlusEmpty(run);
    if After(run).value.accept == Parked {
      AfterSum(run, more, AcceptStep(Succeeds));
      more := more + [AcceptStep(Succeeds)];
    }
    var rest := UnparkedRetires(run + more);
    Assoc(run, more, rest);
    more := more + rest;
  }

  lemma UnparkedRetires(run: seq<Action>) returns (more: seq<Action>)
    requires After(run).Some? && After(run).value.w.stopClosed && After(run).value.accept != Parked
    ensures |more| <= 2 && (forall k :: 0 <= k < |more| ==> more[k].AcceptStep?) && After(run + more).Some?
    ensures After(run + more).value.w.acceptDone && After(run + more).value.handlers == After(run).value.handlers
    ensures After(run).value.accept.GotConn? ==> After(run).value.accept.conn in After(run + more).value.w.closed
  {
    ReachableInv(run);
    var s := After(run).value;
    more := [];
    PlusEmpty(run);
    if Accepting(s.accept) {
      AfterSum(run, more, AcceptStep(Fails));
      more := more + [AcceptStep(Fails)];
    }
    if !Gone(s.accept) {
      AfterSum(run, more, AcceptStep(Fails));
      more := more + [AcceptStep(Fails)];
    }
  }

  /** A caller of Stop that sees the loop retired closes the listener itself and goes on to the sweep. */
  lemma RetiredLoopClosesListener(run: seq<Action>, j: nat)
    requires After(run).Some? && j < |After(run).value.stops|
    requires After(run).value.stops[j] == AwaitRetire && After(run).value.w.acceptDone
    ensures var s := After(run).value;
            After(run + [StopStep(j, Succeeds), StopStep(j, Succeeds)]) ==
            Some(s.(stops := s.stops[j := Sweeping], w := s.w.(listenerClosed := true)))
  {
    var s := After(run).value;
    AfterOne(run, StopStep(j, Succeeds));
    AfterOne(run + [StopStep(j, Succeeds)], StopStep(j, Succeeds));
    assert run + [StopStep(j, Succeeds), StopStep(j, Succeeds)] == run + [StopStep(j, Succeeds)] + [StopStep(j, Succeeds)];
    assert s.stops[j := ClosingListener][j := Sweeping] == s.stops[j := Sweeping];
  }

  /** A stop request makes its connection the one to spare, and its handler, once it has replied, leaves. */
  lemma StopRequestIsTaken(run: seq<Action>, i: nat)
    requires After(run).Some? && i < |After(run).value.handlers| && After(run).value.handlers[i].pc == Serving
    ensures var s, a := After(run).value, HandlerStep(i, StopRequest);
            var h := s.handlers[i];
            && After(run + [a]) == Some(s.(w := s.w.(stopConn := Some(h.conn)), handlers := s.handlers[i := h.(pc := ServingStop)]))
            && LatestStop(run + [a]) == Some(h.conn)
            && After(run + [a] + [HandlerStep(i, Succeeds)]).Some?
            && After(run + [a] + [HandlerStep(i, Succeeds)]).value.handlers[i] == h.(pc := Untracking)
  {
    var a := HandlerStep(i, StopRequest);
    AfterOne(run, a);
    AfterOne(run + [a], HandlerStep(i, Succeeds));
    assert (run + [a])[..|run|] == run;
  }

  // ---------------------------------------------------------------- draining

  /** What the actions of run have in common. */
  predicate AllAre(run: seq<Action>, a: Action) {
    forall k :: 0 <= k < |run| ==> run[k] == a
  }

  lemma AfterOne(run: seq<Action>, a: Action)
    requires After(run).Some?
    ensures After(run + [a]) == Next(After(run).value, a)
  {
    assert (run + [a])[..|run|] == run;
  }

  lemma AfterSum(first: seq<Action>, second: seq<Action>, a: Action)
    requires After(first + second).Some?
    ensures After(first + (second + [a])) == Next(After(first + second).value, a)
  {
    AfterOne(first + second, a);
    assert first + (second + [a]) == (first + second) + [a];
  }

  /** Nobody calls Stop, and no caller already in it moves. */
  predicate Unaided(run: seq<Action>) {
    forall k :: 0 <= k < |run| ==> run[k] != CallStop && !run[k].StopStep?
  }

  predicate StopsOnly(run: seq<Action>) {
    forall k :: 0 <= k < |run| ==> run[k].StopStep?
  }

  predicate NoNewStops(run: seq<Action>) {
    forall k :: 0 <= k < |run| ==> run[k] != CallStop
  }

  /** Handler i serves the client whose connection the sweep spared. */
  predicate Spares(s: State, i: nat) {
    i < |s.handlers| && s.w.exempt == Some(s.handlers[i].conn)
  }

  predicate SameClients(s: State, s': State) {
    && |s'.handlers| == |s.handlers| && s'.w.exempt == s.w.exempt
    && forall i :: 0 <= i < |s.handlers| ==> s'.handlers[i].conn == s.handlers[i].conn
  }

  /** No client need do anything, but for the spared one. */
  predicate OnlySparedAnswers(run: seq<Action>, s: State) {
    forall k :: 0 <= k < |run| && run[k].HandlerStep? && run[k].choice != Fails ==> Spares(s, run[k].handler)
  }

  lemma SparedChain(first: seq<Action>, second: seq<Action>, s: State, s': State)
    requires SameClients(s, s') && OnlySparedAnswers(first, s) && OnlySparedAnswers(second, s')
    ensures OnlySparedAnswers(first + second, s) && OnlySparedAnswers(first + second, s')
  {
    forall i: nat ensures Spares(s, i) <==> Spares(s', i) {}
  }

  lemma Chain(run: seq<Action>, first: seq<Action>, second: seq<Action>) returns (more: seq<Action>)
    ensures more == first + second && run + more == (run + first) + second
    ensures Unaided(first) && Unaided(second) ==> Unaided(more)
    ensures StopsOnly(first) && StopsOnly(second) ==> StopsOnly(more)
    ensures NoNewStops(first) && NoNewStops(second) ==> NoNewStops(more)
  {
    more := first + second;
    assert run + (first + second) == (run + first) + second;
  }

  function StepsToEnd(pc: HandlerPC): nat {
    match pc
    case ServingStop => 4
    case Serving => 4
    case Starting => 3
    case Untracking => 3
    case Closing => 2
    case Finishing => 1
    case HandlerEnded => 0
  }

  /** Nothing keeps a handler waiting: its client answers, or its connection is closed. */
  predicate Unparked(w: World, h: Handler, reply: Choice) {
    reply == Succeeds || (reply == Fails && (Registered(h) ==> h.conn in w.closed))
  }

  lemma HandlerAdvances(w: World, accept: AcceptPC, h: Handler, reply: Choice)
    requires w.stopClosed && HandlerFits(w, accept, h) && Unparked(w, h, reply)
    requires h.pc != HandlerEnded && w.wg > 0
    ensures HandlerNext(w, h, reply).Some?
    ensures var m := HandlerNext(w, h, reply).value;
            StepsToEnd(m.h.pc) < StepsToEnd(h.pc) && Unparked(m.w, m.h, reply) && m.h.conn == h.conn
  {}

  lemma {:induction false} SomeLive(handlers: seq<Handler>, i: nat)
    requires i < |handlers| && handlers[i].pc != HandlerEnded
    ensures Live(handlers) > 0
  {
    NoneLive(handlers);
  }

  /** Only handler i has moved. */
  predicate OnlyHandler(s: State, i: nat, s': State) {
    && i < |s.handlers| == |s'.handlers| && s' == s.(w := s'.w, handlers := s'.handlers)
    && (forall k :: 0 <= k < |s.handlers| && k != i ==> s'.handlers[k] == s.handlers[k])
    && s'.w.stopClosed && s'.w.swept && s'.w.exempt == s.w.exempt
  }

  lemma HandlerNears(run: seq<Action>, i: nat, reply: Choice)
    requires After(run).Some? && After(run).value.w.swept && i < |After(run).value.handlers|
    requires Unparked(After(run).value.w, After(run).value.handlers[i], reply)
    requires After(run).value.handlers[i].pc != HandlerEnded
    ensures After(run + [HandlerStep(i, reply)]).Some?
    ensures var s, s' := After(run).value, After(run + [HandlerStep(i, reply)]).value;
            && OnlyHandler(s, i, s') && Unparked(s'.w, s'.handlers[i], reply)
            && StepsToEnd(s'.handlers[i].pc) < StepsToEnd(s.handlers[i].pc)
            && s'.handlers[i].conn == s.handlers[i].conn
  {
    var s := After(run).value;
    ReachableInv(run);
    SomeLive(s.handlers, i);
    HandlerAdvances(s.w, s.accept, s.handlers[i], reply);
    HandlerMoves(s.w, s.accept, s.handlers[i], reply);
    AfterOne(run, HandlerStep(i, reply));
  }

  /** From any point of any run after the sweep, any handler ends by its own steps alone, given its
      client's answer or a closed connection. */
  lemma {:induction false} HandlerFinishes(run: seq<Action>, i: nat, reply: Choice) returns (more: seq<Action>)
    requires After(run).Some? && After(run).value.w.swept && i < |After(run).value.handlers|
    requires Unparked(After(run).value.w, After(run).value.handlers[i], reply)
    ensures AllAre(more, HandlerStep(i, reply)) && After(run + more).Some?
    ensures OnlyHandler(After(run).value, i, After(run + more).value)
    ensures var h' := After(run + more).value.handlers[i];
            h'.pc == HandlerEnded && h'.conn == After(run).value.handlers[i].conn
    decreases StepsToEnd(After(run).value.handlers[i].pc)
  {
    if After(run).value.handlers[i].pc == HandlerEnded {
      ReachableInv(run);
      more := [];
      assert run + [] == run;
    } else {
      var a := HandlerStep(i, reply);
      HandlerNears(run, i, reply);
      var rest := HandlerFinishes(run + [a], i, reply);
      more := [a] + rest;
      assert run + more == (run + [a]) + rest;
    }
  }

  /** After the sweep every handler but the spared one ends without its client's help, so no client can
      hold Stop up. */
  lemma NoClientHoldsStop(run: seq<Action>, i: nat) returns (more: seq<Action>)
    requires After(run).Some? && After(run).value.w.swept && i < |After(run).value.handlers|
    requires After(run).value.w.exempt != Some(After(run).value.handlers[i].conn)
    ensures AllAre(more, HandlerStep(i, Fails)) && After(run + more).Some?
    ensures OnlyHandler(After(run).value, i, After(run + more).value)
    ensures var h' := After(run + more).value.handlers[i];
            h'.pc == HandlerEnded && h'.conn == After(run).value.handlers[i].conn
  {
    SweptConnectionsAreClosed(run, i);
    ReachableInv(run);
    assert HandlerFits(After(run).value.w, After(run).value.accept, After(run).value.handlers[i]);
    more := HandlerFinishes(run, i, Fails);
  }

  function AcceptToEnd(pc: AcceptPC): nat {
    match pc
    case BackingOff => 4
    case Parked => 3
    case GotError => 3
    case GotConn(_) => 3
    case Retiring => 2
    case Retired => 1
    case AcceptEnded => 0
  }

  lemma AcceptAdvances(w: World, pc: AcceptPC)
    requires w.stopClosed && w.listenerClosed && w.wg > 0 && pc != AcceptEnded
    ensures AcceptAlone(w, pc, ListenerGone).Some?
    ensures AcceptToEnd(AcceptAlone(w, pc, ListenerGone).value.pc) < AcceptToEnd(pc)
  {}

  /** The accept loop ends by its own steps alone once the listener is closed. */
  lemma {:induction false} AcceptFinishes(run: seq<Action>) returns (more: seq<Action>)
    requires After(run).Some? && After(run).value.w.swept && After(run).value.w.listenerClosed
    ensures AllAre(more, AcceptStep(ListenerGone)) && After(run + more).Some?
    ensures var s, s' := After(run).value, After(run + more).value;
            && s'.accept == AcceptEnded && s' == s.(accept := s'.accept, w := s'.w) && s'.w.swept
            && s'.w.exempt == s.w.exempt
    decreases AcceptToEnd(After(run).value.accept)
  {
    var s := After(run).value;
    ReachableInv(run);
    assert run + [] == run;
    if s.accept == AcceptEnded {
      more := [];
    } else {
      AcceptAdvances(s.w, s.accept);
      AcceptMoves(s.w, s.accept, ListenerGone);
      var a := AcceptStep(ListenerGone);
      AfterOne(run, a);
      var rest := AcceptFinishes(run + [a]);
      more := [a] + rest;
      assert run + more == (run + [a]) + rest;
    }
  }

  /** The heartbeat ends by its own steps alone. */
  lemma BeatFinishes(run: seq<Action>) returns (more: seq<Action>)
    requires After(run).Some? && After(run).value.w.swept
    ensures AllAre(more, BeatStep) && |more| <= 2 && After(run + more).Some?
    ensures var s, s' := After(run).value, After(run + more).value;
            s'.beat == BeatEnded && s' == s.(beat := s'.beat, w := s.w.(wg := s'.w.wg))
  {
    var s := After(run).value;
    ReachableInv(run);
    more := [];
    assert run + [] == run;
    if s.beat == Beating {
      AfterSum(run, more, BeatStep);
      more := more + [BeatStep];
    }
    if s.beat != BeatEnded {
      AfterSum(run, more, BeatStep);
      more := more + [BeatStep];
    }
  }

  /** Every handler can end, the spared one with its client's answer. */
  lemma HandlerEnds(run: seq<Action>, i: nat) returns (more: seq<Action>)
    requires After(run).Some? && After(run).value.w.swept && i < |After(run).value.handlers|
    ensures Unaided(more) && After(run + more).Some?
    ensures OnlySparedAnswers(more, After(run).value) && SameClients(After(run).value, After(run + more).value)
    ensures OnlyHandler(After(run).value, i, After(run + more).value)
    ensures After(run + more).value.handlers[i].pc == HandlerEnded
  {
    if Spares(After(run).value, i) {
      more := HandlerFinishes(run, i, Succeeds);
    } else {
      more := NoClientHoldsStop(run, i);
    }
  }

  lemma {:induction false} HandlersFinish(run: seq<Action>, n: nat) returns (more: seq<Action>)
    requires After(run).Some? && After(run).value.w.swept && n <= |After(run).value.handlers|
    ensures Unaided(more) && After(run + more).Some?
    ensures OnlySparedAnswers(more, After(run).value) && SameClients(After(run).value, After(run + more).value)
    ensures var s, s' := After(run).value, After(run + more).value;
            && s' == s.(w := s'.w, handlers := s'.handlers) && s'.w.swept
            && forall i :: 0 <= i < n ==> s'.handlers[i].pc == HandlerEnded
  {
    if n == 0 {
      more := [];
      assert run + [] == run;
    } else {
      var first := HandlersFinish(run, n - 1);
      var last := HandlerEnds(run + first, n - 1);
      more := Chain(run, first, last);
      SparedChain(first, last, After(run).value, After(run + first).value);
    }
  }

  /** After the sweep the listener is closed, or a goroutine is there to close it. */
  lemma ListenerCloses(run: seq<Action>) returns (more: seq<Action>)
    requires After(run).Some? && After(run).value.w.swept
    ensures Unaided(more) && OnlySparedAnswers(more, After(run).value) && After(run + more).Some?
    ensures var s, s' := After(run).value, After(run + more).value;
            s' == s.(w := s.w.(listenerClosed := true))
  {
    ReachableInv(run);
    assert run + [] == run;
    if After(run).value.w.listenerClosed {
      more := [];
    } else {
      AfterOne(run, DetachedClose);
      more := [DetachedClose];
    }
  }

  lemma NothingLeft(run: seq<Action>)
    requires After(run).Some?
    requires var s := After(run).value;
             && s.accept == AcceptEnded && s.beat == BeatEnded
             && forall i :: 0 <= i < |s.handlers| ==> s.handlers[i].pc == HandlerEnded
    ensures var s := After(run).value;
            && s.w.wg == 0
            && forall j: nat :: j < |s.stops| && s.stops[j] == Draining ==> Next(s, StopStep(j, Succeeds)).Some?
  {
    ReachableInv(run);
    NoneLive(After(run).value.handlers);
  }

  /** The accept loop and the heartbeat end, and no handler is concerned. */
  lemma LoopsFinish(run: seq<Action>) returns (more: seq<Action>)
    requires After(run).Some? && After(run).value.w.swept
    ensures Unaided(more) && OnlySparedAnswers(more, After(run).value) && After(run + more).Some?
    ensures var s, s' := After(run).value, After(run + more).value;
            && s'.accept == AcceptEnded && s'.beat == BeatEnded && s'.w.swept
            && s'.stops == s.stops && s'.handlers == s.handlers && s'.w.exempt == s.w.exempt
  {
    more := ListenerCloses(run);
    var rest := AcceptFinishes(run + more);
    more := Chain(run, more, rest);
    rest := BeatFinishes(run + more);
    more := Chain(run, more, rest);
  }

  /** Wherever a run stands after the sweep, the server's own goroutines can all end, with no client's help
      but the spared one's, so that every caller waiting in Stop can return. */
  lemma SweptServerDrains(run: seq<Action>) returns (more: seq<Action>)
    requires After(run).Some? && After(run).value.w.swept
    ensures Unaided(more) && After(run + more).Some?
    ensures OnlySparedAnswers(more, After(run + more).value)
    ensures var s, s' := After(run).value, After(run + more).value;
            && s'.stops == s.stops && s'.w.wg == 0
            && forall j: nat :: j < |s'.stops| && s'.stops[j] == Draining ==> Next(s', StopStep(j, Succeeds)).Some?
  {
    var first := LoopsFinish(run);
    var rest := HandlersFinish(run + first, |After(run + first).value.handlers|);
    SparedChain(first, rest, After(run).value, After(run + first).value);
    more := Chain(run, first, rest);
    SparedChain([], more, After(run + first).value, After(run + more).value);
    NothingLeft(run + more);
  }

  // ---------------------------------------------------------------- closing stopCh once

  predicate PastSignal(pc: StopPC) {
    pc != Checking && pc != Signalling
  }

  predicate AllPastSignal(stops: seq<StopPC>) {
    forall j :: 0 <= j < |stops| ==> PastSignal(stops[j])
  }

  /** Nobody calls Stop while another caller is between looking at stopCh and closing it. */
  predicate SerialStops(run: seq<Action>) {
    forall k :: 0 <= k < |run| && run[k] == CallStop && After(run[..k]).Some? ==> AllPastSignal(After(run[..k]).value.stops)
  }

  /** Only the latest caller can still be about to close stopCh, and then it is open. */
  predicate SignalsOnce(w: World, stops: seq<StopPC>) {
    && !w.panicked
    && (forall j :: 0 <= j < |stops| - 1 ==> PastSignal(stops[j]))
    && (forall j :: 0 <= j < |stops| && stops[j] == Signalling ==> !w.stopClosed)
  }

  lemma StopSignals(s: State, j: nat, choice: Choice)
    requires SignalsOnce(s.w, s.stops) && Next(s, StopStep(j, choice)).Some?
    ensures var s' := Next(s, StopStep(j, choice)).value; SignalsOnce(s'.w, s'.stops)
  {
    var s' := Next(s, StopStep(j, choice)).value;
    forall k | 0 <= k < |s'.stops| ensures k < |s'.stops| - 1 ==> PastSignal(s'.stops[k]) {
      assert k != j ==> s'.stops[k] == s.stops[k];
    }
  }

  lemma HandlerLeavesSignal(w: World, h: Handler, choice: Choice)
    requires HandlerNext(w, h, choice).Some?
    ensures var m := HandlerNext(w, h, choice).value; m.w.stopClosed == w.stopClosed && m.w.panicked == w.panicked
  {}

  /** Only Stop itself touches stopCh. */
  lemma OthersLeaveSignal(s: State, a: Action)
    requires Next(s, a).Some? && !a.StopStep? && a != CallStop
    ensures var s' := Next(s, a).value;
            s'.stops == s.stops && s'.w.stopClosed == s.w.stopClosed && s'.w.panicked == s.w.panicked
  {
    match a
    case AcceptStep(choice) =>
      if AcceptAlone(s.w, s.accept, choice).Some? { AcceptMoves(s.w, s.accept, choice); }
    case HandlerStep(i, choice) => HandlerLeavesSignal(s.w, s.handlers[i], choice);
    case _ =>
  }

  lemma {:induction false} SerialRunsSignalOnce(run: seq<Action>)
    requires After(run).Some? && SerialStops(run)
    ensures SignalsOnce(After(run).value.w, After(run).value.stops)
  {
    if run != [] {
      var before, a := run[..|run| - 1], run[|run| - 1];
      SerialBefore(run);
      SerialRunsSignalOnce(before);
      var s := After(before).value;
      if a.StopStep? {
        StopSignals(s, a.stop, a.choice);
      } else if a == CallStop {
        assert AllPastSignal(s.stops);
      } else {
        OthersLeaveSignal(s, a);
      }
    }
  }

  lemma SerialBefore(run: seq<Action>)
    requires run != [] && SerialStops(run)
    ensures SerialStops(run[..|run| - 1])
  {
    var before := run[..|run| - 1];
    forall k | 0 <= k < |before| && before[k] == CallStop && After(before[..k]).Some?
      ensures AllPastSignal(After(before[..k]).value.stops)
    {
      assert before[..k] == run[..k];
    }
  }

  /** Serial calls of Stop never close stopCh twice. */
  lemma SerialStopsNeverPanic(run: seq<Action>)
    requires After(run).Some? && SerialStops(run)
    ensures !After(run).value.w.panicked
  {
    SerialRunsSignalOnce(run);
  }

  /** Two callers before the close while stopCh is open, or one about to close it again. */
  ghost predicate PanicNear(s: State) {
    if s.w.stopClosed then Signalling in s.stops
    else exists i, j :: 0 <= i < j < |s.stops| && !PastSignal(s.stops[i]) && !PastSignal(s.stops[j])
  }

  lemma StopStaysSafe(s: State, j: nat, choice: Choice)
    requires !s.w.panicked && !PanicNear(s) && Next(s, StopStep(j, choice)).Some?
    ensures var s' := Next(s, StopStep(j, choice)).value; !s'.w.panicked && !PanicNear(s')
  {
    var s' := Next(s, StopStep(j, choice)).value;
    assert forall k :: 0 <= k < |s.stops| && k != j ==> s'.stops[k] == s.stops[k];
    assert PastSignal(s.stops[j]) ==> PastSignal(s'.stops[j]) && s'.stops[j] != Signalling;
  }

  lemma StaysSafe(s: State, a: Action)
    requires !s.w.panicked && !PanicNear(s) && a != CallStop && Next(s, a).Some?
    ensures !Next(s, a).value.w.panicked && !PanicNear(Next(s, a).value)
  {
    if a.StopStep? {
      StopStaysSafe(s, a.stop, a.choice);
    } else {
      OthersLeaveSignal(s, a);
    }
  }

  /** Unless a panic is near, no run without another call of Stop reaches one. */
  lemma {:induction false} PanicMustBeNear(run: seq<Action>, more: seq<Action>)
    requires After(run).Some? && !After(run).value.w.panicked && !PanicNear(After(run).value)
    requires NoNewStops(more) && After(run + more).Some?
    ensures !After(run + more).value.w.panicked && !PanicNear(After(run + more).value)
  {
    if more == [] {
      assert run + more == run;
    } else {
      var before, a := more[..|more| - 1], more[|more| - 1];
      assert (run + more)[..|run + more| - 1] == run + before;
      PanicMustBeNear(run, before);
      StaysSafe(After(run + before).value, a);
    }
  }

  lemma Looks(run: seq<Action>, i: nat) returns (more: seq<Action>)
    requires After(run).Some? && !After(run).value.w.stopClosed && i < |After(run).value.stops|
    requires !PastSignal(After(run).value.stops[i])
    ensures StopsOnly(more) && After(run + more).Some?
    ensures var s, s' := After(run).value, After(run + more).value;
            s'.w == s.w && s'.stops == s.stops[i := Signalling]
  {
    more := [];
    assert run + [] == run;
    if After(run).value.stops[i] == Checking {
      AfterSum(run, more, StopStep(i, Succeeds));
      more := more + [StopStep(i, Succeeds)];
    }
  }

  lemma ClosesAgain(run: seq<Action>, i: nat) returns (more: seq<Action>)
    requires After(run).Some? && i < |After(run).value.stops| && After(run).value.stops[i] == Signalling
    ensures StopsOnly(more) && After(run + more).Some?
    ensures var s, s' := After(run).value, After(run + more).value;
            && s'.stops == s.stops[i := AwaitRetire] && s'.w.stopClosed
            && (s.w.stopClosed ==> s'.w.panicked)
  {
    AfterOne(run, StopStep(i, Succeeds));
    more := [StopStep(i, Succeeds)];
  }

  /** A panic that is near needs nobody but the callers of Stop. */
  lemma PanicWhenNear(run: seq<Action>) returns (more: seq<Action>)
    requires After(run).Some? && PanicNear(After(run).value)
    ensures StopsOnly(more) && After(run + more).Some? && After(run + more).value.w.panicked
  {
    var s := After(run).value;
    if s.w.stopClosed {
      var i :| 0 <= i < |s.stops| && s.stops[i] == Signalling;
      more := ClosesAgain(run, i);
    } else {
      var i, j :| 0 <= i < j < |s.stops| && !PastSignal(s.stops[i]) && !PastSignal(s.stops[j]);
      more := Looks(run, i);
      var rest := Looks(run + more, j);
      more := Chain(run, more, rest);
      rest := ClosesAgain(run + more, i);
      more := Chain(run, more, rest);
      rest := ClosesAgain(run + more, j);
      more := Chain(run, more, rest);
    }
  }

  ghost predicate PanicBy(run: seq<Action>, more: seq<Action>) {
    StopsOnly(more) && After(run + more).Some? && After(run + more).value.w.panicked
  }

  /** From any point of any run so far without one, the callers of Stop can bring a panic about exactly
      when two of them are before the close, or one is about to close a closed channel. */
  lemma StopsPanicWhen(run: seq<Action>)
    requires After(run).Some? && !After(run).value.w.panicked
    ensures (exists more :: PanicBy(run, more)) <==> PanicNear(After(run).value)
  {
    if PanicNear(After(run).value) {
      var more := PanicWhenNear(run);
      assert PanicBy(run, more);
    }
    if more :| PanicBy(run, more) && !PanicNear(After(run).value) {
      PanicMustBeNear(run, more);
    }
  }

  function StopToSweep(pc: StopPC): nat {
    match pc
    case Checking => 5
    case Signalling => 4
    case AwaitRetire => 3
    case ClosingListener => 2
    case Sweeping => 1
    case _ => 0
  }

  lemma StopAdvances(w: World, pc: StopPC)
    requires StopToSweep(pc) > 0
    ensures StopNext(w, pc, Fails).Some? && StopToSweep(StopNext(w, pc, Fails).value.pc) < StopToSweep(pc)
  {}

  lemma PastSweep(run: seq<Action>, j: nat)
    requires After(run).Some? && j < |After(run).value.stops| && StopToSweep(After(run).value.stops[j]) == 0
    ensures After(run).value.w.swept
  {
    ReachableInv(run);
    assert StopFits(After(run).value.w, After(run).value.stops[j]);
  }

  /** A caller reaches the sweep by its own steps alone, whatever the accept loop does. */
  lemma {:induction false} StopSweeps(run: seq<Action>, j: nat) returns (more: seq<Action>)
    requires After(run).Some? && j < |After(run).value.stops|
    ensures StopsOnly(more) && After(run + more).Some?
    ensures var s' := After(run + more).value;
            s'.w.swept && j < |s'.stops| && StopToSweep(s'.stops[j]) == 0
    decreases StopToSweep(After(run).value.stops[j])
  {
    assert run + [] == run;
    if StopToSweep(After(run).value.stops[j]) == 0 {
      PastSweep(run, j);
      more := [];
    } else {
      StopAdvances(After(run).value.w, After(run).value.stops[j]);
      var a := StopStep(j, Fails);
      AfterOne(run, a);
      var rest := StopSweeps(run + [a], j);
      more := Chain(run, [a], rest);
    }
  }

  lemma StopReturns(run: seq<Action>, j: nat) returns (more: seq<Action>)
    requires After(run).Some? && j < |After(run).value.stops| && After(run).value.w.wg == 0
    requires StopToSweep(After(run).value.stops[j]) == 0
    ensures StopsOnly(more) && After(run + more).Some?
    ensures SameClients(After(run).value, After(run + more).value)
    ensures j < |After(run + more).value.stops| && After(run + more).value.stops[j] == Returned
  {
    assert run + [] == run;
    if After(run).value.stops[j] == Returned {
      more := [];
    } else {
      AfterOne(run, StopStep(j, Succeeds));
      more := [StopStep(j, Succeeds)];
    }
  }

  /** Whatever the clients and the accept loop have done, a caller of Stop can return: with no client's help
      but the spared one's, and without a second close of stopCh unless one was near already. */
  lemma StopCanReturn(run: seq<Action>, j: nat) returns (more: seq<Action>)
    requires After(run).Some? && j < |After(run).value.stops|
    ensures NoNewStops(more) && After(run + more).Some?
    ensures OnlySparedAnswers(more, After(run + more).value)
    ensures var s, s' := After(run).value, After(run + more).value;
            && j < |s'.stops| && s'.stops[j] == Returned
            && (!s.w.panicked && !PanicNear(s) ==> !s'.w.panicked)
  {
    var sweep := StopSweeps(run, j);
    var drain := SweptServerDrains(run + sweep);
    var drained := Chain(run, sweep, drain);
    var back := StopReturns(run + drained, j);
    more := Chain(run, drained, back);
    SparedChain(drained, back, After(run + drained).value, After(run + more).value);
    if !After(run).value.w.panicked && !PanicNear(After(run).value) {
      PanicMustBeNear(run, more);
    }
  }

  lemma Continue(run: seq<Action>, s: State, a: Action, s': State) returns (next: seq<Action>)
    requires After(run) == Some(s) && Next(s, a) == Some(s')
    ensures After(next) == Some(s')
  {
    next := run + [a];
    assert next[..|run|] == run;
  }

  /** Overlapping calls can: the look and the close are two steps. */
  lemma OverlappingStopsCanPanic() returns (run: seq<Action>)
    ensures After(run).Some? && After(run).value.w.panicked
  {
    var s0 := Started();
    var s1 := s0.(stops := s0.stops + [Checking]);
    run := Continue([], s0, CallStop, s1);
    var s2 := s1.(stops := s1.stops + [Checking]);
    run := Continue(run, s1, CallStop, s2);
    var s3 := s2.(stops := s2.stops[0 := Signalling]);
    run := Continue(run, s2, StopStep(0, Succeeds), s3);
    var s4 := s3.(stops := s3.stops[1 := Signalling]);
    run := Continue(run, s3, StopStep(1, Succeeds), s4);
    var s5 := s4.(stops := s4.stops[0 := AwaitRetire], w := s4.w.(stopClosed := true));
    run := Continue(run, s4, StopStep(0, Succeeds), s5);
    var s6 := s5.(stops := s5.stops[1 := AwaitRetire], w := s5.w.(panicked := true));
    run := Continue(run, s5, StopStep(1, Succeeds), s6);
  }
}
