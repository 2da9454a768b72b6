/** The deterministic policy evaluator, one decision at a time.

    Models internal/enforcement/policy.go. A timestamp is absent, malformed, or an instant: the text of
    an instant is not modelled. */
module Policy {
  import opened Wrappers

  const SCHEMA_VERSION := 1
  const MAX_BUDGET := 1000
  const MAX_PREDICATES := 64
  const MAX_IDENTIFIER := 64

  datatype State = Active | WaitExternal | Verify | Complete | Blocked | UnknownState(text: string)

  datatype Action =
    | Progress | NoProgress | BeginWait | Recheck | RequestVerify | SubmitResults
    | RetryableFailure | TerminalFailure | UnknownAction(text: string)

  datatype Reason =
    | MalformedInput | InvalidTransition | ProgressRecorded | NoProgressRecorded | NoProgressExhausted
    | RetryScheduled | RetryExhausted | WaitingExternal | WaitNotDue | WaitRecheckDue | WaitDeadlineExceeded
    | VerificationRequested | AcceptancePassed | AcceptanceFailed | TerminalFailed | TerminalState

  datatype Stamp = Absent | Garbled | Instant(at: int)

  datatype Wait = Wait(owner: string, recheckAt: Stamp, deadline: Stamp)

  datatype Predicate = Predicate(id: string, kind: string)

  datatype Rules = Rules(schemaVersion: int, policyID: string, retryBudget: int, noProgressBudget: int,
                         acceptance: seq<Predicate>)

  datatype Snapshot = Snapshot(state: State, retries: int, idles: int, wait: Option<Wait>)

  datatype Observation = Observation(observed: bool, satisfied: bool)

  datatype Event = Event(action: Action, now: Stamp, wait: Option<Wait>, results: Option<map<string, Observation>>)

  /** A decision is the next snapshot and why. */
  datatype Decision = Decision(next: Snapshot, reason: Reason)

  const OWNERS := ["operator", "github", "gitea", "claude", "codex", "opencode", "radioactive-ralph", "coderabbit",
                   "ai-git-bot", "external"]

  const KINDS := ["command_exit_zero", "file_exists", "checks_green", "review_approved", "exact_artifact_match"]

  // ---------------------------------------------------------------- validation

  predicate IdentifierTail(c: char) {
    'a' <= c <= 'z' || '0' <= c <= '9' || c == '.' || c == '_' || c == '-'
  }

  predicate IsIdentifier(s: string) {
    0 < |s| <= MAX_IDENTIFIER && 'a' <= s[0] <= 'z' && forall i :: 1 <= i < |s| ==> IdentifierTail(s[i])
  }

  predicate ValidRules(p: Rules) {
    && p.schemaVersion == SCHEMA_VERSION
    && IsIdentifier(p.policyID)
    && 0 <= p.retryBudget <= MAX_BUDGET
    && 0 <= p.noProgressBudget <= MAX_BUDGET
    && 0 < |p.acceptance| <= MAX_PREDICATES
    && (forall i :: 0 <= i < |p.acceptance| ==> IsIdentifier(p.acceptance[i].id) && p.acceptance[i].kind in KINDS)
    && (forall i, j :: 0 <= i < j < |p.acceptance| ==> p.acceptance[i].id != p.acceptance[j].id)
  }

  predicate IsPredicateID(p: Rules, id: string) {
    exists i :: 0 <= i < |p.acceptance| && p.acceptance[i].id == id
  }

  predicate ValidWait(w: Wait) {
    w.owner in OWNERS && w.recheckAt.Instant? && w.deadline.Instant? && w.recheckAt.at < w.deadline.at
  }

  predicate ValidSnapshot(p: Rules, s: Snapshot) {
    && !s.state.UnknownState?
    && 0 <= s.retries <= MAX_BUDGET + 1 && 0 <= s.idles <= MAX_BUDGET + 1
    && (s.state != Blocked ==> s.retries <= p.retryBudget && s.idles <= p.noProgressBudget)
    && (s.wait.Some? <==> s.state == WaitExternal)
    && (s.wait.Some? ==> ValidWait(s.wait.value))
  }

  predicate ValidEvent(p: Rules, e: Event) {
    match e.action
    case UnknownAction(_) => false
    case BeginWait =>
      e.now.Instant? && e.wait.Some? && ValidWait(e.wait.value) && e.results.None? && e.now.at < e.wait.value.recheckAt.at
    case Recheck => e.now.Instant? && e.wait.None? && e.results.None?
    case SubmitResults =>
      && e.now.Absent? && e.wait.None? && e.results.Some?
      && forall id :: id in e.results.value ==>
           IsPredicateID(p, id) && (e.results.value[id].satisfied ==> e.results.value[id].observed)
    case _ => e.now.Absent? && e.wait.None? && e.results.None?
  }

  /** An identifier is a lower-case letter and up to sixty-three of the characters it may go on with. */
  lemma IdentifierIs(s: string)
    ensures IsIdentifier(s) <==>
              && 1 <= |s| <= 64
              && 0x61 <= s[0] as int <= 0x7A
              && forall i :: 0 <= i < |s| ==>
                   s[i] in {'.', '_', '-'} || 0x61 <= s[i] as int <= 0x7A || 0x30 <= s[i] as int <= 0x39
  {}

  /** The ids of the first n predicates. */
  predicate AreIDs(p: Rules, n: nat, ids: set<string>)
    requires n <= |p.acceptance|
  {
    && (forall k :: 0 <= k < n ==> p.acceptance[k].id in ids)
    && (forall id :: id in ids ==> exists k :: 0 <= k < n && p.acceptance[k].id == id)
  }

  /** validateRequest: the policy with the ids it collects, the snapshot, the event. */
  method ValidateRequest(p: Rules, s: Snapshot, e: Event) returns (ok: bool)
    ensures ok <==> ValidRules(p) && ValidSnapshot(p, s) && ValidEvent(p, e)
  {
    var ids: set<string>;
    ok, ids := ValidatePolicy(p);
    if !ok {
      return false;
    }
    ok := ValidateSnapshot(p, s);
    if !ok || e.action.UnknownAction? {
      return false;
    }
    ok := ValidateEvent(p, e, ids);
  }

  /** The first n predicates are well-formed and have different ids. */
  predicate PredicatesFit(p: Rules, n: nat)
    requires n <= |p.acceptance|
  {
    && (forall k :: 0 <= k < n ==> IsIdentifier(p.acceptance[k].id) && p.acceptance[k].kind in KINDS)
    && (forall j, k :: 0 <= j < k < n ==> p.acceptance[j].id != p.acceptance[k].id)
  }

  lemma NextFits(p: Rules, i: nat, ids: set<string>)
    requires i < |p.acceptance| && AreIDs(p, i, ids) && PredicatesFit(p, i)
    requires IsIdentifier(p.acceptance[i].id) && p.acceptance[i].kind in KINDS
    ensures AreIDs(p, i + 1, ids + {p.acceptance[i].id})
    ensures PredicatesFit(p, i + 1) <==> p.acceptance[i].id !in ids
  {
    if p.acceptance[i].id in ids {
      var k :| 0 <= k < i && p.acceptance[k].id == p.acceptance[i].id;
    }
  }

  method ValidatePolicy(p: Rules) returns (ok: bool, ids: set<string>)
    ensures ok <==> ValidRules(p)
    ensures ok ==> AreIDs(p, |p.acceptance|, ids)
  {
    ids := {};
    if p.schemaVersion != SCHEMA_VERSION || !IsIdentifier(p.policyID) ||
       p.retryBudget < 0 || p.retryBudget > MAX_BUDGET ||
       p.noProgressBudget < 0 || p.noProgressBudget > MAX_BUDGET ||
       |p.acceptance| == 0 || |p.acceptance| > MAX_PREDICATES {
      return false, ids;
    }
    for i := 0 to |p.acceptance|
      invariant AreIDs(p, i, ids) && PredicatesFit(p, i)
    {
      var required := p.acceptance[i];
      if !IsIdentifier(required.id) || required.kind !in KINDS {
        return false, ids;
      }
      NextFits(p, i, ids);
      if required.id in ids {
        return false, ids;
      }
      ids := ids + {required.id};
    }
    return true, ids;
  }

  method ValidateSnapshot(p: Rules, s: Snapshot) returns (ok: bool)
    ensures ok <==> ValidSnapshot(p, s)
  {
    if s.state.UnknownState? || s.retries < 0 || s.idles < 0 || s.retries > MAX_BUDGET + 1 || s.idles > MAX_BUDGET + 1 {
      return false;
    }
    if s.state != Blocked && (s.retries > p.retryBudget || s.idles > p.noProgressBudget) {
      return false;
    }
    if s.state == WaitExternal {
      return s.wait.Some? && ValidWait(s.wait.value);
    }
    return s.wait.None?;
  }

  method ValidateEvent(p: Rules, e: Event, ids: set<string>) returns (ok: bool)
    requires AreIDs(p, |p.acceptance|, ids) && !e.action.UnknownAction?
    ensures ok <==> ValidEvent(p, e)
  {
    match e.action {
      case BeginWait =>
        if !e.now.Instant? || e.wait.None? || !ValidWait(e.wait.value) || e.results.Some? {
          return false;
        }
        return e.now.at < e.wait.value.recheckAt.at && e.now.at < e.wait.value.deadline.at;
      case Recheck =>
        return e.now.Instant? && e.wait.None? && e.results.None?;
      case SubmitResults =>
        if !e.now.Absent? || e.wait.Some? || e.results.None? {
          return false;
        }
        var results := e.results.value;
        var left := results.Keys;
        while left != {}
          invariant left <= results.Keys
          invariant forall id :: id in results && id !in left ==>
                      IsPredicateID(p, id) && (results[id].satisfied ==> results[id].observed)
          decreases left
        {
          var id :| id in left;
          if id !in ids || (results[id].satisfied && !results[id].observed) {
            return false;
          }
          left := left - {id};
        }
        return true;
      case _ =>
        return e.now.Absent? && e.wait.None? && e.results.None?;
    }
  }

  // ---------------------------------------------------------------- evaluation

  const MALFORMED := Decision(Snapshot(Blocked, 0, 0, None), MalformedInput)

  /** A wait whose times do not parse is dropped from a decision. */
  function NormalizedWait(w: Option<Wait>): Option<Wait> {
    if w.Some? && w.value.recheckAt.Instant? && w.value.deadline.Instant? then w else None
  }

  function Decide(s: Snapshot, reason: Reason): Decision {
    Decision(s.(wait := NormalizedWait(s.wait)), reason)
  }

  function Block(s: Snapshot, reason: Reason): Decision {
    Decide(s.(state := Blocked, wait := None), reason)
  }

  function RetryOrBlock(p: Rules, s: Snapshot, reason: Reason): Decision {
    var next := s.(retries := s.retries + 1);
    if next.retries > p.retryBudget then Block(next, RetryExhausted) else Decide(next, reason)
  }

  function StartWaiting(s: Snapshot, e: Event): Decision {
    Decide(s.(state := WaitExternal, wait := NormalizedWait(e.wait)), WaitingExternal)
  }

  /** Every predicate of the policy was observed and satisfied. */
  predicate Accepted(p: Rules, results: map<string, Observation>) {
    forall i :: 0 <= i < |p.acceptance| ==>
      var id := p.acceptance[i].id; id in results && results[id].observed && results[id].satisfied
  }

  method AcceptanceSatisfied(p: Rules, results: map<string, Observation>) returns (ok: bool)
    ensures ok <==> Accepted(p, results)
  {
    for i := 0 to |p.acceptance|
      invariant forall k :: 0 <= k < i ==>
                  var id := p.acceptance[k].id; id in results && results[id].observed && results[id].satisfied
    {
      var id := p.acceptance[i].id;
      if id !in results || !results[id].observed || !results[id].satisfied {
        return false;
      }
    }
    return true;
  }

  function EvaluateActive(p: Rules, s: Snapshot, e: Event): Decision {
    match e.action
    case Progress => Decide(s.(idles := 0), ProgressRecorded)
    case NoProgress =>
      var next := s.(idles := s.idles + 1);
      if next.idles > p.noProgressBudget then Block(next, NoProgressExhausted) else Decide(next, NoProgressRecorded)
    case RetryableFailure => RetryOrBlock(p, s, RetryScheduled)
    case BeginWait => StartWaiting(s, e)
    case RequestVerify => Decide(s.(state := Verify), VerificationRequested)
    case _ => Block(s, InvalidTransition)
  }

  function EvaluateWait(s: Snapshot, e: Event): Decision {
    if e.action != Recheck then Block(s, InvalidTransition)
    else if !e.now.Instant? || s.wait.None? || !s.wait.value.recheckAt.Instant? || !s.wait.value.deadline.Instant? then MALFORMED
    else if e.now.at >= s.wait.value.deadline.at then Block(s, WaitDeadlineExceeded)
    else if e.now.at < s.wait.value.recheckAt.at then Decide(s, WaitNotDue)
    else Decide(s.(state := Active, wait := None), WaitRecheckDue)
  }

  function EvaluateVerify(p: Rules, s: Snapshot, e: Event): Decision {
    match e.action
    case SubmitResults =>
      var results := if e.results.Some? then e.results.value else map[];
      if Accepted(p, results) then Decide(s.(state := Complete, wait := None), AcceptancePassed)
      else RetryOrBlock(p, s.(state := Active), AcceptanceFailed)
    case BeginWait => StartWaiting(s, e)
    case RetryableFailure => RetryOrBlock(p, s.(state := Active), RetryScheduled)
    case _ => Block(s, InvalidTransition)
  }

  function Evaluate(p: Rules, s: Snapshot, e: Event): Decision {
    if !ValidRules(p) || !ValidSnapshot(p, s) || !ValidEvent(p, e) then MALFORMED
    else if s.state == Complete || s.state == Blocked then Decide(s, TerminalState)
    else if e.action == TerminalFailure then Block(s, TerminalFailed)
    else
      match s.state
      case Active => EvaluateActive(p, s, e)
      case WaitExternal => EvaluateWait(s, e)
      case Verify => EvaluateVerify(p, s, e)
      case _ => Block(s, InvalidTransition)
  }

  // ---------------------------------------------------------------- single decisions

  /** Whatever the request, what an adapter is told to persist is valid input for the next one, and
      blocked unless the whole request was. */
  lemma DecisionsAreValid(p: Rules, s: Snapshot, e: Event)
    ensures var d := Evaluate(p, s, e);
            && (ValidRules(p) ==> ValidSnapshot(p, d.next))
            && (d.reason == MalformedInput <==> !(ValidRules(p) && ValidSnapshot(p, s) && ValidEvent(p, e)))
            && (d.reason == MalformedInput ==> d.next == Snapshot(Blocked, 0, 0, None))
  {}

  /** COMPLETE is entered in one way only: from VERIFY, on results that observe and satisfy every
      predicate of the policy. */
  lemma CompleteMeansAccepted(p: Rules, s: Snapshot, e: Event)
    requires ValidRules(p) && ValidSnapshot(p, s) && s.state != Complete
    ensures Evaluate(p, s, e).next.state == Complete <==>
              s.state == Verify && ValidEvent(p, e) && e.action == SubmitResults && Accepted(p, e.results.value)
  {}

  /** A finished policy run is left alone by exactly the well-formed events: a malformed one reopens a
      COMPLETE snapshot as BLOCKED, and clears a BLOCKED one's counts. */
  lemma TerminalStatesAbsorb(p: Rules, s: Snapshot, e: Event)
    requires ValidRules(p) && ValidSnapshot(p, s)
    ensures s.state == Complete ==> (Evaluate(p, s, e).next == s <==> ValidEvent(p, e))
    ensures s.state == Complete && !ValidEvent(p, e) ==> Evaluate(p, s, e).next.state == Blocked
    ensures s.state == Blocked ==> Evaluate(p, s, e).next.state == Blocked
    ensures s.state == Blocked && ValidEvent(p, e) ==> Evaluate(p, s, e).next == s
  {}

  /** A wait ends when it is rechecked in its window, and is over for good at its deadline. */
  lemma WaitWindow(p: Rules, s: Snapshot, now: int)
    requires ValidRules(p) && ValidSnapshot(p, s) && s.state == WaitExternal
    ensures var d := Evaluate(p, s, Event(Recheck, Instant(now), None, None));
            var recheckAt, deadline := s.wait.value.recheckAt.at, s.wait.value.deadline.at;
            && recheckAt < deadline
            && (d.next == s <==> now < recheckAt)
            && (d.next == s.(state := Active, wait := None) <==> recheckAt <= now < deadline)
            && (d.next == s.(state := Blocked, wait := None) <==> now >= deadline)
  {}

  /** What an adapter may report in each state. */
  predicate Allowed(state: State, action: Action) {
    match state
    case Active => action in {Progress, NoProgress, RetryableFailure, BeginWait, RequestVerify, TerminalFailure}
    case WaitExternal => action in {Recheck, TerminalFailure}
    case Verify => action in {SubmitResults, BeginWait, RetryableFailure, TerminalFailure}
    case _ => false
  }

  /** A well-formed report out of turn blocks, counts kept, and is the only thing called an invalid
      transition; a terminal failure blocks whatever is still going on. */
  lemma OutOfTurnBlocks(p: Rules, s: Snapshot, e: Event)
    requires ValidRules(p) && ValidSnapshot(p, s) && ValidEvent(p, e) && s.state != Complete && s.state != Blocked
    ensures var d := Evaluate(p, s, e);
            && (d.reason == InvalidTransition <==> !Allowed(s.state, e.action))
            && (d.reason == InvalidTransition || e.action == TerminalFailure ==> d.next == s.(state := Blocked, wait := None))
            && (e.action == BeginWait && Allowed(s.state, e.action) ==> d.next == s.(state := WaitExternal, wait := e.wait))
  {}

  // ---------------------------------------------------------------- whole runs

  /** Feeding every decision back as the next snapshot. */
  function After(p: Rules, s: Snapshot, events: seq<Event>): Snapshot {
    if events == [] then s
    else Evaluate(p, After(p, s, events[..|events| - 1]), events[|events| - 1]).next
  }

  /** An observation that uses up a retry: a failure reported while working or verifying, or results
      that do not meet the policy. */
  predicate UsesRetry(p: Rules, s: Snapshot, e: Event) {
    ValidEvent(p, e) &&
    (((s.state == Active || s.state == Verify) && e.action == RetryableFailure) ||
     (s.state == Verify && e.action == SubmitResults && !Accepted(p, e.results.value)))
  }

  predicate Idles(p: Rules, s: Snapshot, e: Event) {
    ValidEvent(p, e) && s.state == Active && e.action == NoProgress
  }

  predicate Progresses(p: Rules, s: Snapshot, e: Event) {
    ValidEvent(p, e) && s.state == Active && e.action == Progress
  }

  function RetriesUsed(p: Rules, s: Snapshot, events: seq<Event>): nat {
    if events == [] then 0
    else
      var before, e := events[..|events| - 1], events[|events| - 1];
      RetriesUsed(p, s, before) + (if UsesRetry(p, After(p, s, before), e) then 1 else 0)
  }

  function IdlesSinceProgress(p: Rules, s: Snapshot, events: seq<Event>): nat {
    if events == [] then 0
    else
      var before, e := events[..|events| - 1], events[|events| - 1];
      if Progresses(p, After(p, s, before), e) then 0
      else IdlesSinceProgress(p, s, before) + (if Idles(p, After(p, s, before), e) then 1 else 0)
  }

  lemma {:induction false} RunsStayValid(p: Rules, s: Snapshot, events: seq<Event>)
    requires ValidRules(p) && ValidSnapshot(p, s)
    ensures ValidSnapshot(p, After(p, s, events))
  {
    if events != [] {
      var before, e := events[..|events| - 1], events[|events| - 1];
      RunsStayValid(p, s, before);
      DecisionsAreValid(p, After(p, s, before), e);
    }
  }

  /** What one decision makes of a well-formed report that uses up a retry or idles: the budget blocks it
      exactly when it was used up before, and otherwise work goes on with one more counted. */
  lemma BudgetsDecide(p: Rules, s: Snapshot, e: Event)
    requires ValidRules(p) && ValidSnapshot(p, s) && ValidEvent(p, e) && s.state != Complete && s.state != Blocked
    ensures var d := Evaluate(p, s, e);
            && (d.reason == RetryExhausted <==> UsesRetry(p, s, e) && s.retries == p.retryBudget)
            && (d.reason == NoProgressExhausted <==> Idles(p, s, e) && s.idles == p.noProgressBudget)
            && (UsesRetry(p, s, e) ==>
                  d.next == s.(retries := s.retries + 1, state := if s.retries < p.retryBudget then Active else Blocked))
            && (Idles(p, s, e) ==>
                  d.next == s.(idles := s.idles + 1, state := if s.idles < p.noProgressBudget then Active else Blocked))
            && (Progresses(p, s, e) ==> d.next == s.(idles := 0))
  {}

  /** And what it is called: a rejected verification is not a scheduled retry. */
  lemma ReasonsTellApart(p: Rules, s: Snapshot, e: Event)
    requires ValidRules(p) && ValidSnapshot(p, s) && ValidEvent(p, e) && s.state != Complete && s.state != Blocked
    ensures var d := Evaluate(p, s, e);
            && (d.reason == RetryScheduled <==> UsesRetry(p, s, e) && s.retries < p.retryBudget && e.action == RetryableFailure)
            && (d.reason == AcceptanceFailed <==> UsesRetry(p, s, e) && s.retries < p.retryBudget && e.action == SubmitResults)
            && (d.reason == NoProgressRecorded <==> Idles(p, s, e) && s.idles < p.noProgressBudget)
            && (d.reason == ProgressRecorded <==> Progresses(p, s, e))
            && (d.reason == TerminalFailed <==> e.action == TerminalFailure)
            && (d.reason == VerificationRequested <==> s.state == Active && e.action == RequestVerify)
            && (d.reason == WaitingExternal <==> (s.state == Active || s.state == Verify) && e.action == BeginWait)
  {}

  /** How one decision moves the counters of a snapshot that has not been blocked. */
  lemma CountersMove(p: Rules, s: Snapshot, e: Event)
    requires ValidRules(p) && ValidSnapshot(p, s)
    ensures var next := Evaluate(p, s, e).next;
            && (next.state != Blocked ==>
                  && s.state != Blocked
                  && next.retries == s.retries + (if UsesRetry(p, s, e) then 1 else 0)
                  && next.idles == if Progresses(p, s, e) then 0 else s.idles + (if Idles(p, s, e) then 1 else 0))
            && (s.state == Blocked ==> next.state == Blocked && !UsesRetry(p, s, e) && !Idles(p, s, e) && !Progresses(p, s, e))
  {}

  /** In any run, well-formed or not: retries are counted exactly until the run is blocked, so at most
      RetryBudget + 1 observations ever use one up, and the last of them blocks. */
  lemma {:induction false} RetriesAreBounded(p: Rules, s: Snapshot, events: seq<Event>)
    requires ValidRules(p) && ValidSnapshot(p, s)
    ensures var last := After(p, s, events);
            && RetriesUsed(p, s, events) <= p.retryBudget + 1
            && (last.state != Blocked ==> last.retries == s.retries + RetriesUsed(p, s, events) <= p.retryBudget)
  {
    if events != [] {
      var before, e := events[..|events| - 1], events[|events| - 1];
      RetriesAreBounded(p, s, before);
      RunsStayValid(p, s, before);
      RunsStayValid(p, s, events);
      CountersMove(p, After(p, s, before), e);
    }
  }

  /** Likewise for observations of no progress since the last observation of progress. */
  lemma {:induction false} IdlesAreBounded(p: Rules, s: Snapshot, events: seq<Event>)
    requires ValidRules(p) && ValidSnapshot(p, s)
    ensures var last := After(p, s, events);
            && IdlesSinceProgress(p, s, events) <= p.noProgressBudget + 1
            && (last.state != Blocked ==> IdlesSinceProgress(p, s, events) <= last.idles <= p.noProgressBudget)
  {
    if events != [] {
      var before, e := events[..|events| - 1], events[|events| - 1];
      IdlesAreBounded(p, s, before);
      RunsStayValid(p, s, before);
      RunsStayValid(p, s, events);
      CountersMove(p, After(p, s, before), e);
    }
  }

  /** The observation of a run at which the retry budget blocks it is the one after RetryBudget uses, counted
      from where the snapshot stood, and no other. */
  lemma RetryBudgetIsExact(p: Rules, s: Snapshot, events: seq<Event>, e: Event)
    requires ValidRules(p) && ValidSnapshot(p, s)
    ensures Evaluate(p, After(p, s, events), e).reason == RetryExhausted <==>
              && UsesRetry(p, After(p, s, events), e)
              && s.retries + RetriesUsed(p, s, events) == p.retryBudget
  {
    RunsStayValid(p, s, events);
    RetriesAreBounded(p, s, events);
    RetryDecision(p, After(p, s, events), e);
  }

  lemma RetryDecision(p: Rules, s: Snapshot, e: Event)
    requires ValidRules(p) && ValidSnapshot(p, s)
    ensures Evaluate(p, s, e).reason == RetryExhausted <==> UsesRetry(p, s, e) && s.retries == p.retryBudget
    ensures Evaluate(p, s, e).reason == NoProgressExhausted <==> Idles(p, s, e) && s.idles == p.noProgressBudget
  {
    DecisionsAreValid(p, s, e);
    if ValidEvent(p, e) && s.state != Complete && s.state != Blocked { BudgetsDecide(p, s, e); }
  }

  /** Observations of no progress standing against the budget, with those the snapshot came with. */
  function IdlesStanding(p: Rules, s: Snapshot, events: seq<Event>): nat
    requires s.idles >= 0
  {
    if events == [] then s.idles
    else
      var before, e := events[..|events| - 1], events[|events| - 1];
      if Progresses(p, After(p, s, before), e) then 0
      else IdlesStanding(p, s, before) + (if Idles(p, After(p, s, before), e) then 1 else 0)
  }

  lemma {:induction false} IdlesAreCounted(p: Rules, s: Snapshot, events: seq<Event>)
    requires ValidRules(p) && ValidSnapshot(p, s)
    ensures var last := After(p, s, events); last.state != Blocked ==> last.idles == IdlesStanding(p, s, events)
  {
    if events != [] {
      var before, e := events[..|events| - 1], events[|events| - 1];
      IdlesAreCounted(p, s, before);
      RunsStayValid(p, s, before);
      CountersMove(p, After(p, s, before), e);
    }
  }

  /** Likewise for observations of no progress. */
  lemma IdleBudgetIsExact(p: Rules, s: Snapshot, events: seq<Event>, e: Event)
    requires ValidRules(p) && ValidSnapshot(p, s)
    ensures Evaluate(p, After(p, s, events), e).reason == NoProgressExhausted <==>
              && Idles(p, After(p, s, events), e)
              && IdlesStanding(p, s, events) == p.noProgressBudget
  {
    RunsStayValid(p, s, events);
    IdlesAreCounted(p, s, events);
    RetryDecision(p, After(p, s, events), e);
  }

  /** Every event from the k-th on is well-formed. */
  predicate WellFormedFrom(p: Rules, events: seq<Event>, k: nat) {
    forall i :: k <= i < |events| ==> ValidEvent(p, events[i])
  }

  /** The k-th event is an accepted verification, and only well-formed events follow. */
  predicate AcceptedAt(p: Rules, s: Snapshot, events: seq<Event>, k: nat) {
    && k < |events|
    && After(p, s, events[..k]).state == Verify
    && events[k].action == SubmitResults
    && WellFormedFrom(p, events, k)
    && Accepted(p, events[k].results.value)
  }

  lemma AcceptedEarlier(p: Rules, s: Snapshot, events: seq<Event>, k: nat)
    requires k < |events| - 1
    ensures AcceptedAt(p, s, events, k) <==>
              AcceptedAt(p, s, events[..|events| - 1], k) && ValidEvent(p, events[|events| - 1])
  {
    assert events[..|events| - 1][..k] == events[..k];
  }

  /** A run is COMPLETE at its end exactly when it started so and met only well-formed events, or passed
      through an accepted verification after which every event was well-formed. */
  lemma {:induction false} CompleteRuns(p: Rules, s: Snapshot, events: seq<Event>)
    requires ValidRules(p) && ValidSnapshot(p, s)
    ensures After(p, s, events).state == Complete <==>
              (s.state == Complete && WellFormedFrom(p, events, 0)) || EverAccepted(p, s, events)
  {
    if events != [] {
      var before, e := events[..|events| - 1], events[|events| - 1];
      CompleteRuns(p, s, before);
      RunsStayValid(p, s, before);
      CompleteStep(p, After(p, s, before), e);
      AcceptedSomewhere(p, s, events);
      WellFormedLast(p, events);
    }
  }

  ghost predicate EverAccepted(p: Rules, s: Snapshot, events: seq<Event>) {
    exists k: nat :: AcceptedAt(p, s, events, k)
  }

  lemma WellFormedLast(p: Rules, events: seq<Event>)
    requires events != []
    ensures WellFormedFrom(p, events, 0) <==>
              WellFormedFrom(p, events[..|events| - 1], 0) && ValidEvent(p, events[|events| - 1])
  {}

  lemma AcceptedSomewhere(p: Rules, s: Snapshot, events: seq<Event>)
    requires events != []
    ensures var before, e := events[..|events| - 1], events[|events| - 1];
            EverAccepted(p, s, events) <==>
            (After(p, s, before).state == Verify && AcceptsNow(p, e)) ||
            (ValidEvent(p, e) && EverAccepted(p, s, before))
  {
    var n := |events| - 1;
    var before, e := events[..n], events[n];
    if k: nat :| AcceptedAt(p, s, events, k) {
      if k < n { AcceptedEarlier(p, s, events, k); }
    }
    if k: nat :| ValidEvent(p, e) && AcceptedAt(p, s, before, k) {
      AcceptedEarlier(p, s, events, k);
    }
    if After(p, s, before).state == Verify && AcceptsNow(p, e) {
      assert AcceptedAt(p, s, events, n);
    }
  }

  predicate AcceptsNow(p: Rules, e: Event) {
    ValidEvent(p, e) && e.action == SubmitResults && Accepted(p, e.results.value)
  }

  lemma CompleteStep(p: Rules, s: Snapshot, e: Event)
    requires ValidRules(p) && ValidSnapshot(p, s)
    ensures Evaluate(p, s, e).next.state == Complete <==>
              (s.state == Complete && ValidEvent(p, e)) || (s.state == Verify && AcceptsNow(p, e))
  {
    if s.state == Complete {
      TerminalStatesAbsorb(p, s, e);
    } else {
      CompleteMeansAccepted(p, s, e);
    }
  }

  function Passing(p: Rules): map<string, Observation> {
    map i | 0 <= i < |p.acceptance| :: p.acceptance[i].id := Observation(true, true)
  }

  const REQUEST := Event(RequestVerify, Absent, None, None)

  function Submit(p: Rules): Event {
    Event(SubmitResults, Absent, None, Some(Passing(p)))
  }

  function RecheckOf(w: Wait): Event {
    Event(Recheck, w.recheckAt, None, None)
  }

  lemma TowardsCompletion(p: Rules, s: Snapshot)
    requires ValidRules(p) && ValidSnapshot(p, s)
    ensures s.state == Verify ==> ValidEvent(p, Submit(p)) && Evaluate(p, s, Submit(p)).next.state == Complete
    ensures s.state == Active ==> ValidEvent(p, REQUEST) && Evaluate(p, s, REQUEST).next.state == Verify
    ensures s.state == WaitExternal ==>
              ValidEvent(p, RecheckOf(s.wait.value)) && Evaluate(p, s, RecheckOf(s.wait.value)).next.state == Active
  {
    PassingIsAccepted(p);
  }

  /** Extending a run by one event that was just shown to lead from one state to the next. */
  lemma Extend(p: Rules, s: Snapshot, events: seq<Event>, e: Event, next: State) returns (more: seq<Event>)
    requires WellFormedFrom(p, events, 0) && ValidEvent(p, e) && Evaluate(p, After(p, s, events), e).next.state == next
    ensures more == events + [e] && WellFormedFrom(p, more, 0) && After(p, s, more).state == next
  {
    more := events + [e];
    AfterOneMore(p, s, events, e);
  }

  /** No valid snapshot short of the end is a trap: well-formed events lead from it to COMPLETE. */
  lemma CompletionIsReachable(p: Rules, s: Snapshot) returns (events: seq<Event>)
    requires ValidRules(p) && ValidSnapshot(p, s) && s.state != Complete && s.state != Blocked
    ensures WellFormedFrom(p, events, 0) && After(p, s, events).state == Complete
  {
    events := [];
    TowardsCompletion(p, s);
    if s.state == WaitExternal {
      events := Extend(p, s, events, RecheckOf(s.wait.value), Active);
    }
    if s.state != Verify {
      events := ToVerify(p, s, events);
    }
    RunsStayValid(p, s, events);
    TowardsCompletion(p, After(p, s, events));
    events := Extend(p, s, events, Submit(p), Complete);
  }

  lemma ToVerify(p: Rules, s: Snapshot, events: seq<Event>) returns (more: seq<Event>)
    requires ValidRules(p) && ValidSnapshot(p, s) && WellFormedFrom(p, events, 0) && After(p, s, events).state == Active
    ensures WellFormedFrom(p, more, 0) && After(p, s, more).state == Verify
  {
    RunsStayValid(p, s, events);
    TowardsCompletion(p, After(p, s, events));
    more := Extend(p, s, events, REQUEST, Verify);
  }

  lemma AfterOneMore(p: Rules, s: Snapshot, events: seq<Event>, e: Event)
    ensures After(p, s, events + [e]) == Evaluate(p, After(p, s, events), e).next
  {
    assert (events + [e])[..|events|] == events;
  }

  lemma PassingIsAccepted(p: Rules)
    requires ValidRules(p)
    ensures Accepted(p, Passing(p))
    ensures ValidEvent(p, Event(SubmitResults, Absent, None, Some(Passing(p))))
  {
    forall i | 0 <= i < |p.acceptance| ensures p.acceptance[i].id in Passing(p) {}
  }
}
