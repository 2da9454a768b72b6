/** The aggregate memory budget of one agent's output, and the pipeline that must stay inside it.

    Models internal/agent/output_retention.go, and who owns provider bytes between readLoop
    (internal/agent/output.go), Watch (internal/agent/watchdog.go) and the provider callback. */
module OutputRetention {
  import opened Sequences
  import opened Wrappers
  import opened LineStream
  import opened LineReader

  const RETENTION_SLOTS := 4
  const PREFIX_SLOTS := 3
  const DEFAULT_LINE_BYTES := 0x10_0000
  const MAXIMUM_LINE_BYTES := 0x80_0000
  const FIXED_BYTES := READ_BUFFER_BYTES + PREFIX_SLOTS * MAX_PREFIX
  const DEFAULT_BUDGET := FIXED_BYTES + RETENTION_SLOTS * (DEFAULT_LINE_BYTES + 2)
  const MAXIMUM_BUDGET := FIXED_BYTES + RETENTION_SLOTS * (MAXIMUM_LINE_BYTES + 2)
  const LAST_POLICY := 1

  datatype RetentionError = NegativeBudget | AboveMaximum | InvalidPolicy | NoLineCapacity

  /** Integer division that truncates toward zero. */
  function TruncatedDiv(a: int, b: int): int
    requires b > 0
  {
    if a >= 0 then a / b else -((-a) / b)
  }

  function BudgetForLineBytes(lineBytes: int): int {
    if lineBytes < 1 || lineBytes > MAXIMUM_LINE_BYTES then 0
    else FIXED_BYTES + RETENTION_SLOTS * (lineBytes + 2)
  }

  /** The budget an option value stands for: zero asks for the default. */
  function Effective(budget: int): int {
    if budget == 0 then DEFAULT_BUDGET else budget
  }

  predicate Acceptable(budget: int, policy: nat) {
    policy <= LAST_POLICY && BudgetForLineBytes(1) <= Effective(budget) <= MAXIMUM_BUDGET
  }

  /** The largest retained line a budget pays for, up to rounding: the floor inverse of
      BudgetForLineBytes. */
  predicate PaysFor(budget: int, lineBytes: int) {
    && 1 <= lineBytes <= MAXIMUM_LINE_BYTES
    && BudgetForLineBytes(lineBytes) <= budget < FIXED_BYTES + RETENTION_SLOTS * (lineBytes + 1 + 2)
  }

  class Options {
    var maxOutputRetentionBytes: int
    var oversizeOutputPolicy: nat

    constructor (maxOutputRetentionBytes: int, oversizeOutputPolicy: nat)
      ensures this.maxOutputRetentionBytes == maxOutputRetentionBytes
      ensures this.oversizeOutputPolicy == oversizeOutputPolicy
    {
      this.maxOutputRetentionBytes := maxOutputRetentionBytes;
      this.oversizeOutputPolicy := oversizeOutputPolicy;
    }

    /** Writes the default back, and rejects exactly what cannot hold one line. */
    method Normalize() returns (r: Result<int, RetentionError>)
      modifies this`maxOutputRetentionBytes
      ensures maxOutputRetentionBytes == Effective(old(maxOutputRetentionBytes))
      ensures r.Ok? <==> Acceptable(old(maxOutputRetentionBytes), oversizeOutputPolicy)
      ensures r.Ok? ==> PaysFor(maxOutputRetentionBytes, r.value)
      ensures r == Err(NegativeBudget) <==> old(maxOutputRetentionBytes) < 0
      ensures r == Err(AboveMaximum) <==> old(maxOutputRetentionBytes) > MAXIMUM_BUDGET
      ensures r == Err(InvalidPolicy) <==> oversizeOutputPolicy > LAST_POLICY && 0 <= maxOutputRetentionBytes <= MAXIMUM_BUDGET
    {
      if maxOutputRetentionBytes < 0 {
        return Err(NegativeBudget);
      } else if maxOutputRetentionBytes == 0 {
        maxOutputRetentionBytes := DEFAULT_BUDGET;
      } else if maxOutputRetentionBytes > MAXIMUM_BUDGET {
        return Err(AboveMaximum);
      }
      if oversizeOutputPolicy > LAST_POLICY {
        return Err(InvalidPolicy);
      }
      var lineBytes := TruncatedDiv(maxOutputRetentionBytes - FIXED_BYTES, RETENTION_SLOTS) - 2;
      if lineBytes < 1 {
        return Err(NoLineCapacity);
      }
      return Ok(lineBytes);
    }
  }

  /** Zero asks for lines of 1 MiB and the largest budget pays for lines of 8 MiB; no budget is derived for a
      length out of range. */
  lemma BudgetRange(lineBytes: int)
    ensures PaysFor(Effective(0), lineBytes) <==> lineBytes == 1048576
    ensures PaysFor(MAXIMUM_BUDGET, lineBytes) <==> lineBytes == 8388608
    ensures BudgetForLineBytes(lineBytes) == 0 <==> lineBytes <= 0 || lineBytes > 8388608
  {}

  /** A budget pays for one line length only, and a derived budget for the length it was derived from. */
  lemma PaysForExactly(lineBytes: int, other: int)
    requires 1 <= lineBytes <= MAXIMUM_LINE_BYTES
    ensures PaysFor(BudgetForLineBytes(lineBytes), other) <==> other == lineBytes
    ensures forall policy: nat :: Acceptable(BudgetForLineBytes(lineBytes), policy) <==> policy <= LAST_POLICY
  {}

  method NormalizeInvertsBudget(lineBytes: int) returns (r: Result<int, RetentionError>)
    requires 1 <= lineBytes <= MAXIMUM_LINE_BYTES
    ensures r == Ok(lineBytes)
  {
    var opts := new Options(BudgetForLineBytes(lineBytes), 0);
    r := opts.Normalize();
    PaysForExactly(lineBytes, r.value);
  }

  // ---------------------------------------------------------------- who owns the bytes

  /** What Watch, or the provider callback, is holding. */
  datatype Owned = Nothing | OwnedLine(capacity: nat) | OwnedPrefix(length: nat)

  /** The reader's line, the array a growing line is being copied out of, the reader's prefix of a
      discarded record, and what each later owner holds. */
  datatype Pipeline = Pipeline(line: Slice, outgrown: nat, prefix: Option<seq<byte>>, watch: Owned, callback: Owned)

  datatype PipelineStep =
    | AppendSegment(segment: seq<byte>)
    | FinishCopy
    | TakePrefix(segment: seq<byte>)
    | ReleaseLine
    | StripReturn
    | OfferLine
    | OfferPrefix
    | AdmitToCallback
    | CallbackReturns
    | Abandon

  const EMPTY := Pipeline(NIL, 0, None, Nothing, Nothing)

  function Held(o: Owned): nat {
    match o
    case Nothing => 0
    case OwnedLine(capacity) => capacity
    case OwnedPrefix(length) => length
  }

  /** Every provider byte the process retains for this agent. */
  function Footprint(p: Pipeline): nat {
    READ_BUFFER_BYTES + p.line.capacity + p.outgrown +
    (if p.prefix.Some? then |p.prefix.value| else 0) + Held(p.watch) + Held(p.callback)
  }

  predicate Enabled(p: Pipeline, step: PipelineStep, limit: nat) {
    match step
    case AppendSegment(_) => p.outgrown == 0 && p.prefix.None? && Fits(p.line, limit + 1)
    case FinishCopy => true
    case TakePrefix(_) => p.outgrown == 0 && p.prefix.None? && Fits(p.line, limit + 1)
    case ReleaseLine => p.outgrown == 0 && p.prefix.Some?
    case StripReturn => p.outgrown == 0 && p.prefix.None?
    case OfferLine => p.outgrown == 0 && p.prefix.None? && p.watch.Nothing?
    case OfferPrefix => p.line == NIL && p.outgrown == 0 && p.prefix.Some? && p.watch.Nothing?
    case AdmitToCallback => p.callback.Nothing?
    case CallbackReturns => true
    case Abandon => true
  }

  /** Appending may move the line to a larger array; until the copy is done both are live. */
  function Grow(p: Pipeline, segment: seq<byte>, limit: nat): Pipeline
    requires Fits(p.line, limit + 1)
  {
    var grown := AppendWithinCap(p.line, segment, limit + 1).0;
    p.(line := grown, outgrown := if grown.capacity == p.line.capacity then 0 else p.line.capacity)
  }

  function Apply(p: Pipeline, step: PipelineStep, limit: nat): Pipeline
    requires Enabled(p, step, limit)
  {
    match step
    case AppendSegment(segment) => Grow(p, segment, limit)
    case FinishCopy => p.(outgrown := 0)
    case TakePrefix(segment) =>
      var complete := AppendWithinCap(p.line, segment, limit + 1).1;
      var grown := Grow(p, segment, limit);
      grown.(prefix := Some(DiscardedPrefixOf(grown.line.data, |p.line.data|, segment, complete)))
    case ReleaseLine => p.(line := NIL)
    case StripReturn => p.(line := DropCR(p.line))
    case OfferLine => p.(line := NIL, watch := OwnedLine(p.line.capacity))
    case OfferPrefix => p.(prefix := None, watch := OwnedPrefix(|p.prefix.value|))
    case AdmitToCallback => p.(watch := Nothing, callback := p.watch)
    case CallbackReturns => p.(callback := Nothing)
    case Abandon => p.(line := NIL, outgrown := 0, prefix := None)
  }

  /** The pipeline after a sequence of steps, if every one of them was enabled. */
  function After(steps: seq<PipelineStep>, limit: nat): Option<Pipeline> {
    if steps == [] then Some(EMPTY)
    else
      var before, step := After(steps[..|steps| - 1], limit), steps[|steps| - 1];
      if before.Some? && Enabled(before.value, step, limit) then Some(Apply(before.value, step, limit)) else None
  }

  // ---------------------------------------------------------------- the bound

  predicate HeldWithin(o: Owned, limit: nat) {
    match o
    case Nothing => true
    case OwnedLine(capacity) => capacity <= limit + 1
    case OwnedPrefix(length) => length <= MAX_PREFIX
  }

  predicate Within(p: Pipeline, limit: nat) {
    && Fits(p.line, limit + 1)
    && p.outgrown <= limit + 1
    && (p.prefix.Some? ==> |p.prefix.value| <= MAX_PREFIX)
    && HeldWithin(p.watch, limit)
    && HeldWithin(p.callback, limit)
  }

  lemma StepStaysWithin(p: Pipeline, step: PipelineStep, limit: nat)
    requires Within(p, limit) && Enabled(p, step, limit)
    ensures Within(Apply(p, step, limit), limit)
  {
    match step
    case AppendSegment(segment) => GrowStaysWithin(p, segment, limit);
    case TakePrefix(segment) => GrowStaysWithin(p, segment, limit);
    case _ =>
  }

  lemma GrowStaysWithin(p: Pipeline, segment: seq<byte>, limit: nat)
    requires Within(p, limit)
    ensures Within(Grow(p, segment, limit), limit)
  {}

  lemma {:induction false} StaysWithin(steps: seq<PipelineStep>, limit: nat)
    requires After(steps, limit).Some?
    ensures Within(After(steps, limit).value, limit)
  {
    if steps != [] {
      var before, step := steps[..|steps| - 1], steps[|steps| - 1];
      StaysWithin(before, limit);
      StepStaysWithin(After(before, limit).value, step, limit);
    }
  }

  /** Whatever budget was accepted, and however reads, handoffs and callbacks interleave, the process
      never retains more than that budget. */
  lemma RetentionStaysInBudget(budget: int, limit: nat, steps: seq<PipelineStep>)
    requires PaysFor(budget, limit)
    requires After(steps, limit).Some?
    ensures Footprint(After(steps, limit).value) <= budget
  {
    StaysWithin(steps, limit);
  }

  // ---------------------------------------------------------------- nothing retained goes uncounted

  /** A new array for the line, beside the one it outgrew. */
  function FreshArray(p: Pipeline, p': Pipeline): nat {
    if p'.line.capacity == p.line.capacity then 0 else p'.line.capacity
  }

  /** What the step allocates less what it lets go, and what it hands on. */
  predicate Accounts(p: Pipeline, step: PipelineStep, p': Pipeline, change: int) {
    match step
    case AppendSegment(segment) => change == FreshArray(p, p') && p.line.data <= p'.line.data <= p.line.data + segment
    case TakePrefix(segment) => p'.prefix.Some? && change == FreshArray(p, p') + |p'.prefix.value|
    case FinishCopy => change + p.outgrown == 0 && p'.line == p.line
    case ReleaseLine => change + p.line.capacity == 0 && p.prefix.Some? && p'.prefix == p.prefix
    case StripReturn => change == 0 && p'.line.data == StripCR(p.line.data)
    case OfferLine => change == 0 && p'.line == NIL && p'.watch == OwnedLine(p.line.capacity)
    case OfferPrefix => change == 0 && p.prefix.Some? && p'.prefix.None? && p'.watch == OwnedPrefix(|p.prefix.value|)
    case AdmitToCallback => change == 0 && p'.watch.Nothing? && p'.callback == p.watch
    case CallbackReturns => change + Held(p.callback) == 0 && p'.watch == p.watch
    case Abandon =>
      change + p.line.capacity + p.outgrown + (if p.prefix.Some? then |p.prefix.value| else 0) == 0 && p'.watch == p.watch
  }

  /** In any sequence of steps the retained bytes grow by what each step allocates and shrink only by what it
      lets go; a handoff moves bytes from one owner to the next. */
  lemma EveryByteIsCounted(steps: seq<PipelineStep>, step: PipelineStep, limit: nat)
    requires After(steps + [step], limit).Some?
    ensures After(steps, limit).Some?
    ensures var p, p' := After(steps, limit).value, After(steps + [step], limit).value;
            Accounts(p, step, p', Footprint(p') - Footprint(p))
  {
    assert (steps + [step])[..|steps|] == steps;
    StaysWithin(steps, limit);
  }

  predicate Delivers(steps: seq<PipelineStep>, more: seq<PipelineStep>, limit: nat, owned: Owned) {
    After(steps + more, limit) == Some(Pipeline(NIL, 0, None, Nothing, owned))
  }

  lemma Proceed(steps: seq<PipelineStep>, more: seq<PipelineStep>, step: PipelineStep, limit: nat)
    requires After(steps + more, limit).Some? && Enabled(After(steps + more, limit).value, step, limit)
    ensures After(steps + (more + [step]), limit) == Some(Apply(After(steps + more, limit).value, step, limit))
  {
    Continue(steps + more, step, limit);
    assert steps + (more + [step]) == steps + more + [step];
  }

  /** Making room behind the reader: the callback returns and is given what Watch has in hand. */
  lemma MakesRoom(steps: seq<PipelineStep>, limit: nat) returns (more: seq<PipelineStep>)
    requires After(steps, limit).Some?
    ensures After(steps + more, limit) ==
            Some(After(steps, limit).value.(outgrown := 0, watch := Nothing, callback := After(steps, limit).value.watch))
  {
    PlusEmpty(steps);
    more := [];
    Proceed(steps, more, FinishCopy, limit);
    more := more + [FinishCopy];
    Proceed(steps, more, CallbackReturns, limit);
    more := more + [CallbackReturns];
    Proceed(steps, more, AdmitToCallback, limit);
    more := more + [AdmitToCallback];
  }

  /** From any point of any sequence of steps: a line the reader is building can be finished, and comes with
      its array to the callback; a discarded record's prefix does likewise, its line let go; and until one of
      them is found the line can take any segment. */
  lemma LineIsDelivered(steps: seq<PipelineStep>, limit: nat) returns (more: seq<PipelineStep>)
    requires After(steps, limit).Some? && After(steps, limit).value.prefix.None?
    ensures Delivers(steps, more, limit, OwnedLine(After(steps, limit).value.line.capacity))
  {
    more := MakesRoom(steps, limit);
    Proceed(steps, more, StripReturn, limit);
    more := more + [StripReturn];
    Proceed(steps, more, OfferLine, limit);
    more := more + [OfferLine];
    more := HandsOn(steps, more, limit);
  }

  lemma PrefixIsDelivered(steps: seq<PipelineStep>, limit: nat) returns (more: seq<PipelineStep>)
    requires After(steps, limit).Some? && After(steps, limit).value.prefix.Some?
    ensures Delivers(steps, more, limit, OwnedPrefix(|After(steps, limit).value.prefix.value|))
  {
    more := MakesRoom(steps, limit);
    Proceed(steps, more, ReleaseLine, limit);
    more := more + [ReleaseLine];
    Proceed(steps, more, OfferPrefix, limit);
    more := more + [OfferPrefix];
    more := HandsOn(steps, more, limit);
  }

  lemma HandsOn(steps: seq<PipelineStep>, more: seq<PipelineStep>, limit: nat) returns (all: seq<PipelineStep>)
    requires After(steps + more, limit).Some?
    ensures After(steps + all, limit) ==
            Some(After(steps + more, limit).value.(watch := Nothing, callback := After(steps + more, limit).value.watch))
  {
    Proceed(steps, more, CallbackReturns, limit);
    all := more + [CallbackReturns];
    Proceed(steps, all, AdmitToCallback, limit);
    all := all + [AdmitToCallback];
  }

  lemma SegmentIsTaken(steps: seq<PipelineStep>, segment: seq<byte>, limit: nat) returns (more: seq<PipelineStep>)
    requires After(steps, limit).Some? && After(steps, limit).value.prefix.None?
    requires |After(steps, limit).value.line.data| + |segment| <= limit + 1
    ensures After(steps + more, limit).Some?
    ensures After(steps + more, limit).value.line.data == After(steps, limit).value.line.data + segment
  {
    StaysWithin(steps, limit);
    more := MakesRoom(steps, limit);
    Proceed(steps, more, AppendSegment(segment), limit);
    more := more + [AppendSegment(segment)];
  }

  // ---------------------------------------------------------------- why three prefixes are reserved

  const LONG_SEGMENT := seq(MAX_PREFIX, _ => 120 as byte)

  lemma Continue(steps: seq<PipelineStep>, step: PipelineStep, limit: nat)
    requires After(steps, limit).Some? && Enabled(After(steps, limit).value, step, limit)
    ensures After(steps + [step], limit) == Some(Apply(After(steps, limit).value, step, limit))
  {
    assert (steps + [step])[..|steps|] == steps;
  }

  /** The largest line limit for which two prefix slots would not do. */
  const LAST_CROWDED := 1362

  /** The reader finds one more record oversize; the line it kept is still allocated beside the prefix. */
  lemma FindOversize(steps: seq<PipelineStep>, limit: nat)
    requires 1 <= limit <= LAST_CROWDED && After(steps, limit).Some?
    requires var p := After(steps, limit).value; p.line == NIL && p.outgrown == 0 && p.prefix == None
    ensures var p, q := After(steps, limit).value, After(steps + [TakePrefix(LONG_SEGMENT)], limit);
            && q.Some? && q.value.prefix.Some? && |q.value.prefix.value| == MAX_PREFIX
            && q.value.line.capacity == limit + 1 && q.value.outgrown == 0
            && q.value.watch == p.watch && q.value.callback == p.callback
  {
    Continue(steps, TakePrefix(LONG_SEGMENT), limit);
  }

  /** And hands the prefix to Watch, when Watch has nothing in hand. */
  lemma HandPrefix(steps: seq<PipelineStep>, limit: nat) returns (next: seq<PipelineStep>)
    requires 1 <= limit <= LAST_CROWDED && After(steps, limit).Some?
    requires var p := After(steps, limit).value;
             p.line == NIL && p.outgrown == 0 && p.prefix == None && p.watch == Nothing
    ensures After(next, limit) == Some(After(steps, limit).value.(watch := OwnedPrefix(MAX_PREFIX)))
  {
    FindOversize(steps, limit);
    next := steps + [TakePrefix(LONG_SEGMENT)];
    Continue(next, ReleaseLine, limit);
    next := next + [ReleaseLine];
    Continue(next, OfferPrefix, limit);
    next := next + [OfferPrefix];
  }

  /** One prefix each with the reader, Watch and the callback, and a line besides. */
  lemma ThreePrefixesAtOnce(limit: nat) returns (steps: seq<PipelineStep>)
    requires 1 <= limit <= LAST_CROWDED
    ensures After(steps, limit).Some?
    ensures Footprint(After(steps, limit).value) == READ_BUFFER_BYTES + limit + 1 + 3 * MAX_PREFIX
  {
    steps := HandPrefix([], limit);
    Continue(steps, AdmitToCallback, limit);
    steps := steps + [AdmitToCallback];
    steps := HandPrefix(steps, limit);
    FindOversize(steps, limit);
    steps := steps + [TakePrefix(LONG_SEGMENT)];
  }

  /** A line limit below the prefix length is allocated at once, so nothing is ever outgrown. */
  predicate OneArray(p: Pipeline, limit: nat) {
    Within(p, limit) && (p.line.capacity == 0 || p.line.capacity == limit + 1) && p.outgrown == 0
  }

  lemma OneArrayStep(p: Pipeline, step: PipelineStep, limit: nat)
    requires limit < MAX_PREFIX && OneArray(p, limit) && Enabled(p, step, limit)
    ensures OneArray(Apply(p, step, limit), limit)
  {
    StepStaysWithin(p, step, limit);
  }

  lemma {:induction false} OneArrayOnly(steps: seq<PipelineStep>, limit: nat)
    requires limit < MAX_PREFIX && After(steps, limit).Some?
    ensures OneArray(After(steps, limit).value, limit)
  {
    if steps != [] {
      var before, step := steps[..|steps| - 1], steps[|steps| - 1];
      OneArrayOnly(before, limit);
      OneArrayStep(After(before, limit).value, step, limit);
    }
  }

  ghost predicate Overruns(steps: seq<PipelineStep>, limit: nat) {
    After(steps, limit).Some? && Footprint(After(steps, limit).value) > BudgetForLineBytes(limit) - MAX_PREFIX
  }

  /** Exactly for which line limits all three reserved prefixes are needed: a budget one prefix smaller
      can be overrun up to 1362 bytes a line, and never from there on. */
  lemma ThirdSlotIsNeededWhen(limit: nat)
    requires 1 <= limit <= MAXIMUM_LINE_BYTES
    ensures (exists steps :: Overruns(steps, limit)) <==> limit <= LAST_CROWDED
  {
    if limit <= LAST_CROWDED {
      var steps := ThreePrefixesAtOnce(limit);
      assert Overruns(steps, limit);
    } else {
      forall steps | After(steps, limit).Some? ensures !Overruns(steps, limit) {
        StaysWithin(steps, limit);
        if limit < MAX_PREFIX { OneArrayOnly(steps, limit); }
      }
    }
  }
}
