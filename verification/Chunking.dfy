/** What the cutting of a source's bytes into reads can change.

    Completes the model of internal/agent/output.go:147-311: within the ceiling on observed bytes nothing,
    and at the ceiling exactly what is said here, since a read that crosses it is dropped whole. */
module Chunking {
  import opened Arithmetic
  import opened Sequences
  import opened Wrappers
  import opened LineStream
  import opened LineReader

  function Bytes(script: seq<ReadEvent>): seq<byte> {
    if script == [] then [] else script[0].data + Bytes(script[1..])
  }

  // ---------------------------------------------------------------- results before the end stand

  /** What a source would deliver were it never stopped, and were there no failure and no ceiling. */
  function Offer(script: seq<ReadEvent>): Stream {
    if script == [] then Ended(EndOfOutput)
    else
      var e, rest := script[0], script[1..];
      if e.err.Some? && e.err.value != OtherError then
        Stream(e.data, EndOfOutput, if rest == [] then None else Some(Offer(rest)))
      else Prepend(e.data, Offer(rest))
  }

  /** Of the full stream only so much is delivered, all of it where the cut one ends normally. */
  predicate CutOf(s: Stream, full: Stream)
    decreases s
  {
    if s.end == EndOfOutput then
      && s.bytes == full.bytes && full.end == EndOfOutput
      && (if s.after.Some? then full.after.Some? && CutOf(s.after.value, full.after.value) else full.after.None?)
    else s.bytes <= full.bytes && s.after.None? && s.end != LineTooLong
  }

  lemma {:induction false} StreamIsCut(script: seq<ReadEvent>, empties: nat, maxObserved: nat, observed: nat)
    requires maxObserved > 0 ==> observed <= maxObserved
    ensures CutOf(StreamOf(script, empties, maxObserved, observed), Offer(script))
    decreases |script|
  {
    if script != [] {
      var e, rest := script[0], script[1..];
      EmptyPlus(Offer(rest).bytes);
      if |e.data| == 0 {
        StreamIsCut(rest, if e.err.Some? then 0 else empties + 1, maxObserved, observed);
      } else if maxObserved == 0 || observed + |e.data| <= maxObserved {
        StreamIsCut(rest, 0, maxObserved, Observe(maxObserved, observed, |e.data|));
      }
    }
  }

  /** An error that the bytes themselves decide. */
  predicate Decided(o: Outcome) {
    o == Failed(LineTooLong) || o == Failed(EndOfOutput)
  }

  /** Where the cut stream ends early, its next result is the full one's unless it is that end. */
  lemma CutShort(s: Stream, more: seq<byte>, full: Stream, limit: nat, policy: Policy)
    requires s.end != EndOfOutput && s.end != LineTooLong && s.after.None? && full.bytes == s.bytes + more
    ensures var o := NextOutcome(s, limit, policy);
            && (!o.Failed? || Decided(o) ==> NextOutcome(full, limit, policy) == o)
            && (!o.Failed? ==> HasLF(s.bytes) && CutOf(AfterNext(s), AfterNext(full)))
  {
    if HasLF(s.bytes) {
      SamePrefix(s.bytes, more);
    } else {
      LongerRecord(s.bytes, more, limit);
    }
  }

  /** More bytes leave a terminated first record alone. */
  lemma SamePrefix(a: seq<byte>, b: seq<byte>)
    requires HasLF(a)
    ensures HasLF(a + b) && FirstRecord(a + b) == FirstRecord(a) && AfterFirst(a + b) == AfterFirst(a) + b
  {
    var k := IndexLF(a);
    assert (a + b)[..k] == a[..k] && (a + b)[k] == LF && (a + b)[k + 1..] == a[k + 1..] + b;
    assert LF !in a[..k];
    FirstLF(a + b, k);
  }

  /** And can only lengthen an unterminated one. */
  lemma LongerRecord(a: seq<byte>, b: seq<byte>, limit: nat)
    requires !HasLF(a)
    ensures HasLF(a + b) <==> HasLF(b)
    ensures !HasLF(b) ==> FirstRecord(a + b) == a + b
    ensures !Kept(a, limit) ==> !Kept(FirstRecord(a + b), limit)
  {
    var r := FirstRecord(a + b);
    assert forall i :: 0 <= i < |b| ==> (a + b)[|a| + i] == b[i];
    assert forall i :: 0 <= i < |a| ==> (a + b)[i] == a[i];
    assert |a| <= |r| && r[..|a|] == a;
    if !Kept(a, limit) {
      assert r == a + r[|a|..];
      OversizeIsFinal(a, r[|a|..], [], limit);
    }
  }

  /** All results but the last agree, and the last too where it is decided. */
  predicate AgreeBeforeLast(r: seq<Outcome>, f: seq<Outcome>) {
    && 0 < |r| <= |f| && r[..|r| - 1] == f[..|r| - 1]
    && (Decided(r[|r| - 1]) ==> r == f)
  }

  lemma ConsAgree(o: Outcome, r: seq<Outcome>, f: seq<Outcome>)
    requires AgreeBeforeLast(r, f)
    ensures AgreeBeforeLast([o] + r, [o] + f)
  {
    assert ([o] + r)[..|r|] == [o] + r[..|r| - 1];
    assert ([o] + f)[..|r|] == [o] + f[..|r| - 1];
  }

  /** A cut stream's results are those of the full one up to its own last, and that one too unless it
      was stopped, failed or reached the ceiling. */
  lemma {:induction false} CutResults(s: Stream, full: Stream, limit: nat, policy: Policy)
    requires CutOf(s, full)
    ensures AgreeBeforeLast(Results(s, limit, policy), Results(full, limit, policy))
    decreases Total(s)
  {
    if s.end != EndOfOutput {
      var more := full.bytes[|s.bytes|..];
      assert s.bytes + more == full.bytes;
      CutShort(s, more, full, limit, policy);
    }
    var o := NextOutcome(s, limit, policy);
    if !o.Failed? {
      CutResults(AfterNext(s), AfterNext(full), limit, policy);
      ConsAgree(o, Results(AfterNext(s), limit, policy), Results(AfterNext(full), limit, policy));
    }
  }

  /** Whatever stops a reader early (the stop channel, a failing source, too many empty reads, the
      ceiling): every result before that is the one an undisturbed reader gives at the same place. */
  lemma EarlierResultsStand(script: seq<ReadEvent>, maxObserved: nat, limit: nat, policy: Policy)
    ensures AgreeBeforeLast(Results(StreamOf(script, 0, maxObserved, 0), limit, policy),
                            Results(Offer(script), limit, policy))
  {
    StreamIsCut(script, 0, maxObserved, 0);
    CutResults(StreamOf(script, 0, maxObserved, 0), Offer(script), limit, policy);
  }

  /** The undisturbed results of a source with one end are those of its bytes. */
  lemma {:induction false} OfferOfBytes(script: seq<ReadEvent>)
    requires forall i :: 0 <= i < |script| - 1 ==> script[i].err.None?
    requires forall i :: 0 <= i < |script| ==> script[i].err != Some(OtherError)
    ensures Offer(script) == Stream(Bytes(script), EndOfOutput, None)
  {
    if script != [] {
      assert forall i :: 0 <= i < |script[1..]| ==> script[1..][i] == script[i + 1];
      OfferOfBytes(script[1..]);
      if |script| == 1 { PlusEmpty(script[0].data); }
    }
  }

  // ---------------------------------------------------------------- healthy sources

  /** A healthy source: never stopped, no read larger than the buffer, fewer than the permitted number
      of empty reads in a row, and at most one error, the end, on the last read with or without data. */
  predicate Healthy(script: seq<ReadEvent>, empties: nat) {
    script == [] ||
    (var e, rest := script[0], script[1..];
     && !e.stopBefore && !e.stopAfter && |e.data| <= READ_BUFFER_BYTES
     && (e.err.Some? ==> e.err.value != OtherError && rest == [])
     && (e.err.None? && e.data == [] ==> empties + 1 < MAX_EMPTY_READS && Healthy(rest, empties + 1))
     && (e.err.None? && e.data != [] ==> Healthy(rest, 0)))
  }

  /** Up to the ceiling, no read returns more than it was given room for. */
  predicate InBounds(script: seq<ReadEvent>, maxObserved: nat, observed: nat)
    requires maxObserved > 0 ==> observed <= maxObserved
    decreases |script|
  {
    script == [] ||
    (var n := |script[0].data|;
     && n <= ReadLimit(maxObserved, observed)
     && (WithinCeiling(maxObserved, observed + n) ==>
           InBounds(script[1..], maxObserved, Observe(maxObserved, observed, n))))
  }

  predicate SourceOf(script: seq<ReadEvent>, bytes: seq<byte>, maxObserved: nat) {
    Healthy(script, 0) && Bytes(script) == bytes && InBounds(script, maxObserved, 0)
  }

  /** What a reader that meets the ceiling delivers. */
  function Crossed(bytes: seq<byte>): Stream {
    Stream(bytes, ObservedTooLarge, None)
  }

  predicate WithinCeiling(maxObserved: nat, n: nat) {
    maxObserved == 0 || n <= maxObserved
  }

  /** The fewest bytes that can have been delivered before the read that crosses the ceiling. */
  function Least(maxObserved: nat): nat {
    Max(0, maxObserved + 1 - READ_BUFFER_BYTES)
  }

  /** s delivers these bytes whole, or up to k, from where a read can cross the ceiling. */
  predicate CutAt(bytes: seq<byte>, k: nat, maxObserved: nat, observed: nat, s: Stream) {
    if WithinCeiling(maxObserved, observed + |bytes|) then s == Stream(bytes, EndOfOutput, None)
    else k <= |bytes| && s == Crossed(bytes[..k]) && Least(maxObserved) <= observed + k <= maxObserved
  }

  lemma CutLater(data: seq<byte>, bytes: seq<byte>, k: nat, maxObserved: nat, observed: nat, s: Stream)
    requires CutAt(bytes, k, maxObserved, Observe(maxObserved, observed, |data|), s)
    ensures CutAt(data + bytes, |data| + k, maxObserved, observed, Prepend(data, s))
  {
    if k <= |bytes| { assert (data + bytes)[..|data| + k] == data + bytes[..k]; }
  }

  /** A healthy source is delivered whole, or cut where its crossing read began. */
  lemma {:induction false} HealthyStream(script: seq<ReadEvent>, empties: nat, maxObserved: nat, observed: nat)
    returns (k: nat)
    requires maxObserved > 0 ==> observed <= maxObserved
    requires Healthy(script, empties) && InBounds(script, maxObserved, observed)
    ensures CutAt(Bytes(script), k, maxObserved, observed, StreamOf(script, empties, maxObserved, observed))
    decreases |script|
  {
    k := 0;
    if script != [] {
      var e, rest := script[0], script[1..];
      PlusEmpty(e.data);
      EmptyPlus(Bytes(rest));
      if e.err.None? {
        if |e.data| == 0 {
          k := HealthyStream(rest, empties + 1, maxObserved, observed);
        } else if WithinCeiling(maxObserved, observed + |e.data|) {
          var observed' := Observe(maxObserved, observed, |e.data|);
          k := HealthyStream(rest, 0, maxObserved, observed');
          CutLater(e.data, Bytes(rest), k, maxObserved, observed, StreamOf(rest, 0, maxObserved, observed'));
          k := |e.data| + k;
        }
      }
    }
  }

  /** However a healthy source cuts its bytes into reads: within the ceiling the results are those of its
      records. Beyond it, they are those of a prefix that ends where some permitted read can cross. */
  lemma ChunkingIsIrrelevant(script: seq<ReadEvent>, maxObserved: nat, limit: nat, policy: Policy) returns (k: nat)
    requires Healthy(script, 0) && InBounds(script, maxObserved, 0)
    ensures var bytes, r := Bytes(script), Results(StreamOf(script, 0, maxObserved, 0), limit, policy);
            if WithinCeiling(maxObserved, |bytes|) then
              r == (if policy.DiscardOversize? then DiscardingResults(Records(bytes), limit)
                    else RejectingResults(Records(bytes), limit))
            else Least(maxObserved) <= k <= maxObserved < |bytes| && r == Results(Crossed(bytes[..k]), limit, policy)
  {
    k := HealthyStream(script, 0, maxObserved, 0);
    ResultsOfRecords(Bytes(script), limit);
  }

  // ---------------------------------------------------------------- at the ceiling

  predicate Oversize(bytes: seq<byte>, limit: nat)
    decreases |bytes|
  {
    |bytes| > 0 && (!Kept(FirstRecord(bytes), limit) || Oversize(AfterFirst(bytes), limit))
  }

  /** Delivering b too before the ceiling makes no difference to the results of a: b completes no record,
      and, where oversize records are rejected, starts none that is too long; or a has failed already. */
  predicate Indifferent(a: seq<byte>, b: seq<byte>, limit: nat, policy: Policy) {
    if policy.DiscardOversize? then !HasLF(b)
    else Oversize(a, limit) || (!HasLF(b) && !Oversize(a + b, limit))
  }

  lemma {:induction false} CutsAgreeWhen(a: seq<byte>, b: seq<byte>, limit: nat, policy: Policy)
    ensures Results(Crossed(a), limit, policy) == Results(Crossed(a + b), limit, policy) <==> Indifferent(a, b, limit, policy)
    decreases |a|
  {
    if HasLF(a) {
      SamePrefix(a, b);
      CutsAgreeWhen(AfterFirst(a), b, limit, policy);
      var o := NextOutcome(Crossed(a), limit, policy);
      var r, t := Results(Crossed(AfterFirst(a)), limit, policy), Results(Crossed(AfterFirst(a) + b), limit, policy);
      TailOfCons(o, r);
      TailOfCons(o, t);
    } else {
      OneRecord(a, b, limit, policy);
    }
  }

  lemma OneRecord(a: seq<byte>, b: seq<byte>, limit: nat, policy: Policy)
    requires !HasLF(a)
    ensures Results(Crossed(a), limit, policy) == Results(Crossed(a + b), limit, policy) <==> Indifferent(a, b, limit, policy)
  {
    LongerRecord(a, b, limit);
    ResultsHead(Crossed(a), limit, policy);
    ResultsHead(Crossed(a + b), limit, policy);
    OversizeTail(a, limit);
    if !HasLF(b) { OversizeTail(a + b, limit); }
    assert NextRecord(Crossed(a)) == a;
  }

  lemma OversizeTail(a: seq<byte>, limit: nat)
    requires !HasLF(a)
    ensures Oversize(a, limit) <==> !Kept(a, limit)
  {
    assert AfterFirst(a) == [];
  }

  lemma ResultsHead(s: Stream, limit: nat, policy: Policy)
    ensures var o, r := NextOutcome(s, limit, policy), Results(s, limit, policy);
            r != [] && r[0] == o && (o.Failed? ==> r == [o])
  {}

  lemma {:induction false} OversizeStays(a: seq<byte>, b: seq<byte>, limit: nat)
    requires Oversize(a, limit)
    ensures Oversize(a + b, limit)
    decreases |a|
  {
    if HasLF(a) {
      SamePrefix(a, b);
      if Kept(FirstRecord(a), limit) { OversizeStays(AfterFirst(a), b, limit); }
    } else {
      LongerRecord(a, b, limit);
    }
  }

  // ---------------------------------------------------------------- sources that cross where one likes

  function Reading(data: seq<byte>): ReadEvent {
    ReadEvent(data, None, false, false)
  }

  function Bytewise(bytes: seq<byte>): seq<ReadEvent> {
    if bytes == [] then [] else [Reading(bytes[..1])] + Bytewise(bytes[1..])
  }

  /** k reads of one byte, then one that reaches m, then single bytes again. */
  function CrossingAt(bytes: seq<byte>, k: nat, m: nat): seq<ReadEvent>
    requires k < m <= |bytes|
  {
    if k > 0 then [Reading(bytes[..1])] + CrossingAt(bytes[1..], k - 1, m - 1)
    else [Reading(bytes[..m])] + Bytewise(bytes[m..])
  }

  lemma ReadFirst(data: seq<byte>, rest: seq<ReadEvent>)
    requires 0 < |data| <= READ_BUFFER_BYTES && Healthy(rest, 0)
    ensures Healthy([Reading(data)] + rest, 0) && Bytes([Reading(data)] + rest) == data + Bytes(rest)
  {
    TailOfCons(Reading(data), rest);
  }

  lemma TakeDrop(bytes: seq<byte>, m: nat)
    requires m <= |bytes|
    ensures bytes[..m] + bytes[m..] == bytes
  {}

  lemma {:induction false} BytewiseHealthy(bytes: seq<byte>)
    ensures Healthy(Bytewise(bytes), 0) && Bytes(Bytewise(bytes)) == bytes
  {
    if bytes != [] {
      BytewiseHealthy(bytes[1..]);
      ReadFirst(bytes[..1], Bytewise(bytes[1..]));
      TakeDrop(bytes, 1);
    }
  }

  lemma {:induction false} CrossingHealthy(bytes: seq<byte>, k: nat, m: nat)
    requires k < m <= |bytes| && m - k <= READ_BUFFER_BYTES
    ensures Healthy(CrossingAt(bytes, k, m), 0) && Bytes(CrossingAt(bytes, k, m)) == bytes
    decreases k
  {
    if k > 0 {
      CrossingHealthy(bytes[1..], k - 1, m - 1);
      ReadFirst(bytes[..1], CrossingAt(bytes[1..], k - 1, m - 1));
      TakeDrop(bytes, 1);
    } else {
      BytewiseHealthy(bytes[m..]);
      ReadFirst(bytes[..m], Bytewise(bytes[m..]));
      TakeDrop(bytes, m);
    }
  }

  lemma {:induction false} CrossesThere(bytes: seq<byte>, k: nat, m: nat, maxObserved: nat, observed: nat)
    requires k < m <= |bytes| && observed <= maxObserved && maxObserved > 0
    requires observed + m == maxObserved + 1 && m - k <= READ_BUFFER_BYTES
    ensures InBounds(CrossingAt(bytes, k, m), maxObserved, observed)
    ensures StreamOf(CrossingAt(bytes, k, m), 0, maxObserved, observed) == Crossed(bytes[..k])
    decreases k
  {
    if k > 0 {
      TailOfCons(Reading(bytes[..1]), CrossingAt(bytes[1..], k - 1, m - 1));
      CrossesThere(bytes[1..], k - 1, m - 1, maxObserved, observed + 1);
      assert bytes[..1] + bytes[1..][..k - 1] == bytes[..k];
    } else {
      TailOfCons(Reading(bytes[..m]), Bytewise(bytes[m..]));
    }
  }

  lemma CrossingSource(bytes: seq<byte>, k: nat, maxObserved: nat)
    requires Least(maxObserved) <= k <= maxObserved < |bytes| && maxObserved > 0
    ensures var s := CrossingAt(bytes, k, maxObserved + 1);
            SourceOf(s, bytes, maxObserved) && StreamOf(s, 0, maxObserved, 0) == Crossed(bytes[..k])
  {
    CrossingHealthy(bytes, k, maxObserved + 1);
    CrossesThere(bytes, k, maxObserved + 1, maxObserved, 0);
  }

  ghost predicate ReadsDoNotMatter(bytes: seq<byte>, maxObserved: nat, limit: nat, policy: Policy) {
    forall s, t :: SourceOf(s, bytes, maxObserved) && SourceOf(t, bytes, maxObserved) ==>
      Results(StreamOf(s, 0, maxObserved, 0), limit, policy) == Results(StreamOf(t, 0, maxObserved, 0), limit, policy)
  }

  /** Exactly when all healthy sources of the same bytes give the same results: there is no ceiling, or it
      is not reached, or nothing between the earliest and the latest place at which a read can cross it
      makes a difference. */
  lemma ReadsDoNotMatterWhen(bytes: seq<byte>, maxObserved: nat, limit: nat, policy: Policy)
    ensures ReadsDoNotMatter(bytes, maxObserved, limit, policy) <==>
              || WithinCeiling(maxObserved, |bytes|)
              || Indifferent(bytes[..Least(maxObserved)], bytes[Least(maxObserved)..maxObserved], limit, policy)
  {
    if WithinCeiling(maxObserved, |bytes|) {
      forall s | SourceOf(s, bytes, maxObserved)
        ensures StreamOf(s, 0, maxObserved, 0) == Stream(bytes, EndOfOutput, None)
      {
        var k := HealthyStream(s, 0, maxObserved, 0);
      }
    } else {
      AtCeiling(bytes, maxObserved, limit, policy);
    }
  }

  lemma AtCeiling(bytes: seq<byte>, maxObserved: nat, limit: nat, policy: Policy)
    requires !WithinCeiling(maxObserved, |bytes|)
    ensures ReadsDoNotMatter(bytes, maxObserved, limit, policy) <==>
              Indifferent(bytes[..Least(maxObserved)], bytes[Least(maxObserved)..maxObserved], limit, policy)
  {
    var lo := Least(maxObserved);
    var a, b := bytes[..lo], bytes[lo..maxObserved];
    assert a + b == bytes[..maxObserved];
    if Indifferent(a, b, limit, policy) {
      forall s | SourceOf(s, bytes, maxObserved)
        ensures Results(StreamOf(s, 0, maxObserved, 0), limit, policy) == Results(Crossed(a), limit, policy)
      {
        var k := HealthyStream(s, 0, maxObserved, 0);
        IndifferentUpTo(bytes, lo, k, maxObserved, limit, policy);
      }
    } else {
      CutsAgreeWhen(a, b, limit, policy);
      CrossingSource(bytes, lo, maxObserved);
      CrossingSource(bytes, maxObserved, maxObserved);
    }
  }

  lemma TwoPieces(bytes: seq<byte>, lo: nat, k: nat)
    requires lo <= k <= |bytes|
    ensures bytes[..lo] + bytes[lo..k] == bytes[..k]
  {}

  lemma LongerStretch(bytes: seq<byte>, lo: nat, k: nat, hi: nat)
    requires lo <= k <= hi <= |bytes| && HasLF(bytes[lo..k])
    ensures HasLF(bytes[lo..hi])
  {
    assert bytes[lo..hi][IndexLF(bytes[lo..k])] == LF;
  }

  lemma OversizePart(bytes: seq<byte>, k: nat, hi: nat, limit: nat)
    requires k <= hi <= |bytes| && Oversize(bytes[..k], limit)
    ensures Oversize(bytes[..hi], limit)
  {
    TwoPieces(bytes, k, hi);
    OversizeStays(bytes[..k], bytes[k..hi], limit);
  }

  lemma IndifferentUpTo(bytes: seq<byte>, lo: nat, k: nat, hi: nat, limit: nat, policy: Policy)
    requires lo <= k <= hi <= |bytes| && Indifferent(bytes[..lo], bytes[lo..hi], limit, policy)
    ensures Results(Crossed(bytes[..k]), limit, policy) == Results(Crossed(bytes[..lo]), limit, policy)
  {
    TwoPieces(bytes, lo, k);
    TwoPieces(bytes, lo, hi);
    if HasLF(bytes[lo..k]) { LongerStretch(bytes, lo, k, hi); }
    if Oversize(bytes[..k], limit) { OversizePart(bytes, k, hi, limit); }
    CutsAgreeWhen(bytes[..lo], bytes[lo..k], limit, policy);
  }

  /** Three bytes under a ceiling of two, read at once and read in two: the crossing read takes the whole
      line with it, or only the byte after it. */
  lemma CrossingReadIsDroppedWhole(x: byte)
    requires x != LF
    ensures var once, twice := [Reading([x, LF, x])], [Reading([x, LF]), Reading([x])];
            && SourceOf(once, [x, LF, x], 2) && SourceOf(twice, [x, LF, x], 2)
            && StreamOf(once, 0, 2, 0) == Crossed([]) && StreamOf(twice, 0, 2, 0) == Crossed([x, LF])
  {
    var once, twice := [Reading([x, LF, x])], [Reading([x, LF]), Reading([x])];
    assert once[1..] == [] && twice[1..] == [Reading([x])] && twice[1..][1..] == [];
    assert [x, LF, x] + [] == [x, LF, x] && [x] + [] == [x] && [x, LF] + [x] == [x, LF, x] && [x, LF] + [] == [x, LF];
  }
}
