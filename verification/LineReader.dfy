/** The buffered line reader over arbitrarily chunked reads.

    Models outputLineReader of internal/agent/output.go. What the environment decides (the bytes and
    error of each Read, and every poll of the stop channel) is a script, so a statement about every
    script is a statement about every chunking and every interleaving with the closing of stop. */
module LineReader {
  import opened Arithmetic
  import opened Sequences
  import opened Wrappers
  import opened LineStream

  const READ_BUFFER_BYTES := 65536
  const MAX_EMPTY_READS := 100

  /** What an io.Reader returns beside the bytes; the second is a closed PTY's EIO. */
  datatype ReadError = EOF | PtyEOF | OtherError

  /** One Read: its bytes and error, and the polls of stop before it and after an empty result. */
  datatype ReadEvent = ReadEvent(data: seq<byte>, err: Option<ReadError>, stopBefore: bool, stopAfter: bool)

  // ---------------------------------------------------------------- the script as a stream

  function EndOf(e: ReadError): ReaderError {
    if e == OtherError then ReadFailed else EndOfOutput
  }

  /** The length of the slice handed to Read: with a ceiling, one byte past the allowance. */
  function ReadLimit(maxObserved: nat, observed: nat): nat
    requires maxObserved > 0 ==> observed <= maxObserved
  {
    if maxObserved > 0 && maxObserved - observed < READ_BUFFER_BYTES then maxObserved - observed + 1
    else READ_BUFFER_BYTES
  }

  function Prepend(data: seq<byte>, s: Stream): Stream {
    s.(bytes := data + s.bytes)
  }

  /** Bytes are counted only under a ceiling. */
  function Observe(maxObserved: nat, observed: nat, n: nat): nat {
    if maxObserved > 0 then observed + n else observed
  }

  /** A stream that stops there for good. */
  function Ended(end: ReaderError): Stream {
    Stream([], end, None)
  }

  /** What a script delivers: its bytes up to the first condition that stops the reader. A reader that
      has delivered the tail before an end of output asks again, and the script goes on. */
  function StreamOf(script: seq<ReadEvent>, empties: nat, maxObserved: nat, observed: nat): Stream
    requires maxObserved > 0 ==> observed <= maxObserved
    decreases |script|, 1
  {
    if |script| == 0 then Ended(EndOfOutput)
    else
      var e := script[0];
      if e.stopBefore then Ended(Stopped)
      else if |e.data| > ReadLimit(maxObserved, observed) then Ended(ReadFailed)
      else if |e.data| > 0 then
        if maxObserved > 0 && observed + |e.data| > maxObserved then Ended(ObservedTooLarge)
        else
          var observed' := Observe(maxObserved, observed, |e.data|);
          if e.err.Some? then
            Stream(e.data, EndOf(e.err.value), AfterEnd(script[1..], e.err.value, maxObserved, observed'))
          else Prepend(e.data, StreamOf(script[1..], 0, maxObserved, observed'))
      else if e.err.Some? then Stream([], EndOf(e.err.value), AfterEnd(script[1..], e.err.value, maxObserved, observed))
      else if empties + 1 >= MAX_EMPTY_READS then Ended(ReadFailed)
      else if e.stopAfter then Ended(Stopped)
      else StreamOf(script[1..], empties + 1, maxObserved, observed)
  }

  /** What the script brings after an error, if that was an end and there is more. */
  function AfterEnd(script: seq<ReadEvent>, err: ReadError, maxObserved: nat, observed: nat): Option<Stream>
    requires maxObserved > 0 ==> observed <= maxObserved
    decreases |script|, 2
  {
    if err == OtherError || |script| == 0 then None else Some(StreamOf(script, 0, maxObserved, observed))
  }

  // ---------------------------------------------------------------- growing a line

  /** A Go slice: its elements and the size of the array behind them. */
  datatype Slice = Slice(data: seq<byte>, capacity: nat)

  const NIL := Slice([], 0)

  predicate Fits(s: Slice, maximum: nat) {
    |s.data| <= s.capacity <= maximum
  }

  /** The capacity of the array appendWithinCap writes into. */
  function GrownCapacity(capacity: nat, needed: nat, maximum: nat): nat {
    if needed <= capacity then capacity else Min(Max(Max(2 * capacity, 4096), needed), maximum)
  }

  /** Appending as much of src as the cap leaves room for; the flag tells whether all of it fitted. */
  function AppendWithinCap(dst: Slice, src: seq<byte>, maximum: nat): (r: (Slice, bool))
    requires Fits(dst, maximum)
    ensures Fits(r.0, maximum)
    ensures dst.data <= r.0.data <= dst.data + src
    ensures r.1 <==> r.0.data == dst.data + src
    ensures !r.1 ==> |r.0.data| == maximum
  {
    var complete := |src| <= maximum - |dst.data|;
    var taken := if complete then src else src[..maximum - |dst.data|];
    (Slice(dst.data + taken, GrownCapacity(dst.capacity, |dst.data| + |taken|, maximum)), complete)
  }

  /** An append that fits its array keeps it; any other doubles it at least, unless the cap allows less, and
      takes no more than that, than is needed, or than 4096 bytes. */
  lemma AppendGrowth(dst: Slice, src: seq<byte>, maximum: nat)
    requires Fits(dst, maximum)
    ensures var r := AppendWithinCap(dst, src, maximum).0;
            && (|r.data| <= dst.capacity ==> r.capacity == dst.capacity)
            && (|r.data| > dst.capacity ==>
                  && (r.capacity >= 2 * dst.capacity || r.capacity == maximum)
                  && (r.capacity >= 4096 || r.capacity == maximum)
                  && (r.capacity <= 2 * dst.capacity || r.capacity == |r.data| || r.capacity <= 4096))
  {}

  /** Reslicing one trailing CR away keeps the array. */
  function DropCR(line: Slice): Slice {
    Slice(StripCR(line.data), line.capacity)
  }

  /** The bounded prefix of a record found oversize while appending segment to its first bytes. */
  function DiscardedPrefixOf(line: seq<byte>, before: nat, segment: seq<byte>, complete: bool): (p: seq<byte>)
    requires before <= |line|
    ensures complete ==> p == line[..Min(|line|, MAX_PREFIX)]
    ensures !complete ==> p == (line[..before] + segment)[..Min(before + |segment|, MAX_PREFIX)]
  {
    if complete then line[..Min(|line|, MAX_PREFIX)]
    else
      var size := Min(before + |segment|, MAX_PREFIX);
      var fromLine := Min(before, size);
      line[..fromLine] + segment[..size - fromLine]
  }

  /** The reader's oversize test, on the line it has kept so far. */
  predicate LooksOversize(line: seq<byte>, complete: bool, limit: nat) {
    !complete || (|line| > limit && (|line| != limit + 1 || line[|line| - 1] != CR))
  }

  /** The test decides exactly whether the bytes seen so far can still be a kept record, wherever the
      reads happened to cut them, and the prefix it exposes is one of those bytes. */
  lemma OversizeTestIsExact(line: Slice, segment: seq<byte>, limit: nat)
    requires Fits(line, limit + 1) && Kept(line.data, limit)
    ensures var grown := AppendWithinCap(line, segment, limit + 1);
            var record := line.data + segment;
            && (LooksOversize(grown.0.data, grown.1, limit) <==> !Kept(record, limit))
            && (Kept(record, limit) ==> grown.0.data == record)
            && (!Kept(record, limit) ==>
                  IsDiscardedPrefix(DiscardedPrefixOf(grown.0.data, |line.data|, segment, grown.1), record, limit))
  {
    var grown := AppendWithinCap(line, segment, limit + 1);
    var record := line.data + segment;
    assert grown.0.data[..|line.data|] == line.data;
  }

  /** Further bytes of a record change neither the verdict nor the prefix. */
  lemma OversizeIsFinal(record: seq<byte>, more: seq<byte>, prefix: seq<byte>, limit: nat)
    requires !Kept(record, limit)
    ensures !Kept(record + more, limit)
    ensures IsDiscardedPrefix(prefix, record, limit) ==> IsDiscardedPrefix(prefix, record + more, limit)
  {
    if more == [] { assert record + more == record; }
  }

  /** The result for a complete record. */
  function Verdict(record: seq<byte>, limit: nat, policy: Policy): Outcome {
    if Kept(record, limit) then Line(Emitted(record))
    else if policy.RejectOversize? then Failed(LineTooLong)
    else Discarded
  }

  lemma FirstLF(bytes: seq<byte>, k: nat)
    requires k < |bytes| && bytes[k] == LF
    requires LF !in bytes[..k]
    ensures HasLF(bytes) && FirstRecord(bytes) == bytes[..k] && AfterFirst(bytes) == bytes[k + 1..]
  {
    assert forall j :: 0 <= j < k ==> bytes[j] == bytes[..k][j];
    assert IndexLF(bytes) == k;
  }

  /** The bytes before a newline, and what follows it. */
  lemma SplitPending(pending: seq<byte>, ahead: Stream)
    requires HasLF(pending)
    ensures var k := |FirstRecord(pending)|;
            && k < |pending|
            && Prepend(pending, ahead) == Prepend(FirstRecord(pending) + [LF], Prepend(pending[k + 1..], ahead))
  {
    SplitAtLF(pending);
    Assoc(FirstRecord(pending) + [LF], AfterFirst(pending), ahead.bytes);
  }

  /** A newline ends the record begun by earlier reads. */
  lemma RecordEnds(full: Stream, taken: seq<byte>, segment: seq<byte>, rest: Stream, limit: nat, policy: Policy)
    requires full == Prepend(taken, Prepend(segment + [LF], rest))
    requires LF !in taken && LF !in segment
    ensures NextRecord(full) == taken + segment && AfterNext(full) == rest
    ensures NextOutcome(full, limit, policy) == Verdict(taken + segment, limit, policy)
  {
    var bytes, k := full.bytes, |taken + segment|;
    Assoc(taken, segment + [LF], rest.bytes);
    Assoc(taken, segment, [LF]);
    Assoc(taken + segment, [LF], rest.bytes);
    assert bytes == (taken + segment) + ([LF] + rest.bytes);
    assert bytes[..k] == taken + segment && bytes[k] == LF && bytes[k + 1..] == rest.bytes;
    FirstLF(bytes, k);
  }

  /** A stretch without a newline belongs to the next record. */
  lemma RecordGoesOn(full: Stream, taken: seq<byte>, rest: Stream)
    requires full == Prepend(taken, rest) && LF !in taken
    ensures |taken| <= |NextRecord(full)| && NextRecord(full)[..|taken|] == taken
  {
    var k := IndexLF(full.bytes);
    assert forall j :: 0 <= j < |taken| ==> full.bytes[j] == taken[j];
    assert k == -1 || k >= |taken|;
  }

  /** The end of the stream ends the last record; without one it is the result. */
  lemma RecordAtEnd(full: Stream, taken: seq<byte>, end: ReaderError, after: Option<Stream>, limit: nat, policy: Policy)
    requires full == Prepend(taken, Stream([], end, after)) && LF !in taken
    ensures NextRecord(full) == taken
    ensures AfterNext(full) == if after.Some? then after.value else Ended(end)
    ensures Kept(taken, limit) || policy.DiscardOversize? ==>
              NextOutcome(full, limit, policy) ==
              if end != EndOfOutput || taken == [] then Failed(end) else Verdict(taken, limit, policy)
  {
    PlusEmpty(taken);
    assert !HasLF(taken);
  }

  /** In reject mode an oversize start already decides the result. */
  lemma OversizeStart(full: Stream, taken: seq<byte>, rest: Stream, limit: nat)
    requires full == Prepend(taken, rest) && LF !in taken && !Kept(taken, limit)
    ensures NextOutcome(full, limit, RejectOversize) == Failed(LineTooLong)
  {
    RecordGoesOn(full, taken, rest);
    var record := NextRecord(full);
    assert record == record[..|taken|] + record[|taken|..];
    OversizeIsFinal(taken, record[|taken|..], [], limit);
  }

  /** The reader's locals between segments: the line while it is kept, else its exposed prefix. */
  predicate Building(line: Slice, discarded: bool, prefix: seq<byte>, taken: seq<byte>, limit: nat, policy: Policy) {
    if discarded then policy.DiscardOversize? && !Kept(taken, limit) && IsDiscardedPrefix(prefix, taken, limit)
    else line.data == taken && Kept(taken, limit) && Fits(line, limit + 1)
  }

  method Extend(line: Slice, discarded: bool, prefix: seq<byte>, segment: seq<byte>,
                limit: nat, policy: Policy, ghost taken: seq<byte>)
    returns (line': Slice, discarded': bool, prefix': seq<byte>, tooLong: bool)
    requires Building(line, discarded, prefix, taken, limit, policy)
    ensures tooLong ==> policy.RejectOversize? && !Kept(taken + segment, limit)
    ensures !tooLong ==> Building(line', discarded', prefix', taken + segment, limit, policy)
  {
    line', discarded', prefix', tooLong := line, discarded, prefix, false;
    if discarded {
      OversizeIsFinal(taken, segment, prefix, limit);
      return;
    }
    OversizeTestIsExact(line, segment, limit);
    var lineBytesBeforeAppend := |line.data|;
    var grown := AppendWithinCap(line, segment, limit + 1);
    line' := grown.0;
    if LooksOversize(line'.data, grown.1, limit) {
      if policy.RejectOversize? {
        tooLong := true;
        return;
      }
      discarded' := true;
      prefix' := DiscardedPrefixOf(line'.data, lineBytesBeforeAppend, segment, grown.1);
      line' := NIL;
    }
  }

  /** The line as delivered: one trailing CR dropped and the newline put back, within the cap. */
  method Terminate(line: Slice, limit: nat) returns (delivered: Slice)
    requires Fits(line, limit + 1) && Kept(line.data, limit)
    ensures Fits(delivered, limit + 1) && delivered.data == Emitted(line.data)
  {
    var stripped := DropCR(line);
    if |stripped.data| > limit {
      // The end-of-output path tests the length once more; it can no longer exceed the limit.
      assert false;
    }
    delivered := AppendWithinCap(stripped, [LF], limit + 1).0;
  }

  // ---------------------------------------------------------------- the reader

  class OutputLineReader {
    var script: seq<ReadEvent>
    const maxObserved: nat
    const buffer: array<byte>
    var start: nat
    var end: nat
    var pendingErr: Option<ReadError>
    var emptyReads: nat
    var observedBytes: nat
    var discardedPrefix: seq<byte>

    ghost predicate Valid()
      reads `start, `end, `observedBytes
    {
      && buffer.Length == READ_BUFFER_BYTES
      && start <= end <= buffer.Length
      && (maxObserved > 0 ==> observedBytes <= maxObserved)
    }

    /** What follows the buffered bytes: the pending error, or what the script will bring. */
    ghost function Ahead(): Stream
      requires Valid()
      reads `script, `start, `end, `pendingErr, `emptyReads, `observedBytes
    {
      if pendingErr.Some? then
        Stream([], EndOf(pendingErr.value), AfterEnd(script, pendingErr.value, maxObserved, observedBytes))
      else StreamOf(script, emptyReads, maxObserved, observedBytes)
    }

    /** The bytes still to be delivered, buffered ones first. */
    ghost function Remaining(): Stream
      requires Valid()
      reads `script, `start, `end, `pendingErr, `emptyReads, `observedBytes, buffer
    {
      Prepend(buffer[start..end], Ahead())
    }

    lemma NothingBuffered()
      requires Valid() && start == end
      ensures Remaining() == Ahead()
    {
      assert buffer[start..end] == [];
      EmptyPlus(Ahead().bytes);
    }

    constructor (script: seq<ReadEvent>, maxObserved: nat)
      ensures Valid() && fresh(buffer)
      ensures Remaining() == StreamOf(script, 0, maxObserved, 0)
    {
      this.script := script;
      this.maxObserved := maxObserved;
      buffer := new byte[READ_BUFFER_BYTES];
      start, end := 0, 0;
      pendingErr := None;
      emptyReads, observedBytes := 0, 0;
      discardedPrefix := [];
      new;
      NothingBuffered();
    }

    /** Whether the poll of stop before the next Read finds it closed. */
    predicate StopRequested()
      reads this
    {
      |script| > 0 && script[0].stopBefore
    }

    /** Read has filled the start of the buffer. */
    method Load(data: seq<byte>, err: Option<ReadError>)
      requires |data| <= buffer.Length == READ_BUFFER_BYTES
      modifies buffer, `start, `end, `pendingErr
      ensures start == 0 && end == |data| && pendingErr == err
      ensures buffer[start..end] == data
    {
      forall i | 0 <= i < |data| {
        buffer[i] := data[i];
      }
      start := 0;
      end := |data|;
      pendingErr := err;
    }

    /** One Read into the whole buffer, or into what the ceiling still allows plus one byte. */
    method ReadMore() returns (failure: Option<ReaderError>)
      requires Valid() && start == end && pendingErr.None? && !StopRequested()
      modifies this, buffer
      ensures failure.None? ==> Valid() && Remaining() == old(Remaining())
      ensures failure.None? ==> |script| < old(|script|) || (script == old(script) == [] && pendingErr == Some(EOF))
      ensures failure.Some? ==> old(Remaining()) == Ended(failure.value)
      ensures failure.Some? ==> failure.value in {ReadFailed, ObservedTooLarge, Stopped}
      ensures maxObserved > 0 ==> old(observedBytes) <= observedBytes <= maxObserved + 1
      ensures discardedPrefix == old(discardedPrefix)
    {
      var limit := ReadLimit(maxObserved, observedBytes);
      var e := if |script| > 0 then script[0] else ReadEvent([], Some(EOF), false, false);
      NothingBuffered();
      if |script| > 0 {
        script := script[1..];
      }
      var n := |e.data|;
      if n > limit {
        return Some(ReadFailed);
      }
      if n > 0 {
        emptyReads := 0;
        if maxObserved > 0 {
          observedBytes := observedBytes + n;
          if observedBytes > maxObserved {
            return Some(ObservedTooLarge);
          }
        }
        Load(e.data, e.err);
        PlusEmpty(e.data);
        return None;
      }
      if e.err.Some? {
        emptyReads := 0;
        pendingErr := e.err;
        NothingBuffered();
        return None;
      }
      emptyReads := emptyReads + 1;
      if emptyReads >= MAX_EMPTY_READS {
        return Some(ReadFailed);
      }
      if e.stopAfter {
        return Some(Stopped);
      }
      NothingBuffered();
      return None;
    }

    /** The buffered bytes up to a newline, or all of them. */
    method NextSegment() returns (segment: seq<byte>, newline: bool)
      requires Valid() && start < end
      modifies `start
      ensures Valid() && LF !in segment
      ensures old(Remaining()) == Prepend(if newline then segment + [LF] else segment, Remaining())
      ensures !newline ==> start == end
      ensures start > old(start)
    {
      var pending := buffer[start..end];
      newline := HasLF(pending);
      segment := FirstRecord(pending);
      if newline {
        SplitPending(pending, Ahead());
        assert pending[|segment| + 1..] == buffer[start + |segment| + 1..end];
        start := start + |segment| + 1;
      } else {
        EmptyPlus(Ahead().bytes);
        start := end;
        NothingBuffered();
      }
    }

    /** A finished record becomes a line, or leaves its prefix behind. */
    method Deliver(line: Slice, discarded: bool, prefix: seq<byte>, limit: nat, policy: Policy, ghost record: seq<byte>)
      returns (o: Outcome)
      requires Building(line, discarded, prefix, record, limit, policy)
      modifies `discardedPrefix
      ensures o == Verdict(record, limit, policy)
      ensures o.Discarded? ==> IsDiscardedPrefix(discardedPrefix, record, limit)
    {
      if discarded {
        discardedPrefix := prefix;
        return Discarded;
      }
      var delivered := Terminate(line, limit);
      return Line(delivered.data);
    }

    /** The pending error is reported once the buffered bytes are used up; an end of output first
        completes an unterminated record. */
    method AtPendingError(line: Slice, discarded: bool, prefix: seq<byte>, limit: nat, policy: Policy,
                          ghost full: Stream, ghost taken: seq<byte>)
      returns (o: Outcome)
      requires Valid() && start == end && pendingErr.Some?
      requires Building(line, discarded, prefix, taken, limit, policy)
      requires full == Prepend(taken, Remaining()) && LF !in taken
      modifies `pendingErr, `emptyReads, `discardedPrefix
      ensures o == NextOutcome(full, limit, policy)
      ensures o.Discarded? ==> IsDiscardedPrefix(discardedPrefix, NextRecord(full), limit)
      ensures Valid()
      ensures !o.Failed? ==> Remaining() == AfterNext(full)
    {
      NothingBuffered();
      var err := pendingErr.value;
      RecordAtEnd(full, taken, EndOf(err), AfterEnd(script, err, maxObserved, observedBytes), limit, policy);
      pendingErr := None;
      emptyReads := 0;
      if err == OtherError {
        return Failed(ReadFailed);
      }
      if |line.data| == 0 && !discarded {
        return Failed(EndOfOutput);
      }
      o := Deliver(line, discarded, prefix, limit, policy, taken);
      NothingBuffered();
    }

    /** The poll of stop, then one Read. */
    method Refill() returns (failure: Option<ReaderError>)
      requires Valid() && start == end && pendingErr.None?
      modifies this, buffer
      ensures failure.None? ==> Valid() && Remaining() == old(Remaining())
      ensures failure.None? ==> |script| < old(|script|) || (script == old(script) && pendingErr.Some?)
      ensures failure.Some? ==> old(Remaining()) == Ended(failure.value)
      ensures failure.Some? ==> failure.value in {ReadFailed, ObservedTooLarge, Stopped}
      ensures maxObserved > 0 ==> old(observedBytes) <= observedBytes <= maxObserved + 1
    {
      if StopRequested() {
        NothingBuffered();
        return Some(Stopped);
      }
      failure := ReadMore();
    }

    /** A result agrees with the reference, and the reader is left where the next one starts. */
    ghost predicate Concluded(o: Outcome, full: Stream, limit: nat, policy: Policy)
      reads this, buffer
    {
      && o == NextOutcome(full, limit, policy)
      && (o.Discarded? ==> IsDiscardedPrefix(discardedPrefix, NextRecord(full), limit))
      && (!o.Failed? ==> Valid() && Remaining() == AfterNext(full))
    }

    /** With nothing buffered: report what is pending, or poll stop and read once. */
    method Fill(line: Slice, discarded: bool, prefix: seq<byte>, limit: nat, policy: Policy,
                ghost full: Stream, ghost taken: seq<byte>)
      returns (o: Option<Outcome>)
      requires Valid() && start == end
      requires Building(line, discarded, prefix, taken, limit, policy)
      requires full == Prepend(taken, Remaining()) && LF !in taken
      modifies this, buffer
      ensures o.Some? ==> Concluded(o.value, full, limit, policy)
      ensures o.None? ==> Valid() && full == Prepend(taken, Remaining())
      ensures o.None? ==> |script| < old(|script|) || (script == old(script) && old(pendingErr.None?) && pendingErr.Some?)
      ensures maxObserved > 0 ==> observedBytes <= maxObserved + 1
    {
      if pendingErr.Some? {
        var last := AtPendingError(line, discarded, prefix, limit, policy, full, taken);
        return Some(last);
      }
      var failure := Refill();
      if failure.Some? {
        RecordAtEnd(full, taken, failure.value, None, limit, policy);
        return Some(Failed(failure.value));
      }
      return None;
    }

    /** The buffered segment is added to the record, which a newline finishes. */
    method Consume(line: Slice, discarded: bool, prefix: seq<byte>, limit: nat, policy: Policy,
                   ghost full: Stream, ghost taken: seq<byte>)
      returns (o: Option<Outcome>, line': Slice, discarded': bool, prefix': seq<byte>, ghost taken': seq<byte>)
      requires Valid() && start < end
      requires Building(line, discarded, prefix, taken, limit, policy)
      requires full == Prepend(taken, Remaining()) && LF !in taken
      modifies `start, `discardedPrefix
      ensures o.Some? ==> Concluded(o.value, full, limit, policy)
      ensures o.None? ==> Valid() && start == end && full == Prepend(taken', Remaining()) && LF !in taken'
      ensures o.None? ==> Building(line', discarded', prefix', taken', limit, policy)
    {
      var segment, newline := NextSegment();
      var tooLong;
      line', discarded', prefix', tooLong := Extend(line, discarded, prefix, segment, limit, policy, taken);
      taken' := taken + segment;
      o := None;
      if newline {
        RecordEnds(full, taken, segment, Remaining(), limit, policy);
        if tooLong {
          return Some(Failed(LineTooLong)), line', discarded', prefix', taken';
        }
        var delivered := Deliver(line', discarded', prefix', limit, policy, taken');
        return Some(delivered), line', discarded', prefix', taken';
      }
      PrependTwice(taken, segment, Remaining());
      if tooLong {
        OversizeStart(full, taken', Remaining(), limit);
        o := Some(Failed(LineTooLong));
      }
    }

    /** The next record, whatever reads it takes to complete it. */
    method NextLine(retainedLineBytes: nat, policy: Policy) returns (o: Outcome)
      requires Valid()
      modifies this, buffer
      ensures o == NextOutcome(old(Remaining()), retainedLineBytes, policy)
      ensures o.Discarded? ==> IsDiscardedPrefix(discardedPrefix, NextRecord(old(Remaining())), retainedLineBytes)
      ensures !o.Failed? ==> Valid() && Remaining() == AfterNext(old(Remaining()))
      ensures maxObserved > 0 ==> observedBytes <= maxObserved + 1
    {
      var line, discarded, prefix := NIL, false, [];
      ghost var full, taken: seq<byte> := Remaining(), [];
      EmptyPlus(full.bytes);
      while true
        invariant Valid() && LF !in taken
        invariant full == Prepend(taken, Remaining())
        invariant Building(line, discarded, prefix, taken, retainedLineBytes, policy)
        decreases |script|, if pendingErr.None? then 1 else 0, end - start
      {
        if start == end {
          var concluded := Fill(line, discarded, prefix, retainedLineBytes, policy, full, taken);
          if concluded.Some? {
            return concluded.value;
          }
          if start == end {
            continue;
          }
        }
        var result;
        result, line, discarded, prefix, taken :=
          Consume(line, discarded, prefix, retainedLineBytes, policy, full, taken);
        if result.Some? {
          return result.value;
        }
      }
    }
  }

  lemma PrependTwice(a: seq<byte>, b: seq<byte>, s: Stream)
    ensures Prepend(a, Prepend(b, s)) == Prepend(a + b, s)
  {
    Assoc(a, b, s.bytes);
  }

  // ---------------------------------------------------------------- reading to the end

  /** The results and records behind us, and the stream still ahead, make up the whole. */
  predicate SoFar(full: Stream, results: seq<Outcome>, records: seq<seq<byte>>, ahead: Stream, limit: nat, policy: Policy) {
    && results + Results(ahead, limit, policy) == Results(full, limit, policy)
    && records + RecordsOf(ahead) == RecordsOf(full)
  }

  lemma SoFarStep(full: Stream, results: seq<Outcome>, records: seq<seq<byte>>, ahead: Stream, limit: nat, policy: Policy)
    requires SoFar(full, results, records, ahead, limit, policy)
    ensures var o := NextOutcome(ahead, limit, policy);
            && (o.Failed? ==> results + [o] == Results(full, limit, policy))
            && (!o.Failed? ==> SoFar(full, results + [o], records + [NextRecord(ahead)], AfterNext(ahead), limit, policy))
  {
    var o := NextOutcome(ahead, limit, policy);
    var behind, rest := Results(ahead, limit, policy), AfterNext(ahead);
    if !o.Failed? {
      assert behind == [o] + Results(rest, limit, policy);
      MoveAcross(results, o, Results(rest, limit, policy));
      MoveAcross(records, NextRecord(ahead), RecordsOf(rest));
    }
  }

  lemma SoFarStart(full: Stream, limit: nat, policy: Policy)
    ensures SoFar(full, [], [], full, limit, policy)
  {
    EmptyPlus(Results(full, limit, policy));
    EmptyPlus(RecordsOf(full));
  }

  /** The prefixes match the discarded records, one place each; other places are empty. */
  predicate PrefixesMatch(results: seq<Outcome>, prefixes: seq<seq<byte>>, records: seq<seq<byte>>, limit: nat) {
    |prefixes| <= |results| && |prefixes| <= |records| &&
    forall i :: 0 <= i < |prefixes| ==>
      if results[i].Discarded? then IsDiscardedPrefix(prefixes[i], records[i], limit) else prefixes[i] == []
  }

  lemma PrefixesMatchStep(results: seq<Outcome>, prefixes: seq<seq<byte>>, records: seq<seq<byte>>, limit: nat,
                          o: Outcome, prefix: seq<byte>, record: seq<byte>)
    requires |results| == |prefixes| == |records| && PrefixesMatch(results, prefixes, records, limit)
    requires if o.Discarded? then IsDiscardedPrefix(prefix, record, limit) else prefix == []
    ensures PrefixesMatch(results + [o], prefixes + [prefix], records + [record], limit)
  {}

  /** The records met so far are the first ones of the stream. */
  lemma PrefixesMatchAll(results: seq<Outcome>, prefixes: seq<seq<byte>>, records: seq<seq<byte>>, rest: seq<seq<byte>>,
                         limit: nat, last: Outcome)
    requires |results| == |prefixes| == |records| && PrefixesMatch(results, prefixes, records, limit)
    ensures PrefixesMatch(results + [last], prefixes, records + rest, limit)
  {}

  /** The read loop: every record in turn until the first error, with the prefixes of the discarded. */
  method ReadAll(r: OutputLineReader, limit: nat, policy: Policy) returns (results: seq<Outcome>, prefixes: seq<seq<byte>>)
    requires r.Valid()
    modifies r, r.buffer
    ensures results == Results(old(r.Remaining()), limit, policy)
    ensures |results| == |prefixes| + 1
    ensures PrefixesMatch(results, prefixes, RecordsOf(old(r.Remaining())), limit)
    ensures r.maxObserved > 0 ==> r.observedBytes <= r.maxObserved + 1
  {
    results, prefixes := [], [];
    ghost var full, ahead, records: seq<seq<byte>> := r.Remaining(), r.Remaining(), [];
    SoFarStart(full, limit, policy);
    while true
      invariant r.Valid() && r.Remaining() == ahead
      invariant SoFar(full, results, records, ahead, limit, policy)
      invariant |results| == |prefixes| == |records|
      invariant PrefixesMatch(results, prefixes, records, limit)
      decreases Total(ahead)
    {
      SoFarStep(full, results, records, ahead, limit, policy);
      var o := r.NextLine(limit, policy);
      if o.Failed? {
        PrefixesMatchAll(results, prefixes, records, RecordsOf(ahead), limit, o);
        results := results + [o];
        return;
      }
      var prefix := if o.Discarded? then r.discardedPrefix else [];
      PrefixesMatchStep(results, prefixes, records, limit, o, prefix, NextRecord(ahead));
      results := results + [o];
      prefixes := prefixes + [prefix];
      records := records + [NextRecord(ahead)];
      ahead := AfterNext(ahead);
    }
  }

  // ---------------------------------------------------------------- bounded work

  /** The bytes Read hands over while the reader asks, counting those of a read it then rejects, and
      asking on after every end of output. */
  function BytesRead(script: seq<ReadEvent>, empties: nat, maxObserved: nat, observed: nat): nat
    requires maxObserved > 0 ==> observed <= maxObserved
    decreases |script|
  {
    if |script| == 0 then 0
    else
      var e, rest := script[0], script[1..];
      if e.stopBefore || |e.data| > ReadLimit(maxObserved, observed) then 0
      else if |e.data| > 0 then
        if e.err == Some(OtherError) || (maxObserved > 0 && observed + |e.data| > maxObserved) then |e.data|
        else |e.data| + BytesRead(rest, 0, maxObserved, Observe(maxObserved, observed, |e.data|))
      else if e.err.Some? then if e.err.value == OtherError then 0 else BytesRead(rest, 0, maxObserved, observed)
      else if empties + 1 >= MAX_EMPTY_READS || e.stopAfter then 0
      else BytesRead(rest, empties + 1, maxObserved, observed)
  }

  function FinalEnd(s: Stream): ReaderError {
    if s.after.Some? then FinalEnd(s.after.value) else s.end
  }

  /** Under a ceiling, no source makes the reader take in more than one byte beyond it, however often it
      is asked on, and nothing beyond it is delivered; the ceiling is reported exactly when that one byte
      was taken. */
  lemma {:induction false} WorkIsBounded(script: seq<ReadEvent>, empties: nat, maxObserved: nat, observed: nat)
    requires maxObserved > 0 && observed <= maxObserved
    ensures observed + BytesRead(script, empties, maxObserved, observed) <= maxObserved + 1
    ensures observed + Total(StreamOf(script, empties, maxObserved, observed)) <= maxObserved
    ensures FinalEnd(StreamOf(script, empties, maxObserved, observed)) == ObservedTooLarge <==>
              observed + BytesRead(script, empties, maxObserved, observed) == maxObserved + 1
    decreases |script|
  {
    if |script| > 0 {
      var e, rest := script[0], script[1..];
      if !e.stopBefore && |e.data| <= ReadLimit(maxObserved, observed) {
        if |e.data| > 0 && observed + |e.data| <= maxObserved {
          WorkIsBounded(rest, 0, maxObserved, observed + |e.data|);
        } else if |e.data| == 0 && e.err.Some? {
          WorkIsBounded(rest, 0, maxObserved, observed);
        } else if |e.data| == 0 && empties + 1 < MAX_EMPTY_READS && !e.stopAfter {
          WorkIsBounded(rest, empties + 1, maxObserved, observed);
        }
      }
    }
  }

  /** A source that keeps returning nothing is given up on: no run of a hundred empty reads survives. */
  lemma {:induction false} EmptyReadsEnd(script: seq<ReadEvent>, empties: nat, maxObserved: nat, observed: nat)
    requires maxObserved > 0 ==> observed <= maxObserved
    requires empties < MAX_EMPTY_READS && |script| >= MAX_EMPTY_READS - empties
    requires forall i :: 0 <= i < MAX_EMPTY_READS - empties ==> script[i].data == [] && script[i].err.None?
    ensures var s := StreamOf(script, empties, maxObserved, observed);
            s.bytes == [] && s.end in {ReadFailed, Stopped}
    decreases MAX_EMPTY_READS - empties
  {
    if empties + 1 < MAX_EMPTY_READS {
      EmptyReadsEnd(script[1..], empties + 1, maxObserved, observed);
    }
  }
}
