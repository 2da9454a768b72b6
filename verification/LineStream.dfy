/** What a line reader should make of a byte stream, independent of how it arrives.

    The reference for internal/agent/output.go: records are what lies between newlines, plus an
    unterminated tail; a record is kept when it fits the limit, allowing one extra trailing CR. */
module LineStream {
  import opened Sequences
  import opened Wrappers

  newtype byte = x: int | 0 <= x < 256

  const LF: byte := 10
  const CR: byte := 13
  const MAX_PREFIX := 4096

  datatype Policy = RejectOversize | DiscardOversize

  datatype ReaderError = EndOfOutput | LineTooLong | ObservedTooLarge | ReadFailed | Stopped

  /** The bytes still to come, the error that follows them, and what a source goes on to deliver when it
      is asked again after an end of output. */
  datatype Stream = Stream(bytes: seq<byte>, end: ReaderError, after: Option<Stream>)

  function Total(s: Stream): nat {
    |s.bytes| + if s.after.Some? then Total(s.after.value) else 0
  }

  datatype Outcome = Line(bytes: seq<byte>) | Discarded | Failed(error: ReaderError)

  /** The index of the first newline, or -1. */
  function IndexLF(s: seq<byte>): (i: int)
    ensures -1 <= i < |s|
    ensures i >= 0 ==> s[i] == LF
    ensures forall j :: 0 <= j < (if i >= 0 then i else |s|) ==> s[j] != LF
  {
    if s == [] then -1
    else if s[0] == LF then 0
    else
      var i := IndexLF(s[1..]);
      assert forall j :: 1 <= j < |s| ==> s[j] == s[1..][j - 1];
      if i == -1 then -1 else i + 1
  }

  /** Fits the limit, not counting one CR directly after it. */
  predicate Kept(record: seq<byte>, limit: nat) {
    |record| <= limit || (|record| == limit + 1 && record[limit] == CR)
  }

  function StripCR(record: seq<byte>): seq<byte> {
    if record != [] && record[|record| - 1] == CR then record[..|record| - 1] else record
  }

  /** A kept record as it is delivered. */
  function Emitted(record: seq<byte>): seq<byte> {
    StripCR(record) + [LF]
  }

  /** What is exposed of a discarded record: a true prefix of bounded length. Its length depends on
      the reads only for limits below the bound. */
  predicate IsDiscardedPrefix(prefix: seq<byte>, record: seq<byte>, limit: nat) {
    && prefix <= record
    && |prefix| <= MAX_PREFIX
    && (|prefix| == MAX_PREFIX || |prefix| > limit)
  }

  /** From a limit of 4095 bytes on, the prefix is the record's first 4096 bytes whatever the reads. */
  lemma PrefixIsFirstBytes(prefix: seq<byte>, record: seq<byte>, limit: nat)
    requires limit + 1 >= MAX_PREFIX && !Kept(record, limit)
    requires IsDiscardedPrefix(prefix, record, limit)
    ensures |record| >= MAX_PREFIX && prefix == record[..MAX_PREFIX]
  {
    assert prefix == record[..|prefix|];
  }

  /** The bytes before the first newline, or all of them. */
  function FirstRecord(bytes: seq<byte>): (r: seq<byte>)
    ensures LF !in r
  {
    var k := IndexLF(bytes);
    if k >= 0 then bytes[..k] else bytes
  }

  /** The bytes after the first newline, if there is one. */
  function AfterFirst(bytes: seq<byte>): (r: seq<byte>)
    ensures |bytes| > 0 ==> |r| < |bytes|
    ensures bytes == [] ==> r == []
  {
    var k := IndexLF(bytes);
    if k >= 0 then bytes[k + 1..] else []
  }

  predicate HasLF(bytes: seq<byte>) {
    IndexLF(bytes) >= 0
  }

  /** The record the next call concerns. */
  function NextRecord(s: Stream): seq<byte> {
    FirstRecord(s.bytes)
  }

  /** What remains after the next result. A tail without a newline has used up one end of output. */
  function AfterNext(s: Stream): (r: Stream)
    ensures |s.bytes| > 0 ==> Total(r) < Total(s)
  {
    if HasLF(s.bytes) || s.after.None? then s.(bytes := AfterFirst(s.bytes)) else s.after.value
  }

  /** The next result: a function of the bytes and the limit alone. */
  function NextOutcome(s: Stream, limit: nat, policy: Policy): (o: Outcome)
    ensures !o.Failed? ==> |s.bytes| > 0
  {
    var record := NextRecord(s);
    if !Kept(record, limit) && policy.RejectOversize? then Failed(LineTooLong)
    else if !HasLF(s.bytes) && (s.end != EndOfOutput || |s.bytes| == 0) then Failed(s.end)
    else if Kept(record, limit) then Line(Emitted(record))
    else Discarded
  }

  /** Every result up to and including the first error. */
  function Results(s: Stream, limit: nat, policy: Policy): seq<Outcome>
    decreases Total(s)
  {
    var o := NextOutcome(s, limit, policy);
    if o.Failed? then [o] else [o] + Results(AfterNext(s), limit, policy)
  }

  // ---------------------------------------------------------------- properties of the reference

  /** The stream cut at its newlines; a final piece only when it is not empty. */
  function Records(bytes: seq<byte>): seq<seq<byte>>
    decreases |bytes|
  {
    if |bytes| == 0 then [] else [FirstRecord(bytes)] + Records(AfterFirst(bytes))
  }

  /** Likewise for a stream, whose every end of output but the last ends a record. */
  function RecordsOf(s: Stream): seq<seq<byte>>
    decreases Total(s)
  {
    if |s.bytes| == 0 then [] else [NextRecord(s)] + RecordsOf(AfterNext(s))
  }

  lemma {:induction false} RecordsOfBytes(bytes: seq<byte>, end: ReaderError)
    ensures RecordsOf(Stream(bytes, end, None)) == Records(bytes)
    decreases |bytes|
  {
    if |bytes| > 0 { RecordsOfBytes(AfterFirst(bytes), end); }
  }

  /** One result per record, oversize ones discarded, then the end. */
  function DiscardingResults(records: seq<seq<byte>>, limit: nat): seq<Outcome> {
    if records == [] then [Failed(EndOfOutput)]
    else [if Kept(records[0], limit) then Line(Emitted(records[0])) else Discarded] +
         DiscardingResults(records[1..], limit)
  }

  /** One result per record up to the first oversize one, which fails the reader. */
  function RejectingResults(records: seq<seq<byte>>, limit: nat): seq<Outcome> {
    if records == [] then [Failed(EndOfOutput)]
    else if !Kept(records[0], limit) then [Failed(LineTooLong)]
    else [Line(Emitted(records[0]))] + RejectingResults(records[1..], limit)
  }

  /** A stream that ends normally, in either mode. */
  lemma {:induction false} ResultsOfRecords(bytes: seq<byte>, limit: nat)
    ensures Results(Stream(bytes, EndOfOutput, None), limit, DiscardOversize) == DiscardingResults(Records(bytes), limit)
    ensures Results(Stream(bytes, EndOfOutput, None), limit, RejectOversize) == RejectingResults(Records(bytes), limit)
    decreases |bytes|
  {
    if |bytes| > 0 {
      TailOfCons(FirstRecord(bytes), Records(AfterFirst(bytes)));
      ResultsOfRecords(AfterFirst(bytes), limit);
    }
  }

  /** Records put back together, each with its newline. */
  function Joined(records: seq<seq<byte>>): seq<byte> {
    if records == [] then [] else records[0] + [LF] + Joined(records[1..])
  }

  lemma SplitAtLF(bytes: seq<byte>)
    requires HasLF(bytes)
    ensures bytes == FirstRecord(bytes) + [LF] + AfterFirst(bytes)
  {}

  predicate EndsInLF(bytes: seq<byte>) {
    |bytes| == 0 || bytes[|bytes| - 1] == LF
  }

  lemma EndsInLFConcat(record: seq<byte>, rest: seq<byte>)
    ensures EndsInLF(record + [LF] + rest) == EndsInLF(rest)
  {}

  /** Cutting loses and moves no byte: joining the records gives the stream back, with a newline
      supplied exactly when the stream does not end in one. */
  lemma {:induction false} RecordsCoverStream(bytes: seq<byte>)
    ensures Joined(Records(bytes)) == if EndsInLF(bytes) then bytes else bytes + [LF]
    decreases |bytes|
  {
    if |bytes| > 0 {
      var first, rest := FirstRecord(bytes), AfterFirst(bytes);
      TailOfCons(first, Records(rest));
      RecordsCoverStream(rest);
      if HasLF(bytes) {
        SplitAtLF(bytes);
        EndsInLFConcat(first, rest);
        Assoc(first + [LF], rest, [LF]);
      } else {
        assert bytes[|bytes| - 1] in first;
        PlusEmpty(first + [LF]);
      }
    }
  }
}
