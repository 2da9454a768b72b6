/** Which condition of a source each end of its stream stands for.

    Completes the model of internal/agent/output.go:147-311: the first read the reader does not get past is
    found, and what it reports there is told from what stands in that read alone. */
module StreamEnds {
  import opened Arithmetic
  import opened Sequences
  import opened Wrappers
  import opened LineStream
  import opened LineReader
  import opened Chunking

  /** Empty reads in a row before read k, empties of them before the script. */
  function EmptiesBefore(script: seq<ReadEvent>, k: nat, empties: nat): nat
    requires k <= |script|
  {
    if k == 0 then empties else if script[k - 1].data == [] then EmptiesBefore(script, k - 1, empties) + 1 else 0
  }

  predicate BeyondCeiling(maxObserved: nat, observed: nat, data: seq<byte>) {
    maxObserved > 0 && observed + |data| > maxObserved
  }

  /** A read that breaks the contract of io.Reader: more bytes than were asked for. Under a ceiling no more
      than one byte past it is asked for. */
  predicate Overfull(maxObserved: nat, observed: nat, data: seq<byte>) {
    || |data| > 65536
    || (maxObserved > 0 && observed + |data| > maxObserved + 1)
  }

  /** The reader goes on past this read. */
  predicate GoesOn(e: ReadEvent, empties: nat, maxObserved: nat, observed: nat) {
    && !e.stopBefore && e.err.None?
    && !Overfull(maxObserved, observed, e.data) && !BeyondCeiling(maxObserved, observed, e.data)
    && (e.data == [] ==> empties < 99 && !e.stopAfter)
  }

  /** What it reports of a read it does not go past: the close of stop first, then a broken or a crossing
      read, then an error or an end that came with it, then the hundredth empty read in a row, and last the
      close of stop once more. */
  predicate EndsThere(e: ReadEvent, empties: nat, maxObserved: nat, observed: nat, delivered: seq<byte>, end: ReaderError) {
    if e.stopBefore then delivered == [] && end == Stopped
    else if Overfull(maxObserved, observed, e.data) then delivered == [] && end == ReadFailed
    else if BeyondCeiling(maxObserved, observed, e.data) then delivered == [] && end == ObservedTooLarge
    else
      && delivered == e.data
      && end == (match e.err
                 case Some(EOF) => EndOfOutput
                 case Some(PtyEOF) => EndOfOutput
                 case Some(OtherError) => ReadFailed
                 case None => if empties >= 99 then ReadFailed else Stopped)
  }

  lemma OverfullIsRefused(maxObserved: nat, observed: nat, data: seq<byte>)
    requires maxObserved > 0 ==> observed <= maxObserved
    ensures Overfull(maxObserved, observed, data) <==> |data| > ReadLimit(maxObserved, observed)
  {}

  lemma EmptiesLater(script: seq<ReadEvent>, k: nat, empties: nat)
    requires 0 < k <= |script|
    ensures EmptiesBefore(script, k, empties) ==
            EmptiesBefore(script[1..], k - 1, if script[0].data == [] then empties + 1 else 0)
  {
    if k > 1 {
      EmptiesLater(script, k - 1, empties);
      assert script[1..][k - 2] == script[k - 1];
    }
  }

  /** The bytes of the first k reads, past those observed before. */
  function ObservedBefore(script: seq<ReadEvent>, k: nat, observed: nat): nat
    requires k <= |script|
  {
    observed + |Bytes(script[..k])|
  }

  lemma ObservedLater(script: seq<ReadEvent>, k: nat, observed: nat)
    requires 0 < k <= |script|
    ensures Bytes(script[..k]) == script[0].data + Bytes(script[1..][..k - 1])
    ensures ObservedBefore(script, k, observed) == ObservedBefore(script[1..], k - 1, observed + |script[0].data|)
  {
    assert script[..k][1..] == script[1..][..k - 1];
  }

  predicate AllGoOn(script: seq<ReadEvent>, k: nat, empties: nat, maxObserved: nat, observed: nat)
    requires k <= |script|
  {
    forall j :: 0 <= j < k ==>
      GoesOn(script[j], EmptiesBefore(script, j, empties), maxObserved, ObservedBefore(script, j, observed))
  }

  /** Where a stream ends, by its script. */
  predicate EndsAt(script: seq<ReadEvent>, k: nat, empties: nat, maxObserved: nat, observed: nat, s: Stream)
    requires k <= |script|
  {
    if k == |script| then s.bytes == Bytes(script) && s.end == EndOfOutput
    else
      var before := Bytes(script[..k]);
      && !GoesOn(script[k], EmptiesBefore(script, k, empties), maxObserved, ObservedBefore(script, k, observed))
      && before <= s.bytes
      && EndsThere(script[k], EmptiesBefore(script, k, empties), maxObserved, ObservedBefore(script, k, observed),
                   s.bytes[|before|..], s.end)
  }

  /** The reader goes past k reads and ends at the next, or with the script. */
  predicate Explains(script: seq<ReadEvent>, k: nat, empties: nat, maxObserved: nat, observed: nat, s: Stream) {
    k <= |script| && AllGoOn(script, k, empties, maxObserved, observed) && EndsAt(script, k, empties, maxObserved, observed, s)
  }

  predicate Explained(script: seq<ReadEvent>, empties: nat, maxObserved: nat, observed: nat, s: Stream) {
    exists k: nat :: k <= |script| && Explains(script, k, empties, maxObserved, observed, s)
  }

  /** Every stream ends at the first read the reader does not go past, with what that read stands for, or
      with the script and the end of output; before it lie exactly the bytes of the reads it went past. */
  lemma {:induction false} EndStandsFor(script: seq<ReadEvent>, empties: nat, maxObserved: nat, observed: nat)
    requires maxObserved > 0 ==> observed <= maxObserved
    ensures Explained(script, empties, maxObserved, observed, StreamOf(script, empties, maxObserved, observed))
    decreases |script|
  {
    if script != [] && GoesOn(script[0], empties, maxObserved, observed) {
      var rest := script[1..];
      var empties' := if script[0].data == [] then empties + 1 else 0;
      EndStandsFor(rest, empties', maxObserved, observed + |script[0].data|);
      PastFirst(script, empties, maxObserved, observed);
      ExplainedLater(script, empties, maxObserved, observed, StreamOf(rest, empties', maxObserved, observed + |script[0].data|));
    } else {
      EndsAtFirst(script, empties, maxObserved, observed);
    }
  }

  lemma ExplainedLater(script: seq<ReadEvent>, empties: nat, maxObserved: nat, observed: nat, s: Stream)
    requires script != [] && GoesOn(script[0], empties, maxObserved, observed)
    requires Explained(script[1..], if script[0].data == [] then empties + 1 else 0, maxObserved, observed + |script[0].data|, s)
    ensures Explained(script, empties, maxObserved, observed, Prepend(script[0].data, s))
  {
    var rest := script[1..];
    var empties', observed' := if script[0].data == [] then empties + 1 else 0, observed + |script[0].data|;
    var n: nat :| n <= |rest| && Explains(rest, n, empties', maxObserved, observed', s);
    ExplainsLater(script, n, empties, maxObserved, observed, s);
    assert n + 1 <= |script|;
  }

  lemma ExplainsLater(script: seq<ReadEvent>, n: nat, empties: nat, maxObserved: nat, observed: nat, s: Stream)
    requires script != [] && GoesOn(script[0], empties, maxObserved, observed)
    requires Explains(script[1..], n, if script[0].data == [] then empties + 1 else 0, maxObserved, observed + |script[0].data|, s)
    ensures Explains(script, n + 1, empties, maxObserved, observed, Prepend(script[0].data, s))
  {
    GoOnFirst(script, n, empties, maxObserved, observed);
    EndsLater(script, n, empties, maxObserved, observed, s);
  }

  lemma PastFirst(script: seq<ReadEvent>, empties: nat, maxObserved: nat, observed: nat)
    requires maxObserved > 0 ==> observed <= maxObserved
    requires script != [] && GoesOn(script[0], empties, maxObserved, observed)
    ensures var e := script[0];
            StreamOf(script, empties, maxObserved, observed) ==
            Prepend(e.data, StreamOf(script[1..], if e.data == [] then empties + 1 else 0, maxObserved, observed + |e.data|))
  {
    var e, rest := script[0], script[1..];
    OverfullIsRefused(maxObserved, observed, e.data);
    if e.data == [] {
      EmptyPlus(StreamOf(rest, empties + 1, maxObserved, observed).bytes);
    } else {
      Counted(rest, 0, maxObserved, observed, |e.data|);
    }
  }

  lemma EndsAtFirst(script: seq<ReadEvent>, empties: nat, maxObserved: nat, observed: nat)
    requires maxObserved > 0 ==> observed <= maxObserved
    requires script == [] || !GoesOn(script[0], empties, maxObserved, observed)
    ensures Explained(script, empties, maxObserved, observed, StreamOf(script, empties, maxObserved, observed))
  {
    var s := StreamOf(script, empties, maxObserved, observed);
    if script != [] {
      OverfullIsRefused(maxObserved, observed, script[0].data);
      assert Bytes(script[..0]) == [] && s.bytes[0..] == s.bytes;
    }
    assert Explains(script, 0, empties, maxObserved, observed, s);
  }

  /** Without a ceiling nothing is counted, and nothing depends on the count. */
  lemma {:induction false} Counted(script: seq<ReadEvent>, empties: nat, maxObserved: nat, observed: nat, n: nat)
    requires maxObserved > 0 ==> observed + n <= maxObserved
    ensures StreamOf(script, empties, maxObserved, observed + n) ==
            StreamOf(script, empties, maxObserved, Observe(maxObserved, observed, n))
    decreases |script|
  {
    if maxObserved == 0 && script != [] {
      Counted(script[1..], 0, maxObserved, observed, n);
      Counted(script[1..], empties + 1, maxObserved, observed, n);
    }
  }

  lemma GoOnFirst(script: seq<ReadEvent>, n: nat, empties: nat, maxObserved: nat, observed: nat)
    requires script != [] && n < |script| && GoesOn(script[0], empties, maxObserved, observed)
    requires AllGoOn(script[1..], n, if script[0].data == [] then empties + 1 else 0, maxObserved, observed + |script[0].data|)
    ensures AllGoOn(script, n + 1, empties, maxObserved, observed)
  {
    var rest := script[1..];
    var empties', observed' := if script[0].data == [] then empties + 1 else 0, observed + |script[0].data|;
    forall j | 0 <= j < n + 1
      ensures GoesOn(script[j], EmptiesBefore(script, j, empties), maxObserved, ObservedBefore(script, j, observed))
    {
      if j == 0 {
        assert script[..0] == [];
      } else {
        EmptiesLater(script, j, empties);
        ObservedLater(script, j, observed);
        assert GoesOn(rest[j - 1], EmptiesBefore(rest, j - 1, empties'), maxObserved, ObservedBefore(rest, j - 1, observed'));
      }
    }
  }

  lemma EndsLater(script: seq<ReadEvent>, n: nat, empties: nat, maxObserved: nat, observed: nat, s: Stream)
    requires script != [] && n < |script|
    requires EndsAt(script[1..], n, if script[0].data == [] then empties + 1 else 0, maxObserved, observed + |script[0].data|, s)
    ensures EndsAt(script, n + 1, empties, maxObserved, observed, Prepend(script[0].data, s))
  {
    var rest := script[1..];
    var empties', observed' := if script[0].data == [] then empties + 1 else 0, observed + |script[0].data|;
    EmptiesLater(script, n + 1, empties);
    ObservedLater(script, n + 1, observed);
    if n < |rest| {
      var before := Bytes(rest[..n]);
      var delivered := s.bytes[|before|..];
      assert s.bytes == before + delivered;
      Assoc(script[0].data, before, delivered);
      assert Prepend(script[0].data, s).bytes[|Bytes(script[..n + 1])|..] == delivered;
    }
  }
}
