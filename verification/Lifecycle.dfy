/** The lock-guarded lifecycle of one child process: who may probe, signal, clean up and reap it.

    Models processLifecycle of internal/agent/lifecycle.go. The operating system's answers are two
    functions from the attempt number, so a statement about all of them is about every behaviour of
    the probe and the signal. */
module Lifecycle {
  import opened Wrappers

  const MAX_TERMINATION_ATTEMPTS: nat := 3

  datatype Phase = Running | Reaping | Finished | Failed

  /** What one non-reaping exit probe answers. */
  datatype Probe = Probe(exited: bool, err: Option<string>)

  /** What one attempt to terminate the tree answers. */
  datatype Attempt = Attempt(alreadyExited: bool, cleanupErr: Option<string>, terminationErr: Option<string>)

  /** Joined errors are kept in order; an empty sequence is no error. */
  datatype Claim = Claim(claimed: bool, natural: bool, observationErrs: seq<string>, cleanupErrs: seq<string>,
                         terminationErr: Option<string>)

  const NOT_CLAIMED := Claim(false, false, [], [], None)

  function Join(errs: seq<string>, e: Option<string>): seq<string> {
    if e.Some? then errs + [e.value] else errs
  }

  function ObservationErrs(probes: nat -> Probe, n: nat): seq<string> {
    if n == 0 then [] else Join(ObservationErrs(probes, n - 1), probes(n - 1).err)
  }

  function CleanupErrs(attempts: nat -> Attempt, n: nat): seq<string> {
    if n == 0 then [] else Join(CleanupErrs(attempts, n - 1), attempts(n - 1).cleanupErr)
  }

  /** Every error of the first n probes is reported, in order and none besides; and likewise of signals. */
  lemma {:induction false} ErrorsAreKept(probes: nat -> Probe, attempts: nat -> Attempt, n: nat)
    ensures forall k: nat :: k < n && probes(k).err.Some? ==> probes(k).err.value in ObservationErrs(probes, n)
    ensures forall e :: e in ObservationErrs(probes, n) ==> exists k: nat :: k < n && probes(k).err == Some(e)
    ensures forall k: nat :: k < n && attempts(k).cleanupErr.Some? ==> attempts(k).cleanupErr.value in CleanupErrs(attempts, n)
    ensures forall e :: e in CleanupErrs(attempts, n) ==> exists k: nat :: k < n && attempts(k).cleanupErr == Some(e)
    ensures forall k: nat :: k <= n ==> ObservationErrs(probes, k) <= ObservationErrs(probes, n)
                                        && CleanupErrs(attempts, k) <= CleanupErrs(attempts, n)
  {
    if n > 0 { ErrorsAreKept(probes, attempts, n - 1); }
  }

  /** A probe that proves the exit; an exit reported together with an error does not. */
  predicate Exited(p: Probe) {
    p.exited && p.err.None?
  }

  /** Nothing before round n settled the matter: every probe and every signal was inconclusive. */
  predicate Unsettled(probes: nat -> Probe, attempts: nat -> Attempt, n: nat) {
    forall j: nat :: j < n ==> !Exited(probes(j)) && !attempts(j).alreadyExited && attempts(j).terminationErr.Some?
  }

  /** The answer that settles round n: probe n, then signal n. */
  predicate SettledByProbe(probes: nat -> Probe, attempts: nat -> Attempt, n: nat) {
    Unsettled(probes, attempts, n) && Exited(probes(n))
  }

  predicate SettledByFindingExit(probes: nat -> Probe, attempts: nat -> Attempt, n: nat) {
    Unsettled(probes, attempts, n) && !Exited(probes(n)) && attempts(n).alreadyExited
  }

  predicate SettledBySignal(probes: nat -> Probe, attempts: nat -> Attempt, n: nat) {
    Unsettled(probes, attempts, n) && !Exited(probes(n)) &&
    !attempts(n).alreadyExited && attempts(n).terminationErr.None?
  }

  predicate SettledByGivingUp(probes: nat -> Probe, attempts: nat -> Attempt) {
    Unsettled(probes, attempts, MAX_TERMINATION_ATTEMPTS) && !Exited(probes(MAX_TERMINATION_ATTEMPTS))
  }

  /** How the rounds of one termination claim came out, and how many raw operations they took. */
  predicate Settles(probes: nat -> Probe, attempts: nat -> Attempt, c: Claim, probed: nat, signalled: nat) {
    && signalled <= MAX_TERMINATION_ATTEMPTS
    && signalled <= probed <= signalled + 1
    && c.observationErrs == ObservationErrs(probes, probed)
    && c.cleanupErrs == CleanupErrs(attempts, signalled)
    && (if c.natural then
          !c.claimed && c.terminationErr.None? &&
          (if probed > signalled then SettledByProbe(probes, attempts, signalled)
           else signalled > 0 && SettledByFindingExit(probes, attempts, signalled - 1))
        else if c.claimed then
          probed == signalled > 0 && c.terminationErr.None? && SettledBySignal(probes, attempts, signalled - 1)
        else
          signalled == MAX_TERMINATION_ATTEMPTS && probed > signalled && SettledByGivingUp(probes, attempts) &&
          c.terminationErr == attempts(signalled - 1).terminationErr && c.terminationErr.Some?)
  }

  /** The phase a settled claim leaves behind. */
  function PhaseAfter(c: Claim): Phase {
    if c.natural then Running else if c.claimed then Reaping else Failed
  }

  class ProcessLifecycle {
    var phase: Phase
    var forced: bool
    var exitErr: Option<string>

    constructor ()
      ensures phase == Running && !forced && exitErr == None
    {
      phase, forced, exitErr := Running, false, None;
    }

    /** Outside Running no probe or signal is made and nothing changes. Inside, the first conclusive
        answer decides: an exit leaves the phase to the natural path, a delivered signal takes
        ownership of reaping, and three refusals without an exit fail the lifecycle. */
    method ClaimTermination(probes: nat -> Probe, attempts: nat -> Attempt)
      returns (c: Claim, probed: nat, signalled: nat)
      modifies this`phase, this`forced
      ensures old(phase) != Running ==>
                && c == Claim(false, false, [], [], None) && probed == signalled == 0
                && phase == old(phase) && forced == old(forced)
      ensures old(phase) == Running ==>
                && Settles(probes, attempts, c, probed, signalled)
                && phase == PhaseAfter(c)
                && forced == (old(forced) || c.claimed)
    {
      probed, signalled := 0, 0;
      if phase != Running {
        return NOT_CLAIMED, 0, 0;
      }
      var answer := probes(0);
      probed := 1;
      if Exited(answer) {
        return NOT_CLAIMED.(natural := true), probed, signalled;
      }
      var observationErrs := Join([], answer.err);
      var cleanupErrs: seq<string> := [];
      var terminationErr: Option<string> := None;
      while signalled < MAX_TERMINATION_ATTEMPTS
        invariant phase == Running && forced == old(forced)
        invariant signalled <= MAX_TERMINATION_ATTEMPTS && probed == signalled + 1
        invariant Unsettled(probes, attempts, signalled) && !Exited(probes(signalled))
        invariant observationErrs == ObservationErrs(probes, probed)
        invariant cleanupErrs == CleanupErrs(attempts, signalled)
        invariant signalled > 0 ==> terminationErr == attempts(signalled - 1).terminationErr
      {
        var outcome := attempts(signalled);
        signalled := signalled + 1;
        cleanupErrs := Join(cleanupErrs, outcome.cleanupErr);
        terminationErr := outcome.terminationErr;
        if outcome.alreadyExited {
          return Claim(false, true, observationErrs, cleanupErrs, None), probed, signalled;
        }
        if terminationErr.None? {
          forced := true;
          phase := Reaping;
          return Claim(true, false, observationErrs, cleanupErrs, None), probed, signalled;
        }
        answer := probes(probed);
        probed := probed + 1;
        observationErrs := Join(observationErrs, answer.err);
        if Exited(answer) {
          return Claim(false, true, observationErrs, cleanupErrs, None), probed, signalled;
        }
      }
      phase := Failed;
      return Claim(false, false, observationErrs, cleanupErrs, terminationErr), probed, signalled;
    }

    /** Takes ownership of reaping an exited child. A failed cleanup is reported, never withheld. */
    method ClaimNatural(cleanup: Option<string>) returns (claimed: bool, err: Option<string>)
      modifies this`phase
      ensures claimed <==> old(phase) == Running
      ensures phase == if old(phase) == Running then Reaping else old(phase)
      ensures err == if claimed then cleanup else None
    {
      if phase != Running {
        return false, None;
      }
      phase := Reaping;
      return true, cleanup;
    }

    /** Records what cmd.Wait returned, once. waitWasForced is the platform's reading of that status:
        a requested termination that lost to a normal exit is not a forced one. */
    method Finish(err: Option<string>, waitWasForced: bool)
      modifies this
      ensures old(phase) == Reaping ==>
                phase == Finished && exitErr == err && forced == (old(forced) && waitWasForced)
      ensures old(phase) != Reaping ==>
                phase == old(phase) && exitErr == old(exitErr) && forced == old(forced)
    {
      if phase != Reaping {
        return;
      }
      exitErr := err;
      forced := forced && waitWasForced;
      phase := Finished;
    }

    /** Only a naturally exited, reaped child has a status to report. */
    method ExitError() returns (r: Option<string>)
      ensures r.Some? <==> phase == Finished && !forced && exitErr.Some?
      ensures r.Some? ==> r == exitErr
    {
      if phase != Finished || forced {
        return None;
      }
      return exitErr;
    }
  }

  /** The answers determine the claim: the four outcomes exclude each other, round by round. */
  lemma ClaimIsDetermined(probes: nat -> Probe, attempts: nat -> Attempt,
                          c: Claim, probed: nat, signalled: nat, d: Claim, probed': nat, signalled': nat)
    requires Settles(probes, attempts, c, probed, signalled)
    requires Settles(probes, attempts, d, probed', signalled')
    ensures c == d && probed == probed' && signalled == signalled'
  {
    var k, k' := Round(c, probed, signalled), Round(d, probed', signalled');
    if k < k' {
      SettledOnce(probes, attempts, k, k');
    } else if k' < k {
      SettledOnce(probes, attempts, k', k);
    }
  }

  lemma SettledOnce(probes: nat -> Probe, attempts: nat -> Attempt, k: nat, n: nat)
    requires k < n
    requires Exited(probes(k)) || attempts(k).alreadyExited || attempts(k).terminationErr.None?
    ensures !Unsettled(probes, attempts, n)
  {}

  /** The round whose answer settled the claim. */
  function Round(c: Claim, probed: nat, signalled: nat): nat {
    if probed > signalled then signalled else if signalled > 0 then signalled - 1 else 0
  }
}
