/**
 The retry loop around a submission, over any sequence of replies of the chain.
 */
module Retry {

  const UINT32_RANGE := 0x1_0000_0000

  /** Reply to one submission of a finality signature. */
  datatype SubmitReply = Acknowledged | Unrecoverable | Expected | Transient

  /** What ends the pause after a transient failure. */
  datatype Pause = Elapsed(finalized: bool) | FinalityQueryFailed | Quit

  datatype Cycle = Cycle(submit: SubmitReply, pause: Pause)

  datatype RetryExit = Succeeded | NotNeeded | AlreadyFinalized | CriticalError | ShutDown | Retrying

  /** Where the k-th cycle of the retry loop leads; failures are counted in a uint32. */
  function CycleExit(c: Cycle, k: nat, maxRetries: nat): RetryExit {
    match c.submit
    case Acknowledged => Succeeded
    case Unrecoverable => CriticalError
    case Expected => NotNeeded
    case Transient =>
      if k % UINT32_RANGE > maxRetries then CriticalError
      else match c.pause
        case Elapsed(true) => AlreadyFinalized
        case Elapsed(false) => Retrying
        case FinalityQueryFailed => CriticalError
        case Quit => ShutDown
  }

  /** The loop made n submissions on the scripted replies: every one but the last led back to
      the loop head, and the last one led to the given exit. */
  ghost predicate RetryTrace(script: seq<Cycle>, maxRetries: nat, n: nat, exit: RetryExit) {
    && n <= |script|
    && (forall i :: 0 <= i < n - 1 ==> CycleExit(script[i], i + 1, maxRetries).Retrying?)
    && (if n == 0 then exit.Retrying? else exit == CycleExit(script[n - 1], n, maxRetries))
    && (exit.Retrying? ==> n == |script|)
  }

  /** At most MaxSubmissionRetries + 1 submissions are made, and at most one is acknowledged:
      the last one, exactly when the loop exits with success. */
  lemma RetryIsBounded(script: seq<Cycle>, maxRetries: nat, n: nat, exit: RetryExit)
    requires maxRetries < UINT32_RANGE - 1
    requires RetryTrace(script, maxRetries, n, exit)
    ensures n <= maxRetries + 1
    ensures forall i :: 0 <= i < n ==> (script[i].submit.Acknowledged? <==> i == n - 1 && exit.Succeeded?)
    ensures exit.Retrying? ==> |script| <= maxRetries
  {
    if n > maxRetries {
      var c := script[maxRetries];
      assert (maxRetries + 1) % UINT32_RANGE == maxRetries + 1;
      assert !CycleExit(c, maxRetries + 1, maxRetries).Retrying?;
    }
  }

  /** What each exit means in terms of the last reply: success is an acknowledgement, "not needed" an
      expected error, and a critical error an unrecoverable one, one failure too many, or a failed
      finality query; a transient failure within the limit leaves by what ends the pause. */
  lemma RetryExitMeans(script: seq<Cycle>, maxRetries: nat, n: nat, exit: RetryExit)
    requires maxRetries < UINT32_RANGE - 1 && 0 < n && RetryTrace(script, maxRetries, n, exit)
    ensures var c := script[n - 1];
            var failed := c.submit.Transient? && n <= maxRetries;
            && (exit.Succeeded? <==> c.submit.Acknowledged?)
            && (exit.NotNeeded? <==> c.submit.Expected?)
            && (exit.CriticalError? <==>
                  c.submit.Unrecoverable? || (c.submit.Transient? && (n > maxRetries || c.pause.FinalityQueryFailed?)))
            && (exit.AlreadyFinalized? <==> failed && c.pause == Elapsed(true))
            && (exit.ShutDown? <==> failed && c.pause.Quit?)
            && (exit.Retrying? <==> failed && c.pause == Elapsed(false))
  {
    RetryIsBounded(script, maxRetries, n, exit);
    assert n % UINT32_RANGE == n;
  }

  /** The scripted replies determine how often the loop submits and how it exits. */
  lemma RetryIsDetermined(script: seq<Cycle>, maxRetries: nat, n: nat, exit: RetryExit, n': nat, exit': RetryExit)
    requires RetryTrace(script, maxRetries, n, exit) && RetryTrace(script, maxRetries, n', exit')
    ensures n == n' && exit == exit'
  {
    NoLonger(script, maxRetries, n, exit, n', exit');
    NoLonger(script, maxRetries, n', exit', n, exit);
  }

  lemma NoLonger(script: seq<Cycle>, maxRetries: nat, n: nat, exit: RetryExit, n': nat, exit': RetryExit)
    requires RetryTrace(script, maxRetries, n, exit) && RetryTrace(script, maxRetries, n', exit')
    ensures n' <= n
  {
  }

  /** The bound is exact: the loop gives up on a chain that always fails transiently if and only
      if the retry limit is below the uint32 maximum, where the failure counter wraps unnoticed. */
  lemma GivesUpIffLimitBelowMaximum(maxRetries: nat)
    requires maxRetries < UINT32_RANGE
    ensures (exists k: nat :: k > 0 && CycleExit(Cycle(Transient, Elapsed(false)), k, maxRetries).CriticalError?)
            <==> maxRetries < UINT32_RANGE - 1
  {
    var c := Cycle(Transient, Elapsed(false));
    if maxRetries < UINT32_RANGE - 1 {
      assert (maxRetries + 1) % UINT32_RANGE == maxRetries + 1;
      assert CycleExit(c, maxRetries + 1, maxRetries).CriticalError?;
    } else {
      forall k: nat ensures !CycleExit(c, k, maxRetries).CriticalError? {
        assert k % UINT32_RANGE <= maxRetries;
      }
    }
  }
}
