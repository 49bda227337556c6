/**
  `send_message_retrying` of src/bot/remove_si.rs (and its copy in src/bot.rs):
  up to `RetryLimit` attempts to send the reply, retrying on network and I/O
  errors, sleeping for the requested delay on `RetryAfter`, and giving up at
  once on any other error. The outcome of each attempt comes from the
  platform; the model takes the outcomes as a parameter, attempt by attempt,
  and records the sleeps instead of performing them.
*/
module Send {
  import opened Wrappers

  /** The request errors the loop tells apart; `Other` stands for every further kind. */
  datatype RequestError =
    | Network(cause: nat)
    | Io(cause: nat)
    | RetryAfter(secs: nat)
    | Other(cause: nat)

  /** What one call to `send_message` returned. */
  datatype SendOutcome = Sent | Failed(error: RequestError)

  /** The result of the loop, the number of attempts it made and the delays it slept for. */
  datatype SendRun = SendRun(result: Result<(), RequestError>, attempts: nat, sleeps: seq<nat>)

  type Outcomes = nat -> SendOutcome

  const RetryLimit: nat := 20

  /** A failure after which the loop tries again. */
  predicate Retryable(o: SendOutcome) {
    o.Failed? && !o.error.Other?
  }

  /** The sleep one attempt causes: its delay for `RetryAfter`, none otherwise. */
  function SleepOf(o: SendOutcome): (r: seq<nat>)
    ensures |r| <= 1
    ensures r != [] <==> o.Failed? && o.error.RetryAfter?
    ensures r != [] ==> r[0] == o.error.secs
  {
    if o.Failed? && o.error.RetryAfter? then [o.error.secs] else []
  }

  /** The delays of attempts `i` up to (not including) `n`, in order. */
  function Delays(outcomes: Outcomes, i: nat, n: nat): seq<nat>
    decreases n - i
  {
    if n <= i then [] else SleepOf(outcomes(i)) + Delays(outcomes, i + 1, n)
  }

  /** `last_err.map(Err).unwrap_or(Ok(()))`. */
  function Finish(lastErr: Option<RequestError>): (r: Result<(), RequestError>)
    ensures r.Ok? <==> lastErr.None?
    ensures lastErr.Some? ==> r == Err(lastErr.value)
  {
    match lastErr
    case None => Ok(())
    case Some(e) => Err(e)
  }

  /**
    The loop as written, from attempt `i` on, with the error of the last
    failed attempt and the sleeps so far. A success leaves the loop with
    `last_err` still set by the attempt before it.
  */
  function RetryFrom(outcomes: Outcomes, i: nat, lastErr: Option<RequestError>, sleeps: seq<nat>): SendRun
    requires i <= RetryLimit
    decreases RetryLimit - i
  {
    if i == RetryLimit then SendRun(Finish(lastErr), i, sleeps)
    else
      match outcomes(i)
      case Sent => SendRun(Finish(lastErr), i + 1, sleeps)
      case Failed(e) =>
        if e.Other? then SendRun(Err(e), i + 1, sleeps)
        else RetryFrom(outcomes, i + 1, Some(e), sleeps + SleepOf(outcomes(i)))
  }

  /** The whole loop as written: no attempt made yet, no error, no sleep. */
  function Retrying(outcomes: Outcomes): SendRun {
    RetryFrom(outcomes, 0, None, [])
  }

  /** `send_message_retrying` as written. */
  method SendMessageRetrying(outcomes: Outcomes) returns (result: Result<(), RequestError>, attempts: nat, sleeps: seq<nat>)
    ensures SendRun(result, attempts, sleeps) == Retrying(outcomes)
  {
    var lastErr: Option<RequestError> := None;
    attempts := 0;
    sleeps := [];
    for i := 0 to RetryLimit
      invariant attempts == i
      invariant RetryFrom(outcomes, i, lastErr, sleeps) == Retrying(outcomes)
    {
      var outcome := outcomes(i);
      attempts := attempts + 1;
      match outcome {
        case Sent =>
          break;
        case Failed(e) =>
          if e.Other? {
            result := Err(e);
            return;
          }
          if e.RetryAfter? {
            sleeps := sleeps + [e.secs];
          } else {
            assert sleeps + SleepOf(outcome) == sleeps;
          }
          lastErr := Some(e);
      }
    }
    result := Finish(lastErr);
  }

  /** The loop makes at least one attempt and never more than `RetryLimit`. */
  lemma {:induction false} RetryFromAttempts(outcomes: Outcomes, i: nat, lastErr: Option<RequestError>, sleeps: seq<nat>)
    requires i < RetryLimit
    ensures i < RetryFrom(outcomes, i, lastErr, sleeps).attempts <= RetryLimit
    decreases RetryLimit - i
  {
    if outcomes(i).Failed? && !outcomes(i).error.Other? && i + 1 < RetryLimit {
      RetryFromAttempts(outcomes, i + 1, Some(outcomes(i).error), sleeps + SleepOf(outcomes(i)));
    }
  }

  lemma AttemptsBounded(outcomes: Outcomes)
    ensures 1 <= Retrying(outcomes).attempts <= RetryLimit
  {
    RetryFromAttempts(outcomes, 0, None, []);
  }

  /** The sleeps are exactly the `RetryAfter` delays of the attempts made, in order. */
  lemma {:induction false} RetryFromSleeps(outcomes: Outcomes, i: nat, lastErr: Option<RequestError>, sleeps: seq<nat>)
    requires i <= RetryLimit
    ensures i <= RetryFrom(outcomes, i, lastErr, sleeps).attempts
    ensures RetryFrom(outcomes, i, lastErr, sleeps).sleeps
         == sleeps + Delays(outcomes, i, RetryFrom(outcomes, i, lastErr, sleeps).attempts)
    decreases RetryLimit - i
  {
    var run := RetryFrom(outcomes, i, lastErr, sleeps);
    if i == RetryLimit {
      assert sleeps + [] == sleeps;
    } else if Retryable(outcomes(i)) {
      var s := SleepOf(outcomes(i));
      RetryFromSleeps(outcomes, i + 1, Some(outcomes(i).error), sleeps + s);
      assert (sleeps + s) + Delays(outcomes, i + 1, run.attempts) == sleeps + (s + Delays(outcomes, i + 1, run.attempts));
    } else {
      assert Delays(outcomes, i + 1, i + 1) == [];
      assert SleepOf(outcomes(i)) == [];
      assert sleeps + [] == sleeps;
    }
  }

  lemma SleepsAreDelays(outcomes: Outcomes)
    ensures Retrying(outcomes).sleeps == Delays(outcomes, 0, Retrying(outcomes).attempts)
  {
    RetryFromSleeps(outcomes, 0, None, []);
    assert [] + Delays(outcomes, 0, Retrying(outcomes).attempts) == Delays(outcomes, 0, Retrying(outcomes).attempts);
  }

  /** Once an attempt has failed, the loop as written can no longer report success. */
  lemma {:induction false} FailedOnceNeverOk(outcomes: Outcomes, i: nat, e: RequestError, sleeps: seq<nat>)
    requires i <= RetryLimit
    ensures RetryFrom(outcomes, i, Some(e), sleeps).result.Err?
    decreases RetryLimit - i
  {
    if i < RetryLimit && Retryable(outcomes(i)) {
      FailedOnceNeverOk(outcomes, i + 1, outcomes(i).error, sleeps + SleepOf(outcomes(i)));
    }
  }

  /** As written, the loop reports success exactly when the first attempt succeeds. */
  lemma OkIffFirstAttemptSucceeds(outcomes: Outcomes)
    ensures Retrying(outcomes).result.Ok? <==> outcomes(0) == Sent
  {
    if Retryable(outcomes(0)) {
      FailedOnceNeverOk(outcomes, 1, outcomes(0).error, [] + SleepOf(outcomes(0)));
    }
  }

  /** A run of retryable failures from `i` up to `k` carries the loop, unchanged in kind, to attempt `k`. */
  lemma {:induction false} SkipRetryable(outcomes: Outcomes, i: nat, k: nat, lastErr: Option<RequestError>, sleeps: seq<nat>)
    requires 0 < i <= k <= RetryLimit
    requires outcomes(i - 1).Failed? && lastErr == Some(outcomes(i - 1).error)
    requires forall j :: i <= j < k ==> Retryable(outcomes(j))
    ensures outcomes(k - 1).Failed?
    ensures RetryFrom(outcomes, i, lastErr, sleeps)
         == RetryFrom(outcomes, k, Some(outcomes(k - 1).error), sleeps + Delays(outcomes, i, k))
    decreases k - i
  {
    if i == k {
      assert sleeps + [] == sleeps;
    } else {
      var s := SleepOf(outcomes(i));
      SkipRetryable(outcomes, i + 1, k, Some(outcomes(i).error), sleeps + s);
      assert (sleeps + s) + Delays(outcomes, i + 1, k) == sleeps + (s + Delays(outcomes, i + 1, k));
    }
  }

  /** The state of the loop as written after `k >= 1` retryable failures in a row. */
  lemma AfterRetryableFailures(outcomes: Outcomes, k: nat)
    requires 0 < k <= RetryLimit
    requires forall j :: 0 <= j < k ==> Retryable(outcomes(j))
    ensures outcomes(k - 1).Failed?
    ensures Retrying(outcomes) == RetryFrom(outcomes, k, Some(outcomes(k - 1).error), Delays(outcomes, 0, k))
  {
    assert Retryable(outcomes(0));
    var s := SleepOf(outcomes(0));
    FirstAttemptRetryable(outcomes);
    SkipRetryable(outcomes, 1, k, Some(outcomes(0).error), s);
    assert Delays(outcomes, 0, k) == s + Delays(outcomes, 1, k);
  }

  lemma FirstAttemptRetryable(outcomes: Outcomes)
    requires Retryable(outcomes(0))
    ensures Retrying(outcomes) == RetryFrom(outcomes, 1, Some(outcomes(0).error), SleepOf(outcomes(0)))
  {
    assert [] + SleepOf(outcomes(0)) == SleepOf(outcomes(0));
  }

  /** A first attempt that succeeds gives `Ok` after one attempt and no sleep. */
  lemma FirstAttemptSent(outcomes: Outcomes)
    requires outcomes(0) == Sent
    ensures Retrying(outcomes) == SendRun(Ok(()), 1, [])
  {
  }

  /** A non-retryable error ends the loop at once with that error. */
  lemma StopsOnOther(outcomes: Outcomes, k: nat)
    requires k < RetryLimit
    requires forall j :: 0 <= j < k ==> Retryable(outcomes(j))
    requires outcomes(k).Failed? && outcomes(k).error.Other?
    ensures Retrying(outcomes).result == Err(outcomes(k).error)
    ensures Retrying(outcomes).attempts == k + 1
  {
    if k > 0 {
      AfterRetryableFailures(outcomes, k);
    }
  }

  /** `RetryLimit` retryable failures give the error of the last attempt. */
  lemma AllAttemptsFailGiveLastError(outcomes: Outcomes)
    requires forall j :: 0 <= j < RetryLimit ==> Retryable(outcomes(j))
    ensures outcomes(RetryLimit - 1).Failed? && Retrying(outcomes).result == Err(outcomes(RetryLimit - 1).error)
    ensures Retrying(outcomes).attempts == RetryLimit
  {
    AfterRetryableFailures(outcomes, RetryLimit);
  }

  /**
    The defect of the loop as written: a success that follows retryable
    failures stops the loop, yet the error of the attempt before it is returned.
  */
  lemma LateSuccessReturnsPreviousError(outcomes: Outcomes, k: nat)
    requires 0 < k < RetryLimit
    requires forall j :: 0 <= j < k ==> Retryable(outcomes(j))
    requires outcomes(k) == Sent
    ensures outcomes(k - 1).Failed? && Retrying(outcomes).result == Err(outcomes(k - 1).error)
    ensures Retrying(outcomes).attempts == k + 1
  {
    AfterRetryableFailures(outcomes, k);
  }

  /** A network error, then a success: the message went out, but the call reports the network error. */
  lemma NetworkErrorThenSuccess()
    ensures Retrying(j => if j == 0 then Failed(Network(7)) else Sent) == SendRun(Err(Network(7)), 2, [])
  {
    var outcomes: Outcomes := j => if j == 0 then Failed(Network(7)) else Sent;
    assert Retryable(outcomes(0)) && outcomes(1) == Sent;
    assert Retrying(outcomes) == RetryFrom(outcomes, 1, Some(Network(7)), []);
  }

  /**
    The evidently intended loop: identical, except that a success returns
    `Ok` whatever failed before it.
  */
  function CorrectedRetryFrom(outcomes: Outcomes, i: nat, lastErr: Option<RequestError>, sleeps: seq<nat>): SendRun
    requires i <= RetryLimit
    decreases RetryLimit - i
  {
    if i == RetryLimit then SendRun(Finish(lastErr), i, sleeps)
    else
      match outcomes(i)
      case Sent => SendRun(Ok(()), i + 1, sleeps)
      case Failed(e) =>
        if e.Other? then SendRun(Err(e), i + 1, sleeps)
        else CorrectedRetryFrom(outcomes, i + 1, Some(e), sleeps + SleepOf(outcomes(i)))
  }

  function CorrectedRetrying(outcomes: Outcomes): SendRun {
    CorrectedRetryFrom(outcomes, 0, None, [])
  }

  /** The corrected loop: `send_message_retrying` with `last_err` cleared on success. */
  method SendMessageRetryingCorrected(outcomes: Outcomes) returns (result: Result<(), RequestError>, attempts: nat, sleeps: seq<nat>)
    ensures SendRun(result, attempts, sleeps) == CorrectedRetrying(outcomes)
  {
    var lastErr: Option<RequestError> := None;
    attempts := 0;
    sleeps := [];
    for i := 0 to RetryLimit
      invariant attempts == i
      invariant CorrectedRetryFrom(outcomes, i, lastErr, sleeps) == CorrectedRetrying(outcomes)
    {
      var outcome := outcomes(i);
      attempts := attempts + 1;
      match outcome {
        case Sent =>
          lastErr := None;
          break;
        case Failed(e) =>
          if e.Other? {
            result := Err(e);
            return;
          }
          if e.RetryAfter? {
            sleeps := sleeps + [e.secs];
          } else {
            assert sleeps + SleepOf(outcome) == sleeps;
          }
          lastErr := Some(e);
      }
    }
    result := Finish(lastErr);
  }

  /**
    The corrected loop makes the same attempts and sleeps as the loop as
    written; it differs only in reporting `Ok` when its last attempt succeeded.
  */
  lemma {:induction false} CorrectedFromAgrees(outcomes: Outcomes, i: nat, lastErr: Option<RequestError>, sleeps: seq<nat>)
    requires i <= RetryLimit
    ensures var run := RetryFrom(outcomes, i, lastErr, sleeps);
            (i <= run.attempts &&
             CorrectedRetryFrom(outcomes, i, lastErr, sleeps)
             == run.(result := if i < run.attempts && outcomes(run.attempts - 1) == Sent then Ok(()) else run.result))
    decreases RetryLimit - i
  {
    if i < RetryLimit && Retryable(outcomes(i)) {
      CorrectedFromAgrees(outcomes, i + 1, Some(outcomes(i).error), sleeps + SleepOf(outcomes(i)));
    }
  }

  lemma CorrectedAgrees(outcomes: Outcomes)
    ensures var run := Retrying(outcomes);
            (1 <= run.attempts &&
             CorrectedRetrying(outcomes)
             == run.(result := if outcomes(run.attempts - 1) == Sent then Ok(()) else run.result))
  {
    CorrectedFromAgrees(outcomes, 0, None, []);
    AttemptsBounded(outcomes);
  }

  /** The intended property: the corrected loop reports `Ok` exactly when some attempt succeeded. */
  lemma {:induction false} CorrectedOkIffSent(outcomes: Outcomes)
    ensures var run := CorrectedRetrying(outcomes);
            (1 <= run.attempts && (run.result.Ok? <==> outcomes(run.attempts - 1) == Sent))
  {
    CorrectedAgrees(outcomes);
    AttemptsBounded(outcomes);
    var run := Retrying(outcomes);
    if outcomes(run.attempts - 1) != Sent {
      CorrectedFromAgrees(outcomes, 0, None, []);
      LastAttemptDecides(outcomes, 0, None, []);
    }
  }

  /** As written, a run whose last attempt did not succeed reports its error. */
  lemma {:induction false} LastAttemptDecides(outcomes: Outcomes, i: nat, lastErr: Option<RequestError>, sleeps: seq<nat>)
    requires i < RetryLimit
    requires lastErr.None? <==> i == 0
    ensures var run := RetryFrom(outcomes, i, lastErr, sleeps);
            (i < run.attempts && (outcomes(run.attempts - 1) != Sent ==> run.result.Err?))
    decreases RetryLimit - i
  {
    if Retryable(outcomes(i)) {
      if i + 1 < RetryLimit {
        LastAttemptDecides(outcomes, i + 1, Some(outcomes(i).error), sleeps + SleepOf(outcomes(i)));
      }
    }
  }

  /** A success after retryable failures gives `Ok` in the corrected loop. */
  lemma CorrectedLateSuccessIsOk(outcomes: Outcomes, k: nat)
    requires k < RetryLimit
    requires forall j :: 0 <= j < k ==> Retryable(outcomes(j))
    requires outcomes(k) == Sent
    ensures CorrectedRetrying(outcomes) == SendRun(Ok(()), k + 1, Delays(outcomes, 0, k))
  {
    CorrectedAgrees(outcomes);
    SleepsAreDelays(outcomes);
    if k > 0 {
      LateSuccessReturnsPreviousError(outcomes, k);
    }
    assert Delays(outcomes, k, k + 1) == [] by {
      assert Delays(outcomes, k + 1, k + 1) == [];
    }
    DelaysSplit(outcomes, 0, k, k + 1);
  }

  lemma {:induction false} DelaysSplit(outcomes: Outcomes, i: nat, k: nat, n: nat)
    requires i <= k <= n
    ensures Delays(outcomes, i, n) == Delays(outcomes, i, k) + Delays(outcomes, k, n)
    decreases k - i
  {
    if i == k {
      assert [] + Delays(outcomes, k, n) == Delays(outcomes, k, n);
    } else {
      DelaysSplit(outcomes, i + 1, k, n);
      assert SleepOf(outcomes(i)) + (Delays(outcomes, i + 1, k) + Delays(outcomes, k, n))
          == (SleepOf(outcomes(i)) + Delays(outcomes, i + 1, k)) + Delays(outcomes, k, n);
    }
  }
}
