/**
 * `blockingWait`: polls a Deployment Manager operation until it is DONE, under
 * `backoff.Retry` with an exponential back-off. Each observation of the
 * provider is an input; the finite list of observations stands for the
 * attempts the back-off allows before it gives up.
 */
module Poller {
  import opened Util

  /** The fields of `deploymentmanager.Operation` that `blockingWait` reads. */
  datatype Operation = Operation(name: string, status: string, httpErrorStatusCode: int, httpErrorMessage: string)

  /** One answer to `Operations.Get(project, name)`. */
  datatype Observation = PollFailed(reason: string) | Polled(op: Operation)

  /** What the retried closure returns for one observation. */
  datatype Step =
    | Retry(next: string)               // a plain error: poll again, with this operation name
    | Succeeded                         // nil
    | Failed(code: int, message: string) // backoff.Permanent: stop with an error

  /** How `blockingWait` ends. */
  datatype WaitOutcome =
    | Done
    | PermanentError(code: int, message: string)
    | GaveUp(lastName: string)          // back-off exhausted; the last retryable error is returned

  /** The operation has reached DONE (with or without an error code). */
  predicate Terminal(obs: Observation)
  {
    obs.Polled? && obs.op.status == "DONE"
  }

  /** The name the next poll uses: the latest one the provider returned. */
  function NextName(name: string, obs: Observation): string
  {
    if obs.PollFailed? then name else obs.op.name
  }

  /** The body of the closure passed to `backoff.Retry`. */
  function PollStep(name: string, obs: Observation): (s: Step)
    ensures s.Retry? <==> !Terminal(obs)
    ensures s.Retry? ==> s.next == NextName(name, obs)
    ensures s.Failed? <==> Terminal(obs) && obs.op.httpErrorStatusCode > 0
    ensures s.Failed? ==> s.code == obs.op.httpErrorStatusCode && s.code > 0
  {
    match obs
    case PollFailed(_) => Retry(name)
    case Polled(op) =>
      if op.status == "DONE" then
        if op.httpErrorStatusCode > 0 then Failed(op.httpErrorStatusCode, op.httpErrorMessage)
        else Succeeded
      else Retry(op.name)
  }

  /** The outcome of polling `name` against the observations `polls`. */
  function Wait(name: string, polls: seq<Observation>): WaitOutcome
    decreases |polls|
  {
    if polls == [] then GaveUp(name)
    else match PollStep(name, polls[0])
      case Retry(next) => Wait(next, polls[1..])
      case Succeeded => Done
      case Failed(code, message) => PermanentError(code, message)
  }

  /** The operation names that successive polls query. */
  function Queried(name: string, polls: seq<Observation>): seq<string>
    decreases |polls|
  {
    if polls == [] then []
    else [name] + match PollStep(name, polls[0])
      case Retry(next) => Queried(next, polls[1..])
      case _ => []
  }

  /** The loop that `backoff.Retry` runs, with the mutable `name` of the closure. */
  method BlockingWait(opName: string, polls: seq<Observation>) returns (outcome: WaitOutcome, queried: seq<string>)
    ensures outcome == Wait(opName, polls)
    ensures queried == Queried(opName, polls)
  {
    var name := opName;
    queried := [];
    var i := 0;
    while i < |polls|
      invariant 0 <= i <= |polls|
      invariant Wait(opName, polls) == Wait(name, polls[i..])
      invariant Queried(opName, polls) == queried + Queried(name, polls[i..])
    {
      ghost var rest := polls[i..];
      assert rest[0] == polls[i] && rest[1..] == polls[i + 1..];
      queried := queried + [name];
      var step := PollStep(name, polls[i]);
      if step.Succeeded? {
        assert Wait(name, rest) == Done && Queried(name, rest) == [name];
        return Done, queried;
      } else if step.Failed? {
        assert Wait(name, rest) == PermanentError(step.code, step.message) && Queried(name, rest) == [name];
        return PermanentError(step.code, step.message), queried;
      }
      assert Wait(name, rest) == Wait(step.next, polls[i + 1..]);
      assert Queried(name, rest) == [name] + Queried(step.next, polls[i + 1..]);
      name := step.next;
      i := i + 1;
    }
    outcome := GaveUp(name);
  }

  /** Index of the first observation that reports DONE. */
  function FirstTerminal(polls: seq<Observation>): (k: Option<nat>)
    ensures k.Some? ==> k.value < |polls| && Terminal(polls[k.value]) &&
                        forall j :: 0 <= j < k.value ==> !Terminal(polls[j])
    ensures k.None? ==> forall j :: 0 <= j < |polls| ==> !Terminal(polls[j])
  {
    if polls == [] then None
    else if Terminal(polls[0]) then Some(0)
    else match FirstTerminal(polls[1..])
      case None => None
      case Some(k) => Some(k + 1)
  }


  /**
   * The outcome is decided by the first DONE observation alone: an error code
   * greater than zero is a permanent failure, anything else is success, and
   * without a DONE observation the back-off gives up. Polling stops right after
   * the first DONE observation.
   */
  lemma {:induction false} WaitDecidedByFirstDone(name: string, polls: seq<Observation>)
    ensures match FirstTerminal(polls)
      case None => Wait(name, polls).GaveUp? && |Queried(name, polls)| == |polls|
      case Some(k) =>
        |Queried(name, polls)| == k + 1 &&
        Wait(name, polls) ==
          if polls[k].op.httpErrorStatusCode > 0
          then PermanentError(polls[k].op.httpErrorStatusCode, polls[k].op.httpErrorMessage)
          else Done
    decreases |polls|
  {
    if polls != [] && !Terminal(polls[0]) {
      WaitDecidedByFirstDone(NextName(name, polls[0]), polls[1..]);
      match FirstTerminal(polls[1..])
      case None =>
      case Some(k) => assert polls[1..][k] == polls[k + 1];
    }
  }

  /** Success exactly when some observation is DONE without an error code and none before it is DONE. */
  lemma WaitDoneIff(name: string, polls: seq<Observation>)
    ensures Wait(name, polls) == Done <==>
            exists k :: 0 <= k < |polls| && Terminal(polls[k]) && polls[k].op.httpErrorStatusCode <= 0 &&
                        forall j :: 0 <= j < k ==> !Terminal(polls[j])
  {
    WaitDecidedByFirstDone(name, polls);
    match FirstTerminal(polls)
    case None =>
    case Some(k) =>
      forall k' | 0 <= k' < |polls| && Terminal(polls[k']) && forall j :: 0 <= j < k' ==> !Terminal(polls[j])
        ensures k' == k
      {
      }
  }

  /**
   * The first poll uses the name the caller started with; every later poll uses
   * the name of the operation last returned, or the same name after a failed poll.
   */
  lemma {:induction false} QueriedTracksLatestName(name: string, polls: seq<Observation>, k: nat)
    requires k + 1 < |Queried(name, polls)|
    ensures Queried(name, polls)[0] == name
    ensures k < |polls| && Queried(name, polls)[k + 1] == NextName(Queried(name, polls)[k], polls[k])
    decreases |polls|
  {
    var next := NextName(name, polls[0]);
    assert PollStep(name, polls[0]) == Retry(next);
    if k > 0 {
      QueriedTracksLatestName(next, polls[1..], k - 1);
    } else {
      assert |Queried(next, polls[1..])| > 0;
    }
  }
}
