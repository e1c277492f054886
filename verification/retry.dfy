/** `fetchRetry` of frontend/src/lib/api.ts as a recursion over the outcomes of
    successive fetch attempts. `attempts(i)` is what the i-th call (0-based)
    would yield; the waits are returned as a list instead of being slept. */
module Retry {
  import opened Text

  const DefaultRetries: int := 3
  const DefaultDelayMs: int := 2000
  const Unavailable: int := 503

  /** One fetch call: a response with its status, or a thrown network error. */
  datatype Outcome = Response(status: int) | NetworkError

  /** What the returned promise settles to. */
  datatype Settled = Returned(status: int) | Threw(message: string)

  /** The result, the number of fetch calls made and the waits between them. */
  datatype Run = Run(result: Settled, calls: nat, delays: seq<int>)

  function NetworkMessage(retries: nat, input: string): string {
    "Network error after " + NatToString(retries) + " retries: " + input
  }

  const ExhaustedMessage: string := "fetchRetry exhausted"

  /** An outcome the loop retries when attempts remain. */
  predicate Retried(o: Outcome) {
    o == NetworkError || o == Response(Unavailable)
  }

  /** The loop from iteration `i` on. */
  function Loop(input: string, retries: int, delayMs: int, attempts: nat -> Outcome, i: nat): (r: Run)
    ensures i >= retries ==> r == Run(Threw(ExhaustedMessage), 0, [])
    ensures i < retries ==> 1 <= r.calls <= retries - i
    ensures |r.delays| == if r.calls == 0 then 0 else r.calls - 1
    ensures forall k :: 0 <= k < |r.delays| ==> r.delays[k] == delayMs * (i + k + 1)
    ensures r.result.Returned? ==> r.calls >= 1 && attempts(i + r.calls - 1) == Response(r.result.status)
    ensures forall j :: i <= j < i + r.calls - 1 ==> Retried(attempts(j))
    ensures i < retries && r.result.Threw? ==> i + r.calls == retries && attempts(retries - 1) == NetworkError
    ensures r.result == Returned(Unavailable) ==> i + r.calls == retries
    decreases retries - i
  {
    if i >= retries then Run(Threw(ExhaustedMessage), 0, [])
    else
      match attempts(i)
      case Response(status) =>
        if status == Unavailable && i < retries - 1 then
          var rest := Loop(input, retries, delayMs, attempts, i + 1);
          Run(rest.result, rest.calls + 1, [delayMs * (i + 1)] + rest.delays)
        else Run(Returned(status), 1, [])
      case NetworkError =>
        if i >= retries - 1 then Run(Threw(NetworkMessage(retries, input)), 1, [])
        else
          var rest := Loop(input, retries, delayMs, attempts, i + 1);
          Run(rest.result, rest.calls + 1, [delayMs * (i + 1)] + rest.delays)
  }

  /** `fetchRetry(input, init, retries, delayMs)`. */
  function FetchRetry(input: string, retries: int, delayMs: int, attempts: nat -> Outcome): (r: Run)
    ensures retries <= 0 ==> r == Run(Threw(ExhaustedMessage), 0, [])
    ensures 0 < retries ==> 1 <= r.calls <= retries
    ensures |r.delays| == if r.calls == 0 then 0 else r.calls - 1
    ensures forall k :: 0 <= k < |r.delays| ==> r.delays[k] == delayMs * (k + 1)
    ensures r.result.Returned? ==> attempts(r.calls - 1) == Response(r.result.status)
    ensures forall j :: 0 <= j < r.calls - 1 ==> Retried(attempts(j))
    ensures 0 < retries && r.result.Threw? ==>
      && r.result == Threw(NetworkMessage(retries, input))
      && r.calls == retries && attempts(retries - 1) == NetworkError
    ensures r.result == Returned(Unavailable) ==> r.calls == retries
  {
    if 0 < retries then NeverExhausted(input, retries, delayMs, attempts, 0); Loop(input, retries, delayMs, attempts, 0)
    else Loop(input, retries, delayMs, attempts, 0)
  }

  /** With no retries there is no call, and the loop's exit throws. */
  lemma NoRetries(input: string, retries: int, delayMs: int, attempts: nat -> Outcome)
    requires retries <= 0
    ensures FetchRetry(input, retries, delayMs, attempts) == Run(Threw(ExhaustedMessage), 0, [])
  {}

  /** A response other than 503 is returned on the attempt it arrives, after
      `k` calls that all failed or answered 503. */
  lemma {:induction false} FirstAnswerReturned(input: string, retries: int, delayMs: int,
                                               attempts: nat -> Outcome, i: nat, k: nat)
    requires i + k < retries
    requires attempts(i + k).Response? && attempts(i + k).status != Unavailable
    requires forall j :: i <= j < i + k ==> Retried(attempts(j))
    ensures Loop(input, retries, delayMs, attempts, i).result == Returned(attempts(i + k).status)
    ensures Loop(input, retries, delayMs, attempts, i).calls == k + 1
    decreases k
  {
    if k > 0 {
      FirstAnswerReturned(input, retries, delayMs, attempts, i + 1, k - 1);
    }
  }

  /** How the last attempt settles the promise: its response is returned even
      when it is a 503, and a network error throws the message naming the retry
      count and the input. */
  function LastSettled(retries: nat, input: string, last: Outcome): (s: Settled)
    ensures last.Response? ==> s == Returned(last.status)
    ensures last == NetworkError ==> s == Threw(NetworkMessage(retries, input))
  {
    match last
    case Response(status) => Returned(status)
    case NetworkError => Threw(NetworkMessage(retries, input))
  }

  /** A run from iteration `i` whose attempts before the last one all fail or
      answer 503 makes every remaining call, and the last attempt settles it. */
  lemma {:induction false} ReachesLastAttempt(input: string, retries: int, delayMs: int,
                                              attempts: nat -> Outcome, i: nat)
    requires i < retries
    requires forall j :: i <= j < retries - 1 ==> Retried(attempts(j))
    ensures var r := Loop(input, retries, delayMs, attempts, i);
      r.calls == retries - i && r.result == LastSettled(retries, input, attempts(retries - 1))
    decreases retries - i
  {
    if i < retries - 1 {
      ReachesLastAttempt(input, retries, delayMs, attempts, i + 1);
    }
  }

  /** The whole run when every attempt but the last fails or answers 503:
      `retries` calls, the waits `delayMs`, `2 * delayMs`, ..., and the last
      attempt's outcome. */
  lemma LastAttempt(input: string, retries: int, delayMs: int, attempts: nat -> Outcome)
    requires retries >= 1
    requires forall j :: 0 <= j < retries - 1 ==> Retried(attempts(j))
    ensures FetchRetry(input, retries, delayMs, attempts)
      == Run(LastSettled(retries, input, attempts(retries - 1)), retries,
             seq(retries - 1, (k: int) => delayMs * (k + 1)))
  {
    ReachesLastAttempt(input, retries, delayMs, attempts, 0);
  }

  /** Three 503 answers with the default retry count: the third is returned
      after waits of `d` and `2 * d`. */
  lemma ThreeUnavailable(input: string, d: int, attempts: nat -> Outcome)
    requires attempts(0) == Response(Unavailable) && attempts(1) == Response(Unavailable)
    requires attempts(2) == Response(Unavailable)
    ensures FetchRetry(input, DefaultRetries, d, attempts) == Run(Returned(Unavailable), 3, [d, 2 * d])
  {
    LastAttempt(input, DefaultRetries, d, attempts);
    assert seq(2, (k: int) => d * (k + 1)) == [d, 2 * d];
  }

  /** Only network errors: every allowed call is made, then the promise throws. */
  lemma AllNetworkErrors(input: string, retries: int, delayMs: int, attempts: nat -> Outcome)
    requires retries >= 1
    requires forall j :: 0 <= j < retries ==> attempts(j) == NetworkError
    ensures var r := FetchRetry(input, retries, delayMs, attempts);
      r.result == Threw(NetworkMessage(retries, input)) && r.calls == retries && |r.delays| == retries - 1
  {
    LastAttempt(input, retries, delayMs, attempts);
  }

  /** When at least one call is allowed the loop never falls through to its
      exit: the promise settles with a response or the network message. */
  lemma {:induction false} NeverExhausted(input: string, retries: int, delayMs: int,
                                          attempts: nat -> Outcome, i: nat)
    requires i < retries
    ensures var r := Loop(input, retries, delayMs, attempts, i);
      r.result.Returned? || r.result == Threw(NetworkMessage(retries, input))
    decreases retries - i
  {
    if i < retries - 1 {
      NeverExhausted(input, retries, delayMs, attempts, i + 1);
    }
  }
}
