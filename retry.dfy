/**
 * `executeWithRetry`: connect, send and disconnect, up to `retries` times. The
 * transport is abstract: `send(command, k)` is what the k-th round gives back. The
 * one-second pause between rounds and the console notice are not modelled.
 */
module Retry {

  /** One connect-send-disconnect round: the server's reply, or the error it threw. */
  datatype Attempt = Replied(response: string) | Failed(error: string)

  /** What the caller sees thrown: the last round's error, or the guard after the loop. */
  datatype Failure = Thrown(error: string) | MaxRetriesExceeded

  datatype Outcome = Sent(response: string) | Raised(failure: Failure)

  /**
   * Rounds are numbered from 1. The first reply is returned; a failed round before the
   * last is followed by another one; the last round's error is rethrown; and the
   * "Max retries exceeded" error is reached only when no round is allowed at all.
   */
  method ExecuteWithRetry(send: (string, nat) -> Attempt, command: string, retries: int)
    returns (r: Outcome, made: nat)
    ensures retries < 1 ==> made == 0
    ensures retries >= 1 ==> 1 <= made <= retries
    ensures forall k :: 1 <= k < made ==> send(command, k).Failed?
    ensures r.Sent? ==> send(command, made) == Replied(r.response)
    ensures r.Raised? && retries >= 1 ==>
              r.failure.Thrown? && made == retries && send(command, made) == Failed(r.failure.error)
    ensures r == Raised(MaxRetriesExceeded) <==> retries < 1
  {
    var attempt := 1;
    made := 0;
    while attempt <= retries
      invariant 1 <= attempt && made == attempt - 1
      invariant retries >= 1 ==> attempt <= retries
      invariant retries < 1 ==> attempt == 1
      invariant forall k :: 1 <= k < attempt ==> send(command, k).Failed?
      decreases retries - attempt
    {
      made := attempt;
      match send(command, attempt) {
        case Replied(response) =>
          r := Sent(response);
          return;
        case Failed(error) =>
          if attempt == retries {
            r := Raised(Thrown(error));
            return;
          }
      }
      attempt := attempt + 1;
    }
    r := Raised(MaxRetriesExceeded);
  }
}
