/**
 * The rate-limit gate run on every API answer. The sleep itself is a real-time
 * side effect; the model says when a pause is requested and how long it is.
 */
module RateLimit {
  import opened Wrappers

  /** What the gate reports: the remaining call count, and the pause in seconds it sleeps, if any. */
  datatype Gate = Gate(remaining: int, pause: Option<int>)

  /**
   * `remainingHeader` is `X-RateLimit-Remaining` (None when absent, which the
   * gate reads as 1), `resetHeader` is `X-RateLimit-Reset` in epoch seconds and
   * `now` the local clock in whole epoch seconds.
   */
  function CheckRateLimit(remainingHeader: Option<int>, resetHeader: int, now: int): (g: Gate)
    ensures remainingHeader.Some? ==> g.remaining == remainingHeader.value
    ensures remainingHeader.None? ==> g.remaining == 1 && g.pause.None?
    ensures g.pause.Some? <==> g.remaining == 0
    ensures g.pause.Some? ==> now + g.pause.value == resetHeader + 1
  {
    var remaining := if remainingHeader.Some? then remainingHeader.value else 1;
    if remaining == 0 then Gate(remaining, Some(resetHeader - now + 1))
    else Gate(remaining, None)
  }
}
