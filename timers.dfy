/**
 * A carousel's `timer` field together with the intervals it has scheduled. `setInterval`
 * handles are positive integers handed out in increasing order; `clearInterval`
 * cancels one; `stopCarousel` never writes `null` back into the field.
 */
module Timers {
  import opened Wrappers

  /**
   * `handle` is the value of the `timer` field (`None` before the first `setInterval`),
   * `live` the handles whose interval still fires, `next` the handle `setInterval` hands out next.
   */
  datatype Clock = Clock(handle: Option<nat>, live: set<nat>, next: nat)

  /** `this.timer = null` in the constructor (`var timer;` in the jQuery closure). */
  const Unset := Clock(None, {}, 1)

  /** Only the interval in the field can still be live. */
  predicate Valid(c: Clock) {
    && c.next >= 1
    && (c.handle.None? ==> c.live == {})
    && (c.handle.Some? ==> 1 <= c.handle.value < c.next && c.live <= {c.handle.value})
  }

  /** Some interval still fires `fadeToNext`. */
  predicate Running(c: Clock) {
    c.live != {}
  }

  /** `stopCarousel`: `if (this.timer) clearInterval(this.timer)`; the field keeps its handle. */
  function Stop(c: Clock): (r: Clock)
    ensures r.handle == c.handle && r.next == c.next && r.live <= c.live
    ensures Valid(c) ==> Valid(r) && !Running(r)
    ensures c.handle.None? ==> r == c
  {
    if c.handle.Some? then c.(live := c.live - {c.handle.value}) else c
  }

  /** `startCarousel`: stop, then `this.timer = setInterval(...)`. */
  function Start(c: Clock): (r: Clock)
    ensures Valid(c) ==> Valid(r) && r.live == {c.next} && r.handle == Some(c.next)
    ensures r.next == c.next + 1 && Running(r)
  {
    var s := Stop(c);
    Clock(Some(s.next), s.live + {s.next}, s.next + 1)
  }

  /** However the clock was driven, at most one interval is live. */
  lemma {:induction false} AtMostOneLive(c: Clock)
    requires Valid(c)
    ensures |c.live| <= 1
  {
    if c.handle.Some? {
      var h := c.handle.value;
      if c.live != {} {
        assert c.live == {h};
      }
    }
  }

  /** A start clears the interval of the previous start: starting twice leaves one interval, the newer. */
  lemma StartReplaces(c: Clock)
    requires Valid(c)
    ensures Start(Start(c)).live == {c.next + 1}
    ensures c.next !in Start(Start(c)).live
  {
  }

  /** Stopping again changes nothing. */
  lemma StopIdempotent(c: Clock)
    ensures Stop(Stop(c)) == Stop(c)
  {
  }

  /** After a start and a stop the field still holds a handle, yet nothing is live. */
  lemma HandleOutlivesInterval()
    ensures Stop(Start(Unset)).handle == Some(1)
    ensures !Running(Stop(Start(Unset)))
  {
  }
}
