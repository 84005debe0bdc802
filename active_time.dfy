/**
 * The active-time clock (dd.py): `active_timer_start` and
 * `total_active_time`, updated on each status transition, and the elapsed
 * active time that `get_timer_text` reads. Timestamps are the reals that
 * `time.time()` would have returned; the model receives them as `now`.
 */
module ActiveTime {
  import opened Debounce

  /** `active_timer_start` and `total_active_time`. */
  datatype Clock = Clock(start: real, total: real)

  /** Seconds spent ACTIVE so far: the total, plus the open segment while ACTIVE. */
  function Elapsed(c: Clock, status: Status, now: real): (e: real)
    ensures status != Active ==> e == c.total
    ensures status == Active && c.start <= now ==> e >= c.total
  {
    c.total + (if status == Active then now - c.start else 0.0)
  }

  /**
   * The clock update of a transition from `from` to `to` at `now`: leaving
   * ACTIVE banks the open segment, entering ACTIVE opens a new one.
   */
  function Settle(c: Clock, from: Status, to: Status, now: real): (r: Clock)
    ensures Elapsed(r, to, now) == Elapsed(c, from, now)
    ensures to == Active ==> r.start == now
    ensures to != Active ==> r.start == c.start
    ensures from != Active ==> r.total == c.total
    ensures from == Active && c.start <= now ==> r.total >= c.total
  {
    var total := if from == Active then c.total + (now - c.start) else c.total;
    var start := if to == Active then now else c.start;
    Clock(start, total)
  }

  /**
   * Away from ACTIVE the elapsed time is frozen; in ACTIVE it grows one for
   * one with the clock.
   */
  lemma ElapsedRate(c: Clock, status: Status, t1: real, t2: real)
    ensures status == Active ==> Elapsed(c, status, t2) - Elapsed(c, status, t1) == t2 - t1
    ensures status != Active ==> Elapsed(c, status, t2) == Elapsed(c, status, t1)
  {
  }
}
