/** A Zephyr delayable work item, reduced to the one thing the drivers rely on:
    its deadline. Rescheduling overwrites any pending deadline (the newest
    reschedule wins), and the work queue clears the slot when the work fires. */
module Timer {

  datatype Deadline = Idle | Pending(at: nat)

  /** `k_work_reschedule(work, K_MSEC(delay))` issued at time `now`. */
  function Reschedule(now: nat, delay: nat): (d: Deadline)
    ensures d.Pending? && d.at >= now
  {
    Pending(now + delay)
  }

  /** The work item may run at `now`: it is pending and its deadline has passed. */
  predicate Due(d: Deadline, now: nat)
  {
    d.Pending? && d.at <= now
  }
}
