/** Events of the simulation kernel. */
module Events {
  import opened Wrappers

  /** Notify an event at time `t`: a pending earlier notification stays. */
  function Notify(pending: Option<nat>, t: nat): Option<nat> {
    if pending.Some? && pending.value <= t then pending else Some(t)
  }
}
