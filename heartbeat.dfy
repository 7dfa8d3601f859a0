/**
 * Heartbeat failure accounting (`send_heartbeat`, `heartbeat_loop`): a
 * counter that a 200 response resets and any other outcome increments, and
 * the activation flag that reaching the threshold clears.
 */
module Heartbeat {
  import opened Common

  /** `max_heartbeat_failures`. */
  const MaxHeartbeatFailures: nat := 5

  /** What `send_heartbeat` returns, and the failure counter after it. */
  datatype Beat = Beat(ok: bool, failures: nat)

  /**
   * `send_heartbeat` when a configuration is loaded and the device is
   * activated exactly when `ready` holds.
   */
  function Send(ready: bool, failures: nat, o: Outcome): (b: Beat)
    ensures !ready ==> !b.ok && b.failures == failures
    ensures ready ==> b.ok == o.IsOk()
    ensures ready && b.ok ==> b.failures == 0
    ensures ready && !b.ok ==> b.failures == failures + 1
  {
    if !ready then Beat(false, failures)
    else if o.IsOk() then Beat(true, 0)
    else Beat(false, failures + 1)
  }

  /** The part of the service's state that a heartbeat tick reads and writes. */
  datatype Monitor = Monitor(activated: bool, failures: nat)

  /** Activated devices are below the failure threshold. */
  predicate Bounded(m: Monitor) {
    m.failures <= MaxHeartbeatFailures && (m.activated ==> m.failures < MaxHeartbeatFailures)
  }

  /**
   * One iteration of `heartbeat_loop` (without its sleep): an activated
   * device sends a heartbeat, and a failure that leaves the counter at the
   * threshold or above clears the activation.
   */
  function Tick(m: Monitor, configured: bool, o: Outcome): (r: Monitor)
    ensures !m.activated ==> r == m
    ensures r.activated ==> r.failures < MaxHeartbeatFailures
    // a successful heartbeat keeps the device activated and clears the counter
    ensures m.activated && configured && o.IsOk() ==> r == Monitor(true, 0)
    // only a failed heartbeat that leaves the counter at the threshold deactivates
    ensures m.activated && !r.activated ==> !(configured && o.IsOk()) && r.failures >= MaxHeartbeatFailures
  {
    if !m.activated then m
    else
      var b := Send(configured, m.failures, o);
      if !b.ok && b.failures >= MaxHeartbeatFailures then Monitor(false, b.failures)
      else Monitor(true, b.failures)
  }

  /** Whether the tick's heartbeat succeeded, which starts a retry pass. */
  predicate TickRetries(m: Monitor, configured: bool, o: Outcome) {
    m.activated && Send(configured, m.failures, o).ok
  }

  /** Consecutive ticks, one heartbeat outcome each. */
  function Ticks(m: Monitor, configured: bool, os: seq<Outcome>): (r: Monitor)
    ensures r.failures <= m.failures + |os|
    decreases |os|
  {
    if os == [] then m else Ticks(Tick(m, configured, os[0]), configured, os[1..])
  }

  /** Every tick keeps the bound, so over any run the counter never exceeds the threshold. */
  lemma {:induction false} TicksKeepBound(m: Monitor, configured: bool, os: seq<Outcome>)
    requires Bounded(m)
    ensures Bounded(Ticks(m, configured, os))
    decreases |os|
  {
    if os != [] {
      TicksKeepBound(Tick(m, configured, os[0]), configured, os[1..]);
    }
  }

  /** Once deactivated, ticks send nothing and the counter stops changing. */
  lemma {:induction false} DeactivatedIsFinal(m: Monitor, configured: bool, os: seq<Outcome>)
    requires !m.activated
    ensures Ticks(m, configured, os) == m
    decreases |os|
  {
    if os != [] {
      DeactivatedIsFinal(m, configured, os[1..]);
    }
  }

  /** Without a configuration an activated device's ticks change nothing. */
  lemma {:induction false} UnconfiguredIsIdle(m: Monitor, os: seq<Outcome>)
    requires Bounded(m)
    ensures Ticks(m, false, os) == m
    decreases |os|
  {
    if os != [] {
      UnconfiguredIsIdle(m, os[1..]);
    }
  }

  /**
   * From an activated device with `f` failures, `k` consecutive failed
   * heartbeats leave it activated with `f + k` failures while that stays
   * below the threshold, and otherwise deactivated with the counter stopped
   * at exactly the threshold.
   */
  lemma {:induction false} FailingRun(m: Monitor, os: seq<Outcome>)
    requires m.activated && m.failures < MaxHeartbeatFailures
    requires forall i | 0 <= i < |os| :: !os[i].IsOk()
    ensures Ticks(m, true, os) ==
      if m.failures + |os| < MaxHeartbeatFailures then Monitor(true, m.failures + |os|)
      else Monitor(false, MaxHeartbeatFailures)
    decreases |os|
  {
    if os != [] {
      var m' := Tick(m, true, os[0]);
      if m'.activated {
        FailingRun(m', os[1..]);
      } else {
        DeactivatedIsFinal(m', true, os[1..]);
      }
    }
  }
}
