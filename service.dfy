/**
 * `RFIDServiceManager`: the service object whose methods update its fields
 * in place. Every outcome of the outside world (HTTP responses, reader
 * results, the config file, network reachability, the activation flag file)
 * reaches it as a parameter or as the `activationFlag` field.
 */
module Service {
  import opened Common
  import opened Config
  import opened Tags
  import opened Scan
  import opened Retry
  import opened Heartbeat
  import opened Activation

  /** What `run` returns when a start-up check fails. */
  const ExitFailure: int := 1
  /** What `run` returns once the loops it starts have stopped. */
  const ExitSuccess: int := 0

  class ServiceManager {
    var config: Option<Settings>
    var deviceActivated: bool
    /** `rfid_connection is not None`. */
    var connected: bool
    var lastTag: Option<string>
    var heartbeatFailures: nat
    /** `event_queue`, front first. */
    var eventQueue: seq<Queued>
    /** The payload of every POST to the scan endpoint, in the order sent. */
    var outbox: seq<ScanEvent>
    /** Whether the activation flag file exists. */
    var activationFlag: bool
    /** Every `post_rfid_event` call the scan loop has made. */
    ghost var emitted: seq<ScanEvent>

    /**
     * A loaded configuration is one `load_config` accepts, and the scan
     * loop's calls so far form a coherent detected/removed sequence whose
     * replay gives the last tag seen.
     */
    ghost predicate Valid()
      reads this
    {
      (config.Some? ==> Complete(config.value)) &&
      Coherent(None, emitted) && Holder(None, emitted) == lastTag
    }

    /** `not self.config or not self.device_activated` is false. */
    predicate Ready()
      reads this`config, this`deviceActivated
    {
      config.Some? && deviceActivated
    }

    constructor (flagExists: bool)
      ensures Valid()
      ensures config == None && !deviceActivated && !connected && lastTag == None
      ensures heartbeatFailures == 0 && eventQueue == [] && outbox == []
      ensures activationFlag == flagExists && emitted == []
    {
      config := None;
      deviceActivated := false;
      connected := false;
      lastTag := None;
      heartbeatFailures := 0;
      eventQueue := [];
      outbox := [];
      activationFlag := flagExists;
      emitted := [];
    }

    /**
     * `activate_device`: without a configuration nothing is sent. Otherwise
     * up to MaxRetryAttempts POSTs are made, stopping at the first HTTP 200,
     * with a pause after every failed attempt but the last. Success writes
     * the activation flag and marks the device activated.
     */
    method Activate(responses: seq<Outcome>) returns (ok: bool, attempts: nat, pauses: nat)
      requires |responses| == MaxRetryAttempts
      modifies this`deviceActivated, this`activationFlag
      ensures config.None? ==> !ok && attempts == 0 && pauses == 0
      ensures config.Some? ==> ok == (FirstOk(responses) < MaxRetryAttempts)
      ensures config.Some? ==> attempts == AttemptsMade(responses) && 1 <= attempts <= MaxRetryAttempts
      ensures config.Some? ==> pauses == attempts - 1
      ensures ok ==> responses[attempts - 1].IsOk()
      ensures forall i | 0 <= i < attempts - 1 :: !responses[i].IsOk()
      ensures ok ==> deviceActivated && activationFlag
      ensures !ok ==> deviceActivated == old(deviceActivated) && activationFlag == old(activationFlag)
    {
      ok, attempts, pauses := false, 0, 0;
      if config.None? {
        return;
      }
      for attempt := 0 to MaxRetryAttempts
        invariant attempts == attempt
        invariant pauses == if attempt == MaxRetryAttempts then attempt - 1 else attempt
        invariant forall i | 0 <= i < attempt :: !responses[i].IsOk()
        invariant deviceActivated == old(deviceActivated) && activationFlag == old(activationFlag)
      {
        attempts := attempts + 1;
        if responses[attempt].IsOk() {
          activationFlag := true;
          deviceActivated := true;
          ok := true;
          return;
        }
        if attempt < MaxRetryAttempts - 1 {
          pauses := pauses + 1;
        }
      }
    }

    /**
     * `send_heartbeat`: when not ready it fails without touching the
     * counter; otherwise HTTP 200 succeeds and resets the counter, and any
     * other outcome fails and increments it by one.
     */
    method SendHeartbeat(o: Outcome) returns (ok: bool)
      modifies this`heartbeatFailures
      ensures !Ready() ==> !ok && heartbeatFailures == old(heartbeatFailures)
      ensures Ready() ==> ok == o.IsOk()
      ensures Ready() && ok ==> heartbeatFailures == 0
      ensures Ready() && !ok ==> heartbeatFailures == old(heartbeatFailures) + 1
      ensures Beat(ok, heartbeatFailures) == Send(Ready(), old(heartbeatFailures), o)
    {
      if !Ready() {
        return false;
      }
      if o.IsOk() {
        heartbeatFailures := 0;
        return true;
      }
      heartbeatFailures := heartbeatFailures + 1;
      return false;
    }

    /**
     * `post_rfid_event`: when not ready nothing is sent or queued. Otherwise
     * the event is sent, and an answer other than HTTP 200 (or a request
     * exception) queues exactly one `(tag, kind, now)` entry for retry.
     */
    method PostEvent(tag: string, kind: EventKind, now: int, o: Outcome)
      modifies this`eventQueue, this`outbox
      ensures !Ready() ==> eventQueue == old(eventQueue) && outbox == old(outbox)
      ensures Ready() ==> outbox == old(outbox) + [ScanEvent(tag, kind)]
      ensures Ready() && o.IsOk() ==> eventQueue == old(eventQueue)
      ensures Ready() && !o.IsOk() ==> eventQueue == old(eventQueue) + [Queued(tag, kind, now)]
    {
      if !Ready() {
        return;
      }
      outbox := outbox + [ScanEvent(tag, kind)];
      if !o.IsOk() {
        eventQueue := eventQueue + [Queued(tag, kind, now)];
      }
    }

    /**
     * The first loop of `retry_failed_events`: empty the queue, keeping in
     * order the entries younger than RetryWindow at `now`.
     */
    method DrainYoung(now: int) returns (pending: seq<Queued>)
      modifies this`eventQueue
      ensures eventQueue == []
      ensures pending == Fresh(old(eventQueue), now)
    {
      pending := [];
      while eventQueue != []
        invariant pending + Fresh(eventQueue, now) == Fresh(old(eventQueue), now)
        decreases |eventQueue|
      {
        var e := eventQueue[0];
        assert Fresh(eventQueue, now) == (if Young(e, now) then [e] else []) + Fresh(eventQueue[1..], now);
        eventQueue := eventQueue[1..];
        if now - e.stamp < RetryWindow {
          pending := pending + [e];
        }
      }
    }

    /**
     * `retry_failed_events`: the queue is drained first; the entries younger
     * than RetryWindow are then re-posted in queue order (the others are
     * dropped), and each failed re-post is queued again stamped `now`.
     * `outcomes` holds the backend's answer to each re-post in turn.
     */
    method RetryFailedEvents(now: int, outcomes: seq<Outcome>)
      requires |outcomes| == |Fresh(eventQueue, now)|
      modifies this`eventQueue, this`outbox
      ensures Ready() ==> eventQueue == Requeue(Fresh(old(eventQueue), now), outcomes, now)
      ensures Ready() ==> outbox == old(outbox) + EventsOfQueue(Fresh(old(eventQueue), now))
      ensures !Ready() ==> eventQueue == [] && outbox == old(outbox)
    {
      var pending := DrainYoung(now);
      for i := 0 to |pending|
        invariant Ready() ==> eventQueue == Requeue(pending[..i], outcomes[..i], now)
        invariant Ready() ==> outbox == old(outbox) + EventsOfQueue(pending[..i])
        invariant !Ready() ==> eventQueue == [] && outbox == old(outbox)
      {
        PostEvent(pending[i].tag, pending[i].kind, now, outcomes[i]);
        assert pending[..i + 1] == pending[..i] + [pending[i]];
        assert outcomes[..i + 1] == outcomes[..i] + [outcomes[i]];
        RequeueAppend(pending[..i], outcomes[..i], pending[i], outcomes[i], now);
        EventsOfQueueAppend(pending[..i], pending[i]);
      }
      assert pending[..|pending|] == pending && outcomes[..|outcomes|] == outcomes;
    }

    /**
     * One iteration of the scan loop (without its sleeps). If the reader is
     * not connected and cannot be set up, nothing changes. Otherwise the
     * reading drives the edge detector, its event (if any) is posted, a
     * transmit error drops the connection and reloads the configuration,
     * keeping the old one when the reload fails.
     * `setupOk` is what `setup_rfid_reader` yields when it is called, `o`
     * the backend's answer to the post, `reload` the config file as the
     * exception path reads it.
     */
    method ScanStep(setupOk: bool, r: Reading, o: Outcome, now: int, reload: ConfigFile)
      requires Valid()
      modifies this
      ensures Valid()
      ensures !old(connected) && !setupOk ==> unchanged(this)
      ensures old(connected) || setupOk ==>
        lastTag == Step(old(lastTag), r).next &&
        emitted == old(emitted) + EventsOf(Step(old(lastTag), r)) &&
        connected == !r.TransmitError? &&
        deviceActivated == old(deviceActivated) &&
        heartbeatFailures == old(heartbeatFailures) &&
        activationFlag == old(activationFlag)
      ensures old(connected) || setupOk ==>
        config == if r.TransmitError? && Load(reload).Some? then Load(reload) else old(config)
      ensures old(connected) || setupOk ==>
        var t := Step(old(lastTag), r);
        if t.event.None? || !old(Ready()) then
          eventQueue == old(eventQueue) && outbox == old(outbox)
        else
          outbox == old(outbox) + [t.event.value] &&
          eventQueue == old(eventQueue) + (if o.IsOk() then [] else [Queued(t.event.value.tag, t.event.value.kind, now)])
    {
      if !connected {
        connected := setupOk;
        if !connected {
          return;
        }
      }
      ghost var t := Step(lastTag, r);
      CoherentExtend(None, emitted, r);
      match r
      case Reply(data, sw1, sw2) =>
        if sw1 == 0x90 && sw2 == 0x00 && data != [] {
          var tag := TagId(data);
          if Some(tag) != lastTag {
            PostEvent(tag, Detected, now, o);
            lastTag := Some(tag);
          }
        } else if lastTag.Some? {
          PostEvent(lastTag.value, Removed, now, o);
          lastTag := None;
        }
        emitted := emitted + EventsOf(t);
      case TransmitError =>
        if lastTag.Some? {
          PostEvent(lastTag.value, Removed, now, o);
          lastTag := None;
        }
        emitted := emitted + EventsOf(t);
        connected := false;
        var reloaded := Load(reload);
        if reloaded.Some? {
          config := reloaded;
        }
    }

    /**
     * One iteration of `heartbeat_loop` (without its sleep): an activated
     * device sends a heartbeat; a failure that leaves the counter at
     * MaxHeartbeatFailures or above clears the activation and removes the
     * flag file; a success starts a retry pass at `now` answered by
     * `retryOutcomes`.
     */
    method HeartbeatTick(o: Outcome, now: int, retryOutcomes: seq<Outcome>)
      requires |retryOutcomes| == |Fresh(eventQueue, now)|
      modifies this`heartbeatFailures, this`deviceActivated, this`activationFlag, this`eventQueue, this`outbox
      ensures Monitor(deviceActivated, heartbeatFailures) ==
        Tick(Monitor(old(deviceActivated), old(heartbeatFailures)), config.Some?, o)
      ensures activationFlag == (old(activationFlag) && (deviceActivated || !old(deviceActivated)))
      ensures TickRetries(Monitor(old(deviceActivated), old(heartbeatFailures)), config.Some?, o) ==>
        eventQueue == Requeue(Fresh(old(eventQueue), now), retryOutcomes, now) &&
        outbox == old(outbox) + EventsOfQueue(Fresh(old(eventQueue), now))
      ensures !TickRetries(Monitor(old(deviceActivated), old(heartbeatFailures)), config.Some?, o) ==>
        eventQueue == old(eventQueue) && outbox == old(outbox)
    {
      if deviceActivated {
        var ok := SendHeartbeat(o);
        if !ok {
          if heartbeatFailures >= MaxHeartbeatFailures {
            deviceActivated := false;
            activationFlag := false;
          }
        } else {
          RetryFailedEvents(now, retryOutcomes);
        }
      }
    }

    /**
     * The start-up checks of `run`, in order: the network must be reachable,
     * the configuration must load, and the device must already carry the
     * activation flag or activate now. The first failing check ends start-up
     * with ExitFailure and later checks are not made; when all pass, the
     * device is ready and the loops are started (they end with ExitSuccess).
     * `responses` answer the activation attempts.
     */
    method Run(networkUp: bool, file: ConfigFile, responses: seq<Outcome>) returns (code: int, attempts: nat)
      requires Valid()
      requires |responses| == MaxRetryAttempts
      modifies this
      ensures Valid()
      ensures code == ExitSuccess || code == ExitFailure
      ensures code == ExitSuccess <==>
        networkUp && Load(file).Some? && (old(activationFlag) || FirstOk(responses) < MaxRetryAttempts)
      ensures !networkUp ==> config == old(config) && attempts == 0
      ensures networkUp ==> config == Load(file)
      ensures attempts > 0 ==> networkUp && Load(file).Some? && !old(activationFlag)
      ensures networkUp && Load(file).Some? && !old(activationFlag) ==> attempts == AttemptsMade(responses)
      ensures code == ExitSuccess ==> Ready()
      ensures lastTag == old(lastTag) && emitted == old(emitted) && eventQueue == old(eventQueue)
      ensures heartbeatFailures == old(heartbeatFailures) && outbox == old(outbox)
      ensures activationFlag == (old(activationFlag) || code == ExitSuccess)
      ensures connected == old(connected)
      ensures code == ExitFailure ==> deviceActivated == old(deviceActivated)
    {
      attempts := 0;
      if !networkUp {
        return ExitFailure, attempts;
      }
      config := Load(file);
      if config.None? {
        return ExitFailure, attempts;
      }
      if !activationFlag {
        var ok, pauses;
        ok, attempts, pauses := Activate(responses);
        if !ok {
          return ExitFailure, attempts;
        }
      } else {
        deviceActivated := true;
      }
      return ExitSuccess, attempts;
    }
  }
}
