# SmartWardrobe RFID service: a Dafny model

This project models the decision logic of the SmartWardrobe RFID service
(`smartwardrobe-rfid.py`, class `RFIDServiceManager`). The service runs on a
Raspberry Pi. It watches a smartcard reader for RFID tags and reports
`detected` / `removed` events to a backend. It keeps the device activated
with heartbeats and re-sends failed events from a queue. Everything the
service learns from the outside world is a parameter of the model:

- HTTP responses (an `Outcome`: a status code, or a request exception);
- the reader's answer to the GET UID APDU (a `Reading`);
- whether the reader could be set up;
- the config file (missing, undecodable, or a decoded JSON value);
- whether the network is reachable;
- whether the activation flag file exists (the field `activationFlag`).

The modules follow the parts of the service:

- `Common`: `Option`, `byte`, `Outcome` (exactly HTTP 200 is success).
- `Config`: `load_config` as a pure function on decoded JSON, with Python truthiness.
- `Tags`: the tag identifier `toHexString(data).replace(' ', '')`, i.e. two upper-case hex digits per UID byte, and its injectivity.
- `Scan`: the tag-presence edge detector as a step function, its traces, and the coherence of the event sequences it produces.
- `Retry`: which queue entries a retry pass re-posts (younger than 300 s), and what it queues again.
- `Heartbeat`: the failure counter and the deactivation threshold (5) as a tick function, with lemmas over runs of ticks.
- `Activation`: the index of the first successful activation response.
- `Service`: the class `ServiceManager`, whose fields are those of `RFIDServiceManager` and whose methods update them in place. Each method is proved against the functions above.

The class invariant `Valid()` says two things. A loaded configuration always
provides the three required fields. The events the scan loop has passed to
`post_rfid_event` (the ghost field `emitted`) form a coherent
detected/removed sequence, and replaying it gives `lastTag`. So on the live
object every `removed` event comes right after the `detected` event of the
same tag.

The WiFi provisioning state machine (switching between access-point and
client mode, retry counters, fallback) is implemented in shell scripts.
Those scripts are not part of this model. This model follows the Python
service code.

Observation: when the heartbeat failure threshold is reached, the source
logs "attempting device reactivation". It then clears `device_activated`
and removes the flag file, but no code path activates the device again. The
model does exactly that. After deactivation, ticks send nothing
(`Heartbeat.DeactivatedIsFinal`). Event posts are refused until the service
restarts.

## Model

| member | source | states |
|---|---|---|
| Config.MissingFields | smartwardrobe-rfid.py:57-58 | a field is reported missing exactly when it is one of the required fields and the decoded object does not map it to a truthy value |
| Config.Load | smartwardrobe-rfid.py:47-65 | a configuration is returned exactly when the file exists, decodes to a JSON object, and that object provides truthy `deviceSerial`, `apiKey` and `backendUrl`; it is then the decoded object itself; every other case gives None |
| Config.LoadedIsTruthy | smartwardrobe-rfid.py:152-153 | an accepted configuration is truthy, so the later `not self.config` tests mean exactly "no configuration loaded" |
| Tags.TagId | smartwardrobe-rfid.py:265 | the tag identifier has two characters per UID byte |
| Tags.TagIdInjective | smartwardrobe-rfid.py:265-266 | distinct UIDs give distinct tag identifiers, so comparing identifiers compares cards |
| Scan.Step | smartwardrobe-rfid.py:263-273 | after a read with status 90 00 and a non-empty UID, the last tag is that card's identifier; after anything else it is None; an event is posted exactly when the last tag changes; a detected event names the new tag; a removed event names the previous tag, which was non-null |
| Scan.Final | smartwardrobe-rfid.py:250-288 | over a trace of readings, the final last tag is decided by the last reading alone: its card's identifier if a card was present, otherwise None; an empty trace keeps the start state |
| Scan.Events | smartwardrobe-rfid.py:250-288 | a trace of readings posts at most one event per reading |
| Scan.TraceCoherent | smartwardrobe-rfid.py:250-288 | over any trace of readings, the posted events form a coherent sequence, and replaying them gives the final last tag |
| Scan.CoherentExtend | smartwardrobe-rfid.py:263-285 | one more scan step keeps a coherent event history coherent and its replay equal to the new last tag |
| Scan.RemovedFollowsDetected | smartwardrobe-rfid.py:263-285 | in a coherent sequence, a removed event is either first and names the tag held at the start, or immediately follows the detected event of the same tag |
| Scan.RemovedNamesLastDetected | smartwardrobe-rfid.py:263-285 | from the initial state (no tag), two removed events are never consecutive, and each removed names the tag of the detected event just before it |
| Retry.Fresh | smartwardrobe-rfid.py:217-221 | the entries a pass keeps are at most the drained ones |
| Retry.FreshMembers | smartwardrobe-rfid.py:219-221 | an entry is re-posted exactly when it was queued and is younger than 300 s at the pass's time; older ones are dropped |
| Retry.FreshAppend | smartwardrobe-rfid.py:217-223 | the filter distributes over concatenation, so re-posts keep queue order |
| Retry.FreshKeepsYoung | smartwardrobe-rfid.py:219-221 | a queue of young entries is re-posted whole |
| Retry.EventsOfQueue | smartwardrobe-rfid.py:223-225 | one re-post per kept entry |
| Retry.EventsOfQueueAppend | smartwardrobe-rfid.py:223-225 | re-posting one more entry appends exactly its event |
| Retry.Requeue | smartwardrobe-rfid.py:223-225 | a pass queues again at most as many entries as it re-posts, each stamped with the pass's time |
| Retry.RequeueMembers | smartwardrobe-rfid.py:200-210 | an entry is queued again exactly when it is the re-stamped copy of a re-post whose answer was not HTTP 200 |
| Retry.RequeueAppend | smartwardrobe-rfid.py:223-225 | re-posting one more entry queues it again exactly when its answer is not HTTP 200 |
| Retry.AllDeliveredLeavesNothing | smartwardrobe-rfid.py:200-201 | when every re-post is answered with HTTP 200, the queue ends empty |
| Retry.RequeuedSurviveNextPass | smartwardrobe-rfid.py:210-220 | entries queued again at time t are all re-posted by any pass that starts less than 300 s after t |
| Heartbeat.Send | smartwardrobe-rfid.py:150-175 | when not ready, it fails and leaves the counter unchanged; otherwise it succeeds exactly on HTTP 200, which resets the counter to 0, and any other outcome adds exactly 1 |
| Heartbeat.Tick | smartwardrobe-rfid.py:300-314 | a tick of a deactivated device changes nothing; a successful heartbeat keeps the device activated with 0 failures; the device is deactivated only after a failed heartbeat that leaves the counter at 5 or more; after any tick, an activated device has fewer than 5 failures |
| Heartbeat.Ticks | smartwardrobe-rfid.py:300-316 | over consecutive ticks the counter grows by at most one per tick |
| Heartbeat.TicksKeepBound | smartwardrobe-rfid.py:301-307 | over any run of ticks from a bounded state, the counter never exceeds 5 and an activated device stays below 5 |
| Heartbeat.DeactivatedIsFinal | smartwardrobe-rfid.py:301 | once deactivated, ticks send no heartbeat and the counter stops changing |
| Heartbeat.UnconfiguredIsIdle | smartwardrobe-rfid.py:152-153 | without a configuration, ticks of a bounded state change nothing |
| Heartbeat.FailingRun | smartwardrobe-rfid.py:296-316 | from an activated device with f < 5 failures, k failed heartbeats leave it activated with f + k failures while f + k < 5, and otherwise deactivated with the counter at exactly 5 |
| Activation.FirstOk | smartwardrobe-rfid.py:130-138 | the index of the first HTTP 200: every earlier response failed, and the one at that index, if any, succeeded |
| Activation.AttemptsMade | smartwardrobe-rfid.py:130-148 | at least one and at most all of the POSTs are made; every attempt before the last one failed, and the last one succeeded unless all attempts were used |
| Service.ServiceManager.constructor | smartwardrobe-rfid.py:38-45 | the initial state: no configuration, not activated, no connection, no last tag, zero failures, empty queue |
| Service.ServiceManager.Activate | smartwardrobe-rfid.py:117-148 | without a configuration nothing is sent. Otherwise at most 5 POSTs are made, stopping at the first HTTP 200, with a pause after each failed attempt except the last. Success sets the flag and the activation; failure changes neither |
| Service.ServiceManager.SendHeartbeat | smartwardrobe-rfid.py:150-175 | when not ready, it returns false and leaves the counter unchanged; otherwise HTTP 200 returns true and resets the counter to 0, and any other outcome returns false and adds exactly 1 |
| Service.ServiceManager.PostEvent | smartwardrobe-rfid.py:177-210 | when not ready, nothing is sent or queued; otherwise the event is sent once, and a non-200 answer or an exception appends exactly one (tag, event, now) entry |
| Service.ServiceManager.DrainYoung | smartwardrobe-rfid.py:214-221 | the queue ends empty, and the result is its entries younger than 300 s, in order |
| Service.ServiceManager.RetryFailedEvents | smartwardrobe-rfid.py:212-225 | the queue is drained; when ready, the young entries are re-sent in order and the failed ones are queued again with the new time; when not ready, the drained entries are lost |
| Service.ServiceManager.ScanStep | smartwardrobe-rfid.py:246-294 | if reader setup fails, nothing changes. Otherwise the last tag and the posted event follow `Scan.Step`, and the event goes through `post_rfid_event`. A transmit error also drops the connection and reloads the configuration, keeping the old one if the reload fails. The coherence invariant is kept |
| Service.ServiceManager.HeartbeatTick | smartwardrobe-rfid.py:296-316 | activation and counter follow `Heartbeat.Tick`; deactivation also removes the flag file; a successful heartbeat runs a retry pass, otherwise queue and sent events are unchanged |
| Service.ServiceManager.Run | smartwardrobe-rfid.py:318-368 | the checks run in order: network, then configuration, then the activation flag or activation. The first failure returns 1 and makes no later check; otherwise the device is ready and the result is 0. The activation flag exists afterwards exactly when it existed before or start-up succeeded; the reader connection is untouched; a failed start-up leaves the activation state unchanged |

## Left out

- HTTP itself. URLs (`backendUrl.rstrip('/')` plus an endpoint path), headers, payload fields (`signalStrength`, `timestamp`, system info) and response bodies are not modelled. A POST's result is an `Outcome` parameter. The `outbox` field records only the tag and event of each scan POST.
- The smartcard library (`readers`, `createConnection`, `connect`, `transmit`). Reader setup is the boolean `setupOk` and a transmit is a `Reading`. `toHexString` is modelled only as two upper-case hex digits per byte, joined with no separator.
- `wait_for_network` and `get_system_info` (socket probes, the `cat` of the MAC address). Network reachability is the boolean `networkUp` given to `Run`.
- Threads, `shutdown_event` and signal handlers. Each loop body is one sequential method call (`ScanStep`, `HeartbeatTick`). The sharing of `event_queue` and `device_activated` between the two threads is not modelled.
- `time.sleep`. Activation counts its pauses (`pauses`); other sleeps are no-ops.
- `time.time()` is a float; the model uses an integer `now`. A retry pass stamps its re-queued entries with the pass's start time `now`, while the source stamps each with the clock at that re-post.
- A retry pass needs one backend answer per young entry (`|outcomes| == |Fresh(eventQueue, now)|`). This states how many requests the environment answers. It is not a demand on the source's callers.
- Logging, the PID file, and `run`'s `KeyboardInterrupt` and generic exception handlers. `Run` returns 0 when all start-up checks pass; the source returns 0 only after the scan loop stops.
- The activation flag file is modelled only as a boolean.
- A configuration whose required fields are truthy but not strings (for example `backendUrl: 1`). The source then raises in `rstrip`. The model builds no URLs, so it does not represent that exception.
- JSON numbers are reals; the source's distinction between int and float does not matter for truthiness.
