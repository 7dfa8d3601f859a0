/**
 * The failed-event retry queue (`post_rfid_event`, `retry_failed_events`):
 * which queued entries a retry pass re-posts and what it queues again.
 */
module Retry {
  import opened Common
  import opened Scan

  /** Entries at least this many seconds old are dropped by a retry pass. */
  const RetryWindow: int := 300

  /** A queue entry `(tag_id, event_type, timestamp)`. */
  datatype Queued = Queued(tag: string, kind: EventKind, stamp: int)

  predicate Young(e: Queued, now: int) {
    now - e.stamp < RetryWindow
  }

  /** The entries of a drained queue that a pass at time `now` re-posts, in queue order. */
  function Fresh(q: seq<Queued>, now: int): (r: seq<Queued>)
    ensures |r| <= |q|
  {
    if q == [] then []
    else (if Young(q[0], now) then [q[0]] else []) + Fresh(q[1..], now)
  }

  /** A pass re-posts exactly the young entries of the drained queue: stale ones are dropped. */
  lemma {:induction false} FreshMembers(q: seq<Queued>, now: int, e: Queued)
    ensures e in Fresh(q, now) <==> e in q && Young(e, now)
  {
    if q != [] {
      FreshMembers(q[1..], now, e);
      assert q == [q[0]] + q[1..];
    }
  }

  /** Filtering distributes over concatenation, so the pass keeps queue order. */
  lemma {:induction false} FreshAppend(a: seq<Queued>, b: seq<Queued>, now: int)
    ensures Fresh(a + b, now) == Fresh(a, now) + Fresh(b, now)
  {
    if a != [] {
      FreshAppend(a[1..], b, now);
      assert (a + b)[0] == a[0] && (a + b)[1..] == a[1..] + b;
    } else {
      assert a + b == b;
    }
  }

  /** A queue whose entries are all young is re-posted whole. */
  lemma {:induction false} FreshKeepsYoung(q: seq<Queued>, now: int)
    requires forall i | 0 <= i < |q| :: Young(q[i], now)
    ensures Fresh(q, now) == q
  {
    if q != [] {
      FreshKeepsYoung(q[1..], now);
    }
  }

  /** The scan event a queue entry stands for. */
  function EventOf(e: Queued): ScanEvent {
    ScanEvent(e.tag, e.kind)
  }

  /** The scan events of a list of entries, in order. */
  function EventsOfQueue(es: seq<Queued>): (r: seq<ScanEvent>)
    ensures |r| == |es|
  {
    if es == [] then [] else [EventOf(es[0])] + EventsOfQueue(es[1..])
  }

  lemma {:induction false} EventsOfQueueAppend(es: seq<Queued>, e: Queued)
    ensures EventsOfQueue(es + [e]) == EventsOfQueue(es) + [EventOf(e)]
  {
    if es != [] {
      EventsOfQueueAppend(es[1..], e);
      assert (es + [e])[1..] == es[1..] + [e];
    } else {
      assert es + [e] == [e];
    }
  }

  /**
   * What a retry pass at time `now` queues again: the re-posted entries whose
   * response was not HTTP 200, in order, each with the new timestamp `now`.
   */
  function Requeue(es: seq<Queued>, outcomes: seq<Outcome>, now: int): (r: seq<Queued>)
    requires |outcomes| == |es|
    ensures |r| <= |es|
    ensures forall i | 0 <= i < |r| :: r[i].stamp == now
  {
    if es == [] then []
    else
      (if outcomes[0].IsOk() then [] else [Queued(es[0].tag, es[0].kind, now)]) +
      Requeue(es[1..], outcomes[1..], now)
  }

  /**
   * An entry is queued again exactly when it is the re-stamped copy of a
   * re-posted entry whose answer was not HTTP 200.
   */
  lemma {:induction false} RequeueMembers(es: seq<Queued>, outcomes: seq<Outcome>, now: int, e: Queued)
    requires |outcomes| == |es|
    ensures e in Requeue(es, outcomes, now) <==>
      exists i :: 0 <= i < |es| && !outcomes[i].IsOk() && e == Queued(es[i].tag, es[i].kind, now)
  {
    if es != [] {
      RequeueMembers(es[1..], outcomes[1..], now, e);
      var tail := Requeue(es[1..], outcomes[1..], now);
      if e in tail {
        var j :| 0 <= j < |es| - 1 && !outcomes[1..][j].IsOk() && e == Queued(es[1..][j].tag, es[1..][j].kind, now);
        assert !outcomes[j + 1].IsOk() && e == Queued(es[j + 1].tag, es[j + 1].kind, now);
      }
      if exists i :: 0 <= i < |es| && !outcomes[i].IsOk() && e == Queued(es[i].tag, es[i].kind, now) {
        var i :| 0 <= i < |es| && !outcomes[i].IsOk() && e == Queued(es[i].tag, es[i].kind, now);
        if i > 0 {
          assert !outcomes[1..][i - 1].IsOk() && e == Queued(es[1..][i - 1].tag, es[1..][i - 1].kind, now);
        }
      }
    }
  }

  /** Requeueing the outcomes of a longer list one response at a time. */
  lemma {:induction false} RequeueAppend(es: seq<Queued>, os: seq<Outcome>, e: Queued, o: Outcome, now: int)
    requires |os| == |es|
    ensures Requeue(es + [e], os + [o], now) ==
      Requeue(es, os, now) + (if o.IsOk() then [] else [Queued(e.tag, e.kind, now)])
  {
    if es != [] {
      RequeueAppend(es[1..], os[1..], e, o, now);
      assert (es + [e])[1..] == es[1..] + [e];
      assert (os + [o])[1..] == os[1..] + [o];
    } else {
      assert es + [e] == [e] && os + [o] == [o];
    }
  }

  /** When every re-post is answered with HTTP 200, nothing is queued again. */
  lemma {:induction false} AllDeliveredLeavesNothing(es: seq<Queued>, os: seq<Outcome>, now: int)
    requires |os| == |es|
    requires forall i | 0 <= i < |os| :: os[i].IsOk()
    ensures Requeue(es, os, now) == []
  {
    if es != [] {
      AllDeliveredLeavesNothing(es[1..], os[1..], now);
    }
  }

  /**
   * An entry queued again by a pass at `now` is re-posted by every later
   * pass that starts less than 300 s afterwards.
   */
  lemma RequeuedSurviveNextPass(es: seq<Queued>, os: seq<Outcome>, now: int, later: int)
    requires |os| == |es|
    requires later - now < RetryWindow
    ensures Fresh(Requeue(es, os, now), later) == Requeue(es, os, now)
  {
    FreshKeepsYoung(Requeue(es, os, now), later);
  }
}
