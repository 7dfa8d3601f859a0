/**
 * The tag-presence edge detector of the scan loop (`rfid_scan_loop`): a
 * two-state machine on the last tag seen that turns reader results into
 * `detected` and `removed` events.
 */
module Scan {
  import opened Common
  import opened Tags

  /** The result of sending the GET UID APDU to the reader. */
  datatype Reading =
    | Reply(data: seq<byte>, sw1: byte, sw2: byte)  // transmit returned
    | TransmitError                                  // transmit raised

  datatype EventKind = Detected | Removed

  /** The arguments of one `post_rfid_event(tag_id, event_type)` call. */
  datatype ScanEvent = ScanEvent(tag: string, kind: EventKind)

  /** Status words 90 00 with a non-empty UID: a card is on the reader. */
  predicate CardPresent(r: Reading) {
    r.Reply? && r.sw1 == 0x90 && r.sw2 == 0x00 && r.data != []
  }

  /** The last tag seen after a reading, and the event posted for it, if any. */
  datatype Transition = Transition(next: Option<string>, event: Option<ScanEvent>)

  /**
   * One pass of the scan loop once the reader is connected. A card whose tag
   * differs from the last one is reported as detected; a reply without a card,
   * or a transmit error, reports the last tag as removed.
   */
  function Step(last: Option<string>, r: Reading): (t: Transition)
    ensures CardPresent(r) ==> t.next == Some(TagId(r.data))
    ensures !CardPresent(r) ==> t.next == None
    // an event is posted exactly when the last tag seen changes
    ensures t.event.Some? <==> t.next != last
    ensures t.event.Some? && t.event.value.kind == Detected ==> t.next == Some(t.event.value.tag)
    ensures t.event.Some? && t.event.value.kind == Removed ==> last == Some(t.event.value.tag) && t.next == None
  {
    if CardPresent(r) then
      var tag := TagId(r.data);
      if Some(tag) != last then Transition(Some(tag), Some(ScanEvent(tag, Detected)))
      else Transition(last, None)
    else if last.Some? then Transition(None, Some(ScanEvent(last.value, Removed)))
    else Transition(None, None)
  }

  function EventsOf(t: Transition): seq<ScanEvent> {
    if t.event.Some? then [t.event.value] else []
  }

  /** The last tag seen after a sequence of readings. */
  function Final(last: Option<string>, rs: seq<Reading>): (r: Option<string>)
    ensures rs == [] ==> r == last
    // the last reading alone decides the detector's final state
    ensures rs != [] && CardPresent(rs[|rs| - 1]) ==> r == Some(TagId(rs[|rs| - 1].data))
    ensures rs != [] && !CardPresent(rs[|rs| - 1]) ==> r == None
    decreases |rs|
  {
    if rs == [] then last else Final(Step(last, rs[0]).next, rs[1..])
  }

  /** The events posted over a sequence of readings, in order. */
  function Events(last: Option<string>, rs: seq<Reading>): (r: seq<ScanEvent>)
    ensures |r| <= |rs|
    decreases |rs|
  {
    if rs == [] then []
    else var t := Step(last, rs[0]); EventsOf(t) + Events(t.next, rs[1..])
  }

  /** The tag held after a sequence of events: set by detected, cleared by removed. */
  function Holder(held: Option<string>, evs: seq<ScanEvent>): Option<string>
    decreases |evs|
  {
    if evs == [] then held
    else if evs[0].kind == Detected then Holder(Some(evs[0].tag), evs[1..])
    else Holder(None, evs[1..])
  }

  /**
   * An event sequence that the detector can produce from `held`: every
   * detected names a tag other than the one held, and every removed names
   * the tag held, which must be present.
   */
  predicate Coherent(held: Option<string>, evs: seq<ScanEvent>)
    decreases |evs|
  {
    evs == [] ||
    (match evs[0].kind
     case Detected => held != Some(evs[0].tag) && Coherent(Some(evs[0].tag), evs[1..])
     case Removed => held == Some(evs[0].tag) && Coherent(None, evs[1..]))
  }

  /** Every trace of readings produces a coherent event sequence, and replaying it gives the detector's state. */
  lemma {:induction false} TraceCoherent(last: Option<string>, rs: seq<Reading>)
    ensures Coherent(last, Events(last, rs))
    ensures Holder(last, Events(last, rs)) == Final(last, rs)
    decreases |rs|
  {
    if rs != [] {
      var t := Step(last, rs[0]);
      TraceCoherent(t.next, rs[1..]);
      assert Events(last, rs) == EventsOf(t) + Events(t.next, rs[1..]);
      if t.event.Some? {
        var evs := Events(last, rs);
        assert evs[0] == t.event.value && evs[1..] == Events(t.next, rs[1..]);
      } else {
        assert Events(last, rs) == Events(t.next, rs[1..]);
      }
    }
  }

  /** Extending a coherent sequence by the event of one more step keeps it coherent. */
  lemma {:induction false} CoherentExtend(held: Option<string>, evs: seq<ScanEvent>, r: Reading)
    requires Coherent(held, evs)
    ensures Coherent(held, evs + EventsOf(Step(Holder(held, evs), r)))
    ensures Holder(held, evs + EventsOf(Step(Holder(held, evs), r))) == Step(Holder(held, evs), r).next
    decreases |evs|
  {
    var t := Step(Holder(held, evs), r);
    if evs == [] {
      assert evs + EventsOf(t) == EventsOf(t);
      if t.event.Some? {
        assert EventsOf(t)[1..] == [];
      }
    } else {
      var h' := if evs[0].kind == Detected then Some(evs[0].tag) else None;
      CoherentExtend(h', evs[1..], r);
      assert (evs + EventsOf(t))[0] == evs[0];
      assert (evs + EventsOf(t))[1..] == evs[1..] + EventsOf(t);
    }
  }

  /**
   * In a coherent sequence, a removed event is either the first one,
   * naming the tag held at the start, or comes right after the detected
   * event of the same tag.
   */
  lemma {:induction false} RemovedFollowsDetected(held: Option<string>, evs: seq<ScanEvent>, i: nat)
    requires Coherent(held, evs)
    requires i < |evs| && evs[i].kind == Removed
    ensures i == 0 ==> held == Some(evs[0].tag)
    ensures i > 0 ==> evs[i - 1] == ScanEvent(evs[i].tag, Detected)
    decreases i
  {
    if i > 1 {
      var h' := if evs[0].kind == Detected then Some(evs[0].tag) else None;
      RemovedFollowsDetected(h', evs[1..], i - 1);
    } else if i == 1 {
      assert evs[1..][0] == evs[1];
    }
  }

  /**
   * Starting with no tag seen (the service's initial state), two removed
   * events are never consecutive, and each removed event names the tag of
   * the detected event just before it.
   */
  lemma RemovedNamesLastDetected(rs: seq<Reading>, i: nat)
    requires i < |Events(None, rs)| && Events(None, rs)[i].kind == Removed
    ensures i > 0
    ensures Events(None, rs)[i - 1] == ScanEvent(Events(None, rs)[i].tag, Detected)
  {
    TraceCoherent(None, rs);
    RemovedFollowsDetected(None, Events(None, rs), i);
  }
}
