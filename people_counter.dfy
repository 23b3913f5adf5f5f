/** The people counter object: its counters, line position, track store, id
    counter and event log are fields, and `ProcessFrame` updates them in place
    one detection at a time, with an inner first-match scan over the previous
    store. Its contract ties the new state to `Tracking.Advance`. */
module PeopleCounters {

  import opened Options
  import opened Tracks
  import opened DataRecords
  import opened Tracking

  class PeopleCounter {
    var enterCount: nat
    var exitCount: nat
    var linePosition: Ratio
    var trackedObjects: seq<Track>
    var nextId: nat
    var dataRecord: DataRecord

    /** The store's keys are distinct and already handed out, and the log's
        counters move in step with the counter's own. */
    ghost predicate Valid()
      reads this, dataRecord
    {
      && linePosition.den > 0
      && WellFormed(trackedObjects, nextId)
      && dataRecord.Valid()
      && dataRecord.enter == enterCount
      && dataRecord.exit == exitCount
    }

    /** The counter's state as the value the specification functions take. */
    ghost function State(): Tally
      reads this
    {
      Tally(trackedObjects, enterCount, exitCount, nextId, [])
    }

    /** `position` None stands for the default, half the frame width;
        `loaded` is what the log file held (None: missing or unreadable). */
    constructor (position: Option<Ratio>, loaded: Option<seq<Entry>>)
      requires position.Some? ==> position.value.den > 0
      ensures Valid() && fresh(dataRecord)
      ensures enterCount == 0 && exitCount == 0 && nextId == 0 && trackedObjects == []
      ensures linePosition == if position.Some? then position.value else DefaultLinePosition
      ensures dataRecord.data == if loaded.Some? then loaded.value else []
    {
      enterCount := 0;
      exitCount := 0;
      linePosition := if position.Some? then position.value else DefaultLinePosition;
      trackedObjects := [];
      nextId := 0;
      dataRecord := new DataRecord(loaded);
    }

    /** One frame of detections, `width` pixels wide. The new store, counters
        and id counter are those of `Advance` from the old state, each counted
        event is logged in order with time stamp `now`, and the counts are
        returned. */
    method ProcessFrame(detections: seq<Detection>, width: nat, now: Timestamp) returns (enter: nat, exit: nat)
      requires Valid()
      modifies this, dataRecord
      ensures Valid()
      ensures dataRecord == old(dataRecord) && linePosition == old(linePosition)
      ensures var t := Advance(old(State()), detections, LineX(width, linePosition));
        && trackedObjects == t.store
        && enterCount == t.enter
        && exitCount == t.exit
        && nextId == t.nextId
        && dataRecord.data == old(dataRecord.data) + Entries(t.events, now)
      ensures old(enterCount) <= enterCount && old(exitCount) <= exitCount
      ensures enter == enterCount && exit == exitCount
    {
      var lineX := LineX(width, linePosition);
      var newTracked: seq<Track> := [];
      ghost var events: seq<bool> := [];
      ghost var start := Tally([], enterCount, exitCount, nextId, []);
      var i := 0;
      while i < |detections|
        invariant 0 <= i <= |detections|
        invariant trackedObjects == old(trackedObjects) && linePosition == old(linePosition)
        invariant dataRecord == old(dataRecord)
        invariant Frame(trackedObjects, detections[..i], lineX, start)
               == Tally(newTracked, enterCount, exitCount, nextId, events)
        invariant WellFormed(newTracked, nextId) && old(nextId) <= nextId
        invariant old(enterCount) <= enterCount && old(exitCount) <= exitCount
        invariant dataRecord.Valid() && dataRecord.enter == enterCount && dataRecord.exit == exitCount
        invariant dataRecord.data == old(dataRecord.data) + Entries(events, now)
      {
        assert detections[..i + 1][..i] == detections[..i];
        StepInvariant(trackedObjects, lineX, Tally(newTracked, enterCount, exitCount, nextId, events), detections[i]);
        newTracked, events := ProcessDetection(trackedObjects, detections[i], lineX, newTracked, now, events, old(dataRecord.data));
        i := i + 1;
      }
      assert detections[..i] == detections;
      trackedObjects := newTracked;
      enter, exit := enterCount, exitCount;
    }

    /** The body of the frame loop for one detection: filter, centre,
        association, id allocation, store write, crossing test. `prev` is the
        previous frame's store (the object's `trackedObjects`, which the loop
        only reads); `store` is the one being built. */
    method ProcessDetection(prev: seq<Track>, d: Detection, lineX: int, store: seq<Track>, now: Timestamp,
                            ghost events: seq<bool>, ghost base: seq<Entry>)
      returns (store': seq<Track>, ghost events': seq<bool>)
      requires DistinctIds(prev)
      requires dataRecord.Valid() && dataRecord.enter == enterCount && dataRecord.exit == exitCount
      requires dataRecord.data == base + Entries(events, now)
      modifies this`enterCount, this`exitCount, this`nextId, dataRecord
      ensures dataRecord.Valid() && dataRecord.enter == enterCount && dataRecord.exit == exitCount
      ensures dataRecord.data == base + Entries(events', now)
      ensures Tally(store', enterCount, exitCount, nextId, events')
           == Step(prev, lineX, Tally(store, old(enterCount), old(exitCount), old(nextId), events), d)
    {
      store', events' := store, events;
      if d.area > MinArea {
        var cx, cy := CenterX(d), CenterY(d);
        var id := Associate(prev, cx, cy);
        store' := Put(store, Track(id, cx, cy));
        var crossing := CrossingTest(prev, id, cx, lineX);
        events' := CountCrossing(crossing, now, events, base);
        StepPassing(prev, lineX, Tally(store, old(enterCount), old(exitCount), old(nextId), events), d,
                    id, nextId, crossing, Tally([], enterCount, exitCount, 0, events'));
      }
    }

    /** Association: the first close previous track's id, or `next_id`, which
        is then advanced. */
    method Associate(prev: seq<Track>, cx: int, cy: int) returns (id: nat)
      modifies this`nextId
      ensures var m := MatchIdOf(prev, cx, cy);
        && id == (if m.Some? then m.value else old(nextId))
        && nextId == (if m.Some? then old(nextId) else old(nextId) + 1)
    {
      var matchedId := MatchedId(prev, cx, cy);
      if matchedId == None {
        id := nextId;
        nextId := nextId + 1;
      } else {
        id := matchedId.value;
      }
    }

    /** The crossing branch: an entry raises the enter count and logs an
        entry record, an exit the exit count and an exit record; no crossing
        changes nothing. */
    method CountCrossing(crossing: Crossing, now: Timestamp, ghost events: seq<bool>, ghost base: seq<Entry>)
      returns (ghost events': seq<bool>)
      requires dataRecord.Valid() && dataRecord.enter == enterCount && dataRecord.exit == exitCount
      requires dataRecord.data == base + Entries(events, now)
      modifies this`enterCount, this`exitCount, dataRecord
      ensures dataRecord.Valid() && dataRecord.enter == enterCount && dataRecord.exit == exitCount
      ensures dataRecord.data == base + Entries(events', now)
      ensures Counted(Tally([], old(enterCount), old(exitCount), 0, events), crossing)
           == Tally([], enterCount, exitCount, 0, events')
    {
      match crossing
      case Enter => events' := LogEvent(true, now, events, base);
      case Exit => events' := LogEvent(false, now, events, base);
      case NoCrossing => events' := events;
    }

    /** One counted event: the matching counter and the record's counter rise
        together and the record logs it. */
    method LogEvent(enterCheck: bool, now: Timestamp, ghost events: seq<bool>, ghost base: seq<Entry>)
      returns (ghost events': seq<bool>)
      requires dataRecord.Valid() && dataRecord.enter == enterCount && dataRecord.exit == exitCount
      requires dataRecord.data == base + Entries(events, now)
      modifies this`enterCount, this`exitCount, dataRecord
      ensures dataRecord.Valid() && dataRecord.enter == enterCount && dataRecord.exit == exitCount
      ensures dataRecord.data == base + Entries(events', now)
      ensures events' == events + [enterCheck]
      ensures enterCount == (if enterCheck then old(enterCount) + 1 else old(enterCount))
      ensures exitCount == (if enterCheck then old(exitCount) else old(exitCount) + 1)
    {
      if enterCheck {
        enterCount := enterCount + 1;
        dataRecord.IncreaseEnter(now);
      } else {
        exitCount := exitCount + 1;
        dataRecord.IncreaseExit(now);
      }
      Logged(base, events, enterCheck, now);
      events' := events + [enterCheck];
    }

    /** The current pair of counts. */
    method GetCounts() returns (enter: nat, exit: nat)
      ensures enter == enterCount && exit == exitCount
    {
      enter, exit := enterCount, exitCount;
    }
  }

  /** The association scan: the id of the first track of `prev`, in store
      order, strictly within the threshold of (cx, cy) on both axes, or None. */
  method MatchedId(prev: seq<Track>, cx: int, cy: int) returns (matchedId: Option<nat>)
    ensures matchedId.Some? <==> exists k :: 0 <= k < |prev| && Near(prev[k], cx, cy)
    ensures matchedId == MatchIdOf(prev, cx, cy)
  {
    matchedId := None;
    var j := 0;
    while j < |prev|
      invariant 0 <= j <= |prev|
      invariant matchedId == None
      invariant forall q :: 0 <= q < j ==> !Near(prev[q], cx, cy)
    {
      if Abs(prev[j].x - cx) < Threshold && Abs(prev[j].y - cy) < Threshold {
        matchedId := Some(prev[j].id);
        break;
      }
      j := j + 1;
    }
  }

  /** The crossing test against the previous frame's position of `id` (the
      previous store is a dictionary, so its keys are distinct): an id that
      was not stored never crosses; otherwise it is an entry exactly when the
      stored x is right of the line and the new centre left of it, an exit in
      the mirror case. */
  method CrossingTest(prev: seq<Track>, id: nat, cx: int, lineX: int) returns (crossing: Crossing)
    requires DistinctIds(prev)
    ensures id !in Ids(prev) ==> crossing == NoCrossing
    ensures forall k :: 0 <= k < |prev| && prev[k].id == id ==>
      && (crossing == Enter <==> prev[k].x > lineX && cx < lineX)
      && (crossing == Exit <==> prev[k].x < lineX && cx > lineX)
    ensures crossing == CrossingOf(prev, id, cx, lineX)
  {
    crossing := NoCrossing;
    var previous := Lookup(prev, id);
    if previous.Some? {
      crossing := Classify(previous.value.x, cx, lineX);
    }
    forall k | 0 <= k < |prev| && prev[k].id == id
      ensures (crossing == Enter <==> prev[k].x > lineX && cx < lineX)
      ensures (crossing == Exit <==> prev[k].x < lineX && cx > lineX)
    {
      LookupDistinct(prev, k);
    }
  }

  /** Logging one more event extends the log by that event's record. */
  lemma Logged(base: seq<Entry>, events: seq<bool>, e: bool, now: Timestamp)
    ensures base + Entries(events + [e], now) == base + Entries(events, now) + [Entry(e, now)]
  {
    assert (events + [e])[..|events|] == events;
  }
}
