/** The display application's own log: after every frame it compares the
    counts the counter reports with its record's counters and, separately for
    entries and exits, logs at most one more event when the report is ahead. */
module LogSync {

  import opened Options
  import opened DataRecords
  import opened Tracking
  import opened PeopleCounters

  /** Brings `record` one step toward the reported counts: an entry is logged
      iff `enter` exceeds the logged entries, an exit iff `exit` exceeds the
      logged exits, both possibly in one call, and nothing else changes. */
  method SyncRecord(record: DataRecord, enter: int, exit: int, now: Timestamp)
    requires record.Valid()
    modifies record
    ensures record.Valid() && record.stored == old(record.stored)
    ensures record.enter == if enter > old(record.enter) then old(record.enter) + 1 else old(record.enter)
    ensures record.exit == if exit > old(record.exit) then old(record.exit) + 1 else old(record.exit)
    ensures record.data == old(record.data)
                           + (if enter > old(record.enter) then [Entry(true, now)] else [])
                           + (if exit > old(record.exit) then [Entry(false, now)] else [])
    ensures old(record.enter) <= enter ==> record.enter <= enter
    ensures old(record.exit) <= exit ==> record.exit <= exit
  {
    if enter > record.enter {
      record.IncreaseEnter(now);
    }
    if exit > record.exit {
      record.IncreaseExit(now);
    }
  }

  /** One frame of the display application: the counter processes the frame
      (its new state is `Advance` of the old one) and the application's own
      record is synchronised with the reported counts. The counter's internal
      record is a different object. */
  method UpdateFrame(counter: PeopleCounter, record: DataRecord, detections: seq<Detection>, width: nat, now: Timestamp)
    requires counter.Valid() && record.Valid() && record != counter.dataRecord
    modifies counter, counter.dataRecord, record
    ensures counter.Valid() && record.Valid()
    ensures counter.dataRecord == old(counter.dataRecord) && counter.linePosition == old(counter.linePosition)
    ensures record.stored == old(record.stored)
    ensures var t := Advance(old(counter.State()), detections, LineX(width, counter.linePosition));
      && counter.trackedObjects == t.store
      && counter.enterCount == t.enter
      && counter.exitCount == t.exit
      && counter.nextId == t.nextId
      && counter.dataRecord.data == old(counter.dataRecord.data) + Entries(t.events, now)
    ensures record.enter == if counter.enterCount > old(record.enter) then old(record.enter) + 1 else old(record.enter)
    ensures record.exit == if counter.exitCount > old(record.exit) then old(record.exit) + 1 else old(record.exit)
    ensures record.data == old(record.data)
                           + (if counter.enterCount > old(record.enter) then [Entry(true, now)] else [])
                           + (if counter.exitCount > old(record.exit) then [Entry(false, now)] else [])
    ensures old(record.enter) <= old(counter.enterCount) ==> record.enter <= counter.enterCount
    ensures old(record.exit) <= old(counter.exitCount) ==> record.exit <= counter.exitCount
    ensures record.enter <= old(record.enter) + 1 && record.exit <= old(record.exit) + 1
  {
    var enter, exit := counter.ProcessFrame(detections, width, now);
    SyncRecord(record, enter, exit, now);
  }

  /** The application calls `UpdateFrame` for every captured frame; two
      frames in a row keep both records valid and the log behind the counter. */
  method TwoFrames(counter: PeopleCounter, record: DataRecord, first: seq<Detection>, second: seq<Detection>,
                   width: nat, now: Timestamp)
    requires counter.Valid() && record.Valid() && record != counter.dataRecord
    requires record.enter <= counter.enterCount && record.exit <= counter.exitCount
    modifies counter, counter.dataRecord, record
  {
    UpdateFrame(counter, record, first, width, now);
    UpdateFrame(counter, record, second, width, now);
    assert record.enter <= counter.enterCount && record.exit <= counter.exitCount;
  }

  /** A reported jump of two entries moves the log by one: the log lags. */
  method LagExample()
  {
    var record := new DataRecord(None);
    SyncRecord(record, 2, 0, "t0");
    assert record.enter == 1 && record.exit == 0;
    assert record.data == [Entry(true, "t0")];
  }

  /** The two comparisons are independent: both can log in the same frame,
      the entry first. */
  method BothInOneFrameExample()
  {
    var record := new DataRecord(Some([Entry(false, "earlier")]));
    SyncRecord(record, 1, 1, "t1");
    assert record.enter == 1 && record.exit == 1;
    assert record.data == [Entry(false, "earlier"), Entry(true, "t1"), Entry(false, "t1")];
  }
}
