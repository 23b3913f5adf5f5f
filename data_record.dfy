/** The event log behind the people counter: two counters and an append-only
    list of records, one per counted event, each saying whether it was an
    entry and when it was logged. Writing the list back to disk after every
    event is not part of this model; the list is kept in memory. */
module DataRecords {

  import opened Options

  /** An ISO-8601 time stamp, supplied by the caller instead of read from a clock. */
  type Timestamp = string

  /** One log record: "Enter Check" (true for an entry, false for an exit)
      and "Time Stamp". */
  datatype Entry = Entry(enterCheck: bool, timeStamp: Timestamp)

  /** The records logged for a sequence of events (true = entry), all at `now`. */
  function Entries(events: seq<bool>, now: Timestamp): (r: seq<Entry>)
    ensures |r| == |events|
    ensures forall i :: 0 <= i < |events| ==> r[i] == Entry(events[i], now)
  {
    if events == [] then []
    else Entries(events[..|events| - 1], now) + [Entry(events[|events| - 1], now)]
  }

  /** Number of entry records (Enter Check = true) in a log. */
  function Enters(log: seq<Entry>): (n: nat)
    ensures n <= |log|
  {
    if log == [] then 0
    else Enters(log[..|log| - 1]) + (if log[|log| - 1].enterCheck then 1 else 0)
  }

  lemma EntersAppend(log: seq<Entry>, e: Entry)
    ensures Enters(log + [e]) == Enters(log) + (if e.enterCheck then 1 else 0)
  {
    assert (log + [e])[..|log|] == log;
  }

  /** Number of entry events (true) in a sequence of events. */
  function EnterEvents(events: seq<bool>): (n: nat)
    ensures n <= |events|
  {
    if events == [] then 0
    else EnterEvents(events[..|events| - 1]) + (if events[|events| - 1] then 1 else 0)
  }

  /** The log records of a sequence of events hold as many entry records as
      there were entry events. */
  lemma {:induction false} EntersOfEntries(events: seq<bool>, now: Timestamp)
    ensures Enters(Entries(events, now)) == EnterEvents(events)
  {
    if events != [] {
      var n := |events| - 1;
      EntersOfEntries(events[..n], now);
      EntersAppend(Entries(events[..n], now), Entry(events[n], now));
    }
  }

  /** The counters count exactly the records appended after `stored`: the
      entries among them and the exits. */
  ghost predicate Consistent(stored: seq<Entry>, data: seq<Entry>, enter: nat, exit: nat)
  {
    && stored <= data
    && |data| - |stored| == enter + exit
    && Enters(data[|stored|..]) == enter
  }

  /** Appending a record and raising the matching counter keeps the counters
      consistent with the log. */
  lemma Appended(stored: seq<Entry>, data: seq<Entry>, enter: nat, exit: nat, e: Entry)
    requires Consistent(stored, data, enter, exit)
    ensures Consistent(stored, data + [e], if e.enterCheck then enter + 1 else enter,
                                           if e.enterCheck then exit else exit + 1)
  {
    assert (data + [e])[|stored|..] == data[|stored|..] + [e];
    EntersAppend(data[|stored|..], e);
  }

  class DataRecord {
    var enter: nat
    var exit: nat
    var data: seq<Entry>
    /** The records that were already on disk when the record was created. */
    ghost var stored: seq<Entry>

    /** The counters start at zero whatever was loaded, so they count exactly
        the records appended since: the entries among them and the exits. */
    ghost predicate Valid()
      reads this
    {
      Consistent(stored, data, enter, exit)
    }

    /** `loaded` is what the log file held, or None when it was missing or
        could not be decoded, in which case the log starts empty. */
    constructor (loaded: Option<seq<Entry>>)
      ensures Valid()
      ensures enter == 0 && exit == 0
      ensures data == stored == (if loaded.Some? then loaded.value else [])
    {
      var initial := if loaded.Some? then loaded.value else [];
      assert initial[|initial|..] == [];
      enter := 0;
      exit := 0;
      data := initial;
      stored := initial;
    }

    /** Appends exactly one record; the counters do not move. */
    method LogFormatting(enterCheck: bool, now: Timestamp)
      modifies this`data
      ensures data == old(data) + [Entry(enterCheck, now)]
    {
      data := data + [Entry(enterCheck, now)];
    }

    method IncreaseEnter(now: Timestamp)
      requires Valid()
      modifies this
      ensures Valid() && stored == old(stored)
      ensures enter == old(enter) + 1 && exit == old(exit)
      ensures data == old(data) + [Entry(true, now)]
    {
      Appended(stored, data, enter, exit, Entry(true, now));
      enter := enter + 1;
      LogFormatting(true, now);
    }

    method IncreaseExit(now: Timestamp)
      requires Valid()
      modifies this
      ensures Valid() && stored == old(stored)
      ensures exit == old(exit) + 1 && enter == old(enter)
      ensures data == old(data) + [Entry(false, now)]
    {
      Appended(stored, data, enter, exit, Entry(false, now));
      exit := exit + 1;
      LogFormatting(false, now);
    }
  }
}
