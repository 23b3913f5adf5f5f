/** Concrete runs of the frame step: single crossings in each direction, a
    detection below the area threshold, a position on the line, two
    detections claiming the same previous track, and a track that oscillates
    across the line (every transition counts: there is no cooldown). */
module Scenarios {

  import opened Options
  import opened Tracks
  import opened Tracking
  import opened DataRecords
  import opened PeopleCounters

  const Line: int := 100

  /** A 20 x 20 box centred on (cx, cy), large enough to pass the filter. */
  function Blob(cx: int, cy: int): Detection
  {
    Detection(2000.0, cx - 10, cy - 10, 20, 20)
  }

  const Initial: Tally := Tally([], 0, 0, 0, [])

  /** A track first seen right of the line and then left of it is one entry. */
  lemma EnterScenario()
    ensures Run(Initial, [[Blob(120, 100)], [Blob(80, 100)]], Line)
         == Tally([Track(0, 80, 100)], 1, 0, 1, [true])
  {
    var s1 := Advance(Initial, [Blob(120, 100)], Line);
    assert s1 == Tally([Track(0, 120, 100)], 0, 0, 1, []);
    assert [[Blob(120, 100)], [Blob(80, 100)]][..1] == [[Blob(120, 100)]];
    assert Run(Initial, [[Blob(120, 100)]], Line) == s1 by {
      assert [[Blob(120, 100)]][..0] == [];
    }
  }

  /** Left of the line, then right of it: one exit. */
  lemma ExitScenario()
    ensures Run(Initial, [[Blob(80, 100)], [Blob(120, 100)]], Line)
         == Tally([Track(0, 120, 100)], 0, 1, 1, [false])
  {
    var s1 := Advance(Initial, [Blob(80, 100)], Line);
    assert s1 == Tally([Track(0, 80, 100)], 0, 0, 1, []);
    assert [[Blob(80, 100)], [Blob(120, 100)]][..1] == [[Blob(80, 100)]];
    assert Run(Initial, [[Blob(80, 100)]], Line) == s1 by {
      assert [[Blob(80, 100)]][..0] == [];
    }
  }

  /** A contour of area 500 creates no track and can count nothing. */
  lemma SmallAreaScenario()
    ensures Advance(Initial, [Detection(500.0, 110, 90, 20, 20)], Line) == Initial
  {
  }

  /** Landing exactly on the line is not a crossing. */
  lemma OnLineScenario()
    ensures Advance(Tally([Track(0, 120, 100)], 0, 0, 1, []), [Blob(100, 100)], Line)
         == Tally([Track(0, 100, 100)], 0, 0, 1, [])
  {
  }

  /** Both detections match track 0 (crossings compare against the previous
      store, which the frame never writes), so both count an entry, and the
      later position overwrites the earlier under the same id. */
  lemma SharedMatchScenario()
    ensures Advance(Tally([Track(0, 120, 100)], 0, 0, 1, []), [Blob(80, 100), Blob(85, 100)], Line)
         == Tally([Track(0, 85, 100)], 2, 0, 1, [true, true])
  {
    var prev := [Track(0, 120, 100)];
    var start := Tally([], 0, 0, 1, []);
    assert [Blob(80, 100), Blob(85, 100)][..1] == [Blob(80, 100)];
    assert Frame(prev, [Blob(80, 100)], Line, start) == Tally([Track(0, 80, 100)], 1, 0, 1, [true]) by {
      assert [Blob(80, 100)][..0] == [];
    }
  }

  /** An unmatched detection beside a matched one takes the next id and is
      appended after it in the store; the previous track 0 carries over only
      because a detection matched it. */
  lemma SpawnScenario()
    ensures Advance(Tally([Track(0, 120, 100), Track(3, 400, 400)], 0, 0, 4, []), [Blob(125, 100), Blob(10, 10)], Line)
         == Tally([Track(0, 125, 100), Track(4, 10, 10)], 0, 0, 5, [])
  {
    var prev := [Track(0, 120, 100), Track(3, 400, 400)];
    assert [Blob(125, 100), Blob(10, 10)][..1] == [Blob(125, 100)];
    SpawnScenarioFirst(prev);
    assert FirstMatch(prev, 10, 10) == None;
    assert Lookup(prev, 4) == None;
    assert Put([Track(0, 125, 100)], Track(4, 10, 10)) == [Track(0, 125, 100), Track(4, 10, 10)];
  }

  lemma SpawnScenarioFirst(prev: seq<Track>)
    requires prev == [Track(0, 120, 100), Track(3, 400, 400)]
    ensures Frame(prev, [Blob(125, 100)], Line, Tally([], 0, 0, 4, [])) == Tally([Track(0, 125, 100)], 0, 0, 4, [])
  {
    assert FirstMatch(prev, 125, 100) == Some(0);
    assert [Blob(125, 100)][..0] == [];
  }

  /** 120, 80, 120, 80 on consecutive frames: three transitions, three events
      (entry, exit, entry). Nothing suppresses the repeated crossings. */
  lemma OscillationScenario()
    ensures Run(Initial, [[Blob(120, 100)], [Blob(80, 100)], [Blob(120, 100)], [Blob(80, 100)]], Line)
         == Tally([Track(0, 80, 100)], 2, 1, 1, [true, false, true])
  {
    var frames := [[Blob(120, 100)], [Blob(80, 100)], [Blob(120, 100)], [Blob(80, 100)]];
    EnterScenario();
    assert frames[..2] == [[Blob(120, 100)], [Blob(80, 100)]];
    assert frames[..3][..2] == frames[..2];
    var s2 := Tally([Track(0, 80, 100)], 1, 0, 1, [true]);
    var s3 := Advance(s2, [Blob(120, 100)], Line);
    assert s3 == Tally([Track(0, 120, 100)], 1, 1, 1, [true, false]);
    assert Run(Initial, frames[..3], Line) == s3;
    assert Advance(s3, [Blob(80, 100)], Line) == Tally([Track(0, 80, 100)], 2, 1, 1, [true, false, true]);
  }

  /** The same entry through the counter object: a 200-pixel frame with the
      default line position puts the line at column 100; the entry is counted,
      logged once, and reported by GetCounts. */
  method CounterClient()
  {
    var counter := new PeopleCounter(None, None);
    assert LineX(200, DefaultLinePosition) == Line;
    var enter, exit := counter.ProcessFrame([Blob(120, 100)], 200, "t0");
    assert [[Blob(120, 100)]][..0] == [];
    enter, exit := counter.ProcessFrame([Blob(80, 100)], 200, "t1");
    EnterScenario();
    assert [[Blob(120, 100)], [Blob(80, 100)]][..1] == [[Blob(120, 100)]];
    assert enter == 1 && exit == 0;
    assert counter.dataRecord.data == [Entry(true, "t1")];
    var e, x := counter.GetCounts();
    assert e == enter && x == exit;
  }
}
